/** Laws of side-condition code, for the rules and for the values that the evaluator returns for the parts. */
module LfscLaws {
  import opened Basics
  import opened LfscSyntax
  import opened LfscScope
  import opened LfscEval
  import opened LfscRun
  import opened LfscMeaning

  /** There is an outcome. */
  lemma GivesSome(sig: Signature, e: Code, env: Env, m: Marks, fuel: nat) returns (out: Outcome, m': Marks)
    ensures Gives(sig, e, env, m, fuel, out, m')
  {
    GivesIsEval(sig, e, env, m, fuel);
    var r := Eval(sig, e, env, m, fuel);
    out, m' := r.out, r.marks;
  }

  /** There is only one. */
  lemma GivesOnce(sig: Signature, e: Code, env: Env, m: Marks, fuel: nat, o: Outcome, m1: Marks, o': Outcome,
                  m1': Marks)
    requires Gives(sig, e, env, m, fuel, o, m1) && Gives(sig, e, env, m, fuel, o', m1')
    ensures o == o' && m1 == m1'
  {
    GivesIsEval(sig, e, env, m, fuel);
  }

  /** Code goes on from the outcome of the part that is run first. */
  lemma StartsWith(sig: Signature, e: Code, env: Env, m: Marks, fuel: nat, o: Outcome, m1: Marks)
    requires HasFirst(e) && Gives(sig, Kids(e)[0], env, m, fuel, o, m1)
    ensures o.Done? ==>
              forall out, m' :: Gives(sig, e, env, m, fuel, out, m') <==> Goes(sig, e, o.v, env, m1, fuel, out, m')
    ensures !o.Done? ==> forall out, m' :: Gives(sig, e, env, m, fuel, out, m') <==> out == o && m' == m1
  {
    var a := Kids(e)[0];
    forall out, m' | Gives(sig, e, env, m, fuel, out, m')
      ensures if o.Done? then Goes(sig, e, o.v, env, m1, fuel, out, m') else out == o && m' == m1
    {
      assert Started(sig, e, env, m, fuel, out, m');
      var o', m1' :| Gives(sig, a, env, m, fuel, o', m1') &&
        if o'.Done? then Goes(sig, e, o'.v, env, m1', fuel, out, m') else out == o' && m' == m1';
      GivesOnce(sig, a, env, m, fuel, o, m1, o', m1');
    }
    forall out, m' | if o.Done? then Goes(sig, e, o.v, env, m1, fuel, out, m') else out == o && m' == m1
      ensures Gives(sig, e, env, m, fuel, out, m')
    {
      assert Started(sig, e, env, m, fuel, out, m');
    }
  }

  // ---------- numbers ----------

  /** A number plus its negation is zero. */
  lemma PlusNegation(sig: Signature, e: Code, env: Env, m: Marks, fuel: nat, v: Value)
    requires Gives(sig, e, env, m, fuel, Done(v), m) && (v.VInt? || v.VRat?)
    ensures Gives(sig, Arith(ADD, e, Neg(e)), env, m, fuel, Done(if v.VInt? then VInt(0) else VRat(0.0)), m)
  {
    var neg, sum := Neg(e), Arith(ADD, e, Neg(e));
    var w := if v.VInt? then VInt(-v.n) else VRat(-v.q);
    assert Kids(neg)[0] == e && Kids(sum)[0] == e;
    StartsWith(sig, neg, env, m, fuel, Done(v), m);
    assert Gives(sig, neg, env, m, fuel, Done(w), m);
    StartsWith(sig, sum, env, m, fuel, Done(v), m);
    var zero := Done(if v.VInt? then VInt(0) else VRat(0.0));
    assert Computes(ADD, v, w, zero);
    assert Goes(sig, sum, v, env, m, fuel, zero, m);
  }

  /** A conditional on a number is its first branch exactly for a negative, or for a zero, condition. */
  lemma SignBranch(sig: Signature, test: SignTest, c: Code, a: Code, b: Code, env: Env, m: Marks, fuel: nat,
                   v: Value, m1: Marks)
    requires Gives(sig, c, env, m, fuel, Done(v), m1) && (v.VInt? || v.VRat?)
    ensures var x := if v.VInt? then v.n as real else v.q;
            var taken := if test == IFNEG then x < 0.0 else x == 0.0;
            forall out, m' :: Gives(sig, IfSign(test, c, a, b), env, m, fuel, out, m') <==>
                              Gives(sig, if taken then a else b, env, m1, fuel, out, m')
  {
    var e := IfSign(test, c, a, b);
    assert Kids(e)[0] == c;
    StartsWith(sig, e, env, m, fuel, Done(v), m1);
  }

  // ---------- marks ----------

  /** A symbol that stands for a symbol. */
  ghost predicate StandsFor(x: Symbol, env: Env, s: Symbol) {
    if x in env then env[x] == VSym(s) else x == s
  }

  lemma SymbolGives(sig: Signature, x: Symbol, s: Symbol, env: Env, m: Marks, fuel: nat)
    requires StandsFor(x, env, s)
    ensures Gives(sig, Sym(x), env, m, fuel, Done(VSym(s)), m)
  {
  }

  /** markvar flips one mark and returns the symbol. */
  lemma MarkFlips(sig: Signature, i: nat, x: Symbol, s: Symbol, env: Env, m: Marks, fuel: nat, out: Outcome, m': Marks)
    requires StandsFor(x, env, s)
    ensures Gives(sig, MarkVar(i, Sym(x)), env, m, fuel, out, m') <==> out == Done(VSym(s)) && Flipped(m, m', s, i)
  {
    var e := MarkVar(i, Sym(x));
    assert Kids(e)[0] == Sym(x);
    SymbolGives(sig, x, s, env, m, fuel);
    StartsWith(sig, e, env, m, fuel, Done(VSym(s)), m);
  }

  /** markvar twice changes nothing. */
  lemma MarkTwice(sig: Signature, i: nat, x: Symbol, s: Symbol, env: Env, m: Marks, fuel: nat, out: Outcome, m': Marks)
    requires StandsFor(x, env, s)
    ensures Gives(sig, Do(MarkVar(i, Sym(x)), MarkVar(i, Sym(x))), env, m, fuel, out, m') <==>
            out == Done(VSym(s)) && m' == m
  {
    var mark := MarkVar(i, Sym(x));
    var e := Do(mark, mark);
    assert Kids(e)[0] == mark;
    var m1 := Other(m, s, i);
    MarkFlips(sig, i, x, s, env, m, fuel, Done(VSym(s)), m1);
    StartsWith(sig, e, env, m, fuel, Done(VSym(s)), m1);
    MarkFlips(sig, i, x, s, env, m1, fuel, out, m');
    FlippedBack(m, m1, m', s, i);
  }

  /** The marks with mark i of the symbol changed. */
  ghost function Other(m: Marks, s: Symbol, i: nat): (m': Marks)
    ensures Flipped(m, m', s, i)
  {
    if (s, i) in m then m - {(s, i)} else m + {(s, i)}
  }

  lemma FlippedBack(m: Marks, m1: Marks, m': Marks, s: Symbol, i: nat)
    requires Flipped(m, m1, s, i)
    ensures Flipped(m1, m', s, i) <==> m' == m
  {
    if Flipped(m1, m', s, i) {
      forall p ensures p in m' <==> p in m {
        assert p != (s, i) ==> (p in m' <==> p in m1) && (p in m1 <==> p in m);
      }
    }
  }

  /** ifmarked is its first branch exactly if the mark is set. */
  lemma MarkBranch(sig: Signature, i: nat, x: Symbol, s: Symbol, a: Code, b: Code, env: Env, m: Marks, fuel: nat)
    requires StandsFor(x, env, s)
    ensures forall out, m' :: Gives(sig, IfMarked(i, Sym(x), a, b), env, m, fuel, out, m') <==>
                              Gives(sig, if (s, i) in m then a else b, env, m, fuel, out, m')
  {
    var e := IfMarked(i, Sym(x), a, b);
    assert Kids(e)[0] == Sym(x);
    SymbolGives(sig, x, s, env, m, fuel);
    StartsWith(sig, e, env, m, fuel, Done(VSym(s)), m);
  }

  /** After markvar, ifmarked takes the other branch. */
  lemma MarkThenTest(sig: Signature, i: nat, x: Symbol, s: Symbol, a: Code, b: Code, env: Env, m: Marks, fuel: nat)
    requires StandsFor(x, env, s)
    ensures forall out, m' ::
              Gives(sig, Do(MarkVar(i, Sym(x)), IfMarked(i, Sym(x), a, b)), env, m, fuel, out, m') <==>
              Gives(sig, if (s, i) in m then b else a, env, Other(m, s, i), fuel, out, m')
  {
    var mark, test := MarkVar(i, Sym(x)), IfMarked(i, Sym(x), a, b);
    var e, m1 := Do(mark, test), Other(m, s, i);
    assert Kids(e)[0] == mark;
    MarkFlips(sig, i, x, s, env, m, fuel, Done(VSym(s)), m1);
    StartsWith(sig, e, env, m, fuel, Done(VSym(s)), m1);
    MarkBranch(sig, i, x, s, a, b, env, m1, fuel);
    var c := if (s, i) in m then b else a;
    assert c == if (s, i) in m1 then a else b;
    forall out, m' ensures Gives(sig, e, env, m, fuel, out, m') <==> Gives(sig, c, env, m1, fuel, out, m') {
      assert Gives(sig, e, env, m, fuel, out, m') <==> Goes(sig, e, VSym(s), env, m1, fuel, out, m');
    }
  }

  // ---------- symbols ----------

  /** compare is its first branch exactly if the first symbol comes before the second. */
  lemma CompareBranch(sig: Signature, x: Symbol, s: Symbol, y: Symbol, t: Symbol, a: Code, b: Code, env: Env,
                      m: Marks, fuel: nat)
    requires StandsFor(x, env, s) && StandsFor(y, env, t)
    ensures forall out, m' :: Gives(sig, Compare(Sym(x), Sym(y), a, b), env, m, fuel, out, m') <==>
                              Gives(sig, if sig.before(s, t) then a else b, env, m, fuel, out, m')
  {
    var e := Compare(Sym(x), Sym(y), a, b);
    assert Kids(e)[0] == Sym(x);
    SymbolGives(sig, x, s, env, m, fuel);
    SymbolGives(sig, y, t, env, m, fuel);
    StartsWith(sig, e, env, m, fuel, Done(VSym(s)), m);
    var c := if sig.before(s, t) then a else b;
    forall out, m' ensures Gives(sig, e, env, m, fuel, out, m') <==> Gives(sig, c, env, m, fuel, out, m') {
      assert Gives(sig, e, env, m, fuel, out, m') <==> Goes(sig, e, VSym(s), env, m, fuel, out, m');
      assert Goes(sig, e, VSym(s), env, m, fuel, out, m') <==>
             exists o, m1 :: Gives(sig, Sym(y), env, m, fuel, o, m1) && Compared(sig, e, s, o, env, m1, fuel, out, m');
      forall o, m1 | Gives(sig, Sym(y), env, m, fuel, o, m1) ensures o == Done(VSym(t)) && m1 == m {
        GivesOnce(sig, Sym(y), env, m, fuel, o, m1, Done(VSym(t)), m);
      }
      assert Compared(sig, e, s, Done(VSym(t)), env, m, fuel, out, m') <==> Gives(sig, c, env, m, fuel, out, m');
    }
  }

  // ---------- the evaluator ----------

  /** run_code ends with the outcome and the marks that the rules give, and every symbol holds what it held. */
  method RunByRules(machine: Machine, e: Code, fuel: nat, ghost env: Env, ghost vars: set<Symbol>)
    returns (out: Outcome)
    requires ScopedPrograms(machine.sig) && Scoped(e, vars) && Holds(machine.vals, env, vars)
    modifies machine
    ensures Gives(machine.sig, e, env, old(machine.marks), fuel, out, machine.marks)
    ensures machine.vals == old(machine.vals)
  {
    GivesIsEval(machine.sig, e, env, machine.marks, fuel);
    out := machine.Run(e, fuel, env, vars);
  }

  /** The outcome of an arithmetic operation, from the outcomes of the operands run by themselves. */
  method RunOperands(machine: Machine, op: ArithOp, a: Code, b: Code, fuel: nat, ghost env: Env,
                     ghost vars: set<Symbol>)
    returns (x: Outcome, y: Outcome, out: Outcome)
    requires ScopedPrograms(machine.sig) && Scoped(a, vars) && Scoped(b, vars) && Holds(machine.vals, env, vars)
    modifies machine
    ensures !x.Done? ==> out == x
    ensures x.Done? && !y.Done? ==> out == y
    ensures x.Done? && y.Done? ==> Computes(op, x.v, y.v, out)
  {
    var e := Arith(op, a, b);
    assert Kids(e) == [a, b];
    assert forall i :: 0 <= i < |Kids(e)| ==> Scoped(Kids(e)[i], vars);
    var m0 := machine.marks;
    x := RunByRules(machine, a, fuel, env, vars);
    ghost var m1 := machine.marks;
    y := RunByRules(machine, b, fuel, env, vars);
    ghost var m2 := machine.marks;
    machine.marks := m0;
    out := RunByRules(machine, e, fuel, env, vars);
    OperandsLaw(machine.sig, op, a, b, env, m0, fuel, x, m1, y, m2, out, machine.marks);
  }

  lemma OperandsLaw(sig: Signature, op: ArithOp, a: Code, b: Code, env: Env, m: Marks, fuel: nat,
                    x: Outcome, m1: Marks, y: Outcome, m2: Marks, out: Outcome, m': Marks)
    requires Gives(sig, a, env, m, fuel, x, m1) && Gives(sig, b, env, m1, fuel, y, m2)
    requires Gives(sig, Arith(op, a, b), env, m, fuel, out, m')
    ensures !x.Done? ==> out == x
    ensures x.Done? && !y.Done? ==> out == y
    ensures x.Done? && y.Done? ==> Computes(op, x.v, y.v, out)
  {
    var e := Arith(op, a, b);
    assert Kids(e)[0] == a;
    StartsWith(sig, e, env, m, fuel, x, m1);
    if x.Done? {
      assert Goes(sig, e, x.v, env, m1, fuel, out, m');
      var o :| Gives(sig, b, env, m1, fuel, o, m') && if o.Done? then Computes(op, x.v, o.v, out) else out == o;
      GivesOnce(sig, b, env, m1, fuel, y, m2, o, m');
    }
  }
}
