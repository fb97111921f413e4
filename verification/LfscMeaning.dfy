/**
 What side-condition code computes, as rules, one for each construct (run_code in
 proofs/lfsc_checker/code.cpp).  The rules say of outcomes and marks which ones are right; they do not
 compute them.  `LfscEval.Eval` computes exactly the outcomes that the rules allow.
 */
module LfscMeaning {
  import opened Basics
  import opened LfscSyntax
  import opened LfscScope
  import opened LfscEval
  import opened LfscRun

  ghost predicate IntIs(out: Outcome, n: int) {
    out.Done? && out.v.VInt? && out.v.n == n
  }

  ghost predicate RatIs(out: Outcome, q: real) {
    out.Done? && out.v.VRat? && out.v.q == q
  }

  /** The quotient of integers is rounded up. */
  ghost predicate IsCeiling(c: int, x: int, y: int) {
    if y > 0 then (c - 1) * y < x <= c * y else c * y <= x < (c - 1) * y
  }

  /** Sum, product and quotient of two numbers of the same kind; anything else fails. */
  ghost predicate Computes(op: ArithOp, x: Value, y: Value, out: Outcome) {
    if x.VInt? && y.VInt? then
      match op
      case ADD => out.Done? && out.v.VInt? && out.v.n - x.n == y.n
      case MUL => IntIs(out, x.n * y.n)
      case DIV => if y.n == 0 then out.DivByZero? else out.Done? && out.v.VInt? && IsCeiling(out.v.n, x.n, y.n)
    else if x.VRat? && y.VRat? then
      match op
      case ADD => out.Done? && out.v.VRat? && out.v.q - x.q == y.q
      case MUL => RatIs(out, x.q * y.q)
      case DIV => if y.q == 0.0 then out.DivByZero? else out.Done? && out.v.VRat? && out.v.q * y.q == x.q
    else out.Failed?
  }

  /** A number and its negation add up to zero. */
  ghost predicate Opposite(x: Value, out: Outcome) {
    match x
    case VInt(n) => out.Done? && out.v.VInt? && out.v.n + n == 0
    case VRat(q) => out.Done? && out.v.VRat? && out.v.q + q == 0.0
    case _ => out.Failed?
  }

  /** The condition of a conditional on a number. */
  ghost predicate TestHolds(test: SignTest, x: Value) {
    match test
    case IFNEG => (x.VInt? && x.n < 0) || (x.VRat? && x.q < 0.0)
    case IFZERO => (x.VInt? && x.n == 0) || (x.VRat? && x.q == 0.0)
  }

  /** Mark i of the symbol, and no other, has changed. */
  ghost predicate Flipped(m: Marks, m': Marks, s: Symbol, i: nat) {
    && ((s, i) in m' <==> (s, i) !in m)
    && forall p :: p != (s, i) ==> (p in m' <==> p in m)
  }

  /** The case is for values with this head. */
  ghost predicate Applies(k: Case, v: Value) {
    k.Default? || (v.VSym? && v.s == Decl(k.ctor)) || (v.VApp? && v.head == k.ctor)
  }

  /** The part of `e` that is run first, if there is one. */
  ghost predicate HasFirst(e: Code) {
    !e.Int? && !e.Rat? && !e.Sym? && !e.MpzType? && !e.MpqType? && !e.Fail? && !e.App?
  }

  /**
   `e` ends with this outcome and these marks.  If the part that is run first has no value, then the whole ends
   with the outcome of that part.
   */
  ghost predicate Gives(sig: Signature, e: Code, env: Env, m: Marks, fuel: nat, out: Outcome, m': Marks)
    decreases fuel, e, 2
  {
    match e
    case Int(n) => IntIs(out, n) && m' == m
    case Rat(q) => RatIs(out, q) && m' == m
    case Sym(s) => out.Done? && (if s in env then out.v == env[s] else out.v == VSym(s)) && m' == m
    case MpzType => out.Failed? && m' == m
    case MpqType => out.Failed? && m' == m
    case Fail(_) => out.Failed? && m' == m
    case App(_, _) => Applied(sig, e, env, m, fuel, out, m')
    case _ => Started(sig, e, env, m, fuel, out, m')
  }

  ghost predicate Started(sig: Signature, e: Code, env: Env, m: Marks, fuel: nat, out: Outcome, m': Marks)
    requires HasFirst(e)
    decreases fuel, e, 1, 1
  {
    exists o, m1 :: Gives(sig, Kids(e)[0], env, m, fuel, o, m1) &&
      if o.Done? then Goes(sig, e, o.v, env, m1, fuel, out, m') else out == o && m' == m1
  }

  ghost predicate Applied(sig: Signature, e: Code, env: Env, m: Marks, fuel: nat, out: Outcome, m': Marks)
    requires e.App?
    decreases fuel, e, 1, 1
  {
    exists vs, ms :: ArgsGive(sig, e, env, m, fuel, vs, ms) && AppEnds(sig, e, env, fuel, vs, ms, out, m')
  }

  /** How `e` goes on when the part that is run first has the value v. */
  ghost predicate Goes(sig: Signature, e: Code, v: Value, env: Env, m: Marks, fuel: nat, out: Outcome, m': Marks)
    requires HasFirst(e)
    decreases fuel, e, 1, 0
  {
    match e
    case Do(_, b) => Gives(sig, b, env, m, fuel, out, m')
    case Let(x, _, b) => Gives(sig, b, env[x := v], m, fuel, out, m')
    case Arith(op, _, b) =>
      exists o :: Gives(sig, b, env, m, fuel, o, m') && if o.Done? then Computes(op, v, o.v, out) else out == o
    case Neg(_) => Opposite(v, out) && m' == m
    case IfSign(test, _, a, b) =>
      if !v.VInt? && !v.VRat? then out.Failed? && m' == m
      else if TestHolds(test, v) then Gives(sig, a, env, m, fuel, out, m')
      else Gives(sig, b, env, m, fuel, out, m')
    case MarkVar(i, _) =>
      if v.VSym? then out == Done(v) && Flipped(m, m', v.s, i) else out.Failed? && m' == m
    case IfMarked(i, _, a, b) =>
      if !v.VSym? then out.Failed? && m' == m
      else if (v.s, i) in m then Gives(sig, a, env, m, fuel, out, m')
      else Gives(sig, b, env, m, fuel, out, m')
    case Compare(_, r, _, _) =>
      if !v.VSym? then out.Failed? && m' == m
      else exists o, m1 :: Gives(sig, r, env, m, fuel, o, m1) && Compared(sig, e, v.s, o, env, m1, fuel, out, m')
    case Match(_, cases) =>
      if forall i :: 0 <= i < |cases| ==> !Applies(cases[i], v) then out.Failed? && m' == m
      else exists i: nat :: FirstCase(cases, v, i) && CaseGives(sig, cases[i], v, env, m, fuel, out, m')
  }

  /** A comparison of the symbol with the outcome of the second operand. */
  ghost predicate Compared(sig: Signature, e: Code, s: Symbol, o: Outcome, env: Env, m: Marks, fuel: nat,
                           out: Outcome, m': Marks)
    requires e.Compare?
    decreases fuel, e, 0
  {
    if !o.Done? then out == o && m' == m
    else if !o.v.VSym? then out.Failed? && m' == m
    else if sig.before(s, o.v.s) then Gives(sig, e.yes, env, m, fuel, out, m')
    else Gives(sig, e.no, env, m, fuel, out, m')
  }

  /** The first case that applies. */
  ghost predicate FirstCase(cases: seq<Case>, v: Value, i: nat) {
    i < |cases| && Applies(cases[i], v) && forall j :: 0 <= j < i ==> !Applies(cases[j], v)
  }

  /**
   The variables of a pattern stand for the arguments of the value; if there are not as many, what
   happens is undefined.
   */
  ghost predicate CaseGives(sig: Signature, k: Case, v: Value, env: Env, m: Marks, fuel: nat, out: Outcome, m': Marks)
    decreases fuel, k
  {
    match k
    case Default(b) => Gives(sig, b, env, m, fuel, out, m')
    case Case(_, xs, b) =>
      var vs := if v.VApp? then v.args else [];
      if |xs| != |vs| then out.Undefined? && m' == m
      else Gives(sig, b, Bound(env, xs, vs), m, fuel, out, m')
  }

  /** The first arguments have these values, from left to right, with the marks before and after each. */
  ghost predicate ArgsGive(sig: Signature, e: Code, env: Env, m: Marks, fuel: nat, vs: seq<Value>, ms: seq<Marks>)
    requires e.App?
    decreases fuel, e, 0
  {
    && |vs| <= |e.args| && |ms| == |vs| + 1 && ms[0] == m
    && forall i {:trigger vs[i]} :: 0 <= i < |vs| ==> Gives(sig, e.args[i], env, ms[i], fuel, Done(vs[i]), ms[i + 1])
  }

  /** After that an argument ends without a value, or a term is built, or a program is called. */
  ghost predicate AppEnds(sig: Signature, e: Code, env: Env, fuel: nat, vs: seq<Value>, ms: seq<Marks>,
                          out: Outcome, m': Marks)
    requires e.App?
    decreases fuel, e, 1, 0
  {
    var n := |vs|;
    && n <= |e.args| && |ms| == n + 1
    && if n < |e.args| then !out.Done? && Gives(sig, e.args[n], env, ms[n], fuel, out, m')
       else if e.head !in sig.programs then
         out.Done? && m' == ms[n] && (if vs == [] then out.v == VSym(Decl(e.head)) else out.v == VApp(e.head, vs))
       else
         var p := sig.programs[e.head];
         if |p.params| != n then out.Undefined? && m' == ms[n]
         else if fuel == 0 then out.OutOfFuel? && m' == ms[n]
         else Gives(sig, p.body, Bound(map[], p.params, vs), ms[n], fuel - 1, out, m')
  }

  // ---------- the computed outcome is the one that the rules give ----------

  ghost predicate Agrees(sig: Signature, e: Code, env: Env, m: Marks, fuel: nat) {
    forall out, m' :: Gives(sig, e, env, m, fuel, out, m') <==> Eval(sig, e, env, m, fuel) == Result(out, m')
  }

  lemma {:induction false} GivesIsEval(sig: Signature, e: Code, env: Env, m: Marks, fuel: nat)
    ensures Agrees(sig, e, env, m, fuel)
    decreases fuel, e, 3
  {
    if e.App? {
      AppAgrees(sig, e, env, m, fuel);
    } else if HasFirst(e) {
      StartedIsEval(sig, e, env, m, fuel);
      forall out, m' ensures Gives(sig, e, env, m, fuel, out, m') <==> Started(sig, e, env, m, fuel, out, m') { }
    }
  }

  lemma StartedIsEval(sig: Signature, e: Code, env: Env, m: Marks, fuel: nat)
    requires HasFirst(e)
    ensures forall out, m' :: Started(sig, e, env, m, fuel, out, m') <==> Eval(sig, e, env, m, fuel) == Result(out, m')
    decreases fuel, e, 2, 1
  {
    var a := Kids(e)[0];
    GivesIsEval(sig, a, env, m, fuel);
    var r := Eval(sig, a, env, m, fuel);
    assert Gives(sig, a, env, m, fuel, r.out, r.marks);
    if r.out.Done? {
      GoesIsEval(sig, e, env, m, fuel);
    } else {
      FirstEnds(sig, e, env, m, fuel);
    }
  }

  lemma FirstEnds(sig: Signature, e: Code, env: Env, m: Marks, fuel: nat)
    requires HasFirst(e) && !Eval(sig, Kids(e)[0], env, m, fuel).out.Done?
    ensures Eval(sig, e, env, m, fuel) == Eval(sig, Kids(e)[0], env, m, fuel)
  {
  }

  lemma GoesIsEval(sig: Signature, e: Code, env: Env, m: Marks, fuel: nat)
    requires HasFirst(e) && Eval(sig, Kids(e)[0], env, m, fuel).out.Done?
    ensures var r := Eval(sig, Kids(e)[0], env, m, fuel);
            forall out, m' :: Goes(sig, e, r.out.v, env, r.marks, fuel, out, m') <==>
              Eval(sig, e, env, m, fuel) == Result(out, m')
    decreases fuel, e, 2, 0
  {
    var r := Eval(sig, Kids(e)[0], env, m, fuel);
    match e
    case Do(_, b) => GivesIsEval(sig, b, env, r.marks, fuel);
    case Let(x, _, b) => GivesIsEval(sig, b, env[x := r.out.v], r.marks, fuel);
    case Arith(_, _, _) => ArithAgrees(sig, e, env, m, fuel);
    case Neg(_) =>
    case IfSign(_, _, a, b) =>
      GivesIsEval(sig, a, env, r.marks, fuel);
      GivesIsEval(sig, b, env, r.marks, fuel);
    case MarkVar(i, _) => MarkAgrees(sig, e, env, m, fuel);
    case IfMarked(_, _, a, b) =>
      GivesIsEval(sig, a, env, r.marks, fuel);
      GivesIsEval(sig, b, env, r.marks, fuel);
    case Compare(_, _, _, _) => CompareAgrees(sig, e, env, m, fuel);
    case Match(_, _) => MatchAgrees(sig, e, env, m, fuel);
  }

  lemma ArithAgrees(sig: Signature, e: Code, env: Env, m: Marks, fuel: nat)
    requires e.Arith? && Eval(sig, e.left, env, m, fuel).out.Done?
    ensures var r := Eval(sig, e.left, env, m, fuel);
            forall out, m' :: Goes(sig, e, r.out.v, env, r.marks, fuel, out, m') <==>
              Eval(sig, e, env, m, fuel) == Result(out, m')
    decreases fuel, e, 1
  {
    var r := Eval(sig, e.left, env, m, fuel);
    GivesIsEval(sig, e.right, env, r.marks, fuel);
    var q := Eval(sig, e.right, env, r.marks, fuel);
    assert Gives(sig, e.right, env, r.marks, fuel, q.out, q.marks);
    if q.out.Done? {
      ComputesArithmetic(e.op, r.out.v, q.out.v);
    }
  }

  /** The rule for numbers has one outcome, the computed one. */
  lemma ComputesArithmetic(op: ArithOp, x: Value, y: Value)
    ensures forall out :: Computes(op, x, y, out) <==> Arithmetic(op, x, y) == out
  {
    forall out | Computes(op, x, y, out) ensures Arithmetic(op, x, y) == out {
      if x.VInt? && y.VInt? && op == DIV && y.n != 0 {
        CeilingUnique(out.v.n, CeilDiv(x.n, y.n), x.n, y.n);
      } else if x.VRat? && y.VRat? && op == DIV && y.q != 0.0 {
        assert out.v.q == x.q / y.q;
      }
    }
  }

  lemma CeilingUnique(c: int, d: int, x: int, y: int)
    requires y != 0 && IsCeiling(c, x, y) && IsCeiling(d, x, y)
    ensures c == d
  {
    Ordered(c, d - 1, y);
    Ordered(d, c - 1, y);
  }

  lemma Ordered(c: int, d: int, y: int)
    ensures c <= d && y > 0 ==> c * y <= d * y
    ensures c <= d && y < 0 ==> c * y >= d * y
  {
  }

  lemma MarkAgrees(sig: Signature, e: Code, env: Env, m: Marks, fuel: nat)
    requires e.MarkVar? && Eval(sig, e.subject, env, m, fuel).out.Done?
    ensures var r := Eval(sig, e.subject, env, m, fuel);
            forall out, m' :: Goes(sig, e, r.out.v, env, r.marks, fuel, out, m') <==>
              Eval(sig, e, env, m, fuel) == Result(out, m')
    decreases fuel, e, 1
  {
    var r := Eval(sig, e.subject, env, m, fuel);
    if r.out.v.VSym? {
      var s, t := r.out.v.s, Toggle(r.marks, r.out.v.s, e.mark);
      assert Flipped(r.marks, t, s, e.mark);
      forall m' | Flipped(r.marks, m', s, e.mark) ensures m' == t {
        forall p ensures p in m' <==> p in t { }
      }
    }
  }

  lemma CompareAgrees(sig: Signature, e: Code, env: Env, m: Marks, fuel: nat)
    requires e.Compare? && Eval(sig, e.left, env, m, fuel).out.Done?
    ensures var r := Eval(sig, e.left, env, m, fuel);
            forall out, m' :: Goes(sig, e, r.out.v, env, r.marks, fuel, out, m') <==>
              Eval(sig, e, env, m, fuel) == Result(out, m')
    decreases fuel, e, 1
  {
    var r := Eval(sig, e.left, env, m, fuel);
    GivesIsEval(sig, e.right, env, r.marks, fuel);
    var q := Eval(sig, e.right, env, r.marks, fuel);
    assert Gives(sig, e.right, env, r.marks, fuel, q.out, q.marks);
    GivesIsEval(sig, e.yes, env, q.marks, fuel);
    GivesIsEval(sig, e.no, env, q.marks, fuel);
  }

  lemma MatchAgrees(sig: Signature, e: Code, env: Env, m: Marks, fuel: nat)
    requires e.Match? && Eval(sig, e.scrutinee, env, m, fuel).out.Done?
    ensures var r := Eval(sig, e.scrutinee, env, m, fuel);
            forall out, m' :: Goes(sig, e, r.out.v, env, r.marks, fuel, out, m') <==>
              Eval(sig, e, env, m, fuel) == Result(out, m')
    decreases fuel, e, 1
  {
    var r := Eval(sig, e.scrutinee, env, m, fuel);
    SelectedFirst(e.cases, r.out.v);
    var i := Selected(e.cases, r.out.v);
    if i.Some? {
      CaseAgrees(sig, e.cases[i.value], r.out.v, env, r.marks, fuel);
    }
  }

  /** The selected case is the first one that applies. */
  lemma {:induction false} SelectedFirst(cases: seq<Case>, v: Value)
    ensures var r := Selected(cases, v);
            && (r.Some? ==> FirstCase(cases, v, r.value))
            && (r.None? ==> forall i :: 0 <= i < |cases| ==> !Applies(cases[i], v))
    ensures forall i: nat :: FirstCase(cases, v, i) ==> Selected(cases, v) == Some(i)
    decreases cases
  {
    if cases != [] {
      SelectedFirst(cases[1..], v);
      var r := Selected(cases[1..], v);
      if !Applies(cases[0], v) {
        forall i: nat | FirstCase(cases, v, i) ensures Selected(cases, v) == Some(i) {
          assert FirstCase(cases[1..], v, i - 1);
        }
      }
    }
  }

  lemma CaseAgrees(sig: Signature, k: Case, v: Value, env: Env, m: Marks, fuel: nat)
    ensures forall out, m' :: CaseGives(sig, k, v, env, m, fuel, out, m') <==>
              EvalCase(sig, k, v, env, m, fuel) == Result(out, m')
    decreases fuel, k
  {
    if k.Default? {
      GivesIsEval(sig, k.body, env, m, fuel);
    } else if |k.vars| == |ArgsOf(v)| {
      GivesIsEval(sig, k.body, Bound(env, k.vars, ArgsOf(v)), m, fuel);
    }
  }

  /** The values of the arguments are those that are computed one after the other. */
  lemma {:induction false} ArgsUnique(sig: Signature, e: Code, env: Env, m: Marks, fuel: nat, vs: seq<Value>,
                                      ms: seq<Marks>, j: nat)
    requires e.App? && ArgsGive(sig, e, env, m, fuel, vs, ms) && j <= |vs|
    ensures EvalArgs(sig, e, j, env, m, fuel) == Args(vs[..j], ms[j])
    decreases fuel, e, 0, j
  {
    if j > 0 {
      ArgsUnique(sig, e, env, m, fuel, vs, ms, j - 1);
      GivesIsEval(sig, e.args[j - 1], env, ms[j - 1], fuel);
      assert Gives(sig, e.args[j - 1], env, ms[j - 1], fuel, Done(vs[j - 1]), ms[j]);
      assert vs[..j] == vs[..j - 1] + [vs[j - 1]];
    }
  }

  lemma {:induction false} ArgsExist(sig: Signature, e: Code, env: Env, m: Marks, fuel: nat, n: nat)
    returns (vs: seq<Value>, ms: seq<Marks>)
    requires e.App? && n <= |e.args|
    ensures ArgsGive(sig, e, env, m, fuel, vs, ms)
    ensures var r := EvalArgs(sig, e, n, env, m, fuel);
            && (r.Args? ==> vs == r.vs && ms[n] == r.marks)
            && (r.NoArgs? ==> |vs| < n && Gives(sig, e.args[|vs|], env, ms[|vs|], fuel, r.out, r.marks))
    decreases fuel, e, 0, n
  {
    if n == 0 {
      vs, ms := [], [m];
    } else {
      vs, ms := ArgsExist(sig, e, env, m, fuel, n - 1);
      var r := EvalArgs(sig, e, n - 1, env, m, fuel);
      if r.Args? {
        GivesIsEval(sig, e.args[n - 1], env, r.marks, fuel);
        var q := Eval(sig, e.args[n - 1], env, r.marks, fuel);
        assert Gives(sig, e.args[n - 1], env, r.marks, fuel, q.out, q.marks);
        if q.out.Done? {
          var vs', ms' := vs + [q.out.v], ms + [q.marks];
          forall i | 0 <= i < |vs'| ensures Gives(sig, e.args[i], env, ms'[i], fuel, Done(vs'[i]), ms'[i + 1]) {
            assert i < |vs| ==> vs'[i] == vs[i];
          }
          vs, ms := vs', ms';
        }
      }
    }
  }

  lemma AppAgrees(sig: Signature, e: Code, env: Env, m: Marks, fuel: nat)
    requires e.App?
    ensures Agrees(sig, e, env, m, fuel)
    decreases fuel, e, 2
  {
    var r := Eval(sig, e, env, m, fuel);
    AppGives(sig, e, env, m, fuel);
    forall out, m' | Gives(sig, e, env, m, fuel, out, m') ensures r == Result(out, m') {
      assert Applied(sig, e, env, m, fuel, out, m');
      var vs, ms :| ArgsGive(sig, e, env, m, fuel, vs, ms) && AppEnds(sig, e, env, fuel, vs, ms, out, m');
      AppUnique(sig, e, env, m, fuel, vs, ms, out, m');
    }
  }

  lemma AppGives(sig: Signature, e: Code, env: Env, m: Marks, fuel: nat)
    requires e.App?
    ensures var r := Eval(sig, e, env, m, fuel); Gives(sig, e, env, m, fuel, r.out, r.marks)
    decreases fuel, e, 1
  {
    var r := Eval(sig, e, env, m, fuel);
    var vs, ms := ArgsExist(sig, e, env, m, fuel, |e.args|);
    var q := EvalArgs(sig, e, |e.args|, env, m, fuel);
    if q.Args? && e.head in sig.programs && fuel > 0 {
      var p := sig.programs[e.head];
      if |p.params| == |vs| {
        GivesIsEval(sig, p.body, Bound(map[], p.params, vs), q.marks, fuel - 1);
      }
    }
    assert AppEnds(sig, e, env, fuel, vs, ms, r.out, r.marks);
  }

  lemma AppUnique(sig: Signature, e: Code, env: Env, m: Marks, fuel: nat, vs: seq<Value>, ms: seq<Marks>,
                  out: Outcome, m': Marks)
    requires e.App? && ArgsGive(sig, e, env, m, fuel, vs, ms) && AppEnds(sig, e, env, fuel, vs, ms, out, m')
    ensures Eval(sig, e, env, m, fuel) == Result(out, m')
    decreases fuel, e, 1
  {
    var n := |vs|;
    ArgsUnique(sig, e, env, m, fuel, vs, ms, n);
    assert vs[..n] == vs;
    if n < |e.args| {
      GivesIsEval(sig, e.args[n], env, ms[n], fuel);
      assert EvalArgs(sig, e, n + 1, env, m, fuel) == NoArgs(out, m');
      EvalArgsFails(sig, e, n + 1, |e.args|, env, m, fuel);
    } else if e.head in sig.programs && fuel > 0 {
      var p := sig.programs[e.head];
      if |p.params| == n {
        GivesIsEval(sig, p.body, Bound(map[], p.params, vs), ms[n], fuel - 1);
      }
    }
  }
}
