/**
 The commands `program` and `run` of the LFSC checker (proofs/lfsc_checker/check.cpp):
 code is read, then checked, then run.

 The symbol table is shared by the reader and the type checker: an entry holds a node
 and a type.  Neither of them rejects a pattern that repeats a variable name, and both
 then leave an entry behind for it.  The checker also does not compare the type of the
 body of a program with the declared one.  Each of the two makes code return values
 that do not have the type it was checked at, and without them this does not happen.
 */
module LfscCommands {
  import opened Basics
  import opened LfscSyntax
  import opened LfscScope
  import opened LfscReader
  import opened LfscTyping
  import opened LfscEval
  import opened LfscChecker
  import opened LfscRun
  import opened LfscFuel

  /** The types that are left when the reader is done: the entries it left behind have none. */
  ghost function Kept(g: Table, before: Scope, after: Scope): Table {
    map n | n in g && Get(before, n) == Get(after, n) :: g[n]
  }

  /** The type of code that is read and then checked, or None if that reports an error. */
  ghost function Accept(sig: Signature, e: Code, scope: Scope, g: Table): Option<Type> {
    var r := Read(sig, e, scope);
    if r.None? then None else
    TypeIn(Checked(sig, e, Kept(g, scope, r.value)))
  }

  function TypeIn(r: Verdict): Option<Type> {
    if r.Some? then Some(r.value.0) else None
  }

  /** Without repeated names, code is accepted exactly if it is statically scoped and typed. */
  lemma AcceptIsTypeOf(sig: Signature, e: Code, scope: Scope, g: Table)
    requires DistinctNames(e)
    ensures Accept(sig, e, scope, g) == if Resolved(sig, e, scope) then TypeOf(sig, e, g) else None
  {
    ReadIsResolved(sig, e, scope);
    CheckedIsTypeOf(sig, e, g);
    assert Kept(g, scope, scope) == g;
  }

  // ---------- declared programs ----------

  /** What the command `program` asks for: parameters with different, undeclared names, and a body that is accepted. */
  ghost predicate AcceptedProgram(sig: Signature, p: Program) {
    && |p.types| == |p.params| > 0 && Distinct(Names(p.params))
    && (forall x :: x in p.params ==> x.Var? && x.name !in sig.types)
    && Accept(sig, p.body, ParamScope(p), ParamTable(sig, p)).Some?
  }

  ghost predicate Accepted(sig: Signature) {
    && (forall c :: c in sig.types && sig.types[c].Pi? ==> sig.types[c].params != [])
    && (forall f :: f in sig.programs ==> f !in sig.types && AcceptedProgram(sig, sig.programs[f]))
  }

  /** No pattern of a program repeats a name. */
  ghost predicate DistinctPrograms(sig: Signature) {
    forall f :: f in sig.programs ==> DistinctNames(sig.programs[f].body)
  }

  /** The type of every body is the declared one, which the checker does not compare. */
  ghost predicate DeclaredResults(sig: Signature)
    requires Accepted(sig)
  {
    forall f :: f in sig.programs ==>
      var p := sig.programs[f]; Accept(sig, p.body, ParamScope(p), ParamTable(sig, p)) == Some(p.res)
  }

  lemma AcceptedWellTyped(sig: Signature)
    requires Accepted(sig) && DistinctPrograms(sig) && DeclaredResults(sig)
    ensures WellTyped(sig) && ScopedPrograms(sig)
  {
    forall f | f in sig.programs
      ensures f !in sig.types && ProgramOk(sig, sig.programs[f])
      ensures var p := sig.programs[f]; Scoped(p.body, Elements(p.params))
    {
      var p := sig.programs[f];
      AcceptIsTypeOf(sig, p.body, ParamScope(p), ParamTable(sig, p));
      assert forall i :: 0 <= i < |p.params| ==> Names(p.params)[i] == p.params[i].name;
      BoundValues(map[], Names(p.params), p.params);
      ResolvedScoped(sig, p.body, ParamScope(p), Elements(p.params));
    }
  }

  /**
   Type preservation for what the original accepts: if no pattern repeats a name and the bodies of
   programs have their declared types, accepted code yields values of the type it was accepted at.
   */
  lemma AcceptedPreservation(sig: Signature, e: Code, env: Env, g: Table, scope: Scope, marks: Marks, fuel: nat)
    requires Accepted(sig) && DistinctPrograms(sig) && DeclaredResults(sig) && Models(sig, env, g, scope)
    requires DistinctNames(e) && Accept(sig, e, scope, g).Some?
    ensures Fits(sig, Eval(sig, e, env, marks, fuel).out, Accept(sig, e, scope, g).value,
                 FullPatterns(sig, e) && FullPrograms(sig))
  {
    AcceptedWellTyped(sig);
    AcceptIsTypeOf(sig, e, scope, g);
    Preservation(sig, e, env, g, scope, marks, fuel);
  }

  // ---------- repeated names ----------

  /** A match on y with one case, after which a symbol is mentioned. */
  function Probe(y: Symbol, c: Name, xs: seq<Symbol>, s: Symbol): Code {
    Do(Match(Sym(y), [Case(c, xs, Int(0))]), Sym(s))
  }

  /** If the probe is accepted, it yields a value of the type it was accepted at. */
  ghost predicate ProbeSafe(sig: Signature, tp: Type, c: Name, xs: seq<Symbol>, y: Symbol, v: Value, s: Symbol) {
    var e := Probe(y, c, xs, s);
    var t := Accept(sig, e, map[y.name := y], sig.types[y.name := tp]);
    t.Some? ==> Fits(sig, Eval(sig, e, map[y := v], {}, 0).out, t.value, true)
  }

  /** A constructor with its pattern, applied to values: nothing but repeated names is out of order. */
  ghost predicate Pattern(sig: Signature, tp: Name, c: Name, xs: seq<Symbol>, y: Symbol, args: seq<Value>) {
    && Get(sig.types, tp) == Some(Kind)
    && c in sig.types && sig.types[c].Pi? && sig.types[c].res == Base(Decl(tp))
    && HasType(sig, VApp(c, args), Base(Decl(tp))) && |xs| == |args|
    && y.Var? && y.name !in sig.types && Distinct(xs)
    && (forall x :: x in xs ==> x.Var? && x.name != y.name && x.name != c && x.name != tp)
  }

  /** Preservation holds after a pattern, whatever is mentioned then, if and only if the pattern repeats no name. */
  lemma PatternExact(sig: Signature, tp: Name, c: Name, xs: seq<Symbol>, y: Symbol, args: seq<Value>)
    requires WellTyped(sig) && FullPrograms(sig) && Pattern(sig, tp, c, xs, y, args)
    ensures (forall s :: ProbeSafe(sig, Base(Decl(tp)), c, xs, y, VApp(c, args), s)) <==> Distinct(Names(xs))
  {
    if Distinct(Names(xs)) {
      forall s ensures ProbeSafe(sig, Base(Decl(tp)), c, xs, y, VApp(c, args), s) {
        DistinctProbe(sig, tp, c, xs, y, args, s);
      }
    } else {
      var i, j := Repeated(Names(xs));
      LeakedSymbol(sig, tp, c, xs, y, args, i, j);
      assert !ProbeSafe(sig, Base(Decl(tp)), c, xs, y, VApp(c, args), xs[i]);
    }
  }

  lemma DistinctProbe(sig: Signature, tp: Name, c: Name, xs: seq<Symbol>, y: Symbol, args: seq<Value>, s: Symbol)
    requires WellTyped(sig) && FullPrograms(sig) && Pattern(sig, tp, c, xs, y, args) && Distinct(Names(xs))
    ensures ProbeSafe(sig, Base(Decl(tp)), c, xs, y, VApp(c, args), s)
  {
    var e, v, t := Probe(y, c, xs, s), VApp(c, args), Base(Decl(tp));
    var scope, g: Table, env: Env := map[y.name := y], sig.types[y.name := t], map[y := v];
    assert DistinctCase(Case(c, xs, Int(0)));
    assert DistinctNames(e);
    AcceptIsTypeOf(sig, e, scope, g);
    if Accept(sig, e, scope, g).Some? {
      assert Models(sig, map[], sig.types, map[]);
      BindModels(sig, map[], sig.types, map[], y, v, t);
      Preservation(sig, e, env, g, scope, {}, 0);
      assert FullCase(sig, Case(c, xs, Int(0)));
      assert FullPatterns(sig, e.first) && FullPatterns(sig, e);
    }
  }

  /** The symbol that a repeated name leaves behind has a type and a node, but no value. */
  lemma LeakedSymbol(sig: Signature, tp: Name, c: Name, xs: seq<Symbol>, y: Symbol, args: seq<Value>, i: nat, j: nat)
    requires Pattern(sig, tp, c, xs, y, args) && LastTwo(Names(xs), i, j)
    ensures var e := Probe(y, c, xs, xs[i]);
            && Accept(sig, e, map[y.name := y], sig.types[y.name := Base(Decl(tp))]) == Some(sig.types[c].params[i])
            && Eval(sig, e, map[y := VApp(c, args)], {}, 0).out == Done(VSym(xs[i]))
  {
    var e, ns := Probe(y, c, xs, xs[i]), Names(xs);
    var scope, g: Table := map[y.name := y], sig.types[y.name := Base(Decl(tp))];
    var after := PutBack(Bound(scope, ns, xs), ns, Olds(scope, ns, xs));
    LeakRead(sig, tp, c, xs, y, args, i, j);
    var g' := Kept(g, scope, after);
    forall n | n !in ns ensures Get(g', n) == Get(g, n) {
      PutBackElsewhere(Bound(scope, ns, xs), n, ns, Olds(scope, ns, xs));
      BoundElsewhere(scope, ns, xs, n);
    }
    assert y.name !in ns && tp !in ns && c !in ns;
    assert Get(g', y.name) == Get(g, y.name) && Get(g', tp) == Get(g, tp) && Get(g', c) == Get(g, c);
    LeakChecked(sig, tp, c, xs, y, g', i, j);
    LeakRun(sig, c, xs, y, args, xs[i]);
  }

  lemma LeakRun(sig: Signature, c: Name, xs: seq<Symbol>, y: Symbol, args: seq<Value>, s: Symbol)
    requires |xs| == |args| && s != y
    ensures Eval(sig, Probe(y, c, xs, s), map[y := VApp(c, args)], {}, 0).out == Done(VSym(s))
  {
    var env: Env, v := map[y := VApp(c, args)], VApp(c, args);
    var k := Case(c, xs, Int(0));
    var m := Match(Sym(y), [k]);
    assert Selected(m.cases, v) == Some(0);
    assert EvalCase(sig, k, v, env, {}, 0) == Result(Done(VInt(0)), {});
    assert Eval(sig, m, env, {}, 0) == Result(Done(VInt(0)), {});
  }

  lemma LeakRead(sig: Signature, tp: Name, c: Name, xs: seq<Symbol>, y: Symbol, args: seq<Value>, i: nat, j: nat)
    requires Pattern(sig, tp, c, xs, y, args) && LastTwo(Names(xs), i, j)
    ensures var scope: Scope, ns := map[y.name := y], Names(xs);
            Read(sig, Probe(y, c, xs, xs[i]), scope) == Some(PutBack(Bound(scope, ns, xs), ns, Olds(scope, ns, xs)))
  {
    var k := Case(c, xs, Int(0));
    var m := Match(Sym(y), [k]);
    var e, ns, scope: Scope := Do(m, Sym(xs[i])), Names(xs), map[y.name := y];
    var after := PutBack(Bound(scope, ns, xs), ns, Olds(scope, ns, xs));
    assert c !in scope;
    assert Read(sig, Int(0), Bound(scope, ns, xs)) == Some(Bound(scope, ns, xs));
    assert ReadCase(sig, k, scope) == Some(after);
    assert ReadCases(sig, m, 0, scope) == Some(scope);
    assert ReadCases(sig, m, 1, scope) == Some(after);
    assert Read(sig, Sym(y), scope) == Some(scope);
    assert ReadKids(sig, m, 0, scope) == Some(scope);
    assert ReadKids(sig, m, 1, scope) == Some(scope);
    assert Read(sig, m, scope) == Some(after);
    DuplicateLeaks(Bound(scope, ns, xs), scope, ns, xs, i, j);
    assert Read(sig, Sym(xs[i]), after) == Some(after);
    assert ReadKids(sig, e, 0, scope) == Some(scope);
    assert ReadKids(sig, e, 1, scope) == Some(after);
    assert ReadKids(sig, e, 2, scope) == Some(after);
  }

  lemma LeakChecked(sig: Signature, tp: Name, c: Name, xs: seq<Symbol>, y: Symbol, g: Table, i: nat, j: nat)
    requires LastTwo(Names(xs), i, j) && Get(g, y.name) == Some(Base(Decl(tp))) && Get(g, tp) == Some(Kind)
    requires c in g && g[c].Pi? && |g[c].params| == |xs|
    ensures TypeIn(Checked(sig, Probe(y, c, xs, xs[i]), g)) == Some(g[c].params[i])
  {
    var k := Case(c, xs, Int(0));
    var m := Match(Sym(y), [k]);
    var ns, ts := Names(xs), g[c].params;
    assert ts[..|xs|] == ts;
    var g' := PutBack(Bound(g, ns, ts), ns, Olds(g, ns, ts));
    assert CheckedCase(sig, k, g) == Some((Mpz, g'));
    assert CheckedCases(sig, m, 1, g) == Some((Mpz, g'));
    assert Checked(sig, m, g) == Some((Mpz, g'));
    DuplicateLeaks(Bound(g, ns, ts), g, ns, ts, i, j);
  }

  /** Constants a and b of types A and B, a constructor c : A -> B -> T, and one program. */
  function OneProgram(p: Program): Signature {
    var A, B, T := Base(Decl("A")), Base(Decl("B")), Base(Decl("T"));
    Signature(map["A" := Kind, "B" := Kind, "T" := Kind, "a" := A, "b" := B, "c" := Pi([A, B], T)], map["f" := p],
      (s, t) => false)
  }

  /** (program f ((y T)) A (do (match y ((c x x) 0)) x)) */
  function Leaking(): Program {
    var y, xs := Var("y", 0), [Var("x", 1), Var("x", 2)];
    Program([y], [Base(Decl("T"))], Base(Decl("A")), Probe(y, "c", xs, xs[0]))
  }

  /** The call (f (c a b)) */
  function Call(): Code {
    App("f", [App("c", [Sym(Decl("a")), Sym(Decl("b"))])])
  }

  /** It is accepted at the declared type of f, and runs the body of f. */
  lemma CallAccepted(p: Program, fuel: nat)
    requires p.types == [Base(Decl("T"))] && |p.params| == 1 && fuel > 0
    ensures var sig := OneProgram(p);
            && DistinctNames(Call()) && FullPatterns(sig, Call())
            && Accept(sig, Call(), map[], sig.types) == Some(p.res)
            && var v := VApp("c", [VSym(Decl("a")), VSym(Decl("b"))]);
               Eval(sig, Call(), map[], {}, fuel) == Eval(sig, p.body, map[p.params[0] := v], {}, fuel - 1)
  {
    var sig, e, c := OneProgram(p), Call(), Call().args[0];
    var a, b := c.args[0], c.args[1];
    assert DistinctNames(a) && DistinctNames(b) && Resolved(sig, a, map[]) && Resolved(sig, b, map[]);
    assert Kids(c) == [a, b] && DistinctNames(c) && Resolved(sig, c, map[]);
    assert Kids(e) == [c] && DistinctNames(e) && Resolved(sig, e, map[]);
    AcceptIsTypeOf(sig, e, map[], sig.types);
    CallTyped(p);
    CallRun(p, fuel);
  }

  lemma CallTyped(p: Program)
    requires p.types == [Base(Decl("T"))]
    ensures var sig := OneProgram(p); TypeOf(sig, Call(), sig.types) == Some(p.res)
  {
    var sig, e, c := OneProgram(p), Call(), Call().args[0];
    var g := sig.types;
    var A, B, T := Base(Decl("A")), Base(Decl("B")), Base(Decl("T"));
    assert [] + [A] == [A] && [A] + [B] == [A, B] && [] + [T] == [T];
    assert TypeOf(sig, c.args[0], g) == Some(A) && TypeOf(sig, c.args[1], g) == Some(B);
    assert TypesOf(sig, c, 1, g) == Some([A]);
    assert TypesOf(sig, c, 2, g) == Some([A, B]);
    assert TypeOf(sig, c, g) == Some(T);
    assert TypesOf(sig, e, 1, g) == Some([T]);
  }

  lemma CallRun(p: Program, fuel: nat)
    requires |p.params| == 1 && fuel > 0
    ensures var sig, v := OneProgram(p), VApp("c", [VSym(Decl("a")), VSym(Decl("b"))]);
            Eval(sig, Call(), map[], {}, fuel) == Eval(sig, p.body, map[p.params[0] := v], {}, fuel - 1)
  {
    var sig, e, c := OneProgram(p), Call(), Call().args[0];
    var a, b := VSym(Decl("a")), VSym(Decl("b"));
    assert EvalArgs(sig, c, 1, map[], {}, fuel) == Args([a], {});
    assert EvalArgs(sig, c, 2, map[], {}, fuel) == Args([a, b], {});
    assert Eval(sig, c, map[], {}, fuel) == Result(Done(VApp("c", [a, b])), {});
    assert EvalArgs(sig, e, 1, map[], {}, fuel) == Args([VApp("c", [a, b])], {});
    assert Bound(map[], p.params, [VApp("c", [a, b])]) == map[p.params[0] := VApp("c", [a, b])];
  }

  /** A program with one parameter y of type T is accepted if its body is. */
  lemma OneAccepted(p: Program, t: Type)
    requires |p.params| == 1 && p.params[0] == Var("y", 0) && p.types == [Base(Decl("T"))]
    requires var sig := OneProgram(p); Accept(sig, p.body, map["y" := Var("y", 0)],
             sig.types["y" := Base(Decl("T"))]) == Some(t)
    ensures var sig := OneProgram(p); Accepted(sig) && (DeclaredResults(sig) <==> p.res == t)
  {
    var sig := OneProgram(p);
    OneParam(sig, p);
    assert AcceptedProgram(sig, p);
    assert sig.programs["f"] == p;
  }

  /** The program is accepted, and the type of its body is the declared one. */
  lemma LeakingAccepted()
    ensures var sig := OneProgram(Leaking()); Accepted(sig) && DeclaredResults(sig)
  {
    var p := Leaking();
    var sig, y, xs := OneProgram(p), Var("y", 0), [Var("x", 1), Var("x", 2)];
    var args := [VSym(Decl("a")), VSym(Decl("b"))];
    ValueTyped(p);
    assert Pattern(sig, "T", "c", xs, y, args);
    LeakedSymbol(sig, "T", "c", xs, y, args, 0, 1);
    OneAccepted(p, Base(Decl("A")));
  }

  lemma BoundOne<K, V>(vals: map<K, V>, x: K, v: V)
    ensures Bound(vals, [x], [v]) == vals[x := v]
  {
    assert [x][1..] == [] && [v][1..] == [];
  }

  lemma OneParam(sig: Signature, p: Program)
    requires |p.params| == 1 && |p.types| == 1
    ensures var y := p.params[0];
            && Names(p.params) == [y.name] && ParamScope(p) == map[y.name := y]
            && ParamTable(sig, p) == sig.types[y.name := p.types[0]]
  {
    var y := p.params[0];
    assert Names(p.params) == [y.name] && p.params == [y] && p.types == [p.types[0]];
    BoundOne(map[], y.name, y);
    BoundOne(sig.types, y.name, p.types[0]);
  }

  lemma LeakingFull()
    ensures FullPrograms(OneProgram(Leaking()))
  {
    var sig, e := OneProgram(Leaking()), Leaking().body;
    assert FullCase(sig, e.first.cases[0]);
    assert FullPatterns(sig, e.first) && FullPatterns(sig, e);
  }

  /** The call is accepted at type A and returns the unbound symbol x. */
  lemma RepeatedNameFails()
    ensures var sig, e := OneProgram(Leaking()), Call();
            && Accepted(sig) && DeclaredResults(sig) && FullPrograms(sig) && DistinctNames(e) && FullPatterns(sig, e)
            && Accept(sig, e, map[], sig.types) == Some(Base(Decl("A")))
            && Eval(sig, e, map[], {}, 1).out == Done(VSym(Var("x", 1)))
            && !HasType(sig, VSym(Var("x", 1)), Base(Decl("A")))
  {
    LeakingAccepted();
    LeakingFull();
    CallAccepted(Leaking(), 1);
    var y, xs := Var("y", 0), [Var("x", 1), Var("x", 2)];
    LeakRun(OneProgram(Leaking()), "c", xs, y, [VSym(Decl("a")), VSym(Decl("b"))], xs[0]);
  }

  // ---------- declared results ----------

  /** (program f ((y T)) A y) */
  function Mistyped(): Program {
    Program([Var("y", 0)], [Base(Decl("T"))], Base(Decl("A")), Sym(Var("y", 0)))
  }

  lemma MistypedAccepted()
    ensures var sig := OneProgram(Mistyped()); Accepted(sig) && DistinctPrograms(sig) && FullPrograms(sig)
  {
    var p := Mistyped();
    var sig, y, t := OneProgram(p), Var("y", 0), Base(Decl("T"));
    assert Resolved(sig, p.body, map["y" := y]) && DistinctNames(p.body);
    AcceptIsTypeOf(sig, p.body, map["y" := y], sig.types["y" := t]);
    OneAccepted(p, t);
  }

  lemma ValueTyped(p: Program)
    ensures var sig, v := OneProgram(p), VApp("c", [VSym(Decl("a")), VSym(Decl("b"))]);
            HasType(sig, v, Base(Decl("T"))) && !HasType(sig, v, Base(Decl("A")))
  {
    var sig, args := OneProgram(p), [VSym(Decl("a")), VSym(Decl("b"))];
    var ts := sig.types["c"].params;
    assert HasType(sig, args[0], ts[0]) && HasType(sig, args[1], ts[1]);
  }

  /** The call (f (c a b)) is accepted at type A and returns a value of type T. */
  lemma WrongResultFails()
    ensures var sig, e, v := OneProgram(Mistyped()), Call(), VApp("c", [VSym(Decl("a")), VSym(Decl("b"))]);
            && Accepted(sig) && DistinctPrograms(sig) && FullPrograms(sig) && DistinctNames(e) && FullPatterns(sig, e)
            && Accept(sig, e, map[], sig.types) == Some(Base(Decl("A")))
            && Eval(sig, e, map[], {}, 1).out == Done(v)
            && HasType(sig, v, Base(Decl("T"))) && !HasType(sig, v, Base(Decl("A")))
  {
    MistypedAccepted();
    ValueTyped(Mistyped());
    CallAccepted(Mistyped(), 1);
  }

  /** The signature with another declared result of a program. */
  function Redeclared(sig: Signature, f: Name, t: Type): Signature
    requires f in sig.programs
  {
    sig.(programs := sig.programs[f := sig.programs[f].(res := t)])
  }

  /**
   If all is well typed and then another result type is declared for f, the values that f returns
   have the declared type if and only if it is the type of the body.
   */
  lemma DeclaredResultExact(sig: Signature, f: Name, t: Type, vs: seq<Value>, marks: Marks, fuel: nat)
    requires WellTyped(sig) && f in sig.programs && |vs| == |sig.programs[f].params|
    requires forall i :: 0 <= i < |vs| ==> HasType(sig, vs[i], sig.programs[f].types[i])
    ensures var p, sig' := sig.programs[f], Redeclared(sig, f, t);
            var out := Eval(sig', p.body, Bound(map[], p.params, vs), marks, fuel).out;
            out.Done? ==> (HasType(sig', out.v, t) <==> TypeOf(sig, p.body, ParamTable(sig, p)) == Some(t))
  {
    var p, sig' := sig.programs[f], Redeclared(sig, f, t);
    var env := Bound(map[], p.params, vs);
    PreservationCall(sig, p, vs, marks, fuel);
    MoreFuel(sig', sig, p.body, env, marks, fuel, fuel);
    var out := Eval(sig', p.body, env, marks, fuel).out;
    if out.Done? {
      SameTypes(sig, sig', out.v, t);
      SameTypes(sig, sig', out.v, p.res);
    }
  }

  lemma {:induction false} SameTypes(sig: Signature, sig': Signature, v: Value, t: Type)
    requires sig.types == sig'.types
    ensures HasType(sig, v, t) == HasType(sig', v, t)
  {
    if v.VApp? && v.head in sig.types && sig.types[v.head].Pi? && |sig.types[v.head].params| == |v.args| {
      forall i | 0 <= i < |v.args|
        ensures HasType(sig, v.args[i], sig.types[v.head].params[i]) ==
                HasType(sig', v.args[i], sig.types[v.head].params[i])
      {
        SameTypes(sig, sig', v.args[i], sig.types[v.head].params[i]);
      }
    }
  }

  // ---------- the commands ----------

  /**
   Checking a closed piece of code and then running it: a value has the computed
   type, and with full patterns nothing undefined happens.
   */
  method CheckAndRun(sig: Signature, e: Code, fuel: nat) returns (t: Option<Type>, out: Outcome)
    requires Accepted(sig) && DistinctPrograms(sig) && DeclaredResults(sig)
    requires DistinctNames(e) && Read(sig, e, map[]).Some?
    ensures t == Accept(sig, e, map[], sig.types)
    ensures t.Some? ==> out == Eval(sig, e, map[], {}, fuel).out
    ensures t.Some? ==> Fits(sig, out, t.value, FullPatterns(sig, e) && FullPrograms(sig))
  {
    AcceptedWellTyped(sig);
    ReadIsResolved(sig, e, map[]);
    ResolvedScoped(sig, e, map[], {});
    assert Kept(sig.types, map[], map[]) == sig.types;
    var checker := new Checker(sig, sig.types);
    t := checker.CheckCode(e);
    out := Failed;
    if t.Some? {
      var machine := new Machine(sig);
      out := machine.Run(e, fuel, map[], {});
      AcceptedPreservation(sig, e, map[], sig.types, map[], {}, fuel);
    }
  }
}
