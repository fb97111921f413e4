/**
 A reference meaning for side-condition code: evaluation in an environment that
 is a value and is passed along, with lexical scoping of program bodies.  `fuel`
 bounds the depth of program calls.  Well-typed code yields values of its type.
 */
module LfscEval {
  import opened Basics
  import opened LfscSyntax
  import opened LfscScope
  import opened LfscTyping
  import opened LfscReader

  type Env = map<Symbol, Value>

  datatype Result = Result(out: Outcome, marks: Marks)

  datatype Results = Args(vs: seq<Value>, marks: Marks) | NoArgs(out: Outcome, marks: Marks)

  function Lookup(env: Env, s: Symbol): Value {
    if s in env then env[s] else VSym(s)
  }

  /** The first case that applies to a value: a default, or a case for the value's head. */
  function Selected(cases: seq<Case>, v: Value): (r: Option<nat>)
    ensures r.Some? ==> r.value < |cases| && (cases[r.value].Case? ==> HeadOf(v) == Some(Decl(cases[r.value].ctor)))
    decreases cases
  {
    if cases == [] then None
    else if cases[0].Default? || HeadOf(v) == Some(Decl(cases[0].ctor)) then Some(0)
    else
      var r := Selected(cases[1..], v);
      if r.None? then None else Some(r.value + 1)
  }

  function Eval(sig: Signature, e: Code, env: Env, marks: Marks, fuel: nat): Result
    decreases fuel, e, 1
  {
    match e
    case Int(n) => Result(Done(VInt(n)), marks)
    case Rat(q) => Result(Done(VRat(q)), marks)
    case Sym(s) => Result(Done(Lookup(env, s)), marks)
    case MpzType => Result(Failed, marks)
    case MpqType => Result(Failed, marks)
    case App(h, args) =>
      var r := EvalArgs(sig, e, |args|, env, marks, fuel);
      if r.NoArgs? then Result(r.out, r.marks)
      else if h !in sig.programs then Result(Done(BuildApp(h, r.vs)), r.marks)
      else
        var p := sig.programs[h];
        if |p.params| != |r.vs| then Result(Undefined, r.marks)
        else if fuel == 0 then Result(OutOfFuel, r.marks)
        else Eval(sig, p.body, Bound(map[], p.params, r.vs), r.marks, fuel - 1)
    case Do(a, b) =>
      var r := Eval(sig, a, env, marks, fuel);
      if r.out.Done? then Eval(sig, b, env, r.marks, fuel) else r
    case Let(x, a, b) =>
      var r := Eval(sig, a, env, marks, fuel);
      if r.out.Done? then Eval(sig, b, env[x := r.out.v], r.marks, fuel) else r
    case Arith(op, a, b) =>
      var r1 := Eval(sig, a, env, marks, fuel);
      if !r1.out.Done? then r1 else
      var r2 := Eval(sig, b, env, r1.marks, fuel);
      if !r2.out.Done? then r2 else Result(Arithmetic(op, r1.out.v, r2.out.v), r2.marks)
    case Neg(a) =>
      var r := Eval(sig, a, env, marks, fuel);
      if !r.out.Done? then r
      else if r.out.v.VInt? then Result(Done(VInt(-r.out.v.n)), r.marks)
      else if r.out.v.VRat? then Result(Done(VRat(-r.out.v.q)), r.marks)
      else Result(Failed, r.marks)
    case IfSign(test, c, a, b) =>
      var r := Eval(sig, c, env, marks, fuel);
      if !r.out.Done? then r
      else if Signed(test, r.out.v).None? then Result(Failed, r.marks)
      else Eval(sig, if Signed(test, r.out.v).value then a else b, env, r.marks, fuel)
    case Fail(_) => Result(Failed, marks)
    case MarkVar(i, a) =>
      var r := Eval(sig, a, env, marks, fuel);
      if !r.out.Done? then r
      else if r.out.v.VSym? then Result(r.out, Toggle(r.marks, r.out.v.s, i))
      else Result(Failed, r.marks)
    case IfMarked(i, c, a, b) =>
      var r := Eval(sig, c, env, marks, fuel);
      if !r.out.Done? then r
      else if r.out.v.VSym? then Eval(sig, if (r.out.v.s, i) in r.marks then a else b, env, r.marks, fuel)
      else Result(Failed, r.marks)
    case Compare(l, rt, a, b) =>
      var r1 := Eval(sig, l, env, marks, fuel);
      if !r1.out.Done? then r1
      else if !r1.out.v.VSym? then Result(Failed, r1.marks) else
      var r2 := Eval(sig, rt, env, r1.marks, fuel);
      if !r2.out.Done? then r2
      else if !r2.out.v.VSym? then Result(Failed, r2.marks)
      else Eval(sig, if sig.before(r1.out.v.s, r2.out.v.s) then a else b, env, r2.marks, fuel)
    case Match(c, cases) =>
      var r := Eval(sig, c, env, marks, fuel);
      if !r.out.Done? then r else
      var k := Selected(cases, r.out.v);
      if k.None? then Result(Failed, r.marks) else EvalCase(sig, cases[k.value], r.out.v, env, r.marks, fuel)
  }

  function EvalCase(sig: Signature, k: Case, v: Value, env: Env, marks: Marks, fuel: nat): Result
    decreases fuel, k
  {
    match k
    case Default(b) => Eval(sig, b, env, marks, fuel)
    case Case(_, xs, b) =>
      if |xs| != |ArgsOf(v)| then Result(Undefined, marks) else Eval(sig, b, Bound(env, xs, ArgsOf(v)), marks, fuel)
  }

  function NextArg(r: Results, q: Result): Results
    requires r.Args?
  {
    if q.out.Done? then Args(r.vs + [q.out.v], q.marks) else NoArgs(q.out, q.marks)
  }

  /** The first n arguments, from left to right. */
  function EvalArgs(sig: Signature, e: Code, n: nat, env: Env, marks: Marks, fuel: nat): (r: Results)
    requires e.App? && n <= |e.args|
    ensures r.Args? ==> |r.vs| == n
    ensures r.NoArgs? ==> !r.out.Done?
    decreases fuel, e, 0, n
  {
    if n == 0 then Args([], marks)
    else
      var r := EvalArgs(sig, e, n - 1, env, marks, fuel);
      if r.NoArgs? then r else
      NextArg(r, Eval(sig, e.args[n - 1], env, r.marks, fuel))
  }

  // ---------- type preservation ----------

  ghost predicate HasType(sig: Signature, v: Value, t: Type) {
    match v
    case VInt(_) => t == Mpz
    case VRat(_) => t == Mpq
    case VSym(s) => s.Decl? && s.name in sig.types && sig.types[s.name] == t
    case VApp(h, args) =>
      && h in sig.types && sig.types[h].Pi? && sig.types[h].res == t && |sig.types[h].params| == |args|
      && forall i :: 0 <= i < |args| ==> HasType(sig, args[i], sig.types[h].params[i])
  }

  /**
   The variables that names stand for have values of the types that the table gives to the
   names; other names have their declared types.
   */
  ghost predicate Models(sig: Signature, env: Env, g: Table, scope: Scope) {
    && (forall s :: s in env ==> s.Var?)
    && (forall n :: n in scope ==> VarOk(sig, env, g, scope, n))
    && (forall n :: n !in scope ==> Get(g, n) == Get(sig.types, n))
  }

  ghost predicate VarOk(sig: Signature, env: Env, g: Table, scope: Scope, n: Name)
    requires n in scope
  {
    var x := scope[n];
    x.name == n && x in env && n in g && HasType(sig, env[x], g[n])
  }

  /** Function types have parameters, program bodies check at their declared types, and names are apart. */
  ghost predicate WellTyped(sig: Signature) {
    && (forall c :: c in sig.types && sig.types[c].Pi? ==> sig.types[c].params != [])
    && (forall f :: f in sig.programs ==> f !in sig.types && ProgramOk(sig, sig.programs[f]))
  }

  ghost predicate ProgramOk(sig: Signature, p: Program) {
    && |p.types| == |p.params| > 0 && Distinct(p.params) && (forall x :: x in p.params ==> x.Var?)
    && Resolved(sig, p.body, ParamScope(p)) && TypeOf(sig, p.body, ParamTable(sig, p)) == Some(p.res)
  }

  ghost function ParamScope(p: Program): Scope {
    Bound(map[], Names(p.params), p.params)
  }

  ghost function ParamTable(sig: Signature, p: Program): Table
    requires |p.types| == |p.params|
  {
    Bound(sig.types, Names(p.params), p.types)
  }

  /** Every pattern names all arguments of its constructor. */
  ghost predicate FullPatterns(sig: Signature, e: Code) {
    match e
    case App(_, args) => forall a :: a in args ==> FullPatterns(sig, a)
    case Do(a, b) => FullPatterns(sig, a) && FullPatterns(sig, b)
    case Let(_, a, b) => FullPatterns(sig, a) && FullPatterns(sig, b)
    case Arith(_, a, b) => FullPatterns(sig, a) && FullPatterns(sig, b)
    case Neg(a) => FullPatterns(sig, a)
    case IfSign(_, c, a, b) => FullPatterns(sig, c) && FullPatterns(sig, a) && FullPatterns(sig, b)
    case MarkVar(_, a) => FullPatterns(sig, a)
    case IfMarked(_, c, a, b) => FullPatterns(sig, c) && FullPatterns(sig, a) && FullPatterns(sig, b)
    case Compare(l, r, a, b) => FullPatterns(sig, l) && FullPatterns(sig, r) && FullPatterns(sig, a)
      && FullPatterns(sig, b)
    case Match(c, cases) => FullPatterns(sig, c) && forall k :: k in cases ==> FullCase(sig, k)
    case _ => true
  }

  ghost predicate FullCase(sig: Signature, k: Case) {
    && FullPatterns(sig, k.body)
    && (k.Case? && k.ctor in sig.types ==> |k.vars| == if sig.types[k.ctor].Pi? then |sig.types[k.ctor].params| else 0)
  }

  ghost predicate FullPrograms(sig: Signature) {
    forall f :: f in sig.programs ==> FullPatterns(sig, sig.programs[f].body)
  }

  /** Binding variables to values of their types keeps environment, table and scope in step. */
  lemma {:induction false} BoundModels(sig: Signature, env: Env, g: Table, scope: Scope, xs: seq<Symbol>,
    vs: seq<Value>, ts: seq<Type>)
    requires Models(sig, env, g, scope) && |xs| == |vs| == |ts|
    requires forall x :: x in xs ==> x.Var?
    requires forall i :: 0 <= i < |vs| ==> HasType(sig, vs[i], ts[i])
    ensures Models(sig, Bound(env, xs, vs), Bound(g, Names(xs), ts), Bound(scope, Names(xs), xs))
    decreases xs
  {
    if xs != [] {
      var x := xs[0];
      BindModels(sig, env, g, scope, x, vs[0], ts[0]);
      BoundModels(sig, env[x := vs[0]], g[x.name := ts[0]], scope[x.name := x], xs[1..], vs[1..], ts[1..]);
      assert Names(xs)[1..] == Names(xs[1..]);
    }
  }

  lemma BindModels(sig: Signature, env: Env, g: Table, scope: Scope, x: Symbol, v: Value, t: Type)
    requires Models(sig, env, g, scope) && x.Var? && HasType(sig, v, t)
    ensures Models(sig, env[x := v], g[x.name := t], scope[x.name := x])
  {
    var env', g', scope' := env[x := v], g[x.name := t], scope[x.name := x];
    forall n | n in scope' ensures VarOk(sig, env', g', scope', n) {
      assert n != x.name ==> VarOk(sig, env, g, scope, n);
    }
  }

  ghost predicate Typed(sig: Signature, e: Code, env: Env, g: Table, scope: Scope) {
    WellTyped(sig) && Models(sig, env, g, scope) && Resolved(sig, e, scope) && TypeOf(sig, e, g).Some?
  }

  /** An outcome that fits type t; `full` says that no undefined behaviour is allowed for. */
  ghost predicate Fits(sig: Signature, out: Outcome, t: Type, full: bool) {
    && (out.Done? ==> HasType(sig, out.v, t))
    && (full ==> out != Undefined)
  }

  ghost predicate ArgsFit(sig: Signature, r: Results, ts: seq<Type>, full: bool) {
    && (r.Args? ==> |r.vs| == |ts| && forall i :: 0 <= i < |ts| ==> HasType(sig, r.vs[i], ts[i]))
    && (r.NoArgs? && full ==> r.out != Undefined)
  }

  ghost predicate Preserved(sig: Signature, e: Code, env: Env, g: Table, marks: Marks, fuel: nat)
    requires TypeOf(sig, e, g).Some?
  {
    Fits(sig, Eval(sig, e, env, marks, fuel).out, TypeOf(sig, e, g).value, FullPatterns(sig, e) && FullPrograms(sig))
  }

  /**
   Type preservation: if code checks at type t and returns a value, the value has
   type t.  If moreover all patterns are full, running the code is never undefined.
   */
  lemma {:induction false} Preservation(sig: Signature, e: Code, env: Env, g: Table, scope: Scope, marks: Marks,
    fuel: nat)
    requires Typed(sig, e, env, g, scope)
    ensures Preserved(sig, e, env, g, marks, fuel)
    decreases fuel, e, 1
  {
    match e
    case Int(_) =>
    case Rat(_) =>
    case Sym(_) =>
    case MpzType =>
    case MpqType =>
    case Fail(_) =>
    case App(_, _) => PreservationApp(sig, e, env, g, scope, marks, fuel);
    case Match(_, _) => PreservationMatch(sig, e, env, g, scope, marks, fuel);
    case Do(_, _) => PreservationDo(sig, e, env, g, scope, marks, fuel);
    case Let(_, _, _) => PreservationLet(sig, e, env, g, scope, marks, fuel);
    case Arith(_, _, _) => PreservationArith(sig, e, env, g, scope, marks, fuel);
    case Neg(_) => PreservationNeg(sig, e, env, g, scope, marks, fuel);
    case MarkVar(_, _) => PreservationMarkVar(sig, e, env, g, scope, marks, fuel);
    case IfSign(_, _, _, _) => PreservationIfSign(sig, e, env, g, scope, marks, fuel);
    case IfMarked(_, _, _, _) => PreservationIfMarked(sig, e, env, g, scope, marks, fuel);
    case Compare(_, _, _, _) => PreservationCompare(sig, e, env, g, scope, marks, fuel);
  }

  lemma PreservationDo(sig: Signature, e: Code, env: Env, g: Table, scope: Scope, marks: Marks, fuel: nat)
    requires e.Do? && Typed(sig, e, env, g, scope)
    ensures Preserved(sig, e, env, g, marks, fuel)
    decreases fuel, e, 0
  {
    assert Kids(e)[0] == e.first && Kids(e)[1] == e.second;
    Preservation(sig, e.first, env, g, scope, marks, fuel);
    Preservation(sig, e.second, env, g, scope, Eval(sig, e.first, env, marks, fuel).marks, fuel);
  }

  lemma PreservationLet(sig: Signature, e: Code, env: Env, g: Table, scope: Scope, marks: Marks, fuel: nat)
    requires e.Let? && Typed(sig, e, env, g, scope)
    ensures Preserved(sig, e, env, g, marks, fuel)
    decreases fuel, e, 0
  {
    assert Kids(e)[0] == e.bound;
    Preservation(sig, e.bound, env, g, scope, marks, fuel);
    var r, t := Eval(sig, e.bound, env, marks, fuel), TypeOf(sig, e.bound, g).value;
    if r.out.Done? {
      BindModels(sig, env, g, scope, e.x, r.out.v, t);
      Preservation(sig, e.body, env[e.x := r.out.v], g[e.x.name := t], scope[e.x.name := e.x], r.marks, fuel);
    }
  }

  lemma PreservationArith(sig: Signature, e: Code, env: Env, g: Table, scope: Scope, marks: Marks, fuel: nat)
    requires e.Arith? && Typed(sig, e, env, g, scope)
    ensures Preserved(sig, e, env, g, marks, fuel)
    decreases fuel, e, 0
  {
    assert Kids(e)[0] == e.left && Kids(e)[1] == e.right;
    Preservation(sig, e.left, env, g, scope, marks, fuel);
    Preservation(sig, e.right, env, g, scope, Eval(sig, e.left, env, marks, fuel).marks, fuel);
  }

  lemma PreservationNeg(sig: Signature, e: Code, env: Env, g: Table, scope: Scope, marks: Marks, fuel: nat)
    requires e.Neg? && Typed(sig, e, env, g, scope)
    ensures Preserved(sig, e, env, g, marks, fuel)
    decreases fuel, e, 0
  {
    assert Kids(e)[0] == e.arg;
    Preservation(sig, e.arg, env, g, scope, marks, fuel);
  }

  lemma PreservationMarkVar(sig: Signature, e: Code, env: Env, g: Table, scope: Scope, marks: Marks, fuel: nat)
    requires e.MarkVar? && Typed(sig, e, env, g, scope)
    ensures Preserved(sig, e, env, g, marks, fuel)
    decreases fuel, e, 0
  {
    assert Kids(e)[0] == e.subject;
    Preservation(sig, e.subject, env, g, scope, marks, fuel);
  }

  lemma PreservationIfSign(sig: Signature, e: Code, env: Env, g: Table, scope: Scope, marks: Marks, fuel: nat)
    requires e.IfSign? && Typed(sig, e, env, g, scope)
    ensures Preserved(sig, e, env, g, marks, fuel)
    decreases fuel, e, 0
  {
    assert Kids(e)[0] == e.cond && Kids(e)[1] == e.yes && Kids(e)[2] == e.no;
    Preservation(sig, e.cond, env, g, scope, marks, fuel);
    var m := Eval(sig, e.cond, env, marks, fuel).marks;
    Preservation(sig, e.yes, env, g, scope, m, fuel);
    Preservation(sig, e.no, env, g, scope, m, fuel);
  }

  lemma PreservationIfMarked(sig: Signature, e: Code, env: Env, g: Table, scope: Scope, marks: Marks, fuel: nat)
    requires e.IfMarked? && Typed(sig, e, env, g, scope)
    ensures Preserved(sig, e, env, g, marks, fuel)
    decreases fuel, e, 0
  {
    assert Kids(e)[0] == e.subject && Kids(e)[1] == e.yes && Kids(e)[2] == e.no;
    Preservation(sig, e.subject, env, g, scope, marks, fuel);
    var m := Eval(sig, e.subject, env, marks, fuel).marks;
    Preservation(sig, e.yes, env, g, scope, m, fuel);
    Preservation(sig, e.no, env, g, scope, m, fuel);
  }

  lemma PreservationCompare(sig: Signature, e: Code, env: Env, g: Table, scope: Scope, marks: Marks, fuel: nat)
    requires e.Compare? && Typed(sig, e, env, g, scope)
    ensures Preserved(sig, e, env, g, marks, fuel)
    decreases fuel, e, 0
  {
    assert Kids(e)[0] == e.left && Kids(e)[1] == e.right && Kids(e)[2] == e.yes && Kids(e)[3] == e.no;
    Preservation(sig, e.left, env, g, scope, marks, fuel);
    var r1 := Eval(sig, e.left, env, marks, fuel);
    if r1.out.Done? && r1.out.v.VSym? {
      Preservation(sig, e.right, env, g, scope, r1.marks, fuel);
      var r2 := Eval(sig, e.right, env, r1.marks, fuel);
      if r2.out.Done? && r2.out.v.VSym? {
        var b := if sig.before(r1.out.v.s, r2.out.v.s) then e.yes else e.no;
        assert Eval(sig, e, env, marks, fuel) == Eval(sig, b, env, r2.marks, fuel);
        assert TypeOf(sig, b, g) == TypeOf(sig, e, g);
        Preservation(sig, b, env, g, scope, r2.marks, fuel);
      }
    }
  }

  lemma PreservationArgs(sig: Signature, e: Code, n: nat, env: Env, g: Table, scope: Scope, marks: Marks, fuel: nat)
    requires e.App? && n <= |e.args| && Typed(sig, e, env, g, scope)
    requires TypesOf(sig, e, n, g).Some?
    ensures ArgsFit(sig, EvalArgs(sig, e, n, env, marks, fuel), TypesOf(sig, e, n, g).value,
                    FullPatterns(sig, e) && FullPrograms(sig))
    decreases fuel, e, 0, n
  {
    if n > 0 {
      var a, ts := e.args[n - 1], TypesOf(sig, e, n, g).value;
      assert TypesOf(sig, e, n - 1, g) == Some(ts[..n - 1]) && TypeOf(sig, a, g) == Some(ts[n - 1]);
      PreservationArgs(sig, e, n - 1, env, g, scope, marks, fuel);
      var r := EvalArgs(sig, e, n - 1, env, marks, fuel);
      if r.Args? {
        assert a in e.args && Kids(e)[n - 1] == a;
        Preservation(sig, a, env, g, scope, r.marks, fuel);
        ArgsFitNext(sig, r, Eval(sig, a, env, r.marks, fuel), ts, FullPatterns(sig, e) && FullPrograms(sig));
      }
    }
  }

  lemma ArgsFitNext(sig: Signature, r: Results, q: Result, ts: seq<Type>, full: bool)
    requires r.Args? && ts != [] && ArgsFit(sig, r, ts[..|ts| - 1], full) && Fits(sig, q.out, ts[|ts| - 1], full)
    ensures ArgsFit(sig, NextArg(r, q), ts, full)
  {
  }

  lemma PreservationApp(sig: Signature, e: Code, env: Env, g: Table, scope: Scope, marks: Marks, fuel: nat)
    requires e.App? && Typed(sig, e, env, g, scope)
    ensures Preserved(sig, e, env, g, marks, fuel)
    decreases fuel, e, 0
  {
    var ts := TypesOf(sig, e, |e.args|, g).value;
    PreservationArgs(sig, e, |e.args|, env, g, scope, marks, fuel);
    var r := EvalArgs(sig, e, |e.args|, env, marks, fuel);
    if r.Args? && e.head in sig.programs {
      var p := sig.programs[e.head];
      assert ProgramOk(sig, p) && p.types == ts && TypeOf(sig, e, g) == Some(p.res);
      if fuel > 0 {
        PreservationCall(sig, p, r.vs, r.marks, fuel - 1);
      }
    } else if r.Args? {
      assert g[e.head] == sig.types[e.head] && TypeOf(sig, e, g) == Some(sig.types[e.head].res);
      assert HasType(sig, VApp(e.head, r.vs), sig.types[e.head].res);
    }
  }

  /** A program that is called with values of its parameter types. */
  lemma PreservationCall(sig: Signature, p: Program, vs: seq<Value>, marks: Marks, fuel: nat)
    requires WellTyped(sig) && ProgramOk(sig, p) && |vs| == |p.params|
    requires forall i :: 0 <= i < |vs| ==> HasType(sig, vs[i], p.types[i])
    ensures Fits(sig, Eval(sig, p.body, Bound(map[], p.params, vs), marks, fuel).out, p.res,
                 FullPatterns(sig, p.body) && FullPrograms(sig))
    decreases fuel, p.body, 2
  {
    BoundModels(sig, map[], sig.types, map[], p.params, vs, p.types);
    Preservation(sig, p.body, Bound(map[], p.params, vs), ParamTable(sig, p), ParamScope(p), marks, fuel);
  }

  lemma PreservationMatch(sig: Signature, e: Code, env: Env, g: Table, scope: Scope, marks: Marks, fuel: nat)
    requires e.Match? && Typed(sig, e, env, g, scope)
    ensures Preserved(sig, e, env, g, marks, fuel)
    decreases fuel, e, 0
  {
    assert Kids(e)[0] == e.scrutinee;
    Preservation(sig, e.scrutinee, env, g, scope, marks, fuel);
    var r := Eval(sig, e.scrutinee, env, marks, fuel);
    if r.out.Done? {
      var i := Selected(e.cases, r.out.v);
      if i.Some? {
        var k := e.cases[i.value];
        assert k in e.cases;
        PreservationCase(sig, e, k, r.out.v, TypeOf(sig, e.scrutinee, g).value, env, g, scope, r.marks, fuel);
      }
    }
  }

  lemma PreservationCase(sig: Signature, e: Code, k: Case, v: Value, t: Type, env: Env, g: Table, scope: Scope,
    marks: Marks, fuel: nat)
    requires k < e && WellTyped(sig) && Models(sig, env, g, scope) && ResolvedCase(sig, k, scope)
    requires CaseType(sig, k, g).Some? && HasType(sig, v, t) && t.Base?
    requires k.Case? ==> HeadOf(v) == Some(Decl(k.ctor))
    ensures Fits(sig, EvalCase(sig, k, v, env, marks, fuel).out, CaseType(sig, k, g).value, FullCase(sig, k)
            && FullPrograms(sig))
    decreases fuel, k
  {
    match k
    case Default(b) => Preservation(sig, b, env, g, scope, marks, fuel);
    case Case(c, xs, b) =>
      var vs := ArgsOf(v);
      if |xs| == |vs| {
        if xs == [] {
          assert Names(xs) == [];
          Preservation(sig, b, env, g, scope, marks, fuel);
        } else {
          var ts := g[c].params[..|xs|];
          BoundModels(sig, env, g, scope, xs, vs, ts);
          Preservation(sig, b, Bound(env, xs, vs), Bound(g, Names(xs), ts), Bound(scope, Names(xs), xs), marks, fuel);
        }
      }
  }
}
