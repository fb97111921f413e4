/**
 Type checking of side-condition code: check_code (proofs/lfsc_checker/code.cpp).

 `TypeOf` computes the type in a symbol table that is a value; `Checker.CheckCode`
 works on a table that is updated in place and restored.
 */
module LfscTyping {
  import opened Basics
  import opened LfscSyntax
  import opened LfscScope

  type Table = map<Name, Type>

  /** A name whose type is `type`, or that yields one when applied. */
  predicate IsTypeName(g: Table, s: Name) {
    s in g && (g[s] == Kind || (g[s].Pi? && g[s].res == Kind))
  }

  predicate Numeric(t: Type) {
    t == Mpz || t == Mpq
  }

  /** The condition on the two branches of a conditional. */
  function Branches(t1: Option<Type>, t2: Option<Type>): Option<Type> {
    if t1.Some? && t1.value.Base? && t1 == t2 then t1 else None
  }

  /** The type of an application, given the type of its head and those of its arguments. */
  function Applied(head: Option<Type>, args: Option<seq<Type>>): Option<Type> {
    if head.Some? && head.value.Pi? && args.Some? && args.value == head.value.params then Some(head.value.res) else None
  }

  function HeadType(sig: Signature, g: Table, h: Name): Option<Type> {
    if h in sig.programs then Some(Pi(sig.programs[h].types, sig.programs[h].res))
    else if h in g then Some(g[h]) else None
  }

  /** The operand of fail as a type. */
  function TypeNamed(tp: Code): Option<Type> {
    match tp case Sym(s) => Some(Base(s)) case MpzType => Some(Mpz) case MpqType => Some(Mpq) case _ => None
  }

  function TypeOf(sig: Signature, e: Code, g: Table): Option<Type>
    decreases e, 1
  {
    match e
    case Int(_) => Some(Mpz)
    case Rat(_) => Some(Mpq)
    case Sym(s) => if s.name in g then Some(g[s.name]) else None
    case MpzType => Some(Kind)
    case MpqType => Some(Kind)
    case App(h, args) => Applied(HeadType(sig, g, h), TypesOf(sig, e, |args|, g))
    case Do(a, b) => if TypeOf(sig, a, g).None? then None else TypeOf(sig, b, g)
    case Let(x, a, b) =>
      var t := TypeOf(sig, a, g);
      if t.None? then None else TypeOf(sig, b, g[x.name := t.value])
    case Arith(_, a, b) =>
      var t1, t2 := TypeOf(sig, a, g), TypeOf(sig, b, g);
      if t1.Some? && Numeric(t1.value) && t1 == t2 then t1 else None
    case Neg(a) =>
      var t := TypeOf(sig, a, g);
      if t.Some? && Numeric(t.value) then t else None
    case IfSign(_, c, a, b) =>
      var t := TypeOf(sig, c, g);
      if t.Some? && Numeric(t.value) then Branches(TypeOf(sig, a, g), TypeOf(sig, b, g)) else None
    case Fail(tp) =>
      if TypeOf(sig, tp, g) == Some(Kind) then TypeNamed(tp) else None
    case MarkVar(_, a) =>
      var t := TypeOf(sig, a, g);
      if t.Some? && t.value.Base? && IsTypeName(g, t.value.sym.name) then t else None
    case IfMarked(_, c, a, b) =>
      var t := TypeOf(sig, c, g);
      if t.Some? && t.value.Base? && IsTypeName(g, t.value.sym.name)
      then Branches(TypeOf(sig, a, g), TypeOf(sig, b, g)) else None
    case Compare(l, r, a, b) =>
      var t1, t2 := TypeOf(sig, l, g), TypeOf(sig, r, g);
      if t1.Some? && t1.value.Base? && t2.Some? && t2.value.Base?
      then Branches(TypeOf(sig, a, g), TypeOf(sig, b, g)) else None
    case Match(c, cases) =>
      var t := TypeOf(sig, c, g);
      if t.Some? && t.value.Base? && IsTypeName(g, t.value.sym.name) then CasesType(sig, e, |cases|, g) else None
  }

  /** The types of the first n arguments of an application. */
  function TypesOf(sig: Signature, e: Code, n: nat, g: Table): (r: Option<seq<Type>>)
    requires e.App? && n <= |e.args|
    ensures r.Some? ==> |r.value| == n && forall i :: 0 <= i < n ==> TypeOf(sig, e.args[i], g) == Some(r.value[i])
    decreases e, 0, n
  {
    if n == 0 then Some([])
    else
      var ts, t := TypesOf(sig, e, n - 1, g), TypeOf(sig, e.args[n - 1], g);
      if ts.Some? && t.Some? then Some(ts.value + [t.value]) else None
  }

  function CaseType(sig: Signature, k: Case, g: Table): Option<Type>
    decreases k
  {
    match k
    case Default(b) => TypeOf(sig, b, g)
    case Case(c, xs, b) =>
      if xs == [] then TypeOf(sig, b, g)
      else if c in g && g[c].Pi? && |xs| <= |g[c].params| then TypeOf(sig, b, Bound(g, Names(xs), g[c].params[..|xs|]))
      else None
  }

  /** The common type of the first n cases. */
  function CasesType(sig: Signature, e: Code, n: nat, g: Table): (r: Option<Type>)
    requires e.Match? && n <= |e.cases|
    ensures r.Some? ==> n > 0 && forall i :: 0 <= i < n ==> CaseType(sig, e.cases[i], g) == r
    decreases e, 0, n
  {
    if n == 0 then None
    else
      var t := CaseType(sig, e.cases[n - 1], g);
      if n == 1 then t else if t.Some? && CasesType(sig, e, n - 1, g) == t then t else None
  }
}
