/**
 The typing rules of side-condition code, one for each construct, with their conditions written out
 (check_code in proofs/lfsc_checker/code.cpp).  `LfscTyping.TypeOf` computes exactly the types that they give.
 */
module LfscJudgement {
  import opened Basics
  import opened LfscSyntax
  import opened LfscScope
  import opened LfscReader
  import opened LfscTyping
  import opened LfscChecker

  /** A data type: a declared name whose type is `type`, or that becomes a type when it is applied. */
  ghost predicate Data(g: Table, t: Type) {
    && t.Base? && t.sym.name in g
    && (g[t.sym.name].Kind? || (g[t.sym.name].Pi? && g[t.sym.name].res.Kind?))
  }

  ghost predicate Types(sig: Signature, e: Code, g: Table, t: Type)
    decreases e, 1
  {
    match e
    case Int(_) => t.Mpz?
    case Rat(_) => t.Mpq?
    case MpzType => t.Kind?
    case MpqType => t.Kind?
    case Sym(s) => s.name in g && g[s.name] == t
    case App(h, args) => exists ts :: ArgsType(sig, e, g, ts) && Result(sig, g, h, ts, t)
    case Do(a, b) => (exists u :: Types(sig, a, g, u)) && Types(sig, b, g, t)
    case Let(x, a, b) => exists u :: Types(sig, a, g, u) && Types(sig, b, g[x.name := u], t)
    case Arith(_, a, b) => (t.Mpz? || t.Mpq?) && Types(sig, a, g, t) && Types(sig, b, g, t)
    case Neg(a) => (t.Mpz? || t.Mpq?) && Types(sig, a, g, t)
    case IfSign(_, c, a, b) =>
      (Types(sig, c, g, Mpz) || Types(sig, c, g, Mpq)) && t.Base? && Types(sig, a, g, t) && Types(sig, b, g, t)
    case Fail(tp) =>
      || (tp.MpzType? && t.Mpz?)
      || (tp.MpqType? && t.Mpq?)
      || (tp.Sym? && tp.s.name in g && g[tp.s.name].Kind? && t == Base(tp.s))
    case MarkVar(_, a) => Data(g, t) && Types(sig, a, g, t)
    case IfMarked(_, c, a, b) =>
      (exists u :: Types(sig, c, g, u) && Data(g, u)) && t.Base? && Types(sig, a, g, t) && Types(sig, b, g, t)
    case Compare(l, r, a, b) =>
      && (exists u :: Types(sig, l, g, u) && u.Base?) && (exists u :: Types(sig, r, g, u) && u.Base?)
      && t.Base? && Types(sig, a, g, t) && Types(sig, b, g, t)
    case Match(c, cases) =>
      && (exists u :: Types(sig, c, g, u) && Data(g, u))
      && cases != [] && forall i :: 0 <= i < |cases| ==> CaseTypes(sig, cases[i], g, t)
  }

  /** The arguments have these types, one by one. */
  ghost predicate ArgsType(sig: Signature, e: Code, g: Table, ts: seq<Type>)
    requires e.App?
    decreases e, 0
  {
    |ts| == |e.args| && forall i :: 0 <= i < |ts| ==> Types(sig, e.args[i], g, ts[i])
  }

  /** A program, or else a declared symbol of function type, takes arguments of these types to a result of type t. */
  ghost predicate Result(sig: Signature, g: Table, h: Name, ts: seq<Type>, t: Type) {
    if h in sig.programs then sig.programs[h].types == ts && sig.programs[h].res == t
    else h in g && g[h] == Pi(ts, t)
  }

  /** The variables of a pattern have the types of the first parameters of its constructor. */
  ghost predicate CaseTypes(sig: Signature, k: Case, g: Table, t: Type)
    decreases k
  {
    match k
    case Default(b) => Types(sig, b, g, t)
    case Case(c, xs, b) =>
      if xs == [] then Types(sig, b, g, t)
      else
        && c in g && g[c].Pi? && |xs| <= |g[c].params|
        && Types(sig, b, Bound(g, Names(xs), g[c].params[..|xs|]), t)
  }

  // ---------- the computed type is the type that the rules give ----------

  ghost predicate Agree(sig: Signature, e: Code, g: Table) {
    forall t :: Types(sig, e, g, t) <==> TypeOf(sig, e, g) == Some(t)
  }

  lemma {:induction false} TypesIsTypeOf(sig: Signature, e: Code, g: Table)
    ensures Agree(sig, e, g)
    decreases e, 1
  {
    forall i | 0 <= i < |Kids(e)| ensures Agree(sig, Kids(e)[i], g) { TypesIsTypeOf(sig, Kids(e)[i], g); }
    if e.App? {
      AppTypes(sig, e, g);
    } else if e.Let? {
      assert Kids(e)[0] == e.bound;
      LetTypes(sig, e, g);
    } else if e.Match? {
      assert Kids(e)[0] == e.scrutinee;
      MatchTypes(sig, e, g);
    } else {
      PlainTypes(sig, e, g);
    }
  }

  lemma PlainTypes(sig: Signature, e: Code, g: Table)
    requires !e.App? && !e.Let? && !e.Match?
    requires forall i :: 0 <= i < |Kids(e)| ==> Agree(sig, Kids(e)[i], g)
    ensures Agree(sig, e, g)
  {
    var ks := Kids(e);
    if |ks| > 2 {
      ConditionalTypes(sig, e, g);
    } else {
      assert |ks| > 0 ==> Agree(sig, ks[0], g);
      assert |ks| > 1 ==> Agree(sig, ks[1], g);
    }
  }

  lemma ConditionalTypes(sig: Signature, e: Code, g: Table)
    requires e.IfSign? || e.IfMarked? || e.Compare?
    requires forall i :: 0 <= i < |Kids(e)| ==> Agree(sig, Kids(e)[i], g)
    ensures Agree(sig, e, g)
  {
    var ks := Kids(e);
    assert Agree(sig, ks[0], g) && Agree(sig, ks[1], g) && Agree(sig, ks[2], g);
    assert |ks| > 3 ==> Agree(sig, ks[3], g);
  }

  lemma AppTypes(sig: Signature, e: Code, g: Table)
    requires e.App? && forall i :: 0 <= i < |Kids(e)| ==> Agree(sig, Kids(e)[i], g)
    ensures Agree(sig, e, g)
  {
    var n, r := |e.args|, TypesOf(sig, e, |e.args|, g);
    forall ts | ArgsType(sig, e, g, ts) ensures r == Some(ts) { ArgsAgree(sig, e, n, g, ts); }
    if r.Some? {
      ArgsHave(sig, e, n, g);
      assert ArgsType(sig, e, g, r.value);
    }
  }

  lemma {:induction false} ArgsAgree(sig: Signature, e: Code, n: nat, g: Table, ts: seq<Type>)
    requires e.App? && n <= |e.args| && forall i :: 0 <= i < |Kids(e)| ==> Agree(sig, Kids(e)[i], g)
    requires |ts| == n && forall i :: 0 <= i < n ==> Types(sig, e.args[i], g, ts[i])
    ensures TypesOf(sig, e, n, g) == Some(ts)
  {
    if n > 0 {
      ArgsAgree(sig, e, n - 1, g, ts[..n - 1]);
      assert Agree(sig, Kids(e)[n - 1], g) && Types(sig, e.args[n - 1], g, ts[n - 1]);
      assert ts == ts[..n - 1] + [ts[n - 1]];
    }
  }

  lemma ArgsHave(sig: Signature, e: Code, n: nat, g: Table)
    requires e.App? && n <= |e.args| && forall i :: 0 <= i < |Kids(e)| ==> Agree(sig, Kids(e)[i], g)
    requires TypesOf(sig, e, n, g).Some?
    ensures forall i :: 0 <= i < n ==> Types(sig, e.args[i], g, TypesOf(sig, e, n, g).value[i])
  {
    var ts := TypesOf(sig, e, n, g).value;
    forall i | 0 <= i < n ensures Types(sig, e.args[i], g, ts[i]) {
      assert Agree(sig, Kids(e)[i], g) && TypeOf(sig, e.args[i], g) == Some(ts[i]);
    }
  }

  lemma LetTypes(sig: Signature, e: Code, g: Table)
    requires e.Let? && Agree(sig, e.bound, g)
    ensures Agree(sig, e, g)
    decreases e, 0
  {
    var u := TypeOf(sig, e.bound, g);
    if u.Some? {
      TypesIsTypeOf(sig, e.body, g[e.x.name := u.value]);
    }
  }

  lemma MatchTypes(sig: Signature, e: Code, g: Table)
    requires e.Match? && Agree(sig, e.scrutinee, g)
    ensures Agree(sig, e, g)
    decreases e, 0
  {
    CasesAgree(sig, e, |e.cases|, g);
  }

  ghost predicate CaseAgree(sig: Signature, k: Case, g: Table) {
    forall t :: CaseTypes(sig, k, g, t) <==> CaseType(sig, k, g) == Some(t)
  }

  lemma {:induction false} CasesAgree(sig: Signature, e: Code, n: nat, g: Table)
    requires e.Match? && n <= |e.cases|
    ensures forall t :: (n > 0 && forall i :: 0 <= i < n ==> CaseTypes(sig, e.cases[i], g, t)) <==>
                        CasesType(sig, e, n, g) == Some(t)
    decreases e, 0, n
  {
    if n > 0 {
      CasesAgree(sig, e, n - 1, g);
      CaseIsTyped(sig, e.cases[n - 1], g);
    }
  }

  lemma CaseIsTyped(sig: Signature, k: Case, g: Table)
    ensures CaseAgree(sig, k, g)
    decreases k
  {
    if k.Default? || k.vars == [] {
      TypesIsTypeOf(sig, k.body, g);
    } else if k.ctor in g && g[k.ctor].Pi? && |k.vars| <= |g[k.ctor].params| {
      TypesIsTypeOf(sig, k.body, Bound(g, Names(k.vars), g[k.ctor].params[..|k.vars|]));
    }
  }

  /**
   For code without repeated names, the checker on its table accepts exactly what the rules type, and
   restores the table.
   */
  lemma CheckedIsTyped(sig: Signature, e: Code, g: Table, t: Type)
    requires DistinctNames(e)
    ensures Types(sig, e, g, t) <==> Checked(sig, e, g) == Some((t, g))
    ensures Checked(sig, e, g).Some? <==> exists u :: Types(sig, e, g, u)
  {
    TypesIsTypeOf(sig, e, g);
    CheckedIsTypeOf(sig, e, g);
    var r := TypeOf(sig, e, g);
    assert Types(sig, e, g, t) <==> r == Some(t);
    if r.Some? {
      assert Types(sig, e, g, r.value);
    }
  }

  /** check_code on a symbol table. */
  method CheckTyped(sig: Signature, e: Code, g: Table) returns (t: Option<Type>)
    requires DistinctNames(e)
    ensures forall u :: t == Some(u) <==> Types(sig, e, g, u)
  {
    var checker := new Checker(sig, g);
    t := checker.CheckCode(e);
    forall u ensures t == Some(u) <==> Types(sig, e, g, u) {
      CheckedIsTyped(sig, e, g, u);
      CheckedIsTypeOf(sig, e, g);
    }
  }
}
