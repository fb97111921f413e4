/**
 check_code (proofs/lfsc_checker/code.cpp) on its symbol table, which it extends by name
 and in place for let and match.  It puts back what it found in the order in which it
 overwrote it, so the table is restored unless a pattern repeats a variable name.
 */
module LfscChecker {
  import opened Basics
  import opened LfscSyntax
  import opened LfscScope
  import opened LfscTyping
  import opened LfscReader

  /** A type and the symbol table afterwards; None where the original reports an error and exits. */
  type Verdict = Option<(Type, Table)>

  function WithTable(t: Option<Type>, g: Table): Verdict {
    if t.Some? then Some((t.value, g)) else None
  }

  /** What check_code does to a symbol table that is passed along. */
  function Checked(sig: Signature, e: Code, g: Table): Verdict
    decreases e, 2
  {
    match e
    case Int(_) => Some((Mpz, g))
    case Rat(_) => Some((Mpq, g))
    case Sym(s) => WithTable(Get(g, s.name), g)
    case MpzType => Some((Kind, g))
    case MpqType => Some((Kind, g))
    case App(h, args) =>
      var r := CheckedArgs(sig, e, |args|, g);
      if r.None? then None else WithTable(Applied(HeadType(sig, r.value.1, h), Some(r.value.0)), r.value.1)
    case Do(a, b) =>
      var r := Checked(sig, a, g);
      if r.None? then None else Checked(sig, b, r.value.1)
    case Let(x, a, b) =>
      var r := Checked(sig, a, g);
      if r.None? then None else
      var q := Checked(sig, b, r.value.1[x.name := r.value.0]);
      if q.None? then None else Some((q.value.0, Put(q.value.1, x.name, Get(r.value.1, x.name))))
    case Arith(_, a, b) =>
      var r := Checked(sig, a, g);
      if r.None? then None else
      var q := Checked(sig, b, r.value.1);
      if q.Some? && Numeric(r.value.0) && r.value.0 == q.value.0 then q else None
    case Neg(a) =>
      var r := Checked(sig, a, g);
      if r.Some? && Numeric(r.value.0) then r else None
    case IfSign(_, c, a, b) =>
      var r := Checked(sig, c, g);
      if r.Some? && Numeric(r.value.0) then CheckedBranches(sig, e, a, b, r.value.1) else None
    case Fail(tp) =>
      var r := Checked(sig, tp, g);
      if r.None? || r.value.0 != Kind then None else WithTable(TypeNamed(tp), r.value.1)
    case MarkVar(_, a) =>
      var r := Checked(sig, a, g);
      if r.Some? && r.value.0.Base? && IsTypeName(r.value.1, r.value.0.sym.name) then r else None
    case IfMarked(_, c, a, b) =>
      var r := Checked(sig, c, g);
      if r.Some? && r.value.0.Base? && IsTypeName(r.value.1, r.value.0.sym.name)
      then CheckedBranches(sig, e, a, b, r.value.1) else None
    case Compare(l, r, a, b) =>
      var q := Checked(sig, l, g);
      if q.None? || !q.value.0.Base? then None else
      var p := Checked(sig, r, q.value.1);
      if p.None? || !p.value.0.Base? then None else CheckedBranches(sig, e, a, b, p.value.1)
    case Match(c, cases) =>
      var r := Checked(sig, c, g);
      if r.Some? && r.value.0.Base? && IsTypeName(r.value.1, r.value.0.sym.name)
      then CheckedCases(sig, e, |cases|, r.value.1) else None
  }

  function CheckedBranches(sig: Signature, ghost e: Code, a: Code, b: Code, g: Table): Verdict
    requires a < e && b < e
    decreases e, 0
  {
    var r := Checked(sig, a, g);
    if r.None? then None else
    var q := Checked(sig, b, r.value.1);
    if q.Some? && Branches(Some(r.value.0), Some(q.value.0)).Some? then q else None
  }

  function CheckedArgs(sig: Signature, e: Code, n: nat, g: Table): (r: Option<(seq<Type>, Table)>)
    requires e.App? && n <= |e.args|
    ensures r.Some? ==> |r.value.0| == n
    decreases e, 0, n
  {
    if n == 0 then Some(([], g))
    else
      var r := CheckedArgs(sig, e, n - 1, g);
      if r.None? then None else
      var q := Checked(sig, e.args[n - 1], r.value.1);
      if q.None? then None else Some((r.value.0 + [q.value.0], q.value.1))
  }

  /** The common type of the first n cases. */
  function CheckedCases(sig: Signature, e: Code, n: nat, g: Table): Verdict
    requires e.Match? && n <= |e.cases|
    decreases e, 0, n
  {
    if n == 0 then None
    else if n == 1 then CheckedCase(sig, e.cases[0], g)
    else
      var r := CheckedCases(sig, e, n - 1, g);
      if r.None? then None else
      var q := CheckedCase(sig, e.cases[n - 1], r.value.1);
      if q.Some? && q.value.0 == r.value.0 then q else None
  }

  function CheckedCase(sig: Signature, k: Case, g: Table): Verdict
    decreases k
  {
    if k.Default? || k.vars == [] then Checked(sig, k.body, g)
    else if k.ctor !in g || !g[k.ctor].Pi? || |k.vars| > |g[k.ctor].params| then None
    else
      var xs, ts := Names(k.vars), g[k.ctor].params[..|k.vars|];
      var r := Checked(sig, k.body, Bound(g, xs, ts));
      if r.None? then None else Some((r.value.0, PutBack(r.value.1, xs, Olds(g, xs, ts))))
  }

  // ---------- without repeated names the table is restored ----------

  /** Code without repeated names in patterns has its declarative type, and the table is as it was. */
  lemma {:induction false} CheckedIsTypeOf(sig: Signature, e: Code, g: Table)
    requires DistinctNames(e)
    ensures Checked(sig, e, g) == WithTable(TypeOf(sig, e, g), g)
    decreases e, 2
  {
    if e.App? {
      CheckedArgsTypes(sig, e, |e.args|, g);
    } else if e.Let? {
      CheckedLet(sig, e, g);
    } else if e.Match? {
      assert Kids(e)[0] == e.scrutinee;
      CheckedIsTypeOf(sig, e.scrutinee, g);
      CheckedCasesType(sig, e, |e.cases|, g);
    } else {
      forall i | 0 <= i < |Kids(e)| ensures Restores(sig, Kids(e)[i], g) { CheckedIsTypeOf(sig, Kids(e)[i], g); }
      CheckedPlain(sig, e, g);
    }
  }

  ghost predicate Restores(sig: Signature, e: Code, g: Table) {
    Checked(sig, e, g) == WithTable(TypeOf(sig, e, g), g)
  }

  lemma CheckedLet(sig: Signature, e: Code, g: Table)
    requires e.Let? && DistinctNames(e)
    ensures Restores(sig, e, g)
    decreases e, 1
  {
    assert Kids(e)[0] == e.bound;
    CheckedIsTypeOf(sig, e.bound, g);
    var t := TypeOf(sig, e.bound, g);
    if t.Some? {
      CheckedIsTypeOf(sig, e.body, g[e.x.name := t.value]);
      assert Put(g[e.x.name := t.value], e.x.name, Get(g, e.x.name)) == g;
    }
  }

  /** Code that binds no names. */
  lemma CheckedPlain(sig: Signature, e: Code, g: Table)
    requires !e.App? && !e.Let? && !e.Match?
    requires forall i :: 0 <= i < |Kids(e)| ==> Restores(sig, Kids(e)[i], g)
    ensures Restores(sig, e, g)
  {
    match e
    case IfSign(_, _, a, b) => CheckedConditional(sig, e, 1, a, b, g);
    case IfMarked(_, _, a, b) => CheckedConditional(sig, e, 1, a, b, g);
    case Compare(_, _, a, b) => CheckedConditional(sig, e, 2, a, b, g);
    case Do(_, _) => assert Restores(sig, Kids(e)[0], g) && Restores(sig, Kids(e)[1], g);
    case Arith(_, _, _) => assert Restores(sig, Kids(e)[0], g) && Restores(sig, Kids(e)[1], g);
    case Neg(_) => assert Restores(sig, Kids(e)[0], g);
    case Fail(_) => assert Restores(sig, Kids(e)[0], g);
    case MarkVar(_, _) => assert Restores(sig, Kids(e)[0], g);
    case _ =>
  }

  /** Conditionals with n tests. */
  lemma CheckedConditional(sig: Signature, e: Code, n: nat, a: Code, b: Code, g: Table)
    requires e.IfSign? || e.IfMarked? || e.Compare?
    requires n == (if e.Compare? then 2 else 1) && a == Kids(e)[n] && b == Kids(e)[n + 1]
    requires forall i :: 0 <= i < |Kids(e)| ==> Restores(sig, Kids(e)[i], g)
    ensures Restores(sig, e, g)
  {
    assert Restores(sig, Kids(e)[0], g);
    assert e.Compare? ==> Restores(sig, Kids(e)[1], g);
    CheckedBranchesType(sig, e, a, b, g);
  }

  lemma CheckedBranchesType(sig: Signature, e: Code, a: Code, b: Code, g: Table)
    requires a < e && b < e && Restores(sig, a, g) && Restores(sig, b, g)
    ensures CheckedBranches(sig, e, a, b, g) == WithTable(Branches(TypeOf(sig, a, g), TypeOf(sig, b, g)), g)
  {
  }

  lemma {:induction false} CheckedArgsTypes(sig: Signature, e: Code, n: nat, g: Table)
    requires e.App? && n <= |e.args| && DistinctNames(e)
    ensures var ts := TypesOf(sig, e, n, g); CheckedArgs(sig, e, n, g) == if ts.Some? then Some((ts.value, g)) else None
    decreases e, 0, n
  {
    if n > 0 {
      CheckedArgsTypes(sig, e, n - 1, g);
      assert Kids(e)[n - 1] == e.args[n - 1];
      CheckedIsTypeOf(sig, e.args[n - 1], g);
    }
  }

  lemma {:induction false} CheckedCasesType(sig: Signature, e: Code, n: nat, g: Table)
    requires e.Match? && n <= |e.cases| && DistinctNames(e)
    ensures CheckedCases(sig, e, n, g) == WithTable(CasesType(sig, e, n, g), g)
    decreases e, 0, n
  {
    if n > 0 {
      CheckedCasesType(sig, e, n - 1, g);
      CheckedCaseType(sig, e.cases[n - 1], g);
    }
  }

  lemma {:induction false} CheckedCaseType(sig: Signature, k: Case, g: Table)
    requires DistinctCase(k)
    ensures CheckedCase(sig, k, g) == WithTable(CaseType(sig, k, g), g)
    decreases k
  {
    if k.Default? || k.vars == [] {
      CheckedIsTypeOf(sig, k.body, g);
    } else if k.ctor in g && g[k.ctor].Pi? && |k.vars| <= |g[k.ctor].params| {
      var xs, ts := Names(k.vars), g[k.ctor].params[..|k.vars|];
      CheckedIsTypeOf(sig, k.body, Bound(g, xs, ts));
      PutBackBound(g, xs, ts);
    }
  }

  /** The check of a case for these variables puts the table back as it was. */
  ghost predicate CaseRestores(sig: Signature, k: Case, g: Table) {
    var r := CheckedCase(sig, k, g);
    r.Some? ==> r.value.1 == g
  }

  /** The check of a case restores every table, for every body that does so itself, exactly if no name is repeated. */
  lemma CaseRestoresExact(sig: Signature, c: Name, xs: seq<Symbol>)
    ensures (forall b, g :: DistinctNames(b) ==> CaseRestores(sig, Case(c, xs, b), g)) <==> Distinct(Names(xs))
  {
    if Distinct(Names(xs)) {
      forall b, g | DistinctNames(b) ensures CaseRestores(sig, Case(c, xs, b), g) {
        CheckedCaseType(sig, Case(c, xs, b), g);
      }
    } else {
      var i, j := Repeated(Names(xs));
      var ts := seq(|xs|, n => Mpz);
      var g: Table := map[c := Pi(ts, Kind)];
      var b := Int(0);
      assert ts[..|xs|] == ts;
      DuplicateLeaks(Bound(g, Names(xs), ts), g, Names(xs), ts, i, j);
      var k := Case(c, xs, b);
      assert CheckedCase(sig, k, g) == Some((Mpz, PutBack(Bound(g, Names(xs), ts), Names(xs), Olds(g, Names(xs), ts))));
      assert DistinctNames(b) && !CaseRestores(sig, k, g);
    }
  }

  // ---------- the checker in place ----------

  lemma {:induction false} CheckedArgsFails(sig: Signature, e: Code, i: nat, n: nat, g: Table)
    requires e.App? && i <= n <= |e.args| && CheckedArgs(sig, e, i, g).None?
    ensures CheckedArgs(sig, e, n, g).None?
    decreases n - i
  {
    if i < n {
      CheckedArgsFails(sig, e, i, n - 1, g);
    }
  }

  lemma {:induction false} CheckedCasesFails(sig: Signature, e: Code, i: nat, n: nat, g: Table)
    requires e.Match? && 1 <= i <= n <= |e.cases| && CheckedCases(sig, e, i, g).None?
    ensures CheckedCases(sig, e, n, g).None?
    decreases n - i
  {
    if i < n {
      CheckedCasesFails(sig, e, i, n - 1, g);
    }
  }

  class Checker {
    const sig: Signature
    var table: Table

    constructor (sig: Signature, table: Table)
      ensures this.sig == sig && this.table == table
    {
      this.sig := sig;
      this.table := table;
    }

    /** For all code: the type, and the table with what repeated names leave in it. */
    method CheckCode(e: Code) returns (t: Option<Type>)
      modifies this`table
      ensures WithTable(t, table) == Checked(sig, e, old(table))
      decreases e, 2
    {
      match e {
        case Int(_) => t := Some(Mpz);
        case Rat(_) => t := Some(Mpq);
        case Sym(s) => t := Get(table, s.name);
        case MpzType => t := Some(Kind);
        case MpqType => t := Some(Kind);
        case App(_, _) => t := CheckApp(e);
        case Match(_, _) => t := CheckMatch(e);
        case Let(_, _, _) => t := CheckLet(e);
        case Do(a, b) =>
          t := CheckCode(a);
          if t.Some? {
            t := CheckCode(b);
          }
        case Arith(_, a, b) =>
          t := CheckCode(a);
          if t.Some? {
            var t2 := CheckCode(b);
            t := if Numeric(t.value) && t == t2 then t else None;
          }
        case Neg(a) =>
          t := CheckCode(a);
          t := if t.Some? && Numeric(t.value) then t else None;
        case IfSign(_, c, a, b) =>
          t := CheckCode(c);
          if t.Some? && Numeric(t.value) {
            t := CheckBranches(e, a, b);
          } else {
            t := None;
          }
        case Fail(tp) =>
          t := CheckCode(tp);
          t := if t == Some(Kind) then TypeNamed(tp) else None;
        case MarkVar(_, a) =>
          t := CheckCode(a);
          t := if t.Some? && t.value.Base? && IsTypeName(table, t.value.sym.name) then t else None;
        case IfMarked(_, c, a, b) =>
          t := CheckCode(c);
          if t.Some? && t.value.Base? && IsTypeName(table, t.value.sym.name) {
            t := CheckBranches(e, a, b);
          } else {
            t := None;
          }
        case Compare(_, _, _, _) => t := CheckCompare(e);
      }
    }

    method CheckBranches(ghost e: Code, a: Code, b: Code) returns (t: Option<Type>)
      requires a < e && b < e
      modifies this`table
      ensures WithTable(t, table) == CheckedBranches(sig, e, a, b, old(table))
      decreases e, 0
    {
      t := CheckCode(a);
      if t.Some? {
        assert Checked(sig, a, old(table)) == Some((t.value, table));
        var t2 := CheckCode(b);
        if t.value.Base? && t == t2 {
          assert CheckedBranches(sig, e, a, b, old(table)) == Some((t.value, table));
        } else {
          t := None;
          assert CheckedBranches(sig, e, a, b, old(table)) == None;
        }
      }
    }

    method CheckCompare(e: Code) returns (t: Option<Type>)
      requires e.Compare?
      modifies this`table
      ensures WithTable(t, table) == Checked(sig, e, old(table))
      decreases e, 1
    {
      t := CheckCode(e.left);
      if t.None? || !t.value.Base? {
        return None;
      }
      t := CheckCode(e.right);
      if t.None? || !t.value.Base? {
        return None;
      }
      t := CheckBranches(e, e.yes, e.no);
    }

    method CheckLet(e: Code) returns (t: Option<Type>)
      requires e.Let?
      modifies this`table
      ensures WithTable(t, table) == Checked(sig, e, old(table))
      decreases e, 1
    {
      t := CheckCode(e.bound);
      if t.Some? {
        var prev := Get(table, e.x.name);
        table := table[e.x.name := t.value];
        t := CheckCode(e.body);
        table := Put(table, e.x.name, prev);
      }
    }

    method CheckApp(e: Code) returns (t: Option<Type>)
      requires e.App?
      modifies this`table
      ensures WithTable(t, table) == Checked(sig, e, old(table))
      decreases e, 1
    {
      var ts := [];
      for i := 0 to |e.args|
        invariant CheckedArgs(sig, e, i, old(table)) == Some((ts, table))
      {
        var ti := CheckCode(e.args[i]);
        if ti.None? {
          CheckedArgsFails(sig, e, i + 1, |e.args|, old(table));
          return None;
        }
        ts := ts + [ti.value];
      }
      t := Applied(HeadType(sig, table, e.head), Some(ts));
    }

    method CheckMatch(e: Code) returns (t: Option<Type>)
      requires e.Match?
      modifies this`table
      ensures WithTable(t, table) == Checked(sig, e, old(table))
      decreases e, 1
    {
      var s := CheckCode(e.scrutinee);
      if s.None? || !s.value.Base? || !IsTypeName(table, s.value.sym.name) {
        return None;
      }
      ghost var g := table;
      t := None;
      for i := 0 to |e.cases|
        invariant i == 0 ==> t.None? && table == g
        invariant i > 0 ==> t.Some? && CheckedCases(sig, e, i, g) == WithTable(t, table)
      {
        var tp := CheckCase(e.cases[i]);
        if tp.None? || (t.Some? && t != tp) {
          CheckedCasesFails(sig, e, i + 1, |e.cases|, g);
          return None;
        }
        t := tp;
      }
    }

    method CheckCase(k: Case) returns (t: Option<Type>)
      modifies this`table
      ensures WithTable(t, table) == CheckedCase(sig, k, old(table))
      decreases k
    {
      if k.Default? || k.vars == [] {
        t := CheckCode(k.body);
      } else if k.ctor !in table || !table[k.ctor].Pi? || |k.vars| > |table[k.ctor].params| {
        t := None;
      } else {
        var xs, ts := Names(k.vars), table[k.ctor].params[..|k.vars|];
        var prevs;
        table, prevs := Overwrite(table, xs, ts);
        t := CheckCode(k.body);
        if t.Some? {
          table := Restore(table, xs, prevs);
        }
      }
    }
  }
}
