/**
 How the reader gives nodes to the names in a piece of code (read_code and read_case in
 proofs/lfsc_checker/code.cpp).  It binds a name by overwriting its entry in the symbol
 table, and puts back what it found when the binding ends, in the order of the bindings.
 */
module LfscReader {
  import opened Basics
  import opened LfscSyntax
  import opened LfscScope

  /** The names that stand for variables; other names stand for what was declared. */
  type Scope = map<Name, Symbol>

  predicate Visible(sig: Signature, scope: Scope, s: Symbol) {
    if s.name in scope then scope[s.name] == s else s == Decl(s.name) && s.name in sig.types
  }

  /** What the reader asks of the names that `e` itself has. */
  predicate Local(sig: Signature, e: Code, scope: Scope) {
    && (e.Sym? ==> Visible(sig, scope, e.s))
    && (e.App? ==> e.head !in scope && (e.head in sig.programs || e.head in sig.types))
    && (e.Let? ==> e.x.Var?)
  }

  ghost predicate LocalCase(sig: Signature, k: Case, scope: Scope) {
    k.Case? ==> k.ctor in sig.types && k.ctor !in scope && Distinct(k.vars) && forall x :: x in k.vars ==> x.Var?
  }

  /** The symbol table after `e` has been read, or None if `e` is not what is read with this table. */
  ghost function Read(sig: Signature, e: Code, scope: Scope): Option<Scope>
    decreases e, 1
  {
    var r := ReadKids(sig, e, |Kids(e)|, scope);
    if !Local(sig, e, scope) || r.None? then None
    else if e.Let? then
      var q := Read(sig, e.body, r.value[e.x.name := e.x]);
      if q.None? then None else Some(Put(q.value, e.x.name, Get(r.value, e.x.name)))
    else if e.Match? then ReadCases(sig, e, |e.cases|, r.value)
    else r
  }

  ghost function ReadKids(sig: Signature, e: Code, n: nat, scope: Scope): Option<Scope>
    requires n <= |Kids(e)|
    decreases e, 0, n
  {
    if n == 0 then Some(scope)
    else
      var r := ReadKids(sig, e, n - 1, scope);
      if r.None? then None else Read(sig, Kids(e)[n - 1], r.value)
  }

  ghost function ReadCases(sig: Signature, e: Code, n: nat, scope: Scope): Option<Scope>
    requires e.Match? && n <= |e.cases|
    decreases e, 0, n
  {
    if n == 0 then Some(scope)
    else
      var r := ReadCases(sig, e, n - 1, scope);
      if r.None? then None else ReadCase(sig, e.cases[n - 1], r.value)
  }

  ghost function ReadCase(sig: Signature, k: Case, scope: Scope): Option<Scope>
    decreases k
  {
    if !LocalCase(sig, k, scope) then None
    else if k.Default? then Read(sig, k.body, scope)
    else
      var r := Read(sig, k.body, Bound(scope, Names(k.vars), k.vars));
      if r.None? then None else Some(PutBack(r.value, Names(k.vars), Olds(scope, Names(k.vars), k.vars)))
  }

  // ---------- static scoping ----------

  /** Every name stands for the node of the innermost binding around it. */
  ghost predicate Resolved(sig: Signature, e: Code, scope: Scope) {
    && Local(sig, e, scope)
    && (forall i :: 0 <= i < |Kids(e)| ==> Resolved(sig, Kids(e)[i], scope))
    && (e.Let? ==> Resolved(sig, e.body, scope[e.x.name := e.x]))
    && (e.Match? ==> forall i :: 0 <= i < |e.cases| ==> ResolvedCase(sig, e.cases[i], scope))
  }

  ghost predicate ResolvedCase(sig: Signature, k: Case, scope: Scope) {
    && LocalCase(sig, k, scope)
    && Resolved(sig, k.body, if k.Default? then scope else Bound(scope, Names(k.vars), k.vars))
  }

  /** No pattern has two variables with the same name. */
  ghost predicate DistinctNames(e: Code) {
    && (forall i :: 0 <= i < |Kids(e)| ==> DistinctNames(Kids(e)[i]))
    && (e.Let? ==> DistinctNames(e.body))
    && (e.Match? ==> forall i :: 0 <= i < |e.cases| ==> DistinctCase(e.cases[i]))
  }

  ghost predicate DistinctCase(k: Case) {
    DistinctNames(k.body) && (k.Case? ==> Distinct(Names(k.vars)))
  }

  /** Without repeated names the reader scopes statically, and leaves its table as it was. */
  lemma {:induction false} ReadIsResolved(sig: Signature, e: Code, scope: Scope)
    requires DistinctNames(e)
    ensures Read(sig, e, scope) == if Resolved(sig, e, scope) then Some(scope) else None
    decreases e, 1
  {
    ReadKidsResolved(sig, e, |Kids(e)|, scope);
    assert Resolved(sig, e, scope) ==> KidsResolved(sig, e, |Kids(e)|, scope);
    if e.Let? {
      ReadIsResolved(sig, e.body, scope[e.x.name := e.x]);
      assert Put(scope[e.x.name := e.x], e.x.name, Get(scope, e.x.name)) == scope;
    } else if e.Match? {
      ReadCasesResolved(sig, e, |e.cases|, scope);
    }
  }

  ghost predicate KidsResolved(sig: Signature, e: Code, n: nat, scope: Scope)
    requires n <= |Kids(e)|
  {
    forall i :: 0 <= i < n ==> Resolved(sig, Kids(e)[i], scope)
  }

  lemma {:induction false} ReadKidsResolved(sig: Signature, e: Code, n: nat, scope: Scope)
    requires DistinctNames(e) && n <= |Kids(e)|
    ensures ReadKids(sig, e, n, scope) == if KidsResolved(sig, e, n, scope) then Some(scope) else None
    decreases e, 0, n
  {
    if n > 0 {
      ReadKidsResolved(sig, e, n - 1, scope);
      ReadIsResolved(sig, Kids(e)[n - 1], scope);
      OneMoreKid(sig, e, n, scope);
    }
  }

  lemma OneMoreKid(sig: Signature, e: Code, n: nat, scope: Scope)
    requires 0 < n <= |Kids(e)|
    ensures KidsResolved(sig, e, n, scope) <==>
            KidsResolved(sig, e, n - 1, scope) && Resolved(sig, Kids(e)[n - 1], scope)
  {
  }

  lemma {:induction false} ReadCasesResolved(sig: Signature, e: Code, n: nat, scope: Scope)
    requires DistinctNames(e) && e.Match? && n <= |e.cases|
    ensures ReadCases(sig, e, n, scope) ==
            if forall i :: 0 <= i < n ==> ResolvedCase(sig, e.cases[i], scope) then Some(scope) else None
    decreases e, 0, n
  {
    if n > 0 {
      ReadCasesResolved(sig, e, n - 1, scope);
      ReadCaseResolved(sig, e.cases[n - 1], scope);
    }
  }

  lemma {:induction false} ReadCaseResolved(sig: Signature, k: Case, scope: Scope)
    requires DistinctCase(k)
    ensures ReadCase(sig, k, scope) == if ResolvedCase(sig, k, scope) then Some(scope) else None
    decreases k
  {
    if k.Default? {
      ReadIsResolved(sig, k.body, scope);
    } else {
      ReadIsResolved(sig, k.body, Bound(scope, Names(k.vars), k.vars));
      PutBackBound(scope, Names(k.vars), k.vars);
    }
  }

  /** Statically scoped code mentions no variable outside its scope. */
  lemma {:induction false} ResolvedScoped(sig: Signature, e: Code, scope: Scope, vars: set<Symbol>)
    requires Resolved(sig, e, scope) && scope.Values <= vars
    ensures Scoped(e, vars)
  {
    forall i | 0 <= i < |Kids(e)| ensures Scoped(Kids(e)[i], vars) {
      ResolvedScoped(sig, Kids(e)[i], scope, vars);
    }
    if e.Let? {
      ResolvedScoped(sig, e.body, scope[e.x.name := e.x], vars + {e.x});
    }
    if e.Match? {
      forall k | k in e.cases ensures ScopedCase(k, vars) {
        var i :| 0 <= i < |e.cases| && e.cases[i] == k;
        assert ResolvedCase(sig, e.cases[i], scope);
        if k.Default? {
          ResolvedScoped(sig, k.body, scope, vars);
        } else {
          BoundValues(scope, Names(k.vars), k.vars);
          ResolvedScoped(sig, k.body, Bound(scope, Names(k.vars), k.vars), vars + Elements(k.vars));
        }
      }
    }
  }

  lemma {:induction false} BoundValues<K, V>(vals: map<K, V>, xs: seq<K>, vs: seq<V>)
    requires |xs| == |vs|
    ensures Bound(vals, xs, vs).Values <= vals.Values + Elements(vs)
    decreases xs
  {
    if xs != [] {
      BoundValues(vals[xs[0] := vs[0]], xs[1..], vs[1..]);
      assert vs == [vs[0]] + vs[1..];
    }
  }
}
