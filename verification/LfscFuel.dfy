/**
 The fuel of the reference evaluation only cuts off deep calls: an evaluation that
 ends within its fuel has the same result and marks with any larger amount.  Nor does
 it matter what types are declared.
 */
module LfscFuel {
  import opened LfscSyntax
  import opened LfscScope
  import opened LfscEval

  /** The same programs up to the declared types. */
  ghost predicate SameCode(sig: Signature, sig': Signature) {
    && sig.before == sig'.before && sig.programs.Keys == sig'.programs.Keys
    && forall f :: f in sig.programs ==>
         sig.programs[f].params == sig'.programs[f].params && sig.programs[f].body == sig'.programs[f].body
  }

  ghost predicate Stable(sig: Signature, sig': Signature, e: Code, env: Env, marks: Marks, fuel: nat, more: nat) {
    Eval(sig, e, env, marks, fuel).out != OutOfFuel ==>
      Eval(sig', e, env, marks, more) == Eval(sig, e, env, marks, fuel)
  }

  lemma {:induction false} MoreFuel(sig: Signature, sig': Signature, e: Code, env: Env, marks: Marks, fuel: nat,
    more: nat)
    requires SameCode(sig, sig') && fuel <= more
    ensures Stable(sig, sig', e, env, marks, fuel, more)
    decreases fuel, e, 2
  {
    forall i, m: Marks | 0 <= i < |Kids(e)| ensures Stable(sig, sig', Kids(e)[i], env, m, fuel, more) {
      MoreFuel(sig, sig', Kids(e)[i], env, m, fuel, more);
    }
    if e.App? {
      MoreFuelApp(sig, sig', e, env, marks, fuel, more);
    } else if e.Let? {
      assert Kids(e)[0] == e.bound;
      MoreFuelLet(sig, sig', e, env, marks, fuel, more);
    } else if e.Match? {
      assert Kids(e)[0] == e.scrutinee;
      MoreFuelMatch(sig, sig', e, env, marks, fuel, more);
    } else {
      MoreFuelParts(sig, sig', e, env, marks, fuel, more);
    }
  }

  lemma MoreFuelParts(sig: Signature, sig': Signature, e: Code, env: Env, marks: Marks, fuel: nat, more: nat)
    requires SameCode(sig, sig') && !e.App? && !e.Let? && !e.Match?
    requires forall i, m: Marks :: 0 <= i < |Kids(e)| ==> Stable(sig, sig', Kids(e)[i], env, m, fuel, more)
    ensures Stable(sig, sig', e, env, marks, fuel, more)
    decreases fuel, e, 1
  {
    var ps := Kids(e);
    if ps != [] {
      var r1 := Eval(sig, ps[0], env, marks, fuel);
      assert Stable(sig, sig', ps[0], env, marks, fuel, more);
      if |ps| > 1 {
        assert Stable(sig, sig', ps[1], env, r1.marks, fuel, more);
        var r2 := Eval(sig, ps[1], env, r1.marks, fuel);
        if |ps| > 2 {
          assert Stable(sig, sig', ps[2], env, r1.marks, fuel, more)
                 && Stable(sig, sig', ps[2], env, r2.marks, fuel, more);
          if |ps| > 3 {
            assert Stable(sig, sig', ps[3], env, r2.marks, fuel, more);
          }
        }
      }
    }
  }

  lemma MoreFuelLet(sig: Signature, sig': Signature, e: Code, env: Env, marks: Marks, fuel: nat, more: nat)
    requires SameCode(sig, sig') && fuel <= more && e.Let? && Stable(sig, sig', e.bound, env, marks, fuel, more)
    ensures Stable(sig, sig', e, env, marks, fuel, more)
    decreases fuel, e, 1
  {
    var r := Eval(sig, e.bound, env, marks, fuel);
    if r.out.Done? {
      MoreFuel(sig, sig', e.body, env[e.x := r.out.v], r.marks, fuel, more);
    }
  }

  lemma MoreFuelMatch(sig: Signature, sig': Signature, e: Code, env: Env, marks: Marks, fuel: nat, more: nat)
    requires SameCode(sig, sig') && fuel <= more && e.Match? && Stable(sig, sig', e.scrutinee, env, marks, fuel, more)
    ensures Stable(sig, sig', e, env, marks, fuel, more)
    decreases fuel, e, 1
  {
    var r := Eval(sig, e.scrutinee, env, marks, fuel);
    if r.out.Done? && Selected(e.cases, r.out.v).Some? {
      var k := e.cases[Selected(e.cases, r.out.v).value];
      if k.Default? {
        MoreFuel(sig, sig', k.body, env, r.marks, fuel, more);
      } else if |k.vars| == |ArgsOf(r.out.v)| {
        MoreFuel(sig, sig', k.body, Bound(env, k.vars, ArgsOf(r.out.v)), r.marks, fuel, more);
      }
    }
  }

  lemma {:induction false} MoreFuelArgs(sig: Signature, sig': Signature, e: Code, n: nat, env: Env, marks: Marks,
    fuel: nat, more: nat)
    requires SameCode(sig, sig') && fuel <= more && e.App? && n <= |e.args|
    ensures var r := EvalArgs(sig, e, n, env, marks, fuel);
            (r.Args? || r.out != OutOfFuel) ==> EvalArgs(sig', e, n, env, marks, more) == r
    decreases fuel, e, 0, n
  {
    if n > 0 {
      MoreFuelArgs(sig, sig', e, n - 1, env, marks, fuel, more);
      var r := EvalArgs(sig, e, n - 1, env, marks, fuel);
      if r.Args? {
        MoreFuel(sig, sig', e.args[n - 1], env, r.marks, fuel, more);
      }
    }
  }

  lemma MoreFuelApp(sig: Signature, sig': Signature, e: Code, env: Env, marks: Marks, fuel: nat, more: nat)
    requires SameCode(sig, sig') && fuel <= more && e.App?
    ensures Stable(sig, sig', e, env, marks, fuel, more)
    decreases fuel, e, 1
  {
    MoreFuelArgs(sig, sig', e, |e.args|, env, marks, fuel, more);
    var r := EvalArgs(sig, e, |e.args|, env, marks, fuel);
    if r.Args? && e.head in sig.programs && fuel > 0 {
      var p := sig.programs[e.head];
      if |p.params| == |r.vs| {
        MoreFuel(sig, sig', p.body, Bound(map[], p.params, r.vs), r.marks, fuel - 1, more - 1);
      }
    }
  }
}
