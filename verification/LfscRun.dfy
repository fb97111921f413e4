/**
 The evaluator of side-condition code: run_code (proofs/lfsc_checker/code.cpp).

 It has no environment.  A variable is bound by overwriting the `val` field of its
 symbol, which is shared by all activations, and the old content is put back when
 the binding ends.
 */
module LfscRun {
  import opened Basics
  import opened LfscSyntax
  import opened LfscScope
  import opened LfscEval

  // ---------- the evaluator ----------

  /** No variable occurs in the value, so following definitions ends there. */
  predicate Closed(v: Value) {
    match v
    case VSym(s) => s.Decl?
    case VApp(_, args) => forall a :: a in args ==> Closed(a)
    case _ => true
  }

  /** The symbols hold what the environment says of the variables in scope; no declared symbol has been overwritten. */
  ghost predicate Holds(vals: Env, env: Env, vars: set<Symbol>) {
    && (forall x :: x in vars ==> x in vals && x in env && vals[x] == env[x])
    && (forall x :: x in vals ==> x.Var? && Closed(vals[x]))
    && (forall x :: x in env ==> x.Var?)
  }

  lemma {:induction false} BoundHolds(vals: Env, env: Env, vars: set<Symbol>, xs: seq<Symbol>, vs: seq<Value>)
    requires Holds(vals, env, vars) && |xs| == |vs|
    requires forall x :: x in xs ==> x.Var?
    requires forall v :: v in vs ==> Closed(v)
    ensures Holds(Bound(vals, xs, vs), Bound(env, xs, vs), vars + Elements(xs))
    decreases xs
  {
    if xs == [] {
      assert vars + Elements(xs) == vars;
    } else {
      assert vs[0] in vs;
      BoundHolds(vals[xs[0] := vs[0]], env[xs[0] := vs[0]], vars + {xs[0]}, xs[1..], vs[1..]);
      assert xs == [xs[0]] + xs[1..];
      assert vars + {xs[0]} + Elements(xs[1..]) == vars + Elements(xs);
    }
  }

  /** Once an argument has failed, so has the list. */
  lemma {:induction false} EvalArgsFails(sig: Signature, e: Code, i: nat, n: nat, env: Env, marks: Marks, fuel: nat)
    requires e.App? && i <= n <= |e.args| && EvalArgs(sig, e, i, env, marks, fuel).NoArgs?
    ensures EvalArgs(sig, e, n, env, marks, fuel) == EvalArgs(sig, e, i, env, marks, fuel)
    decreases n - i
  {
    if i < n {
      EvalArgsFails(sig, e, i, n - 1, env, marks, fuel);
    }
  }

  class Machine {
    const sig: Signature
    var vals: Env
    var marks: Marks

    constructor (sig: Signature)
      ensures this.sig == sig && vals == map[] && marks == {}
    {
      this.sig := sig;
      vals, marks := map[], {};
    }

    /** Expr::followDefs on a symbol. */
    method FollowDefs(s: Symbol) returns (v: Value)
      requires forall x :: x in vals ==> x.Var? && Closed(vals[x])
      ensures v == Lookup(vals, s)
    {
      v := VSym(s);
      while v.VSym? && v.s in vals
        invariant v == VSym(s) || (v == Lookup(vals, s) && Closed(v))
        decreases if v.VSym? && v.s in vals then 1 else 0
      {
        v := vals[v.s];
      }
    }

    /** run_code: the result and marks of the reference evaluation, with every symbol's `val` as it was. */
    method Run(e: Code, fuel: nat, ghost env: Env, ghost vars: set<Symbol>) returns (out: Outcome)
      requires ScopedPrograms(sig) && Scoped(e, vars) && Holds(vals, env, vars)
      modifies this`vals, this`marks
      ensures vals == old(vals) && Result(out, marks) == Eval(sig, e, env, old(marks), fuel)
      ensures out.Done? ==> Closed(out.v)
      decreases fuel, e, 3
    {
      match e {
        case Int(n) => out := Done(VInt(n));
        case Rat(q) => out := Done(VRat(q));
        case Sym(s) =>
          var v := FollowDefs(s);
          out := Done(v);
        case MpzType => out := Failed;
        case MpqType => out := Failed;
        case Fail(_) => out := Failed;
        case Do(_, _) => out := RunDo(e, fuel, env, vars);
        case Let(_, _, _) => out := RunLet(e, fuel, env, vars);
        case Arith(_, _, _) => out := RunArith(e, fuel, env, vars);
        case Neg(_) => out := RunNeg(e, fuel, env, vars);
        case IfSign(_, _, _, _) => out := RunIfSign(e, fuel, env, vars);
        case IfMarked(_, _, _, _) => out := RunIfMarked(e, fuel, env, vars);
        case Compare(_, _, _, _) => out := RunCompare(e, fuel, env, vars);
        case MarkVar(_, _) => out := RunMarkVar(e, fuel, env, vars);
        case Match(_, _) => out := RunMatch(e, fuel, env, vars);
        case App(_, _) => out := RunApp(e, fuel, env, vars);
      }
    }

    method RunDo(e: Code, fuel: nat, ghost env: Env, ghost vars: set<Symbol>) returns (out: Outcome)
      requires e.Do?
      requires ScopedPrograms(sig) && Scoped(e, vars) && Holds(vals, env, vars)
      modifies this`vals, this`marks
      ensures vals == old(vals) && Result(out, marks) == Eval(sig, e, env, old(marks), fuel)
      ensures out.Done? ==> Closed(out.v)
      decreases fuel, e, 2
    {
      assert Kids(e)[0] == e.first && Kids(e)[1] == e.second;
      out := Run(e.first, fuel, env, vars);
      if out.Done? {
        out := Run(e.second, fuel, env, vars);
      }
    }

    method RunLet(e: Code, fuel: nat, ghost env: Env, ghost vars: set<Symbol>) returns (out: Outcome)
      requires e.Let?
      requires ScopedPrograms(sig) && Scoped(e, vars) && Holds(vals, env, vars)
      modifies this`vals, this`marks
      ensures vals == old(vals) && Result(out, marks) == Eval(sig, e, env, old(marks), fuel)
      ensures out.Done? ==> Closed(out.v)
      decreases fuel, e, 2
    {
      assert Kids(e)[0] == e.bound;
      out := Run(e.bound, fuel, env, vars);
      if out.Done? {
        var r := out.v;
        var prev := Get(vals, e.x);
        vals := vals[e.x := r];
        out := Run(e.body, fuel, env[e.x := r], vars + {e.x});
        vals := Put(vals, e.x, prev);
      }
    }

    method RunArith(e: Code, fuel: nat, ghost env: Env, ghost vars: set<Symbol>) returns (out: Outcome)
      requires e.Arith?
      requires ScopedPrograms(sig) && Scoped(e, vars) && Holds(vals, env, vars)
      modifies this`vals, this`marks
      ensures vals == old(vals) && Result(out, marks) == Eval(sig, e, env, old(marks), fuel)
      ensures out.Done? ==> Closed(out.v)
      decreases fuel, e, 2
    {
      assert Kids(e)[0] == e.left && Kids(e)[1] == e.right;
      out := Run(e.left, fuel, env, vars);
      if out.Done? {
        var r1 := out.v;
        out := Run(e.right, fuel, env, vars);
        if out.Done? {
          out := Arithmetic(e.op, r1, out.v);
        }
      }
    }

    method RunNeg(e: Code, fuel: nat, ghost env: Env, ghost vars: set<Symbol>) returns (out: Outcome)
      requires e.Neg?
      requires ScopedPrograms(sig) && Scoped(e, vars) && Holds(vals, env, vars)
      modifies this`vals, this`marks
      ensures vals == old(vals) && Result(out, marks) == Eval(sig, e, env, old(marks), fuel)
      ensures out.Done? ==> Closed(out.v)
      decreases fuel, e, 2
    {
      assert Kids(e)[0] == e.arg;
      out := Run(e.arg, fuel, env, vars);
      if out.Done? {
        if out.v.VInt? {
          out := Done(VInt(-out.v.n));
        } else if out.v.VRat? {
          out := Done(VRat(-out.v.q));
        } else {
          out := Failed;
        }
      }
    }

    method RunIfSign(e: Code, fuel: nat, ghost env: Env, ghost vars: set<Symbol>) returns (out: Outcome)
      requires e.IfSign?
      requires ScopedPrograms(sig) && Scoped(e, vars) && Holds(vals, env, vars)
      modifies this`vals, this`marks
      ensures vals == old(vals) && Result(out, marks) == Eval(sig, e, env, old(marks), fuel)
      ensures out.Done? ==> Closed(out.v)
      decreases fuel, e, 2
    {
      assert Kids(e)[0] == e.cond && Kids(e)[1] == e.yes && Kids(e)[2] == e.no;
      out := Run(e.cond, fuel, env, vars);
      if out.Done? {
        var cond := Signed(e.test, out.v);
        if cond.None? {
          out := Failed;
        } else if cond.value {
          out := Run(e.yes, fuel, env, vars);
        } else {
          out := Run(e.no, fuel, env, vars);
        }
      }
    }

    method RunIfMarked(e: Code, fuel: nat, ghost env: Env, ghost vars: set<Symbol>) returns (out: Outcome)
      requires e.IfMarked?
      requires ScopedPrograms(sig) && Scoped(e, vars) && Holds(vals, env, vars)
      modifies this`vals, this`marks
      ensures vals == old(vals) && Result(out, marks) == Eval(sig, e, env, old(marks), fuel)
      ensures out.Done? ==> Closed(out.v)
      decreases fuel, e, 2
    {
      assert Kids(e)[0] == e.subject && Kids(e)[1] == e.yes && Kids(e)[2] == e.no;
      out := Run(e.subject, fuel, env, vars);
      if out.Done? {
        if !out.v.VSym? {
          out := Failed;
        } else if (out.v.s, e.mark) in marks {
          out := Run(e.yes, fuel, env, vars);
        } else {
          out := Run(e.no, fuel, env, vars);
        }
      }
    }

    method RunMarkVar(e: Code, fuel: nat, ghost env: Env, ghost vars: set<Symbol>) returns (out: Outcome)
      requires e.MarkVar?
      requires ScopedPrograms(sig) && Scoped(e, vars) && Holds(vals, env, vars)
      modifies this`vals, this`marks
      ensures vals == old(vals) && Result(out, marks) == Eval(sig, e, env, old(marks), fuel)
      ensures out.Done? ==> Closed(out.v)
      decreases fuel, e, 2
    {
      assert Kids(e)[0] == e.subject;
      out := Run(e.subject, fuel, env, vars);
      if out.Done? {
        if out.v.VSym? {
          marks := Toggle(marks, out.v.s, e.mark);
        } else {
          out := Failed;
        }
      }
    }

    method RunCompare(e: Code, fuel: nat, ghost env: Env, ghost vars: set<Symbol>) returns (out: Outcome)
      requires e.Compare?
      requires ScopedPrograms(sig) && Scoped(e, vars) && Holds(vals, env, vars)
      modifies this`vals, this`marks
      ensures vals == old(vals) && Result(out, marks) == Eval(sig, e, env, old(marks), fuel)
      ensures out.Done? ==> Closed(out.v)
      decreases fuel, e, 2
    {
      assert Kids(e)[0] == e.left && Kids(e)[1] == e.right && Kids(e)[2] == e.yes && Kids(e)[3] == e.no;
      out := Run(e.left, fuel, env, vars);
      if !out.Done? {
        return;
      }
      if !out.v.VSym? {
        return Failed;
      }
      var r1 := out.v.s;
      out := Run(e.right, fuel, env, vars);
      if !out.Done? {
        return;
      }
      if !out.v.VSym? {
        return Failed;
      }
      if sig.before(r1, out.v.s) {
        out := Run(e.yes, fuel, env, vars);
      } else {
        out := Run(e.no, fuel, env, vars);
      }
    }

    /** The search for the first case that applies. */
    method SelectCase(cases: seq<Case>, v: Value) returns (k: Option<nat>)
      ensures k == Selected(cases, v)
    {
      var head := HeadOf(v);
      for i := 0 to |cases|
        invariant Selected(cases, v) ==
                  var r := Selected(cases[i..], v); if r.None? then None else Some(r.value + i)
      {
        assert cases[i..][1..] == cases[i + 1..];
        if cases[i].Default? || head == Some(Decl(cases[i].ctor)) {
          return Some(i);
        }
      }
      k := None;
    }

    method RunMatch(e: Code, fuel: nat, ghost env: Env, ghost vars: set<Symbol>) returns (out: Outcome)
      requires e.Match?
      requires ScopedPrograms(sig) && Scoped(e, vars) && Holds(vals, env, vars)
      modifies this`vals, this`marks
      ensures vals == old(vals) && Result(out, marks) == Eval(sig, e, env, old(marks), fuel)
      ensures out.Done? ==> Closed(out.v)
      decreases fuel, e, 2
    {
      assert Kids(e)[0] == e.scrutinee;
      out := Run(e.scrutinee, fuel, env, vars);
      if out.Done? {
        var scrut := out.v;
        var k := SelectCase(e.cases, scrut);
        if k.None? {
          out := Failed;
        } else {
          assert e.cases[k.value] in e.cases;
          out := RunCase(e.cases[k.value], scrut, fuel, env, vars);
        }
      }
    }

    method RunCase(k: Case, scrut: Value, fuel: nat, ghost env: Env, ghost vars: set<Symbol>) returns (out: Outcome)
      requires ScopedPrograms(sig) && ScopedCase(k, vars) && Holds(vals, env, vars) && Closed(scrut)
      modifies this`vals, this`marks
      ensures vals == old(vals) && Result(out, marks) == EvalCase(sig, k, scrut, env, old(marks), fuel)
      ensures out.Done? ==> Closed(out.v)
      decreases fuel, k
    {
      if k.Default? {
        out := Run(k.body, fuel, env, vars);
      } else {
        var args := ArgsOf(scrut);
        if |k.vars| != |args| {
          return Undefined;
        }
        BoundHolds(vals, env, vars, k.vars, args);
        PutBackBound(vals, k.vars, args);
        var olds;
        vals, olds := Overwrite(vals, k.vars, args);
        out := Run(k.body, fuel, Bound(env, k.vars, args), vars + Elements(k.vars));
        vals := Restore(vals, k.vars, olds);
      }
    }

    /** The arguments of an application, from left to right. */
    method RunArgs(e: Code, fuel: nat, ghost env: Env, ghost vars: set<Symbol>) returns (r: Results)
      requires e.App?
      requires ScopedPrograms(sig) && Scoped(e, vars) && Holds(vals, env, vars)
      modifies this`vals, this`marks
      ensures vals == old(vals) && r.marks == marks
      ensures r == EvalArgs(sig, e, |e.args|, env, old(marks), fuel)
      ensures r.Args? ==> forall v :: v in r.vs ==> Closed(v)
      decreases fuel, e, 1
    {
      var vs := [];
      for i := 0 to |e.args|
        invariant vals == old(vals) && Args(vs, marks) == EvalArgs(sig, e, i, env, old(marks), fuel)
        invariant forall v :: v in vs ==> Closed(v)
      {
        assert e.args[i] in e.args && Kids(e)[i] == e.args[i];
        var out := Run(e.args[i], fuel, env, vars);
        if !out.Done? {
          EvalArgsFails(sig, e, i + 1, |e.args|, env, old(marks), fuel);
          return NoArgs(out, marks);
        }
        vs := vs + [out.v];
      }
      r := Args(vs, marks);
    }

    method RunApp(e: Code, fuel: nat, ghost env: Env, ghost vars: set<Symbol>) returns (out: Outcome)
      requires e.App?
      requires ScopedPrograms(sig) && Scoped(e, vars) && Holds(vals, env, vars)
      modifies this`vals, this`marks
      ensures vals == old(vals) && Result(out, marks) == Eval(sig, e, env, old(marks), fuel)
      ensures out.Done? ==> Closed(out.v)
      decreases fuel, e, 2
    {
      var r := RunArgs(e, fuel, env, vars);
      if r.NoArgs? {
        return r.out;
      }
      if e.head !in sig.programs {
        return Done(BuildApp(e.head, r.vs));
      }
      var p := sig.programs[e.head];
      if |p.params| != |r.vs| {
        return Undefined;
      }
      if fuel == 0 {
        return OutOfFuel;
      }
      out := RunProgram(e.head, r.vs, fuel - 1);
    }

    /** A program call: the parameters are overwritten even if an outer call of the same program is still running. */
    method RunProgram(f: Name, args: seq<Value>, fuel: nat) returns (out: Outcome)
      requires ScopedPrograms(sig) && f in sig.programs && |sig.programs[f].params| == |args|
      requires forall v :: v in args ==> Closed(v)
      requires forall x :: x in vals ==> x.Var? && Closed(vals[x])
      modifies this`vals, this`marks
      ensures vals == old(vals)
      ensures Result(out, marks) ==
              Eval(sig, sig.programs[f].body, Bound(map[], sig.programs[f].params, args), old(marks), fuel)
      ensures out.Done? ==> Closed(out.v)
      decreases fuel, sig.programs[f].body, 4
    {
      var p := sig.programs[f];
      BoundHolds(vals, map[], {}, p.params, args);
      PutBackBound(vals, p.params, args);
      assert {} + Elements(p.params) == Elements(p.params);
      var olds;
      vals, olds := Overwrite(vals, p.params, args);
      out := Run(p.body, fuel, Bound(map[], p.params, args), Elements(p.params));
      vals := Restore(vals, p.params, olds);
    }
  }
}
