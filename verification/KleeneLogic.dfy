/**
 Boolean formulas as the decision engine sees them, with their three-valued
 (Kleene) value under a partial SAT assignment and their two-valued truth.
 */
module KleeneLogic {
  import opened Basics

  /** A theory term; the terms of an atom may contain skolems of removed if-then-else terms. */
  datatype Term = Term(op: nat, kids: seq<Term>)

  datatype Kind = NOT | AND | OR | IMPLIES | IFF | XOR | ITE

  datatype Node = Const(b: bool) | Atom(term: Term) | Op(kind: Kind, kids: seq<Node>)

  predicate Arity(k: Kind, n: nat) {
    match k
    case NOT => n == 1
    case AND => true
    case OR => true
    case IMPLIES => n == 2
    case IFF => n == 2
    case XOR => n == 2
    case ITE => n == 3
  }

  ghost predicate WellFormed(n: Node) {
    n.Op? ==> Arity(n.kind, |n.kids|) && forall k :: k in n.kids ==> WellFormed(k)
  }

  // ---------- truth ----------

  ghost function Connective(k: Kind, vs: seq<bool>): bool
    requires Arity(k, |vs|)
  {
    match k
    case NOT => !vs[0]
    case AND => false !in vs
    case OR => true in vs
    case IMPLIES => !vs[0] || vs[1]
    case IFF => vs[0] == vs[1]
    case XOR => vs[0] != vs[1]
    case ITE => if vs[0] then vs[1] else vs[2]
  }

  /** The truth of a formula when `v` gives the truth of every atom. */
  ghost function Holds(n: Node, v: Term -> bool): bool
    requires WellFormed(n)
  {
    match n
    case Const(b) => b
    case Atom(t) => v(t)
    case Op(k, kids) => Connective(k, seq(|kids|, i requires 0 <= i < |kids| => Holds(kids[i], v)))
  }

  // ---------- partial valuations ----------

  /** A partial assignment of truth values to formulas: what the SAT solver has assigned to their literals. */
  type Valuation = map<Node, bool>

  ghost function Assigned(n: Node, sat: Valuation): Option<bool> {
    if n in sat then Some(sat[n]) else None
  }

  ghost function Negate(v: Option<bool>): Option<bool> {
    if v.Some? then Some(!v.value) else None
  }

  ghost function Kleene(k: Kind, vs: seq<Option<bool>>): Option<bool>
    requires Arity(k, |vs|)
  {
    match k
    case NOT => Negate(vs[0])
    case AND => if Some(false) in vs then Some(false) else if None in vs then None else Some(true)
    case OR => if Some(true) in vs then Some(true) else if None in vs then None else Some(false)
    case IMPLIES => if vs[0] == Some(false) || vs[1] == Some(true) then Some(true)
                    else if vs[0].None? || vs[1].None? then None else Some(false)
    case IFF => if vs[0].Some? && vs[1].Some? then Some(vs[0].value == vs[1].value) else None
    case XOR => if vs[0].Some? && vs[1].Some? then Some(vs[0].value != vs[1].value) else None
    case ITE => if vs[0].None? then None else if vs[0].value then vs[1] else vs[2]
  }

  /** The value of a formula as far as the assigned atoms determine it. */
  ghost function Eval(n: Node, sat: Valuation): Option<bool>
    requires WellFormed(n)
    decreases n, 1
  {
    match n
    case Const(b) => Some(b)
    case Atom(_) => Assigned(n, sat)
    case Op(k, kids) => Kleene(k, Evals(n, sat))
  }

  ghost function Evals(n: Node, sat: Valuation): (vs: seq<Option<bool>>)
    requires WellFormed(n) && n.Op?
    ensures |vs| == |n.kids| && forall i :: 0 <= i < |vs| ==> vs[i] == Eval(n.kids[i], sat)
    decreases n, 0
  {
    seq(|n.kids|, i requires 0 <= i < |n.kids| => Eval(n.kids[i], sat))
  }

  ghost predicate Determined(n: Node, sat: Valuation)
    requires WellFormed(n)
  {
    Eval(n, sat).Some?
  }

  /** A total truth assignment that agrees with the assigned atoms. */
  ghost predicate Extends(v: Term -> bool, sat: Valuation) {
    forall t :: Atom(t) in sat ==> v(t) == sat[Atom(t)]
  }

  /** A determined value is the truth in every extension of the assignment. */
  lemma {:induction false} EvalIsTruth(n: Node, sat: Valuation, v: Term -> bool)
    requires WellFormed(n) && Extends(v, sat) && Determined(n, sat)
    ensures Holds(n, v) == Eval(n, sat).value
  {
    if n.Op? {
      var vs, bs := Evals(n, sat), seq(|n.kids|, i requires 0 <= i < |n.kids| => Holds(n.kids[i], v));
      forall i | 0 <= i < |vs| && vs[i].Some? ensures bs[i] == vs[i].value {
        EvalIsTruth(n.kids[i], sat, v);
      }
      KleeneIsTruth(n.kind, vs, bs);
    }
  }

  lemma KleeneIsTruth(k: Kind, vs: seq<Option<bool>>, bs: seq<bool>)
    requires Arity(k, |vs|) && |bs| == |vs| && Kleene(k, vs).Some?
    requires forall i :: 0 <= i < |vs| && vs[i].Some? ==> bs[i] == vs[i].value
    ensures Connective(k, bs) == Kleene(k, vs).value
  {
    if k == AND && Some(false) in vs {
      var i :| 0 <= i < |vs| && vs[i] == Some(false);
      assert bs[i] == false;
    } else if k == OR && Some(true) in vs {
      var i :| 0 <= i < |vs| && vs[i] == Some(true);
      assert bs[i] == true;
    } else if k == AND || k == OR {
      assert forall i :: 0 <= i < |vs| ==> vs[i] != None;
    }
  }

  /** Assigning more literals changes no determined value. */
  lemma {:induction false} EvalMonotone(n: Node, sat: Valuation, sat': Valuation)
    requires WellFormed(n) && Determined(n, sat)
    requires forall m :: m in sat ==> m in sat' && sat'[m] == sat[m]
    ensures Eval(n, sat') == Eval(n, sat)
  {
    if n.Op? {
      var vs, vs' := Evals(n, sat), Evals(n, sat');
      forall i | 0 <= i < |vs| && vs[i].Some? ensures vs'[i] == vs[i] {
        EvalMonotone(n.kids[i], sat, sat');
      }
      KleeneMonotone(n.kind, vs, vs');
    }
  }

  lemma KleeneMonotone(k: Kind, vs: seq<Option<bool>>, vs': seq<Option<bool>>)
    requires Arity(k, |vs|) && |vs'| == |vs| && Kleene(k, vs).Some?
    requires forall i :: 0 <= i < |vs| && vs[i].Some? ==> vs'[i] == vs[i]
    ensures Kleene(k, vs') == Kleene(k, vs)
  {
    if k == AND && Some(false) in vs {
      var i :| 0 <= i < |vs| && vs[i] == Some(false);
      assert vs'[i] == Some(false);
    } else if k == OR && Some(true) in vs {
      var i :| 0 <= i < |vs| && vs[i] == Some(true);
      assert vs'[i] == Some(true);
    } else if k == AND || k == OR {
      assert forall i :: 0 <= i < |vs| ==> vs[i] != None;
      assert vs' == vs;
    }
  }
}
