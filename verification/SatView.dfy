/**
 What the decision heuristic may rely on about the SAT solver: how assertions
 were turned into clauses and which literals unit propagation has assigned.
 */
module SatView {
  import opened Basics
  import opened KleeneLogic

  /** The literals that exist, by formula, and the values assigned so far. */
  datatype View = View(lits: set<Node>, sat: Valuation)

  ghost function Values(kids: seq<Node>, sat: Valuation): (vs: seq<Option<bool>>)
    ensures |vs| == |kids| && forall i :: 0 <= i < |vs| ==> vs[i] == Assigned(kids[i], sat)
  {
    seq(|kids|, i requires 0 <= i < |kids| => Assigned(kids[i], sat))
  }

  /**
   A formula with a literal has literals for all its parts, and when the values of
   the parts decide its value then that value has been propagated to it.
   */
  ghost predicate Propagated(n: Node, s: View)
    requires WellFormed(n)
  {
    match n
    case Const(b) => n in s.sat && s.sat[n] == b
    case Atom(_) => true
    case Op(k, kids) =>
      && (forall c :: c in kids ==> c in s.lits)
      && var v := Kleene(k, Values(kids, s.sat)); (v.Some? ==> n in s.sat && s.sat[n] == v.value)
  }

  ghost predicate Complete(s: View) {
    && (forall n :: n in s.lits ==> WellFormed(n) && Propagated(n, s))
    && forall n :: n in s.sat ==> n in s.lits
  }

  /** At this node the clauses of an assertion with polarity p are asserted part by part. */
  predicate Descends(k: Kind, p: bool) {
    k == NOT || (k == AND && p) || (k == OR && !p) || (k == IMPLIES && !p)
  }

  function PartPolarity(k: Kind, p: bool, i: nat): bool {
    if k == NOT then !p else if k == IMPLIES then i == 0 else p
  }

  /**
   `n` has been asserted with polarity p and the assignment falsifies no clause of
   it.  The nodes on the top of an assertion need not have literals; the parts of
   the first connective that becomes a clause do.
   */
  ghost predicate Asserted(n: Node, p: bool, s: View)
    requires WellFormed(n)
  {
    match n
    case Const(b) => b == p
    case Atom(_) => n in s.lits && Assigned(n, s.sat) != Some(!p)
    case Op(k, kids) =>
      if Descends(k, p) then
        forall i :: 0 <= i < |kids| ==> Asserted(kids[i], PartPolarity(k, p, i), s)
      else
        && (forall c :: c in kids ==> c in s.lits)
        && Kleene(k, Values(kids, s.sat)) != Some(!p)
  }

  /** A formula that may be asked to become `d`: nothing assigned so far says otherwise. */
  ghost predicate Open(n: Node, d: bool, s: View) {
    && WellFormed(n)
    && ((n in s.lits && Assigned(n, s.sat) != Some(!d)) || Asserted(n, d, s))
  }

  /** Where a formula has a literal, a determined value has been propagated to that literal. */
  lemma {:induction false} DeterminedIsAssigned(n: Node, s: View)
    requires Complete(s) && n in s.lits && WellFormed(n) && Determined(n, s.sat)
    ensures Assigned(n, s.sat) == Eval(n, s.sat)
  {
    assert Propagated(n, s);
    if n.Op? {
      var vs, ws := Evals(n, s.sat), Values(n.kids, s.sat);
      forall i | 0 <= i < |vs| && vs[i].Some? ensures ws[i] == vs[i] {
        assert n.kids[i] in n.kids;
        DeterminedIsAssigned(n.kids[i], s);
      }
      KleeneMonotone(n.kind, vs, ws);
    }
  }

  /** An assertion never evaluates to the opposite of what is asserted. */
  lemma {:induction false} AssertedNotRefuted(n: Node, p: bool, s: View)
    requires Complete(s) && WellFormed(n) && Asserted(n, p, s)
    ensures Eval(n, s.sat) != Some(!p)
  {
    if n.Op? {
      var vs, ws := Evals(n, s.sat), Values(n.kids, s.sat);
      if Descends(n.kind, p) {
        forall i | 0 <= i < |vs| ensures vs[i] != Some(!PartPolarity(n.kind, p, i)) {
          assert n.kids[i] in n.kids;
          AssertedNotRefuted(n.kids[i], PartPolarity(n.kind, p, i), s);
        }
      } else if Eval(n, s.sat) == Some(!p) {
        forall i | 0 <= i < |vs| && vs[i].Some? ensures ws[i] == vs[i] {
          assert n.kids[i] in n.kids;
          DeterminedIsAssigned(n.kids[i], s);
        }
        KleeneMonotone(n.kind, vs, ws);
      }
    }
  }

  /** An open formula does not evaluate to the opposite of what is wanted. */
  lemma OpenNotRefuted(n: Node, d: bool, s: View)
    requires Complete(s) && Open(n, d, s)
    ensures Eval(n, s.sat) != Some(!d)
  {
    if n in s.lits && Assigned(n, s.sat) != Some(!d) {
      if Determined(n, s.sat) { DeterminedIsAssigned(n, s); }
    } else {
      AssertedNotRefuted(n, d, s);
    }
  }

  /** Where the search goes part by part, every part is open. */
  lemma OpenPart(n: Node, d: bool, i: nat, s: View)
    requires Complete(s) && Open(n, d, s) && n.Op? && Descends(n.kind, d) && i < |n.kids|
    ensures Open(n.kids[i], PartPolarity(n.kind, d, i), s)
  {
    assert n.kids[i] in n.kids;
    if n in s.lits && Assigned(n, s.sat) != Some(!d) {
      assert Propagated(n, s);
      var ws := Values(n.kids, s.sat);
      assert ws[i] == Assigned(n.kids[i], s.sat);
    }
  }

  /** Where it does not, every part has a literal, and the assigned parts do not refute the formula. */
  lemma OpenClause(n: Node, d: bool, s: View)
    requires Complete(s) && Open(n, d, s) && n.Op? && !Descends(n.kind, d)
    ensures forall c :: c in n.kids ==> c in s.lits && WellFormed(c)
    ensures Kleene(n.kind, Values(n.kids, s.sat)) != Some(!d)
  {
    if n in s.lits && Assigned(n, s.sat) != Some(!d) {
      assert Propagated(n, s);
    }
  }
}
