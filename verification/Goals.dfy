/**
 What the justification heuristic asks for: a formula that is asked to become d asks its parts for values of
 their own, and in the end atoms (src/decision/justification_heuristic.cpp).
 */
module Goals {
  import opened Basics
  import opened KleeneLogic

  /** s is a proper subterm of t. */
  ghost predicate Below(s: Term, t: Term) {
    exists c :: c in t.kids && (s == c || Below(s, c))
  }

  lemma {:induction false} BelowKid(s: Term, t: Term, root: Term)
    requires s in t.kids && (t == root || Below(t, root))
    ensures Below(s, root)
    decreases root
  {
    if t != root {
      var c :| c in root.kids && (t == c || Below(t, c));
      BelowKid(s, t, c);
    }
  }

  /** The values asked of the two sides of an equivalence or exclusive or with the given assigned values. */
  ghost predicate PairAsked(k: Kind, d: bool, v1: Option<bool>, v2: Option<bool>, a: bool, b: bool) {
    && v1 != Some(!a) && v2 != Some(!b) && (v1.None? && v2.None? ==> !a)
    && (v1.None? || v2.None? ==> (if k == IFF then a == b else a != b) == !d)
  }

  /** The value asked of a condition: its own, or one that leads to a branch that can have the desired value. */
  ghost predicate ConditionAsked(d: bool, v: Option<bool>, yes: Option<bool>, no: Option<bool>, e: bool) {
    if v.Some? then e == v.value
    else if yes == Some(d) || no == Some(!d) then e
    else if yes == Some(!d) || no == Some(d) then !e
    else true
  }

  /**
   `n`, asked to become d, asks `c` to become e: negation flips, conjunction and disjunction keep, an implication
   flips on its left, and an atom asks for the assertions of the skolems below it.  Where one part is enough,
   a part that has the opposite value is not asked.
   */
  ghost predicate Asks(sat: Valuation, given: set<(Term, Node)>, n: Node, d: bool, c: Node, e: bool) {
    match n
    case Const(_) => false
    case Atom(t) => e && exists s :: (s, c) in given && Below(s, t)
    case Op(k, kids) =>
      match k
      case NOT => |kids| == 1 && c == kids[0] && e == !d
      case AND => c in kids && e == d && (!d ==> Assigned(c, sat) != Some(true))
      case OR => c in kids && e == d && (d ==> Assigned(c, sat) != Some(false))
      case IMPLIES =>
        && |kids| == 2 && ((c == kids[0] && e == !d) || (c == kids[1] && e == d))
        && (d ==> Assigned(c, sat) != Some(!e))
      case IFF => |kids| == 2 && SideAsks(sat, IFF, kids, d, c, e)
      case XOR => |kids| == 2 && SideAsks(sat, XOR, kids, d, c, e)
      case ITE =>
        && |kids| == 3
        && var v := Assigned(kids[0], sat);
           || (c == kids[0] && ConditionAsked(d, v, Assigned(kids[1], sat), Assigned(kids[2], sat), e))
           || (v.Some? && c == kids[if v.value then 1 else 2] && e == d)
  }

  ghost predicate SideAsks(sat: Valuation, k: Kind, kids: seq<Node>, d: bool, c: Node, e: bool)
    requires |kids| == 2
  {
    exists a, b :: PairAsked(k, d, Assigned(kids[0], sat), Assigned(kids[1], sat), a, b)
                   && ((c == kids[0] && e == a) || (c == kids[1] && e == b))
  }

  /** Each asks the next. */
  ghost predicate IsPath(sat: Valuation, given: set<(Term, Node)>, p: seq<(Node, bool)>) {
    p != [] && forall i {:trigger p[i]} :: 0 <= i < |p| - 1 ==> Asks(sat, given, p[i].0, p[i].1, p[i + 1].0, p[i + 1].1)
  }

  /** `n`, asked to become d, leads to asking `c` to become e. */
  ghost predicate Reaches(sat: Valuation, given: set<(Term, Node)>, n: Node, d: bool, c: Node, e: bool) {
    exists p :: IsPath(sat, given, p) && p[0] == (n, d) && p[|p| - 1] == (c, e)
  }

  lemma ReachesSelf(sat: Valuation, given: set<(Term, Node)>, n: Node, d: bool)
    ensures Reaches(sat, given, n, d, n, d)
  {
    var p := [(n, d)];
    assert IsPath(sat, given, p);
  }

  lemma AskedReaches(sat: Valuation, given: set<(Term, Node)>, n: Node, d: bool, c: Node, e: bool, c': Node, e': bool)
    requires Asks(sat, given, n, d, c, e) && Reaches(sat, given, c, e, c', e')
    ensures Reaches(sat, given, n, d, c', e')
  {
    var p :| IsPath(sat, given, p) && p[0] == (c, e) && p[|p| - 1] == (c', e');
    var q := [(n, d)] + p;
    forall i | 0 <= i < |q| - 1 ensures Asks(sat, given, q[i].0, q[i].1, q[i + 1].0, q[i + 1].1) {
      assert i > 0 ==> q[i] == p[i - 1] && q[i + 1] == p[i];
    }
    assert IsPath(sat, given, q);
  }

  lemma ReachesAsked(sat: Valuation, given: set<(Term, Node)>, n: Node, d: bool, c: Node, e: bool, c': Node, e': bool)
    requires Reaches(sat, given, n, d, c, e) && Asks(sat, given, c, e, c', e')
    ensures Reaches(sat, given, n, d, c', e')
  {
    var p :| IsPath(sat, given, p) && p[0] == (n, d) && p[|p| - 1] == (c, e);
    var q := p + [(c', e')];
    forall i | 0 <= i < |q| - 1 ensures Asks(sat, given, q[i].0, q[i].1, q[i + 1].0, q[i + 1].1) {
      assert q[i] == p[i] && (i < |p| - 1 ==> q[i + 1] == p[i + 1]);
    }
    assert IsPath(sat, given, q);
  }

  lemma ReachesThrough(sat: Valuation, given: set<(Term, Node)>, n: Node, d: bool, c: Node, e: bool, c': Node, e': bool)
    requires Reaches(sat, given, n, d, c, e) && Reaches(sat, given, c, e, c', e')
    ensures Reaches(sat, given, n, d, c', e')
  {
    var p :| IsPath(sat, given, p) && p[0] == (n, d) && p[|p| - 1] == (c, e);
    var q :| IsPath(sat, given, q) && q[0] == (c, e) && q[|q| - 1] == (c', e');
    var r: seq<(Node, bool)> := p + q[1..];
    forall i | 0 <= i < |r| - 1 ensures Asks(sat, given, r[i].0, r[i].1, r[i + 1].0, r[i + 1].1) {
      if i < |p| - 1 {
        assert r[i] == p[i] && r[i + 1] == p[i + 1];
      } else {
        var j := i - (|p| - 1);
        assert r[i] == q[j] && r[i + 1] == q[j + 1];
      }
    }
    assert IsPath(sat, given, r);
  }

  // ---------- negation normal form ----------

  /** Formulas of negations, conjunctions, disjunctions and implications, with no skolems below their atoms. */
  ghost predicate Plain(n: Node, given: set<(Term, Node)>) {
    match n
    case Const(_) => true
    case Atom(t) => forall p :: p in given ==> !Below(p.0, t)
    case Op(k, kids) =>
      k in {NOT, AND, OR, IMPLIES} && Arity(k, |kids|) && forall c :: c in kids ==> Plain(c, given)
  }

  lemma {:induction false} PlainWellFormed(n: Node, given: set<(Term, Node)>)
    requires Plain(n, given)
    ensures WellFormed(n)
  {
    if n.Op? {
      forall c | c in n.kids ensures WellFormed(c) { PlainWellFormed(c, given); }
    }
  }

  /** The formula (d) or its negation (not d), with negations at atoms only. */
  ghost function Nnf(n: Node, d: bool): Node
    requires WellFormed(n)
    decreases n, 1
  {
    match n
    case Const(b) => Const(b == d)
    case Atom(_) => if d then n else Op(NOT, [n])
    case Op(k, kids) =>
      match k
      case NOT => Nnf(kids[0], !d)
      case AND => Op(if d then AND else OR, Nnfs(n, d))
      case OR => Op(if d then OR else AND, Nnfs(n, d))
      case IMPLIES => Op(if d then OR else AND, [Nnf(kids[0], !d), Nnf(kids[1], d)])
      case _ => if d then n else Op(NOT, [n])
  }

  ghost function Nnfs(n: Node, d: bool): (r: seq<Node>)
    requires WellFormed(n) && n.Op?
    ensures |r| == |n.kids| && forall i :: 0 <= i < |r| ==> r[i] == Nnf(n.kids[i], d)
    decreases n, 0
  {
    seq(|n.kids|, i requires 0 <= i < |n.kids| => Nnf(n.kids[i], d))
  }

  ghost function Truths(kids: seq<Node>, v: Term -> bool): (vs: seq<bool>)
    requires forall c :: c in kids ==> WellFormed(c)
    ensures |vs| == |kids| && forall i :: 0 <= i < |vs| ==> vs[i] == Holds(kids[i], v)
  {
    seq(|kids|, i requires 0 <= i < |kids| => Holds(kids[i], v))
  }

  lemma ValuesAgree(vs: seq<bool>, ws: seq<bool>, d: bool)
    requires |ws| == |vs| && forall i :: 0 <= i < |vs| ==> ws[i] == (vs[i] == d)
    ensures (true in ws <==> d in vs) && (false in ws <==> !d in vs)
  {
    forall b: bool | (b == d) in vs ensures b in ws {
      var i :| 0 <= i < |vs| && vs[i] == (b == d);
      assert ws[i] == b;
    }
  }

  /** The normal form says that the formula has the value d. */
  lemma {:induction false} NnfMeans(n: Node, d: bool, v: Term -> bool)
    requires WellFormed(n)
    ensures WellFormed(Nnf(n, d)) && Holds(Nnf(n, d), v) == (Holds(n, v) == d)
    decreases n
  {
    if n.Op? && n.kind in {AND, OR} {
      forall i | 0 <= i < |n.kids|
        ensures WellFormed(Nnf(n.kids[i], d)) && Holds(Nnf(n.kids[i], d), v) == (Holds(n.kids[i], v) == d)
      {
        NnfMeans(n.kids[i], d, v);
      }
      NnfMeansAll(n, d, v);
    } else if n.Op? && n.kind == NOT {
      NnfMeans(n.kids[0], !d, v);
      assert Holds(n, v) == !Truths(n.kids, v)[0];
    } else if n.Op? && n.kind == IMPLIES {
      NnfMeans(n.kids[0], !d, v);
      NnfMeans(n.kids[1], d, v);
      NnfMeansImplies(n, d, v);
    } else if !n.Const? && !d {
      var kids := [n];
      assert Holds(Op(NOT, kids), v) == !Truths(kids, v)[0];
    }
  }

  lemma NnfMeansAll(n: Node, d: bool, v: Term -> bool)
    requires WellFormed(n) && n.Op? && n.kind in {AND, OR}
    requires forall i :: 0 <= i < |n.kids| ==>
               WellFormed(Nnf(n.kids[i], d)) && Holds(Nnf(n.kids[i], d), v) == (Holds(n.kids[i], v) == d)
    ensures WellFormed(Nnf(n, d)) && Holds(Nnf(n, d), v) == (Holds(n, v) == d)
  {
    var n' := Nnf(n, d);
    assert n'.kids == Nnfs(n, d);
    var vs, ws := Truths(n.kids, v), Truths(n'.kids, v);
    assert Holds(n, v) == Connective(n.kind, vs) && Holds(n', v) == Connective(n'.kind, ws);
    ValuesAgree(vs, ws, d);
  }

  lemma NnfMeansImplies(n: Node, d: bool, v: Term -> bool)
    requires WellFormed(n) && n.Op? && n.kind == IMPLIES
    requires WellFormed(Nnf(n.kids[0], !d)) && Holds(Nnf(n.kids[0], !d), v) == (Holds(n.kids[0], v) == !d)
    requires WellFormed(Nnf(n.kids[1], d)) && Holds(Nnf(n.kids[1], d), v) == (Holds(n.kids[1], v) == d)
    ensures WellFormed(Nnf(n, d)) && Holds(Nnf(n, d), v) == (Holds(n, v) == d)
  {
    var n' := Nnf(n, d);
    var vs, ws := Truths(n.kids, v), Truths(n'.kids, v);
    assert Holds(n, v) == Connective(IMPLIES, vs) && Holds(n', v) == Connective(n'.kind, ws);
    assert ws == [ws[0], ws[1]];
  }

  /** The literal occurs in a formula in normal form. */
  ghost predicate Occurs(lit: Node, n: Node) {
    n == lit || (n.Op? && n.kind in {AND, OR} && exists i :: 0 <= i < |n.kids| && Occurs(lit, n.kids[i]))
  }

  ghost function Signed(atom: Node, positive: bool): Node {
    if positive then atom else Op(NOT, [atom])
  }

  /** For plain formulas, what is asked of an atom in the end is a literal of the normal form. */
  lemma {:induction false} PathOccurs(sat: Valuation, given: set<(Term, Node)>, p: seq<(Node, bool)>)
    requires IsPath(sat, given, p) && Plain(p[0].0, given) && p[|p| - 1].0.Atom?
    ensures WellFormed(p[0].0) && Occurs(Signed(p[|p| - 1].0, p[|p| - 1].1), Nnf(p[0].0, p[0].1))
    decreases |p|
  {
    PlainWellFormed(p[0].0, given);
    if |p| > 1 {
      var q, n, d, c, e := p[1..], p[0].0, p[0].1, p[1].0, p[1].1;
      assert Asks(sat, given, n, d, c, e);
      forall i | 0 <= i < |q| - 1 ensures Asks(sat, given, q[i].0, q[i].1, q[i + 1].0, q[i + 1].1) {
        assert q[i] == p[i + 1] && q[i + 1] == p[i + 2];
      }
      assert n.Op? && c in n.kids;
      PathOccurs(sat, given, q);
      KidOccurs(n, d, c, e, Signed(p[|p| - 1].0, p[|p| - 1].1), sat, given);
    }
  }

  lemma KidOccurs(n: Node, d: bool, c: Node, e: bool, lit: Node, sat: Valuation, given: set<(Term, Node)>)
    requires Plain(n, given) && WellFormed(n) && n.Op? && Asks(sat, given, n, d, c, e)
    requires WellFormed(c) && Occurs(lit, Nnf(c, e))
    ensures Occurs(lit, Nnf(n, d))
  {
    if n.kind == AND || n.kind == OR {
      var i :| 0 <= i < |n.kids| && n.kids[i] == c;
      assert Nnf(n, d).kids[i] == Nnf(c, e);
    } else if n.kind == IMPLIES {
      var i := if c == n.kids[0] && e == !d then 0 else 1;
      assert Nnf(n, d).kids[i] == Nnf(c, e);
    }
  }

  lemma ReachesOccurs(sat: Valuation, given: set<(Term, Node)>, n: Node, d: bool, atom: Node, e: bool)
    requires Reaches(sat, given, n, d, atom, e) && Plain(n, given) && atom.Atom?
    ensures WellFormed(n) && Occurs(Signed(atom, e), Nnf(n, d))
  {
    var p :| IsPath(sat, given, p) && p[0] == (n, d) && p[|p| - 1] == (atom, e);
    PathOccurs(sat, given, p);
  }
}
