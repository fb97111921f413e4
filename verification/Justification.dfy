/**
 The justification heuristic (src/decision/justification_heuristic.cpp) with
 decision threshold 0: a search for an unassigned atom whose value matters, and
 the verdict that the SAT solver may stop because nothing is left to decide.
 */
module Justification {
  import opened Basics
  import opened KleeneLogic
  import opened SatView
  import opened Goals

  datatype SearchResult = FOUND_SPLITTER | NO_SPLITTER | DONT_KNOW

  datatype Literal = Literal(atom: Node, negated: bool)

  /** What the search has remembered in the SAT context. */
  datatype Caches = Caches(justified: set<Node>, startIndex: map<Node, nat>, prvsIndex: nat)

  /** What a push of the SAT context saves. */
  datatype Frame = Frame(caches: Caches, sat: Valuation)

  /**
   The options that steer the order of the search: `order` lists the children of an
   and/or node (by weight, or as they are) and `heavier` says whether the first of
   two nodes weighs more than the second (never, when weights are not used).
   */
  datatype Options = Options(order: Node -> seq<Node>, heavier: (Node, bool, Node, bool) -> bool)

  ghost predicate Orders(o: Options) {
    forall n: Node :: n.Op? ==> multiset(o.order(n)) == multiset(n.kids)
  }

  /** The polarity for which all children of an and/or node have to be justified. */
  function HardPolarity(n: Node): bool {
    n.Op? && n.kind == AND
  }

  /** The formula without the negations in front of it. */
  ghost function Core(n: Node): Node {
    if n.Op? && n.kind == NOT && |n.kids| == 1 then Core(n.kids[0]) else n
  }

  /** Everything remembered is determined by the assigned atoms. */
  ghost predicate Sound(c: Caches, sat: Valuation, o: Options, assertions: seq<Node>) {
    && (forall n :: n in c.justified ==> WellFormed(n) && Determined(n, sat))
    && (forall n, i :: n in c.startIndex && 0 <= i < c.startIndex[n] && i < |o.order(n)| ==>
          WellFormed(o.order(n)[i]) && Determined(o.order(n)[i], sat))
    && c.prvsIndex <= |assertions|
    && (forall i :: 0 <= i < c.prvsIndex ==> WellFormed(assertions[i]) && Determined(assertions[i], sat))
  }

  lemma SoundMonotone(c: Caches, sat: Valuation, sat': Valuation, o: Options, assertions: seq<Node>, more: seq<Node>)
    requires Sound(c, sat, o, assertions)
    requires forall m :: m in sat ==> m in sat' && sat'[m] == sat[m]
    ensures Sound(c, sat', o, assertions + more)
  {
    forall n | n in c.justified ensures Determined(n, sat') { EvalMonotone(n, sat, sat'); }
    forall n, i | n in c.startIndex && 0 <= i < c.startIndex[n] && i < |o.order(n)|
      ensures WellFormed(o.order(n)[i]) && Determined(o.order(n)[i], sat')
    {
      EvalMonotone(o.order(n)[i], sat, sat');
    }
    forall i | 0 <= i < c.prvsIndex
      ensures WellFormed((assertions + more)[i]) && Determined((assertions + more)[i], sat')
    {
      EvalMonotone(assertions[i], sat, sat');
    }
  }

  // ---------- what justified children say about their parent ----------

  lemma InOrder(o: Options, n: Node, c: Node)
    requires Orders(o) && n.Op?
    ensures c in o.order(n) <==> c in n.kids
  {
    assert c in multiset(o.order(n)) <==> c in multiset(n.kids);
  }

  /** If all children are determined, so is an and/or node. */
  lemma AllDetermined(n: Node, sat: Valuation)
    requires WellFormed(n) && n.Op? && n.kind in {AND, OR}
    requires forall c :: c in n.kids ==> Determined(c, sat)
    ensures Determined(n, sat)
  {
    var vs := Evals(n, sat);
    forall i | 0 <= i < |vs| ensures vs[i] != None { assert n.kids[i] in n.kids; }
  }

  /** A child with the controlling value determines an and/or node. */
  lemma Controlled(n: Node, c: Node, sat: Valuation)
    requires WellFormed(n) && n.Op? && n.kind in {AND, OR} && c in n.kids
    requires Eval(c, sat) == Some(!HardPolarity(n))
    ensures Determined(n, sat)
  {
    var i :| 0 <= i < |n.kids| && n.kids[i] == c;
    assert Evals(n, sat)[i] == Some(!HardPolarity(n));
  }

  /** In a part-by-part search every child is open. */
  lemma OpenKid(n: Node, d: bool, c: Node, s: View)
    requires Complete(s) && Open(n, d, s) && n.Op? && n.kind in {AND, OR} && d == HardPolarity(n) && c in n.kids
    ensures Open(c, d, s)
  {
    var i :| 0 <= i < |n.kids| && n.kids[i] == c;
    OpenPart(n, d, i, s);
  }

  /** Some child of an open disjunctive node is not assigned against it. */
  lemma ControllingInput(o: Options, n: Node, d: bool, s: View)
    requires Orders(o) && Complete(s) && Open(n, d, s) && n.Op? && n.kind in {AND, OR} && d != HardPolarity(n)
    ensures exists j :: 0 <= j < |o.order(n)| && Assigned(o.order(n)[j], s.sat) != Some(!d)
  {
    OpenClause(n, d, s);
    var ws := Values(n.kids, s.sat);
    AllAgainst(n.kind, ws);
    var i :| 0 <= i < |ws| && ws[i] != Some(!d);
    assert n.kids[i] in n.kids;
    InOrder(o, n, n.kids[i]);
  }

  lemma AllAgainst(k: Kind, ws: seq<Option<bool>>)
    requires k in {AND, OR}
    ensures (forall i :: 0 <= i < |ws| ==> ws[i] == Some(k == AND)) ==> Kleene(k, ws) == Some(k == AND)
  {
  }

  /** A determined formula that is open for d has the value d. */
  lemma OpenDetermined(n: Node, d: bool, s: View)
    requires Complete(s) && Open(n, d, s) && Determined(n, s.sat)
    ensures Eval(n, s.sat) == Some(d)
  {
    OpenNotRefuted(n, d, s);
    var v := Eval(n, s.sat).value;
    assert v == d || v == !d;
  }

  // ---------- the skolems of an atom ----------

  /** The children of u are visited, and those that are skolems are in the list. */
  ghost predicate Listed(u: Term, visited: set<Term>, ites: map<Term, Node>, l: seq<(Term, Node)>) {
    forall c :: c in u.kids ==> c in visited && (c in ites ==> (c, ites[c]) in l)
  }

  lemma ListedMonotone(v: set<Term>, v': set<Term>, ites: map<Term, Node>, l: seq<(Term, Node)>, l': seq<(Term, Node)>)
    requires v <= v' && l <= l'
    ensures forall u :: Listed(u, v, ites, l) ==> Listed(u, v', ites, l')
  {
    forall p | p in l ensures p in l' {
      var i :| 0 <= i < |l| && l[i] == p;
      assert l'[i] == p;
    }
  }

  lemma ListedNext(t: Term, i: nat, v: set<Term>, ites: map<Term, Node>, l: seq<(Term, Node)>)
    requires i < |t.kids| && Listed(Term(t.op, t.kids[..i]), v, ites, l)
    requires t.kids[i] in v && (t.kids[i] in ites ==> (t.kids[i], ites[t.kids[i]]) in l)
    ensures Listed(Term(t.op, t.kids[..i + 1]), v, ites, l)
  {
    assert t.kids[..i + 1] == t.kids[..i] + [t.kids[i]];
  }

  /** A depth-first search that has listed the children of all it visited has listed all skolems below its root. */
  lemma {:induction false} BelowListed(s: Term, t: Term, visited: set<Term>, ites: map<Term, Node>,
    l: seq<(Term, Node)>)
    requires t in visited && forall u :: u in visited ==> Listed(u, visited, ites, l)
    requires Below(s, t) && s in ites
    ensures (s, ites[s]) in l
    decreases t
  {
    var c :| c in t.kids && (s == c || Below(s, c));
    if s != c {
      BelowListed(s, c, visited, ites, l);
    }
  }

  // ---------- the search ----------

  /**
   computeXorIffDesiredValues: the values asked of the two sides, given the assigned ones.  A side
   without a value is asked for the one that gives the connective the opposite of the desired value.
   */
  function XorIffDesired(k: Kind, d: bool, v1: Option<bool>, v2: Option<bool>): (r: (bool, bool))
    requires k in {IFF, XOR}
    ensures v1 != Some(!r.0) && v2 != Some(!r.1) && (v1.None? && v2.None? ==> !r.0)
    ensures v1.None? || v2.None? ==> (if k == IFF then r.0 == r.1 else r.0 != r.1) == !d
  {
    var invert := (d && k == IFF) || (!d && k == XOR);
    var v1' := if v1.None? && v2.None? then Some(false) else v1;
    if v2.None? then (v1'.value, if invert then !v1'.value else v1'.value)
    else if v1'.None? then (if invert then !v2.value else v2.value, v2.value)
    else (v1'.value, v2.value)
  }

  /** The list has skolems below the term, with assertions that were given for them. */
  ghost predicate ListKnown(l: seq<(Term, Node)>, t: Term, ites: map<Term, Node>, given: set<(Term, Node)>) {
    forall p :: p in l ==> p.0 in ites && p in given && Below(p.0, t)
  }

  ghost predicate MapKnown(ites: map<Term, Node>, given: set<(Term, Node)>) {
    forall t {:trigger ites[t]} :: t in ites ==> (t, ites[t]) in given
  }

  ghost function Pairs(m: map<Term, Node>): (r: set<(Term, Node)>)
    ensures MapKnown(m, r) && forall p :: p in r ==> p.0 in m && m[p.0] == p.1
  {
    set t | t in m :: (t, m[t])
  }

  lemma KnownGrows(ites: map<Term, Node>, given: set<(Term, Node)>, more: map<Term, Node>)
    requires MapKnown(ites, given)
    ensures MapKnown(ites + more, given + Pairs(more))
    ensures forall l, t {:trigger ListKnown(l, t, ites, given)} ::
              ListKnown(l, t, ites, given) ==> ListKnown(l, t, ites + more, given + Pairs(more))
  {
    var ites', given' := ites + more, given + Pairs(more);
    forall t | t in ites' ensures (t, ites'[t]) in given' {
      assert if t in more then (t, more[t]) in Pairs(more) else (t, ites[t]) in given;
    }
  }

  class JustificationHeuristic {
    const options: Options
    var view: View                              // the decision engine's window on the SAT solver
    var caches: Caches
    var frames: seq<Frame>                      // the states saved by the SAT context, oldest first
    var assertions: seq<Node>
    var iteAssertions: map<Term, Node>
    var iteCache: map<Node, seq<(Term, Node)>>
    var visited: set<Term>
    var visitedComputeITE: set<Term>
    var curDecision: Option<Literal>
    /** The assertions of skolems, now and before: those of a skolem that is given again stay in cached lists. */
    ghost var given: set<(Term, Node)>

    ghost predicate ItesKnown()
      reads this`iteCache, this`iteAssertions, this`given
    {
      && (forall n :: n in iteCache ==> n.Atom? && ListKnown(iteCache[n], n.term, iteAssertions, given))
      && MapKnown(iteAssertions, given)
    }

    /** The state in which the search may run. */
    ghost predicate Ready()
      reads this`view, this`caches, this`assertions, this`iteCache, this`iteAssertions, this`given
    {
      && Orders(options) && Complete(view) && ItesKnown()
      && (forall p :: p in given ==> Open(p.1, true, view))
      && Sound(caches, view.sat, options, assertions)
    }

    /** An atom with a literal that has no value yet. */
    ghost predicate Splitter(l: Option<Literal>)
      reads this`view
    {
      l.Some? && l.value.atom.Atom? && l.value.atom in view.lits && l.value.atom !in view.sat
    }

    /** The decision is a splitter, with the value that `n`, asked to become d, leads to asking of it. */
    ghost predicate Decides(n: Node, d: bool)
      reads this`view, this`given, this`curDecision
    {
      && Splitter(curDecision)
      && Reaches(view.sat, given, n, d, curDecision.value.atom, !curDecision.value.negated)
    }

    /** What a part leads to, the whole leads to. */
    lemma PartDecides(n: Node, d: bool, c: Node, e: bool)
      requires Asks(view.sat, given, n, d, c, e) && Decides(c, e)
      ensures Decides(n, d)
    {
      AskedReaches(view.sat, given, n, d, c, e, curDecision.value.atom, !curDecision.value.negated);
    }

    lemma EitherDecides(n: Node, d: bool, c1: Node, e1: bool, c2: Node, e2: bool)
      requires Decides(c1, e1) ==> Asks(view.sat, given, n, d, c1, e1) || Decides(c2, e2)
      requires Decides(c2, e2) ==>
                 Asks(view.sat, given, n, d, c2, e2) || (Decides(c1, e1) && Asks(view.sat, given, n, d, c1, e1))
      requires Decides(c1, e1) || Decides(c2, e2)
      ensures Decides(n, d)
    {
      if Decides(c1, e1) && Asks(view.sat, given, n, d, c1, e1) {
        PartDecides(n, d, c1, e1);
      } else {
        PartDecides(n, d, c2, e2);
      }
    }

    function TryGetSatValue(n: Node): (v: Option<bool>)
      ensures v == Assigned(n, view.sat)
      reads this`view
    {
      if n in view.sat then Some(view.sat[n]) else None
    }

    method SetJustified(n: Node)
      requires Ready() && WellFormed(n) && Determined(n, view.sat)
      modifies this`caches
      ensures Ready() && caches == old(caches).(justified := old(caches).justified + {n})
    {
      caches := caches.(justified := caches.justified + {n});
    }

    /** The loop at the start of findSplitterRec that handles negations. */
    method StripNot(node0: Node, d0: bool) returns (node: Node, d: bool)
      requires Ready() && Open(node0, d0, view)
      ensures Open(node, d, view) && (node == node0 || node < node0) && !(node.Op? && node.kind == NOT)
      ensures Reaches(view.sat, given, node0, d0, node, d) && node == Core(node0)
      ensures Determined(node, view.sat) ==> Determined(node0, view.sat)
    {
      node, d := node0, d0;
      ReachesSelf(view.sat, given, node0, d0);
      while node.Op? && node.kind == NOT
        invariant Open(node, d, view) && Reaches(view.sat, given, node0, d0, node, d) && Core(node) == Core(node0)
        invariant node == node0 || node < node0
        invariant Determined(node, view.sat) ==> Determined(node0, view.sat)
        decreases node
      {
        OpenPart(node, d, 0, view);
        assert Evals(node, view.sat)[0] == Eval(node.kids[0], view.sat);
        ReachesAsked(view.sat, given, node0, d0, node, d, node.kids[0], !d);
        d := !d;
        node := node.kids[0];
      }
    }

    method FindSplitterRec(node0: Node, d0: bool) returns (ret: SearchResult)
      requires Ready() && Open(node0, d0, view)
      modifies this`caches, this`visited, this`curDecision, this`iteCache, this`visitedComputeITE
      ensures Ready() && caches.prvsIndex == old(caches.prvsIndex)
      ensures ret != DONT_KNOW
      ensures ret == NO_SPLITTER ==>
                Determined(node0, view.sat) && visited == old(visited) && curDecision == old(curDecision)
      ensures ret == NO_SPLITTER ==> Core(node0) in caches.justified
      ensures ret == FOUND_SPLITTER ==> Decides(node0, d0)
      decreases iteAssertions.Keys - visited, node0, 3
    {
      var node, d := StripNot(node0, d0);
      if node in caches.justified {
        return NO_SPLITTER;
      }
      var litVal := TryGetSatValue(node);
      if node.Atom? {
        ret := HandleAtom(node, d, litVal);
      } else {
        ret := HandleOperator(node, d);
      }
      if ret == FOUND_SPLITTER {
        ReachesThrough(view.sat, given, node0, d0, node, d, curDecision.value.atom, !curDecision.value.negated);
      } else if !node.Atom? {
        if node in view.lits {
          OpenDetermined(node, d, view);
          DeterminedIsAssigned(node, view);
          assert litVal == Some(d);
        }
        SetJustified(node);
      }
    }

    /** The switch of findSplitterRec over the Boolean operators. */
    method HandleOperator(node: Node, d: bool) returns (ret: SearchResult)
      requires Ready() && Open(node, d, view) && !node.Atom? && !(node.Op? && node.kind == NOT)
      modifies this`caches, this`visited, this`curDecision, this`iteCache, this`visitedComputeITE
      ensures Ready() && caches.prvsIndex == old(caches.prvsIndex)
      ensures ret != DONT_KNOW
      ensures ret == NO_SPLITTER ==>
                Determined(node, view.sat) && visited == old(visited) && curDecision == old(curDecision)
      ensures ret == FOUND_SPLITTER ==> Decides(node, d)
      decreases iteAssertions.Keys - visited, node, 2
    {
      if node.Const? {
        OpenDetermined(node, d, view);
        assert node.b == d;
        ret := NO_SPLITTER;
      } else if node.kind == AND || node.kind == OR {
        if d == HardPolarity(node) {
          ret := HandleAndOrHard(node, d);
        } else {
          ret := HandleAndOrEasy(node, d);
        }
      } else if node.kind == ITE {
        ret := HandleITE(node, d);
      } else {
        ghost var ws, vs := Values(node.kids, view.sat), Evals(node, view.sat);
        if node.kind == IMPLIES && d {
          OpenClause(node, d, view);
          ret := HandleBinaryEasy(node, node.kids[0], false, node.kids[1], true);
          if ret == FOUND_SPLITTER {
            EitherDecides(node, d, node.kids[0], false, node.kids[1], true);
          }
        } else if node.kind == IMPLIES {
          OpenPart(node, d, 0, view);
          OpenPart(node, d, 1, view);
          ret := HandleBinaryHard(node, node.kids[0], true, node.kids[1], false);
          if ret == FOUND_SPLITTER {
            EitherDecides(node, d, node.kids[0], true, node.kids[1], false);
          }
        } else {
          OpenClause(node, d, view);
          var ds := XorIffDesired(node.kind, d, TryGetSatValue(node.kids[0]), TryGetSatValue(node.kids[1]));
          ret := HandleBinaryHard(node, node.kids[0], ds.0, node.kids[1], ds.1);
          if ret == FOUND_SPLITTER {
            assert PairAsked(node.kind, d, Assigned(node.kids[0], view.sat), Assigned(node.kids[1], view.sat),
                             ds.0, ds.1);
            EitherDecides(node, d, node.kids[0], ds.0, node.kids[1], ds.1);
          }
        }
      }
    }

    /** The atom case of findSplitterRec. */
    method HandleAtom(node: Node, d: bool, litVal: Option<bool>) returns (ret: SearchResult)
      requires Ready() && Open(node, d, view) && node.Atom? && litVal == Assigned(node, view.sat)
      modifies this`caches, this`visited, this`curDecision, this`iteCache, this`visitedComputeITE
      ensures Ready() && caches.prvsIndex == old(caches.prvsIndex)
      ensures ret != DONT_KNOW
      ensures ret == NO_SPLITTER ==>
                Determined(node, view.sat) && visited == old(visited) && curDecision == old(curDecision)
      ensures ret == NO_SPLITTER ==> node in caches.justified
      ensures ret == FOUND_SPLITTER ==> Decides(node, d)
      decreases iteAssertions.Keys - visited, node, 1
    {
      ret := HandleEmbeddedITEs(node, d);
      if ret == FOUND_SPLITTER {
        return;
      }
      if litVal.Some? {
        assert litVal.value == d;
        SetJustified(node);
        ret := NO_SPLITTER;
      } else {
        curDecision := Some(Literal(node, !d));
        ReachesSelf(view.sat, given, node, d);
        ret := FOUND_SPLITTER;
      }
    }

    method HandleAndOrEasy(node: Node, d: bool) returns (ret: SearchResult)
      requires Ready() && Open(node, d, view) && node.Op? && node.kind in {AND, OR} && d != HardPolarity(node)
      modifies this`caches, this`visited, this`curDecision, this`iteCache, this`visitedComputeITE
      ensures Ready() && caches.prvsIndex == old(caches.prvsIndex)
      ensures ret != DONT_KNOW
      ensures ret == NO_SPLITTER ==>
                Determined(node, view.sat) && visited == old(visited) && curDecision == old(curDecision)
      ensures ret == FOUND_SPLITTER ==> Decides(node, d)
      decreases iteAssertions.Keys - visited, node, 1
    {
      OpenClause(node, d, view);
      var kids := options.order(node);
      for i := 0 to |kids|
        invariant Ready() && caches.prvsIndex == old(caches.prvsIndex)
        invariant visited == old(visited) && curDecision == old(curDecision)
        invariant forall j :: 0 <= j < i ==> Assigned(kids[j], view.sat) == Some(!d)
      {
        var curNode := kids[i];
        InOrder(options, node, curNode);
        if TryGetSatValue(curNode) != Some(!d) {
          ret := FindSplitterRec(curNode, d);
          if ret != DONT_KNOW {
            if ret == NO_SPLITTER {
              OpenDetermined(curNode, d, view);
              Controlled(node, curNode, view.sat);
            } else {
              PartDecides(node, d, curNode, d);
            }
            return;
          }
        }
      }
      ControllingInput(options, node, d, view);
      assert false;
      ret := DONT_KNOW;
    }

    method HandleAndOrHard(node: Node, d: bool) returns (ret: SearchResult)
      requires Ready() && Open(node, d, view) && node.Op? && node.kind in {AND, OR} && d == HardPolarity(node)
      modifies this`caches, this`visited, this`curDecision, this`iteCache, this`visitedComputeITE
      ensures Ready() && caches.prvsIndex == old(caches.prvsIndex)
      ensures ret != DONT_KNOW
      ensures ret == NO_SPLITTER ==>
                Determined(node, view.sat) && visited == old(visited) && curDecision == old(curDecision)
      ensures ret == FOUND_SPLITTER ==> Decides(node, d)
      decreases iteAssertions.Keys - visited, node, 1
    {
      var kids := options.order(node);
      var noSplitter := true;
      var start := GetStartIndex(node);
      var i := start;
      while i < |kids|
        invariant start <= i && Ready() && caches.prvsIndex == old(caches.prvsIndex) && noSplitter
        invariant visited == old(visited) && curDecision == old(curDecision)
        invariant forall j :: 0 <= j < i && j < |kids| ==> WellFormed(kids[j]) && Determined(kids[j], view.sat)
      {
        InOrder(options, node, kids[i]);
        ret := SearchKid(node, d, kids[i]);
        if ret == FOUND_SPLITTER {
          if i != start {
            SaveStartIndex(node, i);
          }
          return;
        }
        noSplitter := noSplitter && ret == NO_SPLITTER;
        i := i + 1;
      }
      forall c | c in node.kids ensures Determined(c, view.sat) { InOrder(options, node, c); }
      AllDetermined(node, view.sat);
      ret := if noSplitter then NO_SPLITTER else DONT_KNOW;
    }

    method SearchKid(node: Node, d: bool, c: Node) returns (ret: SearchResult)
      requires Ready() && Open(node, d, view) && node.Op? && node.kind in {AND, OR} && d == HardPolarity(node)
      requires c in node.kids
      modifies this`caches, this`visited, this`curDecision, this`iteCache, this`visitedComputeITE
      ensures Ready() && caches.prvsIndex == old(caches.prvsIndex)
      ensures ret != DONT_KNOW
      ensures ret == NO_SPLITTER ==>
                WellFormed(c) && Determined(c, view.sat) && visited == old(visited) && curDecision == old(curDecision)
      ensures ret == FOUND_SPLITTER ==> Decides(node, d)
      decreases iteAssertions.Keys - visited, node, 0
    {
      OpenKid(node, d, c, view);
      ret := FindSplitterRec(c, d);
      if ret == FOUND_SPLITTER {
        PartDecides(node, d, c, d);
      }
    }

    method GetStartIndex(node: Node) returns (i: nat)
      requires Ready()
      modifies this`caches
      ensures Ready() && caches == old(caches).(startIndex := caches.startIndex)
      ensures node in caches.startIndex && i == caches.startIndex[node]
    {
      if node !in caches.startIndex {
        caches := caches.(startIndex := caches.startIndex[node := 0]);
      }
      i := caches.startIndex[node];
    }

    method SaveStartIndex(node: Node, i: nat)
      requires Ready()
      requires forall j :: 0 <= j < i && j < |options.order(node)| ==>
                 WellFormed(options.order(node)[j]) && Determined(options.order(node)[j], view.sat)
      modifies this`caches
      ensures Ready() && caches == old(caches).(startIndex := old(caches).startIndex[node := i])
    {
      caches := caches.(startIndex := caches.startIndex[node := i]);
    }

    method HandleBinaryEasy(ghost parent: Node, n1: Node, v1: bool, n2: Node, v2: bool) returns (ret: SearchResult)
      requires Ready() && n1 < parent && n2 < parent
      requires n1 in view.lits && n2 in view.lits
      requires Assigned(n1, view.sat) != Some(!v1) || Assigned(n2, view.sat) != Some(!v2)
      modifies this`caches, this`visited, this`curDecision, this`iteCache, this`visitedComputeITE
      ensures Ready() && caches.prvsIndex == old(caches.prvsIndex)
      ensures ret != DONT_KNOW
      ensures ret == NO_SPLITTER ==>
                WellFormed(n1) && WellFormed(n2) && (Eval(n1, view.sat) == Some(v1) || Eval(n2, view.sat) == Some(v2))
      ensures ret == NO_SPLITTER ==> visited == old(visited) && curDecision == old(curDecision)
      ensures ret == FOUND_SPLITTER ==>
                || (Assigned(n1, view.sat) != Some(!v1) && Decides(n1, v1))
                || (Assigned(n2, view.sat) != Some(!v2) && Decides(n2, v2))
      decreases iteAssertions.Keys - visited, parent, 1
    {
      var a, va, b, vb := n1, v1, n2, v2;
      if options.heavier(n1, v1, n2, v2) {
        a, va, b, vb := n2, v2, n1, v1;
      }
      if TryGetSatValue(a) != Some(!va) {
        ret := FindSplitterRec(a, va);
        if ret != DONT_KNOW {
          if ret == NO_SPLITTER { OpenDetermined(a, va, view); }
          return;
        }
      }
      if TryGetSatValue(b) != Some(!vb) {
        ret := FindSplitterRec(b, vb);
        if ret != DONT_KNOW {
          if ret == NO_SPLITTER { OpenDetermined(b, vb, view); }
          return;
        }
      }
      assert false;
      ret := DONT_KNOW;
    }

    method HandleBinaryHard(ghost parent: Node, n1: Node, v1: bool, n2: Node, v2: bool) returns (ret: SearchResult)
      requires Ready() && n1 < parent && n2 < parent
      requires Open(n1, v1, view) && Open(n2, v2, view)
      modifies this`caches, this`visited, this`curDecision, this`iteCache, this`visitedComputeITE
      ensures Ready() && caches.prvsIndex == old(caches.prvsIndex)
      ensures ret != DONT_KNOW
      ensures ret == NO_SPLITTER ==> Determined(n1, view.sat) && Determined(n2, view.sat)
      ensures ret == NO_SPLITTER ==> visited == old(visited) && curDecision == old(curDecision)
      ensures ret == FOUND_SPLITTER ==> Decides(n1, v1) || Decides(n2, v2)
      decreases iteAssertions.Keys - visited, parent, 1
    {
      var a, va, b, vb := n1, v1, n2, v2;
      if options.heavier(n1, v1, n2, v2) {
        a, va, b, vb := n2, v2, n1, v1;
      }
      ret := FindSplitterRec(a, va);
      if ret == FOUND_SPLITTER {
        return;
      }
      var noSplitter := ret == NO_SPLITTER;
      ret := FindSplitterRec(b, vb);
      if ret == FOUND_SPLITTER {
        return;
      }
      noSplitter := noSplitter && ret == NO_SPLITTER;
      ret := if noSplitter then NO_SPLITTER else DONT_KNOW;
    }

    method HandleITE(node: Node, d: bool) returns (ret: SearchResult)
      requires Ready() && Open(node, d, view) && node.Op? && node.kind == ITE
      modifies this`caches, this`visited, this`curDecision, this`iteCache, this`visitedComputeITE
      ensures Ready() && caches.prvsIndex == old(caches.prvsIndex)
      ensures ret != DONT_KNOW
      ensures ret == NO_SPLITTER ==>
                Determined(node, view.sat) && visited == old(visited) && curDecision == old(curDecision)
      ensures ret == FOUND_SPLITTER ==> Decides(node, d)
      decreases iteAssertions.Keys - visited, node, 1
    {
      OpenClause(node, d, view);
      var ifVal := TryGetSatValue(node.kids[0]);
      if ifVal.None? {
        var trueChildVal, falseChildVal := TryGetSatValue(node.kids[1]), TryGetSatValue(node.kids[2]);
        var ifDesired :=
          if trueChildVal == Some(d) || falseChildVal == Some(!d) then true
          else if trueChildVal == Some(!d) || falseChildVal == Some(d)
                  || options.heavier(node.kids[1], true, node.kids[2], false) then false
          else true;
        ret := FindSplitterRec(node.kids[0], ifDesired);
        if ret == FOUND_SPLITTER {
          PartDecides(node, d, node.kids[0], ifDesired);
          return;
        }
        DeterminedIsAssigned(node.kids[0], view);
        assert false;
        ret := DONT_KNOW;
      } else {
        ret := FindSplitterRec(node.kids[0], ifVal.value);
        if ret == FOUND_SPLITTER {
          PartDecides(node, d, node.kids[0], ifVal.value);
          return;
        }
        DeterminedIsAssigned(node.kids[0], view);
        var ch := if ifVal.value then 1 else 2;
        assert Values(node.kids, view.sat)[ch] == Assigned(node.kids[ch], view.sat);
        ret := FindSplitterRec(node.kids[ch], d);
        if ret == FOUND_SPLITTER {
          PartDecides(node, d, node.kids[ch], d);
          return;
        }
        assert Evals(node, view.sat)[0] == ifVal && Evals(node, view.sat)[ch].Some?;
        ret := NO_SPLITTER;
      }
    }

    method HandleEmbeddedITEs(node: Node, ghost d: bool) returns (ret: SearchResult)
      requires Ready() && node.Atom?
      modifies this`caches, this`visited, this`curDecision, this`iteCache, this`visitedComputeITE
      ensures Ready() && caches.prvsIndex == old(caches.prvsIndex)
      ensures ret != DONT_KNOW
      ensures ret == NO_SPLITTER ==> visited == old(visited) && curDecision == old(curDecision)
      ensures ret == FOUND_SPLITTER ==> Decides(node, d)
      decreases iteAssertions.Keys - visited, node, 0
    {
      var l := GetITEs(node);
      var noSplitter := true;
      for i := 0 to |l|
        invariant Ready() && caches.prvsIndex == old(caches.prvsIndex) && noSplitter
        invariant visited == old(visited) && curDecision == old(curDecision)
      {
        if l[i].0 !in visited {
          assert l[i] in l;
          visited := visited + {l[i].0};
          ret := FindSplitterRec(l[i].1, true);
          if ret == FOUND_SPLITTER {
            assert (l[i].0, l[i].1) in given;
            PartDecides(node, d, l[i].1, true);
            return;
          }
          noSplitter := noSplitter && ret == NO_SPLITTER;
          visited := visited - {l[i].0};
        }
      }
      ret := if noSplitter then NO_SPLITTER else DONT_KNOW;
    }

    /** The skolems below an atom, each with its assertion: all of them, when the list is not a cached one. */
    method GetITEs(node: Node) returns (l: seq<(Term, Node)>)
      requires ItesKnown() && node.Atom?
      modifies this`iteCache, this`visitedComputeITE
      ensures ItesKnown()
      ensures ListKnown(l, node.term, iteAssertions, given)
      ensures node !in old(iteCache) ==>
                && (forall p :: p in l ==> iteAssertions[p.0] == p.1)
                && forall t :: Below(t, node.term) && t in iteAssertions ==> (t, iteAssertions[t]) in l
    {
      if node in iteCache {
        l := iteCache[node];
      } else {
        visitedComputeITE := {};
        l := ComputeITEs(node.term, [], node.term);
        assert ListKnown(l, node.term, iteAssertions, given) by {
          forall p | p in l ensures p in given { assert (p.0, iteAssertions[p.0]) in given; }
        }
        iteCache := iteCache[node := l];
        forall t | Below(t, node.term) && t in iteAssertions ensures (t, iteAssertions[t]) in l {
          BelowListed(t, node.term, visitedComputeITE, iteAssertions, l);
        }
      }
    }

    method ComputeITEs(t: Term, l0: seq<(Term, Node)>, ghost root: Term) returns (l: seq<(Term, Node)>)
      requires t == root || Below(t, root)
      requires forall p :: p in l0 ==> p.0 in iteAssertions && iteAssertions[p.0] == p.1 && Below(p.0, root)
      modifies this`visitedComputeITE
      ensures forall p :: p in l ==> p.0 in iteAssertions && iteAssertions[p.0] == p.1 && Below(p.0, root)
      ensures visitedComputeITE >= old(visitedComputeITE) + {t} && l0 <= l
      ensures forall u :: u in visitedComputeITE - old(visitedComputeITE) ==>
              Listed(u, visitedComputeITE, iteAssertions, l)
      ensures t !in old(visitedComputeITE) ==> Listed(t, visitedComputeITE, iteAssertions, l)
      decreases t
    {
      visitedComputeITE := visitedComputeITE + {t};
      l := l0;
      for i := 0 to |t.kids|
        invariant forall p :: p in l ==> p.0 in iteAssertions && iteAssertions[p.0] == p.1 && Below(p.0, root)
        invariant visitedComputeITE >= old(visitedComputeITE) + {t} && l0 <= l
        invariant forall u :: u in visitedComputeITE - old(visitedComputeITE) && u != t ==>
                    Listed(u, visitedComputeITE, iteAssertions, l)
        invariant Listed(Term(t.op, t.kids[..i]), visitedComputeITE, iteAssertions, l)
      {
        var c := t.kids[i];
        BelowKid(c, t, root);
        ghost var v0, l0 := visitedComputeITE, l;
        if c in iteAssertions {
          l := l + [(c, iteAssertions[c])];
        }
        if c !in visitedComputeITE {
          l := ComputeITEs(c, l, root);
        }
        assert l0 <= l;
        assert c in iteAssertions ==> l[|l0|] == (c, iteAssertions[c]);
        ListedMonotone(v0, visitedComputeITE, iteAssertions, l0, l);
        ListedNext(t, i, visitedComputeITE, iteAssertions, l);
      }
      assert t.kids[..|t.kids|] == t.kids;
    }

    method FindSplitter(node: Node, d: bool) returns (l: Option<Literal>)
      requires Ready() && Open(node, d, view)
      modifies this`caches, this`visited, this`curDecision, this`iteCache, this`visitedComputeITE
      ensures Ready() && caches.prvsIndex == old(caches.prvsIndex)
      ensures l.None? ==> Determined(node, view.sat)
      ensures l == curDecision && (l.Some? ==> Decides(node, d))
    {
      curDecision := None;
      var _ := FindSplitterRec(node, d);
      l := curDecision;
    }

    // ---------- the heuristic over whole runs ----------

    /** The caches are sound now, and those saved by every push were sound and stay so. */
    ghost predicate Valid()
      reads this`view, this`caches, this`frames, this`assertions, this`iteCache, this`iteAssertions, this`given
    {
      && Orders(options) && ItesKnown()
      && Sound(caches, view.sat, options, assertions)
      && forall f :: f in frames ==> Sound(f.caches, f.sat, options, assertions)
    }

    /** The SAT solver has propagated all it can without a conflict, and the assertions have been given to it. */
    ghost predicate Propagation()
      reads this`view, this`assertions, this`given
    {
      && Complete(view)
      && (forall a :: a in assertions ==> WellFormed(a) && Asserted(a, true, view))
      && (forall p :: p in given ==> WellFormed(p.1) && Asserted(p.1, true, view))
    }

    constructor (options: Options)
      requires Orders(options)
      ensures Valid() && this.options == options && assertions == [] && frames == []
    {
      this.options := options;
      view, caches, frames := View({}, map[]), Caches({}, map[], 0), [];
      assertions, iteAssertions, iteCache, given := [], map[], map[], {};
      visited, visitedComputeITE, curDecision := {}, {}, None;
    }

    /** A push of the SAT context. */
    method Push()
      requires Valid()
      modifies this`frames
      ensures Valid() && frames == old(frames) + [Frame(caches, view.sat)]
    {
      frames := frames + [Frame(caches, view.sat)];
    }

    /** A pop of the SAT context: assignment and caches return to their state at the matching push. */
    method Pop()
      requires Valid() && frames != []
      modifies this`frames, this`caches, this`view
      ensures Valid() && frames == old(frames)[..|old(frames)| - 1]
      ensures Frame(caches, view.sat) == old(frames)[|old(frames)| - 1] && view.lits == old(view.lits)
    {
      var f := frames[|frames| - 1];
      assert f in frames;
      caches := f.caches;
      view := view.(sat := f.sat);
      frames := frames[..|frames| - 1];
    }

    /** The SAT solver assigns a literal, by decision or propagation. */
    method Assign(n: Node, b: bool)
      requires Valid() && n !in view.sat
      modifies this`view
      ensures Valid() && view == old(view).(sat := old(view).sat[n := b])
    {
      SoundMonotone(caches, view.sat, view.sat[n := b], options, assertions, []);
      assert assertions + [] == assertions;
      view := view.(sat := view.sat[n := b]);
    }

    /** addAssertions; the clauses give literals to the formulas in `lits`.  Skolems may be given again. */
    method AddAssertions(more: seq<Node>, skolems: map<Term, Node>, lits: set<Node>)
      requires Valid()
      modifies this`assertions, this`iteAssertions, this`view, this`given
      ensures Valid() && assertions == old(assertions) + more && iteAssertions == old(iteAssertions) + skolems
      ensures view == old(view).(lits := old(view).lits + lits)
    {
      SoundMonotone(caches, view.sat, view.sat, options, assertions, more);
      forall f | f in frames ensures Sound(f.caches, f.sat, options, assertions + more) {
        SoundMonotone(f.caches, f.sat, f.sat, options, assertions, more);
      }
      assertions := assertions + more;
      KnownGrows(iteAssertions, given, skolems);
      iteAssertions, given := iteAssertions + skolems, given + Pairs(skolems);
      view := view.(lits := view.lits + lits);
    }

    /** The next search starts at the assertion that gave the splitter. */
    method NoteIndex(i: nat)
      requires Valid() && i < |assertions|
      requires forall j :: 0 <= j < i ==> WellFormed(assertions[j]) && Determined(assertions[j], view.sat)
      modifies this`caches
      ensures Valid() && caches == old(caches).(prvsIndex := i)
    {
      caches := caches.(prvsIndex := i);
    }

    lemma SignOccurs(i: nat, l: Literal)
      requires i < |assertions| && Reaches(view.sat, given, assertions[i], true, l.atom, !l.negated) && l.atom.Atom?
      ensures var a := assertions[i];
              Plain(a, given) ==> WellFormed(a) && Occurs(Signed(l.atom, !l.negated), Nnf(a, true))
    {
      if Plain(assertions[i], given) {
        ReachesOccurs(view.sat, given, assertions[i], true, l.atom, !l.negated);
      }
    }

    lemma AllTrue()
      requires Valid() && Propagation()
      requires forall a :: a in assertions ==> WellFormed(a) && Determined(a, view.sat)
      ensures forall a :: a in assertions ==> Eval(a, view.sat) == Some(true)
      ensures forall a, v :: a in assertions && Extends(v, view.sat) ==> Holds(a, v)
    {
      forall a | a in assertions ensures Eval(a, view.sat) == Some(true) { OpenDetermined(a, true, view); }
      forall a, v | a in assertions && Extends(v, view.sat) ensures Holds(a, v) { EvalIsTruth(a, view.sat, v); }
    }

    /**
     getNextThresh with threshold 0.  Either an unassigned atom to decide on, or the
     verdict to stop, and then every assertion is true in every extension of the assignment.
     */
    method GetNext() returns (l: Option<Literal>, stopSearch: bool)
      requires Valid() && Propagation()
      modifies this`caches, this`visited, this`curDecision, this`iteCache, this`visitedComputeITE
      ensures Valid()
      ensures stopSearch == l.None?
      ensures l.Some? ==> Splitter(l) && caches.prvsIndex < |assertions|
      ensures l.Some? ==> Reaches(view.sat, given, assertions[caches.prvsIndex], true, l.value.atom, !l.value.negated)
      ensures l.Some? && Plain(assertions[caches.prvsIndex], given) ==>
                var a := assertions[caches.prvsIndex];
                WellFormed(a) && Occurs(Signed(l.value.atom, !l.value.negated), Nnf(a, true))
      ensures stopSearch ==> caches.prvsIndex == old(caches.prvsIndex)
      ensures stopSearch ==> forall a :: a in assertions ==> Eval(a, view.sat) == Some(true)
      ensures stopSearch ==> forall a, v :: a in assertions && Extends(v, view.sat) ==> Holds(a, v)
    {
      visited := {};
      var i := caches.prvsIndex;
      while i < |assertions|
        invariant i <= |assertions| && Ready() && Valid() && Propagation()
        invariant caches.prvsIndex == old(caches.prvsIndex)
        invariant forall j :: 0 <= j < i ==> WellFormed(assertions[j]) && Determined(assertions[j], view.sat)
      {
        assert assertions[i] in assertions;
        l := FindSplitter(assertions[i], true);
        if l.Some? {
          NoteIndex(i);
          SignOccurs(i, l.value);
          return l, false;
        }
        i := i + 1;
      }
      AllTrue();
      return None, true;
    }
  }
}
