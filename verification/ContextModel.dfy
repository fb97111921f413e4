/**
 The scopes and object versions of a context as values.

 `chains[l]` lists the nodes of scope level `l`, first to last.  A node is either
 a live object or a saved copy of one; `ids` says which version of which object
 it is, and `tracks` lists the versions of every live object.  The imperative
 context (module ContextKernel) keeps one such value up to date as ghost state.
 */
module ContextModel {
  import opened Basics
  import opened SaveStack

  /** `region` is the memory region a saved copy was allocated in (0 for a live object). */
  datatype Id<O> = Id(owner: O, version: nat, region: nat)

  datatype Model<!O(==)> = Model(chains: seq<seq<O>>, tracks: map<O, Track<O>>, ids: map<O, Id<O>>)

  ghost function VersionNode<O>(t: Track<O>, o: O, k: nat): O
    requires k <= |t.saved|
  {
    if k < |t.saved| then t.saved[k].copy else o
  }

  ghost function VersionLevel<O>(t: Track<O>, k: nat): nat
    requires k <= |t.saved|
  {
    if k < |t.saved| then t.saved[k].level else t.level
  }

  /** Object `o` has proper versions, each known under its own identity and each saved in a live region. */
  ghost predicate Tracked<O>(m: Model<O>, o: O)
    requires o in m.tracks
  {
    var t := m.tracks[o];
    && t.Valid() && t.level < |m.chains|
    && forall k {:trigger VersionNode(t, o, k)} :: 0 <= k <= |t.saved| ==>
         && VersionNode(t, o, k) in m.ids
         && m.ids[VersionNode(t, o, k)] == Id(o, k, if k < |t.saved| then VersionLevel(t, k + 1) else 0)
  }

  /** Node `n` is the version it claims to be and is a member of that version's chain. */
  ghost predicate Owned<O>(m: Model<O>, n: O)
    requires n in m.ids
  {
    var id := m.ids[n];
    && id.owner in m.tracks && id.version <= |m.tracks[id.owner].saved|
    && n == VersionNode(m.tracks[id.owner], id.owner, id.version)
    && VersionLevel(m.tracks[id.owner], id.version) < |m.chains|
    && n in m.chains[VersionLevel(m.tracks[id.owner], id.version)]
  }

  /** The node at place (l, i) is a version at level l. */
  ghost predicate Placed<O>(m: Model<O>, l: nat, i: nat)
    requires l < |m.chains| && i < |m.chains[l]|
  {
    var n := m.chains[l][i];
    && n in m.ids && m.ids[n].owner in m.tracks && m.ids[n].version <= |m.tracks[m.ids[n].owner].saved|
    && l == VersionLevel(m.tracks[m.ids[n].owner], m.ids[n].version)
  }

  ghost predicate Inv<O>(m: Model<O>) {
    && m.chains != []
    && (forall o {:trigger Tracked(m, o)} :: o in m.tracks ==> Tracked(m, o))
    && (forall n {:trigger Owned(m, n)} :: n in m.ids ==> Owned(m, n))
    && (forall l, i {:trigger Placed(m, l, i)} :: 0 <= l < |m.chains| && 0 <= i < |m.chains[l]| ==> Placed(m, l, i))
    && (forall l {:trigger Distinct(m.chains[l])} :: 0 <= l < |m.chains| ==> Distinct(m.chains[l]))
  }

  // ---------- the operations ----------

  ghost function Pushed<O>(m: Model<O>): Model<O> {
    m.(chains := m.chains + [[]])
  }

  ghost function Created<O>(m: Model<O>, o: O): Model<O>
    requires m.chains != []
  {
    Model(m.chains[0 := [o] + m.chains[0]], m.tracks[o := Track(0, [])], m.ids[o := Id(o, 0, 0)])
  }

  /** `saved` replaces `o` at place i of chain l; `o` moves to the front of the top chain. */
  ghost function Moved<O>(cs: seq<seq<O>>, l: nat, i: nat, o: O, saved: O): seq<seq<O>>
    requires l < |cs| - 1 && i < |cs[l]|
  {
    cs[l := cs[l][i := saved]][|cs| - 1 := [o] + cs[|cs| - 1]]
  }

  /** `saved` replaces `o` at place i of its chain; `o` moves to the front of the top chain. */
  ghost function Updated<O>(m: Model<O>, o: O, i: nat, saved: O): Model<O>
    requires o in m.tracks && m.tracks[o].level < |m.chains| - 1 && i < |m.chains[m.tracks[o].level]|
  {
    var t, top := m.tracks[o], |m.chains| - 1;
    Model(Moved(m.chains, t.level, i, o, saved),
          m.tracks[o := t.MakeCurrent(top, saved)],
          m.ids[saved := Id(o, |t.saved|, top)][o := Id(o, |t.saved| + 1, 0)])
  }

  ghost function RemoveAt<O>(c: seq<O>, i: nat): seq<O>
    requires i < |c|
  {
    c[..i] + c[i + 1..]
  }

  /** `o`, at place j of its chain, goes back to place i, where its newest saved copy stands. */
  ghost function Unwound<O>(m: Model<O>, o: O, j: nat, i: nat): Model<O>
    requires o in m.tracks && m.tracks[o].saved != []
    requires var t := m.tracks[o];
             && t.Restored().level < t.level < |m.chains|
             && j < |m.chains[t.level]| && i < |m.chains[t.Restored().level]|
  {
    var t := m.tracks[o];
    var l, c := t.Restored().level, Newest(t);
    Model(m.chains[t.level := RemoveAt(m.chains[t.level], j)][l := m.chains[l][i := o]],
          m.tracks[o := t.Restored()],
          (m.ids - {c})[o := Id(o, |t.saved| - 1, 0)])
  }

  /** `o`, which has no saved copies, leaves place i of the bottom chain. */
  ghost function Dropped<O>(m: Model<O>, o: O, i: nat): Model<O>
    requires m.chains != [] && i < |m.chains[0]|
  {
    Model(m.chains[0 := RemoveAt(m.chains[0], i)], m.tracks - {o}, m.ids - {o})
  }

  /** The top scope, all of whose objects have been restored, disappears. */
  ghost function Popped<O>(m: Model<O>): Model<O>
    requires m.chains != []
  {
    m.(chains := m.chains[..|m.chains| - 1])
  }

  lemma LiveIsNode<O>(m: Model<O>)
    requires Inv(m)
    ensures forall o :: o in m.tracks ==> o in m.ids && m.ids[o] == Id(o, |m.tracks[o].saved|, 0)
  {
    forall o | o in m.tracks ensures o in m.ids && m.ids[o] == Id(o, |m.tracks[o].saved|, 0) {
      assert Tracked(m, o);
      assert VersionNode(m.tracks[o], o, |m.tracks[o].saved|) == o;
    }
  }

  /** A live object stands somewhere in the chain of its level. */
  lemma FindPlace<O>(m: Model<O>, o: O) returns (i: nat)
    requires Inv(m) && o in m.tracks
    ensures o in m.ids && m.tracks[o].level < |m.chains|
    ensures i < |m.chains[m.tracks[o].level]| && m.chains[m.tracks[o].level][i] == o
  {
    LiveIsNode(m);
    assert Tracked(m, o) && Owned(m, o);
    i :| 0 <= i < |m.chains[m.tracks[o].level]| && m.chains[m.tracks[o].level][i] == o;
  }

  lemma PushedInv<O>(m: Model<O>)
    requires Inv(m)
    ensures Inv(Pushed(m))
  {
    var m' := Pushed(m);
    forall o | o in m'.tracks ensures Tracked(m', o) { assert Tracked(m, o); }
    forall n | n in m'.ids ensures Owned(m', n) { assert Owned(m, n); }
    forall l, i | 0 <= l < |m'.chains| && 0 <= i < |m'.chains[l]| ensures Placed(m', l, i) { assert Placed(m, l, i); }
    forall l | 0 <= l < |m'.chains| ensures Distinct(m'.chains[l]) { assert l < |m.chains| ==> Distinct(m.chains[l]); }
  }

  lemma CreatedInv<O>(m: Model<O>, o: O)
    requires Inv(m) && o !in m.ids
    ensures Inv(Created(m, o))
  {
    var m' := Created(m, o);
    LiveIsNode(m);
    forall x | x in m'.tracks ensures Tracked(m', x) {
      if x != o { assert Tracked(m, x); } else { assert VersionNode(m'.tracks[o], o, 0) == o; }
    }
    forall n | n in m'.ids ensures Owned(m', n) {
      if n != o { assert Owned(m, n); } else { assert m'.chains[0][0] == o; }
    }
    forall l, i | 0 <= l < |m'.chains| && 0 <= i < |m'.chains[l]| ensures Placed(m', l, i) {
      if l > 0 { assert Placed(m, l, i); } else if i > 0 { assert Placed(m, 0, i - 1); }
    }
    forall l | 0 <= l < |m'.chains| ensures Distinct(m'.chains[l]) {
      assert Distinct(m.chains[l]);
      if l == 0 { forall i | 0 <= i < |m.chains[0]| ensures m.chains[0][i] != o { assert Placed(m, 0, i); } }
    }
  }

  ghost predicate CanUpdate<O>(m: Model<O>, o: O, i: nat, saved: O) {
    && Inv(m) && o in m.tracks && saved !in m.ids
    && m.tracks[o].level < |m.chains| - 1 && i < |m.chains[m.tracks[o].level]|
    && m.chains[m.tracks[o].level][i] == o
  }

  lemma UpdatedInv<O>(m: Model<O>, o: O, i: nat, saved: O)
    requires CanUpdate(m, o, i, saved)
    ensures Inv(Updated(m, o, i, saved))
  {
    var m' := Updated(m, o, i, saved);
    forall x | x in m'.tracks ensures Tracked(m', x) { UpdatedTracked(m, o, i, saved, x); }
    forall n | n in m'.ids ensures Owned(m', n) { UpdatedOwned(m, o, i, saved, n); }
    forall l, j | 0 <= l < |m'.chains| && 0 <= j < |m'.chains[l]| ensures Placed(m', l, j) {
      UpdatedPlaced(m, o, i, saved, l, j);
    }
    forall l | 0 <= l < |m'.chains| ensures Distinct(m'.chains[l]) { UpdatedDistinct(m, o, i, saved, l); }
  }

  lemma UpdatedKeys<O>(m: Model<O>, o: O, i: nat, saved: O)
    requires CanUpdate(m, o, i, saved)
    ensures Updated(m, o, i, saved).ids.Keys == m.ids.Keys + {saved}
    ensures Updated(m, o, i, saved).tracks.Keys == m.tracks.Keys
  {
    LiveIsNode(m);
  }

  lemma UpdatedTracked<O>(m: Model<O>, o: O, i: nat, saved: O, x: O)
    requires CanUpdate(m, o, i, saved) && x in m.tracks
    ensures Tracked(Updated(m, o, i, saved), x)
  {
    var m' := Updated(m, o, i, saved);
    var t, t' := m.tracks[o], m'.tracks[o];
    assert Tracked(m, o) && Tracked(m, x);
    LiveIsNode(m);
    if x == o {
      forall k | 0 <= k <= |t'.saved|
        ensures VersionNode(t', o, k) in m'.ids
        ensures m'.ids[VersionNode(t', o, k)] == Id(o, k, if k < |t'.saved| then VersionLevel(t', k + 1) else 0)
      {
        assert k < |t.saved| ==> VersionNode(t', o, k) == VersionNode(t, o, k);
      }
    }
  }

  lemma UpdatedOwned<O>(m: Model<O>, o: O, i: nat, saved: O, n: O)
    requires CanUpdate(m, o, i, saved) && n in Updated(m, o, i, saved).ids
    ensures Owned(Updated(m, o, i, saved), n)
  {
    var m' := Updated(m, o, i, saved);
    var l, top := m.tracks[o].level, |m.chains| - 1;
    LiveIsNode(m);
    if n == o {
      assert m'.chains[top][0] == o;
    } else if n == saved {
      assert m'.chains[l][i] == saved;
    } else {
      assert Owned(m, n);
      var v := VersionLevel(m.tracks[m.ids[n].owner], m.ids[n].version);
      var j :| 0 <= j < |m.chains[v]| && m.chains[v][j] == n;
      assert n == if v == top then m'.chains[v][j + 1] else m'.chains[v][j];
    }
  }

  lemma UpdatedPlaced<O>(m: Model<O>, o: O, i: nat, saved: O, l: nat, j: nat)
    requires CanUpdate(m, o, i, saved) && l < |m.chains| && j < |Updated(m, o, i, saved).chains[l]|
    ensures Placed(Updated(m, o, i, saved), l, j)
  {
    LiveIsNode(m);
    if l == |m.chains| - 1 {
      if j > 0 { assert Placed(m, l, j - 1); }
    } else if l == m.tracks[o].level && i == j {
    } else {
      assert Placed(m, l, j);
      assert Distinct(m.chains[l]);
    }
  }

  lemma UpdatedDistinct<O>(m: Model<O>, o: O, i: nat, saved: O, l: nat)
    requires CanUpdate(m, o, i, saved) && l < |m.chains|
    ensures Distinct(Updated(m, o, i, saved).chains[l])
  {
    assert Distinct(m.chains[l]);
    LiveIsNode(m);
    forall j | 0 <= j < |m.chains[l]| ensures m.chains[l][j] != saved && (l == |m.chains| - 1 ==> m.chains[l][j] != o) {
      assert Placed(m, l, j);
    }
  }

  /** The newest saved copy. */
  ghost function Newest<O>(t: Track<O>): O
    requires t.saved != []
  {
    t.saved[|t.saved| - 1].copy
  }

  ghost predicate CanUnwind<O>(m: Model<O>, o: O, j: nat, i: nat) {
    && Inv(m) && o in m.tracks && m.tracks[o].saved != []
    && var t := m.tracks[o];
       var l := t.Restored().level;
       && l < t.level < |m.chains|
       && j < |m.chains[t.level]| && m.chains[t.level][j] == o
       && i < |m.chains[l]| && m.chains[l][i] == Newest(t)
  }

  lemma UnwoundInv<O>(m: Model<O>, o: O, j: nat, i: nat)
    requires CanUnwind(m, o, j, i)
    ensures Inv(Unwound(m, o, j, i))
  {
    var m' := Unwound(m, o, j, i);
    forall x | x in m'.tracks ensures Tracked(m', x) { UnwoundTracked(m, o, j, i, x); }
    forall n | n in m'.ids ensures Owned(m', n) { UnwoundOwned(m, o, j, i, n); }
    forall l, k | 0 <= l < |m'.chains| && 0 <= k < |m'.chains[l]| ensures Placed(m', l, k) {
      UnwoundPlaced(m, o, j, i, l, k);
    }
    forall l | 0 <= l < |m'.chains| ensures Distinct(m'.chains[l]) { UnwoundDistinct(m, o, j, i, l); }
  }

  lemma UnwoundTracked<O>(m: Model<O>, o: O, j: nat, i: nat, x: O)
    requires CanUnwind(m, o, j, i) && x in m.tracks
    ensures Tracked(Unwound(m, o, j, i), x)
  {
    var m' := Unwound(m, o, j, i);
    var t, t', u := m.tracks[o], m'.tracks[o], m.tracks[x];
    assert Tracked(m, o) && Tracked(m, x);
    assert VersionNode(t, o, |t.saved| - 1) == Newest(t);
    assert VersionNode(t, o, |t.saved|) == o;
    if x == o {
      forall k | 0 <= k <= |t'.saved|
        ensures VersionNode(t', o, k) in m'.ids
        ensures m'.ids[VersionNode(t', o, k)] == Id(o, k, if k < |t'.saved| then VersionLevel(t', k + 1) else 0)
      {
        assert k < |t'.saved| ==> VersionNode(t', o, k) == VersionNode(t, o, k);
      }
    }
  }

  lemma UnwoundOwned<O>(m: Model<O>, o: O, j: nat, i: nat, n: O)
    requires CanUnwind(m, o, j, i) && n in Unwound(m, o, j, i).ids
    ensures Owned(Unwound(m, o, j, i), n)
  {
    var m' := Unwound(m, o, j, i);
    var t := m.tracks[o];
    var l := t.Restored().level;
    assert Tracked(m, o);
    if n == o {
      assert m'.chains[l][i] == o;
    } else {
      assert Owned(m, n);
      var v := VersionLevel(m.tracks[m.ids[n].owner], m.ids[n].version);
      var k :| 0 <= k < |m.chains[v]| && m.chains[v][k] == n;
      assert n == if v == t.level && k > j then m'.chains[v][k - 1] else m'.chains[v][k];
    }
  }

  lemma UnwoundPlaced<O>(m: Model<O>, o: O, j: nat, i: nat, l: nat, k: nat)
    requires CanUnwind(m, o, j, i) && l < |m.chains| && k < |Unwound(m, o, j, i).chains[l]|
    ensures Placed(Unwound(m, o, j, i), l, k)
  {
    var t := m.tracks[o];
    LiveIsNode(m);
    assert Distinct(m.chains[l]);
    assert Distinct(m.chains[t.level]);
    assert Tracked(m, o);
    assert VersionNode(t, o, |t.saved| - 1) == Newest(t);
    if l != t.Restored().level || k != i {
      var k' := if l == t.level && k >= j then k + 1 else k;
      assert Placed(m, l, k');
      assert Owned(m, m.chains[l][k']);
    }
  }

  lemma UnwoundDistinct<O>(m: Model<O>, o: O, j: nat, i: nat, l: nat)
    requires CanUnwind(m, o, j, i) && l < |m.chains|
    ensures Distinct(Unwound(m, o, j, i).chains[l])
  {
    assert Distinct(m.chains[l]);
    LiveIsNode(m);
    if l == m.tracks[o].Restored().level {
      forall k | 0 <= k < |m.chains[l]| ensures m.chains[l][k] != o { assert Placed(m, l, k); }
    }
  }

  /** Every member of the top chain is a live object with a saved copy below, in a place that a restore can find. */
  lemma MemberOfTop<O>(m: Model<O>, j: nat) returns (i: nat)
    requires Inv(m) && |m.chains| > 1 && j < |m.chains[|m.chains| - 1]|
    ensures var top := |m.chains| - 1; var o := m.chains[top][j];
            o in m.tracks && m.tracks[o].level == top && CanUnwind(m, o, j, i)
  {
    var top := |m.chains| - 1;
    var n := m.chains[top][j];
    assert Placed(m, top, j);
    var t := m.tracks[m.ids[n].owner];
    assert Owned(m, n) && Tracked(m, m.ids[n].owner);
    i := CopyPlace(m, n);
  }

  ghost function Elems<O>(c: seq<O>): set<O> {
    set n | n in c
  }

  /** The nodes below the top scope. */
  ghost function Lower<O>(m: Model<O>): set<O>
    requires m.chains != []
  {
    m.ids.Keys - Elems(m.chains[|m.chains| - 1])
  }

  /** The chains below the top hold exactly the lower nodes. */
  lemma LowerChains<O>(m: Model<O>, l: nat, i: nat)
    requires Inv(m) && l < |m.chains| - 1 && i < |m.chains[l]|
    ensures m.chains[l][i] in Lower(m)
  {
    var top := |m.chains| - 1;
    assert Placed(m, l, i);
    forall k | 0 <= k < |m.chains[top]| ensures m.chains[top][k] != m.chains[l][i] { assert Placed(m, top, k); }
  }

  /** Restoring the first object of the top chain shortens that chain and touches one place below. */
  lemma UnwoundTop<O>(m: Model<O>, o: O, i: nat)
    requires CanUnwind(m, o, 0, i) && m.tracks[o].level == |m.chains| - 1
    ensures var m', top, l := Unwound(m, o, 0, i), |m.chains| - 1, m.tracks[o].Restored().level;
            && |m'.chains| == |m.chains|
            && m'.chains[top] == m.chains[top][1..]
            && m'.chains[..top] == m.chains[..top][l := m.chains[l][i := o]]
            && Lower(m') == Lower(m) - {m.chains[l][i]} + {o}
            && o !in Lower(m)
  {
    var m', top, l := Unwound(m, o, 0, i), |m.chains| - 1, m.tracks[o].Restored().level;
    var c := m.chains[l][i];
    UnwoundOlder(m, o, 0, i);
    assert Distinct(m.chains[top]);
    assert m'.chains[top] == m.chains[top][1..];
    assert c !in m.chains[top] by {
      assert Placed(m, l, i);
      forall k | 0 <= k < |m.chains[top]| ensures m.chains[top][k] != c { assert Placed(m, top, k); }
    }
    assert Elems(m'.chains[top]) == Elems(m.chains[top]) - {o};
  }

  lemma UnwoundMembers<O>(m: Model<O>, o: O, i: nat)
    requires CanUnwind(m, o, 0, i) && m.tracks[o].level == |m.chains| - 1
    ensures var m', top := Unwound(m, o, 0, i), |m.chains| - 1;
            && Elems(m'.chains[top]) <= m'.ids.Keys && |m'.chains[top]| < |m.chains[top]|
            && m'.ids.Keys == m.ids.Keys - {Newest(m.tracks[o])} && m'.tracks.Keys == m.tracks.Keys
  {
    var m', top := Unwound(m, o, 0, i), |m.chains| - 1;
    UnwoundOlder(m, o, 0, i);
    UnwoundInv(m, o, 0, i);
    forall j | 0 <= j < |m'.chains[top]| ensures m'.chains[top][j] in m'.ids { assert Placed(m', top, j); }
  }

  /** The newest saved copy of an object stands somewhere in the chain of its level. */
  lemma CopyPlace<O>(m: Model<O>, o: O) returns (i: nat)
    requires Inv(m) && o in m.tracks && m.tracks[o].saved != []
    ensures var t := m.tracks[o];
            && t.Restored().level < t.level < |m.chains|
            && i < |m.chains[t.Restored().level]|
            && m.chains[t.Restored().level][i] == Newest(t)
  {
    var t := m.tracks[o];
    assert Tracked(m, o);
    var c := VersionNode(t, o, |t.saved| - 1);
    assert Owned(m, c);
    i :| 0 <= i < |m.chains[t.Restored().level]| && m.chains[t.Restored().level][i] == c;
  }

  lemma DroppedInv<O>(m: Model<O>, o: O, i: nat)
    requires Inv(m) && o in m.tracks && m.tracks[o].saved == []
    requires i < |m.chains[0]| && m.chains[0][i] == o
    ensures Inv(Dropped(m, o, i))
  {
    var m' := Dropped(m, o, i);
    LiveIsNode(m);
    assert Tracked(m, o) && Distinct(m.chains[0]);
    forall x | x in m'.tracks ensures Tracked(m', x) { assert Tracked(m, x); }
    forall n | n in m'.ids ensures Owned(m', n) {
      assert Owned(m, n);
      var v := VersionLevel(m.tracks[m.ids[n].owner], m.ids[n].version);
      var k :| 0 <= k < |m.chains[v]| && m.chains[v][k] == n;
      assert n == if v == 0 && k > i then m'.chains[v][k - 1] else m'.chains[v][k];
    }
    forall l, k | 0 <= l < |m'.chains| && 0 <= k < |m'.chains[l]| ensures Placed(m', l, k) {
      assert Placed(m, l, if l == 0 && k >= i then k + 1 else k);
    }
    forall l | 0 <= l < |m'.chains| ensures Distinct(m'.chains[l]) { assert Distinct(m.chains[l]); }
  }

  lemma PoppedInv<O>(m: Model<O>)
    requires Inv(m) && |m.chains| > 1 && m.chains[|m.chains| - 1] == []
    ensures Inv(Popped(m))
  {
    var m' := Popped(m);
    LiveIsNode(m);
    forall x | x in m'.tracks ensures Tracked(m', x) { assert Tracked(m, x) && Owned(m, x); }
    forall n | n in m'.ids ensures Owned(m', n) { assert Owned(m, n); }
    forall l, k | 0 <= l < |m'.chains| && 0 <= k < |m'.chains[l]| ensures Placed(m', l, k) { assert Placed(m, l, k); }
    forall l | 0 <= l < |m'.chains| ensures Distinct(m'.chains[l]) { assert Distinct(m.chains[l]); }
  }

  // ---------- what a scope level looks like ----------

  /** The node that holds the state of `o` as of level l. */
  ghost function Version<O>(m: Model<O>, o: O, l: nat): O
    requires o in m.tracks
  {
    m.tracks[o].At(o, l)
  }

  /** A node as seen from level l, after its object: the version in force there stands for the object. */
  ghost function Seen<O>(m: Model<O>, n: O, l: nat): (O, O) {
    if n !in m.ids then (n, n)
    else
      var o := m.ids[n].owner;
      (o, if o in m.tracks && Version(m, o, l) == n then o else n)
  }

  /** Chain j as seen from level l. */
  ghost function ChainView<O>(m: Model<O>, j: nat, l: nat): (v: seq<(O, O)>)
    requires j < |m.chains|
    ensures |v| == |m.chains[j]|
    ensures forall i :: 0 <= i < |v| ==> v[i] == Seen(m, m.chains[j][i], l)
  {
    seq(|m.chains[j]|, i requires 0 <= i < |m.chains[j]| => Seen(m, m.chains[j][i], l))
  }

  /** Seen from the top, every chain is what it is. */
  lemma TopView<O>(m: Model<O>, j: nat, l: nat)
    requires Inv(m) && j <= l == |m.chains| - 1
    ensures forall i :: 0 <= i < |m.chains[j]| ==> var n := m.chains[j][i];
              n in m.ids && ChainView(m, j, l)[i] == (m.ids[n].owner, n)
  {
    forall i | 0 <= i < |m.chains[j]|
      ensures var n := m.chains[j][i]; n in m.ids && Seen(m, n, l) == (m.ids[n].owner, n)
    {
      var n := m.chains[j][i];
      assert Placed(m, j, i);
      assert Tracked(m, m.ids[n].owner);
    }
  }

  /** The next older version of the same object: what the restore pointer of `n` must be. */
  ghost function Older<O>(m: Model<O>, n: O): Option<O>
    requires n in m.ids
  {
    var id := m.ids[n];
    if id.owner in m.tracks && 0 < id.version <= |m.tracks[id.owner].saved|
    then Some(m.tracks[id.owner].saved[id.version - 1].copy) else None
  }

  /** Scope level and restore pointer of `o` as of level l. */
  ghost function PlaceAt<O>(m: Model<O>, o: O, l: nat): (nat, Option<O>)
    requires Inv(m) && o in m.tracks
  {
    VersionPlace(m, o, l);
    var n := Version(m, o, l);
    assert Owned(m, n);
    (VersionLevel(m.tracks[o], m.ids[n].version), Older(m, n))
  }

  /** What `o` holds at level l, when `d` says what every node holds. */
  ghost function ValueAt<O, D>(m: Model<O>, d: map<O, D>, o: O, l: nat): D
    requires Inv(m) && o in m.tracks && m.ids.Keys <= d.Keys
  {
    VersionPlace(m, o, l);
    d[Version(m, o, l)]
  }

  /** Level l is the same in both: the objects, their data, scopes and restore pointers, and the chains. */
  ghost predicate SameLevel<O, D>(m: Model<O>, d: map<O, D>, m': Model<O>, d': map<O, D>, l: nat)
    requires Inv(m) && Inv(m') && m.ids.Keys <= d.Keys && m'.ids.Keys <= d'.Keys
  {
    && m.tracks.Keys == m'.tracks.Keys
    && l < |m.chains| && l < |m'.chains|
    && (forall o {:trigger PlaceAt(m, o, l)} {:trigger ValueAt(m, d, o, l)} :: o in m.tracks ==>
          && PlaceAt(m, o, l) == PlaceAt(m', o, l)
          && ValueAt(m, d, o, l) == ValueAt(m', d', o, l))
    && forall j {:trigger ChainView(m, j, l)} :: 0 <= j <= l ==> ChainView(m, j, l) == ChainView(m', j, l)
  }

  /** Seen from the top, every object is where it is. */
  lemma TopPlace<O>(m: Model<O>, o: O)
    requires Inv(m) && o in m.tracks
    ensures Version(m, o, |m.chains| - 1) == o && o in m.ids
    ensures PlaceAt(m, o, |m.chains| - 1) == (m.tracks[o].level, Older(m, o))
  {
    assert Tracked(m, o);
    LiveIsNode(m);
  }

  lemma PushedViews<O, D>(m: Model<O>, d: map<O, D>)
    requires Inv(m) && m.ids.Keys == d.Keys
    ensures SameBelow(m, d, Pushed(m), d, |m.chains|)
  {
    PushedInv(m);
    var m' := Pushed(m);
    forall l | 0 <= l < |m.chains| ensures SameLevel(m, d, m', d, l) {
      forall o | o in m.tracks ensures PlaceAt(m, o, l) == PlaceAt(m', o, l) { }
      forall j | 0 <= j <= l ensures ChainView(m, j, l) == ChainView(m', j, l) { }
    }
  }

  lemma PoppedViews<O, D>(m: Model<O>, d: map<O, D>)
    requires Inv(m) && |m.chains| > 1 && m.chains[|m.chains| - 1] == [] && m.ids.Keys == d.Keys
    ensures SameBelow(m, d, Popped(m), d, |m.chains| - 1)
  {
    PoppedInv(m);
    var m' := Popped(m);
    forall l | 0 <= l < |m.chains| - 1 ensures SameLevel(m, d, m', d, l) {
      forall o | o in m.tracks ensures PlaceAt(m, o, l) == PlaceAt(m', o, l) { }
      forall j | 0 <= j <= l ensures ChainView(m, j, l) == ChainView(m', j, l) { }
    }
  }

  /** The version in force at level l is the object itself exactly from its own level on. */
  lemma VersionPlace<O>(m: Model<O>, o: O, l: nat)
    requires Inv(m) && o in m.tracks
    ensures Version(m, o, l) in m.ids && m.ids[Version(m, o, l)].owner == o
    ensures Version(m, o, l) == o <==> m.tracks[o].level <= l
  {
    var t := m.tracks[o];
    assert Tracked(m, o);
    assert VersionNode(t, o, |t.saved|) == o;
    if l < t.level {
      AtIsSaved(t, o, l);
      var k :| 0 <= k < |t.saved| && t.At(o, l) == t.saved[k].copy;
      assert VersionNode(t, o, k) == t.saved[k].copy;
    }
  }

  lemma UpdatedNode<O>(m: Model<O>, o: O, i: nat, saved: O, l: nat)
    requires CanUpdate(m, o, i, saved) && l < |m.chains| - 1
    ensures Version(Updated(m, o, i, saved), o, l) == if m.tracks[o].level <= l then saved else Version(m, o, l)
  {
    assert Tracked(m, o);
    AtMakeCurrent(m.tracks[o], o, |m.chains| - 1, saved, o, l);
  }

  lemma UpdatedPlace<O>(m: Model<O>, o: O, i: nat, saved: O, l: nat)
    requires CanUpdate(m, o, i, saved) && l < |m.chains| - 1
    ensures Inv(Updated(m, o, i, saved)) && PlaceAt(Updated(m, o, i, saved), o, l) == PlaceAt(m, o, l)
  {
    var m', t := Updated(m, o, i, saved), m.tracks[o];
    UpdatedInv(m, o, i, saved);
    UpdatedNode(m, o, i, saved, l);
    VersionPlace(m, o, l);
    var n := Version(m, o, l);
    assert Owned(m, n) && m'.tracks[o].saved == t.saved + [Saved(t.level, saved)];
    if t.level <= l {
      LiveIsNode(m);
      assert m.ids[o] == Id(o, |t.saved|, 0) && m'.ids[saved] == Id(o, |t.saved|, |m.chains| - 1);
    } else {
      assert n != saved && m'.ids[n] == m.ids[n];
    }
  }

  lemma UpdatedVersion<O>(m: Model<O>, o: O, i: nat, saved: O, l: nat)
    requires CanUpdate(m, o, i, saved) && l < |m.chains| - 1
    ensures Inv(Updated(m, o, i, saved))
    ensures var m' := Updated(m, o, i, saved);
            && Version(m', o, l) == (if Version(m, o, l) == o then saved else Version(m, o, l))
            && PlaceAt(m', o, l) == PlaceAt(m, o, l)
  {
    UpdatedNode(m, o, i, saved, l);
    UpdatedPlace(m, o, i, saved, l);
    VersionPlace(m, o, l);
  }

  lemma UpdatedSeen<O>(m: Model<O>, o: O, i: nat, saved: O, l: nat, j: nat, k: nat)
    requires CanUpdate(m, o, i, saved) && j <= l < |m.chains| - 1 && k < |m.chains[j]|
    ensures var m' := Updated(m, o, i, saved); Seen(m', m'.chains[j][k], l) == Seen(m, m.chains[j][k], l)
  {
    UpdatedVersion(m, o, i, saved, l);
    VersionPlace(m, o, l);
    LiveIsNode(m);
    assert Distinct(m.chains[j]);
    assert Placed(m, j, k);
  }

  lemma UpdatedObject<O, D>(m: Model<O>, d: map<O, D>, o: O, i: nat, saved: O, d': map<O, D>, l: nat, x: O)
    requires CanUpdate(m, o, i, saved) && l < |m.chains| - 1 && x in m.tracks
    requires m.ids.Keys <= d.Keys && d'.Keys == d.Keys + {saved} && o in d && d'[saved] == d[o]
    requires forall n :: n in m.ids && n != o ==> d'[n] == d[n]
    ensures Inv(Updated(m, o, i, saved))
    ensures var m' := Updated(m, o, i, saved);
            && m'.ids.Keys <= d'.Keys
            && PlaceAt(m, x, l) == PlaceAt(m', x, l)
            && ValueAt(m, d, x, l) == ValueAt(m', d', x, l)
  {
    UpdatedVersion(m, o, i, saved, l);
    LiveIsNode(m);
    VersionPlace(m, x, l);
  }

  lemma UpdatedChains<O>(m: Model<O>, o: O, i: nat, saved: O, l: nat, j: nat)
    requires CanUpdate(m, o, i, saved) && j <= l < |m.chains| - 1
    ensures Inv(Updated(m, o, i, saved)) && ChainView(m, j, l) == ChainView(Updated(m, o, i, saved), j, l)
  {
    UpdatedInv(m, o, i, saved);
    var m' := Updated(m, o, i, saved);
    forall k | 0 <= k < |m.chains[j]| ensures Seen(m', m'.chains[j][k], l) == Seen(m, m.chains[j][k], l) {
      UpdatedSeen(m, o, i, saved, l, j, k);
    }
  }

  /** update() changes no level below the top, and nor does a later change of the object itself. */
  lemma UpdatedViews<O, D>(m: Model<O>, d: map<O, D>, o: O, i: nat, saved: O, d': map<O, D>)
    requires CanUpdate(m, o, i, saved)
    requires m.ids.Keys == d.Keys && d'.Keys == d.Keys + {saved} && o in d && d'[saved] == d[o]
    requires forall n :: n in m.ids && n != o ==> d'[n] == d[n]
    ensures SameBelow(m, d, Updated(m, o, i, saved), d', |m.chains| - 1)
  {
    var m' := Updated(m, o, i, saved);
    UpdatedInv(m, o, i, saved);
    UpdatedKeys(m, o, i, saved);
    forall l | 0 <= l < |m.chains| - 1 ensures SameLevel(m, d, m', d', l) {
      UpdatedLevel(m, d, o, i, saved, d', l);
    }
  }

  lemma UpdatedLevel<O, D>(m: Model<O>, d: map<O, D>, o: O, i: nat, saved: O, d': map<O, D>, l: nat)
    requires CanUpdate(m, o, i, saved) && l < |m.chains| - 1
    requires m.ids.Keys == d.Keys && d'.Keys == d.Keys + {saved} && o in d && d'[saved] == d[o]
    requires forall n :: n in m.ids && n != o ==> d'[n] == d[n]
    ensures var m' := Updated(m, o, i, saved); Inv(m') && m'.ids.Keys == d'.Keys && SameLevel(m, d, m', d', l)
  {
    var m' := Updated(m, o, i, saved);
    UpdatedInv(m, o, i, saved);
    UpdatedKeys(m, o, i, saved);
    forall x | x in m.tracks
      ensures PlaceAt(m, x, l) == PlaceAt(m', x, l) && ValueAt(m, d, x, l) == ValueAt(m', d', x, l)
    {
      UpdatedObject(m, d, o, i, saved, d', l, x);
    }
    forall j | 0 <= j <= l ensures ChainView(m, j, l) == ChainView(m', j, l) {
      UpdatedChains(m, o, i, saved, l, j);
    }
  }

  /** Changing an object that is current changes no level below the top. */
  lemma WrittenViews<O, D>(m: Model<O>, d: map<O, D>, o: O, d': map<O, D>)
    requires Inv(m) && o in m.tracks && m.tracks[o].level == |m.chains| - 1
    requires m.ids.Keys == d.Keys && d'.Keys == d.Keys
    requires forall n :: n in m.ids && n != o ==> d'[n] == d[n]
    ensures SameBelow(m, d, m, d', |m.chains| - 1)
  {
    forall l, x | 0 <= l < |m.chains| - 1 && x in m.tracks ensures ValueAt(m, d, x, l) == ValueAt(m, d', x, l) {
      VersionPlace(m, x, l);
      VersionPlace(m, o, l);
      LiveIsNode(m);
    }
  }

  /** All levels below `top` are the same in both. */
  ghost predicate SameBelow<O, D>(m: Model<O>, d: map<O, D>, m': Model<O>, d': map<O, D>, top: nat) {
    && Inv(m) && Inv(m') && m.ids.Keys == d.Keys && m'.ids.Keys == d'.Keys && m.tracks.Keys == m'.tracks.Keys
    && forall l :: 0 <= l < top ==> SameLevel(m, d, m', d', l)
  }

  lemma SameBelowReflexive<O, D>(m: Model<O>, d: map<O, D>, top: nat)
    requires Inv(m) && m.ids.Keys == d.Keys && top <= |m.chains|
    ensures SameBelow(m, d, m, d, top)
  {
  }

  lemma SameBelowShrink<O, D>(m: Model<O>, d: map<O, D>, m': Model<O>, d': map<O, D>, top: nat, top': nat)
    requires SameBelow(m, d, m', d', top) && top' <= top
    ensures SameBelow(m, d, m', d', top')
  {
  }

  lemma SameBelowTransitive<O, D>(m: Model<O>, d: map<O, D>, m': Model<O>, d': map<O, D>,
    m'': Model<O>, d'': map<O, D>, top: nat, top': nat)
    requires SameBelow(m, d, m', d', top) && SameBelow(m', d', m'', d'', top') && top <= top'
    ensures SameBelow(m, d, m'', d'', top)
  {
    forall l | 0 <= l < top ensures SameLevel(m, d, m'', d'', l) {
      assert SameLevel(m, d, m', d', l) && SameLevel(m', d', m'', d'', l);
      forall o | o in m.tracks
        ensures PlaceAt(m, o, l) == PlaceAt(m'', o, l) && ValueAt(m, d, o, l) == ValueAt(m'', d'', o, l)
      {
        assert PlaceAt(m, o, l) == PlaceAt(m', o, l) && PlaceAt(m', o, l) == PlaceAt(m'', o, l);
      }
      forall j | 0 <= j <= l ensures ChainView(m, j, l) == ChainView(m'', j, l) {
        assert ChainView(m, j, l) == ChainView(m', j, l) && ChainView(m', j, l) == ChainView(m'', j, l);
      }
    }
  }

  // ---------- when objects are created and destroyed as well ----------

  /** The entries of a view that belong to the objects in `os`, in order. */
  ghost function Only<O>(v: seq<(O, O)>, os: set<O>): seq<(O, O)> {
    if v == [] then [] else (if v[0].0 in os then [v[0]] else []) + Only(v[1..], os)
  }

  lemma {:induction false} OnlyConcat<O>(a: seq<(O, O)>, b: seq<(O, O)>, os: set<O>)
    ensures Only(a + b, os) == Only(a, os) + Only(b, os)
  {
    if a == [] {
      assert a + b == b;
    } else {
      var c := a + b;
      assert c[0] == a[0] && c[1..] == a[1..] + b;
      OnlyConcat(a[1..], b, os);
    }
  }

  lemma {:induction false} OnlyOnly<O>(v: seq<(O, O)>, os: set<O>, os': set<O>)
    ensures Only(Only(v, os), os') == Only(v, os * os')
  {
    if v != [] {
      var first := if v[0].0 in os then [v[0]] else [];
      OnlyConcat(first, Only(v[1..], os), os');
      OnlyOnly(v[1..], os, os');
      assert first != [] ==> first[1..] == [];
    }
  }

  lemma {:induction false} OnlyAll<O>(v: seq<(O, O)>, os: set<O>)
    requires forall i :: 0 <= i < |v| ==> v[i].0 in os
    ensures Only(v, os) == v
  {
    if v != [] {
      OnlyAll(v[1..], os);
    }
  }

  lemma {:induction false} OnlyFrom<O>(v: seq<(O, O)>, os: set<O>, i: nat)
    requires i < |Only(v, os)|
    ensures Only(v, os)[i] in v && Only(v, os)[i].0 in os
  {
    if v[0].0 !in os {
      OnlyFrom(v[1..], os, i);
    } else if i > 0 {
      OnlyFrom(v[1..], os, i - 1);
    }
  }

  /** `a` is `b` with some of the new objects put in front. */
  ghost predicate Grown<O>(a: seq<(O, O)>, b: seq<(O, O)>, new_: set<O>) {
    && |b| <= |a| && a[|a| - |b|..] == b
    && forall i :: 0 <= i < |a| - |b| ==> a[i].0 in new_ && a[i].1 == a[i].0
  }

  /** The objects of `m` that are not destroyed in `m'`. */
  ghost function Survivors<O>(m: Model<O>, m': Model<O>): set<O> {
    m.tracks.Keys * m'.tracks.Keys
  }

  /**
   Level l is the same for the objects that survive.  Destroyed objects are gone from every chain,
   and created ones stand in front of the bottom chain.
   */
  ghost predicate KeptLevel<O, D>(m: Model<O>, d: map<O, D>, m': Model<O>, d': map<O, D>, l: nat)
    requires Inv(m) && Inv(m') && m.ids.Keys <= d.Keys && m'.ids.Keys <= d'.Keys
  {
    && l < |m.chains| && l < |m'.chains|
    && (forall o {:trigger PlaceAt(m, o, l)} {:trigger ValueAt(m, d, o, l)} :: o in Survivors(m, m') ==>
          && PlaceAt(m, o, l) == PlaceAt(m', o, l)
          && ValueAt(m, d, o, l) == ValueAt(m', d', o, l))
    && Grown(ChainView(m', 0, l), Only(ChainView(m, 0, l), Survivors(m, m')), m'.tracks.Keys - m.tracks.Keys)
    && forall j {:trigger ChainView(m, j, l)} :: 0 < j <= l ==>
         ChainView(m', j, l) == Only(ChainView(m, j, l), Survivors(m, m'))
  }

  ghost predicate KeptBelow<O, D>(m: Model<O>, d: map<O, D>, m': Model<O>, d': map<O, D>, top: nat) {
    && Inv(m) && Inv(m') && m.ids.Keys == d.Keys && m'.ids.Keys == d'.Keys
    && forall l {:trigger KeptLevel(m, d, m', d', l)} :: 0 <= l < top ==> KeptLevel(m, d, m', d', l)
  }

  /** Every entry of a view belongs to a live object. */
  lemma ViewLive<O>(m: Model<O>, j: nat, l: nat)
    requires Inv(m) && j < |m.chains|
    ensures Only(ChainView(m, j, l), m.tracks.Keys) == ChainView(m, j, l)
  {
    forall i | 0 <= i < |m.chains[j]| ensures ChainView(m, j, l)[i].0 in m.tracks {
      assert Placed(m, j, i);
    }
    OnlyAll(ChainView(m, j, l), m.tracks.Keys);
  }

  lemma SameIsKept<O, D>(m: Model<O>, d: map<O, D>, m': Model<O>, d': map<O, D>, top: nat)
    requires SameBelow(m, d, m', d', top)
    ensures KeptBelow(m, d, m', d', top)
  {
    assert Survivors(m, m') == m.tracks.Keys;
    forall l | 0 <= l < top ensures KeptLevel(m, d, m', d', l) {
      assert SameLevel(m, d, m', d', l);
      forall j | 0 <= j <= l ensures ChainView(m', j, l) == Only(ChainView(m, j, l), m.tracks.Keys) {
        ViewLive(m, j, l);
        assert ChainView(m, j, l) == ChainView(m', j, l);
      }
    }
  }

  lemma KeptBelowShrink<O, D>(m: Model<O>, d: map<O, D>, m': Model<O>, d': map<O, D>, top: nat, top': nat)
    requires KeptBelow(m, d, m', d', top) && top' <= top
    ensures KeptBelow(m, d, m', d', top')
  {
    forall l | 0 <= l < top' ensures KeptLevel(m, d, m', d', l) {
    }
  }

  /** What was destroyed before is not created again. */
  lemma KeptBelowTransitive<O, D>(m: Model<O>, d: map<O, D>, m': Model<O>, d': map<O, D>,
    m'': Model<O>, d'': map<O, D>, top: nat)
    requires KeptBelow(m, d, m', d', top) && KeptBelow(m', d', m'', d'', top)
    requires m''.tracks.Keys - m'.tracks.Keys !! m.tracks.Keys
    ensures KeptBelow(m, d, m'', d'', top)
  {
    forall l | 0 <= l < top ensures KeptLevel(m, d, m'', d'', l) {
      KeptLevelTransitive(m, d, m', d', m'', d'', l);
    }
  }

  lemma KeptLevelTransitive<O, D>(m: Model<O>, d: map<O, D>, m': Model<O>, d': map<O, D>,
    m'': Model<O>, d'': map<O, D>, l: nat)
    requires Inv(m) && Inv(m') && Inv(m'') && m.ids.Keys == d.Keys && m'.ids.Keys == d'.Keys && m''.ids.Keys == d''.Keys
    requires KeptLevel(m, d, m', d', l) && KeptLevel(m', d', m'', d'', l)
    requires m''.tracks.Keys - m'.tracks.Keys !! m.tracks.Keys
    ensures KeptLevel(m, d, m'', d'', l)
  {
    var s, s', s'' := Survivors(m, m'), Survivors(m', m''), Survivors(m, m'');
    assert s * s' == s'';
    forall o | o in s''
      ensures PlaceAt(m, o, l) == PlaceAt(m'', o, l) && ValueAt(m, d, o, l) == ValueAt(m'', d'', o, l)
    {
      assert PlaceAt(m, o, l) == PlaceAt(m', o, l) && PlaceAt(m', o, l) == PlaceAt(m'', o, l);
    }
    forall j | 0 < j <= l ensures ChainView(m'', j, l) == Only(ChainView(m, j, l), s'') {
      assert ChainView(m', j, l) == Only(ChainView(m, j, l), s);
      OnlyOnly(ChainView(m, j, l), s, s');
    }
    OnlyOnly(ChainView(m, 0, l), s, s');
    GrownTransitive(ChainView(m'', 0, l), ChainView(m', 0, l), Only(ChainView(m, 0, l), s), s',
                    m''.tracks.Keys - m'.tracks.Keys, m'.tracks.Keys - m.tracks.Keys, m''.tracks.Keys - m.tracks.Keys);
  }

  lemma GrownTransitive<O>(a: seq<(O, O)>, b: seq<(O, O)>, c: seq<(O, O)>, os: set<O>,
                           ab: set<O>, bc: set<O>, ac: set<O>)
    requires Grown(a, Only(b, os), ab) && Grown(b, c, bc) && ab <= ac && bc * os <= ac
    ensures Grown(a, Only(c, os), ac)
  {
    var k, n := |b| - |c|, |a| - |Only(b, os)|;
    var front := b[..k];
    assert b == front + c;
    OnlyConcat(front, c, os);
    var kept := Only(front, os);
    assert a == a[..n] + (kept + Only(c, os));
    forall i | 0 <= i < n + |kept| ensures a[i].0 in ac && a[i].1 == a[i].0 {
      if i >= n {
        OnlyFrom(front, os, i - n);
        assert a[i] == kept[i - n];
      }
    }
  }

  /** A new object changes nothing for the others, at any level. */
  lemma CreatedViews<O, D>(m: Model<O>, d: map<O, D>, o: O, d': map<O, D>)
    requires Inv(m) && o !in m.ids && m.ids.Keys == d.Keys && d'.Keys == d.Keys + {o}
    requires forall n :: n in m.ids ==> d'[n] == d[n]
    ensures KeptBelow(m, d, Created(m, o), d', |m.chains|)
  {
    var m' := Created(m, o);
    CreatedInv(m, o);
    CreatedOlder(m, o);
    LiveIsNode(m);
    assert Survivors(m, m') == m.tracks.Keys;
    forall l | 0 <= l < |m.chains| ensures KeptLevel(m, d, m', d', l) {
      forall x | x in m.tracks
        ensures PlaceAt(m, x, l) == PlaceAt(m', x, l) && ValueAt(m, d, x, l) == ValueAt(m', d', x, l)
      {
        CreatedObject(m, d, o, d', l, x);
      }
      CreatedChains(m, o, l);
    }
  }

  lemma CreatedObject<O, D>(m: Model<O>, d: map<O, D>, o: O, d': map<O, D>, l: nat, x: O)
    requires Inv(m) && o !in m.ids && m.ids.Keys == d.Keys && d'.Keys == d.Keys + {o} && x in m.tracks
    requires forall n :: n in m.ids ==> d'[n] == d[n]
    ensures var m' := Created(m, o);
            && Inv(m') && x in m'.tracks && m'.ids.Keys == d'.Keys
            && PlaceAt(m, x, l) == PlaceAt(m', x, l) && ValueAt(m, d, x, l) == ValueAt(m', d', x, l)
  {
    CreatedInv(m, o);
    CreatedOlder(m, o);
    LiveIsNode(m);
    VersionPlace(m, x, l);
    assert x != o;
  }

  lemma CreatedChains<O>(m: Model<O>, o: O, l: nat)
    requires Inv(m) && o !in m.ids && l < |m.chains|
    ensures var m' := Created(m, o);
            && Grown(ChainView(m', 0, l), Only(ChainView(m, 0, l), m.tracks.Keys), m'.tracks.Keys - m.tracks.Keys)
            && forall j :: 0 < j <= l ==> ChainView(m', j, l) == Only(ChainView(m, j, l), m.tracks.Keys)
  {
    var m' := Created(m, o);
    LiveIsNode(m);
    forall j, k | 0 <= j < |m.chains| && 0 <= k < |m.chains[j]|
      ensures Seen(m', m.chains[j][k], l) == Seen(m, m.chains[j][k], l)
    {
      assert Placed(m, j, k);
      assert Owned(m, m.chains[j][k]);
    }
    assert o !in m.tracks && Seen(m', o, l) == (o, o);
    forall j | 0 <= j <= l ensures Only(ChainView(m, j, l), m.tracks.Keys) == ChainView(m, j, l) {
      ViewLive(m, j, l);
    }
  }

  /** The destruction of an object changes nothing for the others, at any level. */
  lemma DestroyedViews<O, D>(m: Model<O>, d: map<O, D>, o: O, m': Model<O>, d': map<O, D>)
    requires Inv(m) && Inv(m') && OnlyTouches(m, m', o) && o in m.tracks && m'.tracks == m.tracks - {o}
    requires forall l :: 0 <= l < |m.chains| ==> m'.chains[l] == Others(m.chains[l], m.ids, o)
    requires m.ids.Keys == d.Keys && m'.ids.Keys == d'.Keys && forall n :: n in m'.ids && n != o ==> d'[n] == d[n]
    ensures KeptBelow(m, d, m', d', |m.chains|)
  {
    assert Survivors(m, m') == m'.tracks.Keys;
    forall l | 0 <= l < |m.chains| ensures KeptLevel(m, d, m', d', l) {
      forall x | x in m'.tracks
        ensures PlaceAt(m, x, l) == PlaceAt(m', x, l) && ValueAt(m, d, x, l) == ValueAt(m', d', x, l)
      {
        DestroyedObject(m, d, o, m', d', l, x);
      }
      forall j | 0 <= j <= l ensures ChainView(m', j, l) == Only(ChainView(m, j, l), m'.tracks.Keys) {
        DestroyedChain(m, o, m', j, l);
      }
    }
  }

  lemma DestroyedObject<O, D>(m: Model<O>, d: map<O, D>, o: O, m': Model<O>, d': map<O, D>, l: nat, x: O)
    requires Inv(m) && Inv(m') && OnlyTouches(m, m', o) && o in m.tracks && m'.tracks == m.tracks - {o}
    requires x in m'.tracks
    requires m.ids.Keys == d.Keys && m'.ids.Keys == d'.Keys && forall n :: n in m'.ids && n != o ==> d'[n] == d[n]
    ensures PlaceAt(m, x, l) == PlaceAt(m', x, l) && ValueAt(m, d, x, l) == ValueAt(m', d', x, l)
  {
    assert m'.tracks[x] == m.tracks[x];
    VersionPlace(m, x, l);
    VersionPlace(m', x, l);
    var n := Version(m, x, l);
    assert n == Version(m', x, l) && m'.ids[n] == m.ids[n];
    LiveIsNode(m);
  }

  lemma DestroyedChain<O>(m: Model<O>, o: O, m': Model<O>, j: nat, l: nat)
    requires Inv(m) && Inv(m') && OnlyTouches(m, m', o) && m'.tracks == m.tracks - {o}
    requires j < |m.chains| && m'.chains[j] == Others(m.chains[j], m.ids, o)
    ensures ChainView(m', j, l) == Only(ChainView(m, j, l), m'.tracks.Keys)
  {
    forall i | 0 <= i < |m.chains[j]|
      ensures Remains(m, o, m', m.chains[j][i], l)
    {
      var n := m.chains[j][i];
      assert Placed(m, j, i);
      assert m.ids[n].owner != o ==> m'.ids[n] == m.ids[n] && m'.tracks[m.ids[n].owner] == m.tracks[m.ids[n].owner];
    }
    OthersView(m.chains[j], ChainView(m, j, l), m, o, m', l);
  }

  /** A node of another object is seen as before. */
  ghost predicate Remains<O>(m: Model<O>, o: O, m': Model<O>, n: O, l: nat) {
    && n in m.ids && m.ids[n].owner in m.tracks
    && (m.ids[n].owner != o ==> m.ids[n].owner in m'.tracks && Seen(m', n, l) == Seen(m, n, l))
  }

  lemma {:induction false} OthersView<O>(c: seq<O>, v: seq<(O, O)>, m: Model<O>, o: O, m': Model<O>, l: nat)
    requires o !in m'.tracks && |v| == |c|
    requires forall i {:trigger c[i]} :: 0 <= i < |c| ==> Remains(m, o, m', c[i], l) && v[i] == Seen(m, c[i], l)
    ensures |Others(c, m.ids, o)| == |Only(v, m'.tracks.Keys)|
    ensures forall i :: 0 <= i < |Others(c, m.ids, o)| ==>
              Seen(m', Others(c, m.ids, o)[i], l) == Only(v, m'.tracks.Keys)[i]
    decreases |c|
  {
    if c != [] {
      assert Remains(m, o, m', c[0], l);
      OthersView(c[1..], v[1..], m, o, m', l);
    }
  }

  /** The members of `c` that are versions of objects in `os`, in order. */
  ghost function Those<O>(c: seq<O>, ids: map<O, Id<O>>, os: set<O>): seq<O> {
    if c == [] then []
    else (if c[0] in ids && ids[c[0]].owner in os then [c[0]] else []) + Those(c[1..], ids, os)
  }

  /** A chain is `b` with some of the new objects put in front. */
  ghost predicate GrownChain<O>(a: seq<O>, b: seq<O>, new_: set<O>) {
    |b| <= |a| && a[|a| - |b|..] == b && forall i :: 0 <= i < |a| - |b| ==> a[i] in new_
  }

  lemma {:induction false} OnlyThose<O>(v: seq<(O, O)>, c: seq<O>, ids: map<O, Id<O>>, os: set<O>)
    requires |v| == |c| && forall i :: 0 <= i < |c| ==> c[i] in ids && v[i] == (ids[c[i]].owner, c[i])
    ensures |Only(v, os)| == |Those(c, ids, os)|
    ensures forall i :: 0 <= i < |Only(v, os)| ==> Only(v, os)[i].1 == Those(c, ids, os)[i]
    decreases |c|
  {
    if c != [] {
      OnlyThose(v[1..], c[1..], ids, os);
    }
  }

  /** Two contexts of the same height: the surviving objects of the first are as they were, in the same order. */
  lemma KeptTop<O, D>(m: Model<O>, d: map<O, D>, m': Model<O>, d': map<O, D>)
    requires KeptBelow(m, d, m', d', |m.chains|) && |m'.chains| == |m.chains|
    ensures GrownChain(m'.chains[0], Those(m.chains[0], m.ids, Survivors(m, m')), m'.tracks.Keys - m.tracks.Keys)
    ensures forall j :: 0 < j < |m.chains| ==> m'.chains[j] == Those(m.chains[j], m.ids, Survivors(m, m'))
    ensures forall o :: o in Survivors(m, m') ==>
              && o in d && o in d' && d'[o] == d[o]
              && m'.tracks[o].level == m.tracks[o].level && Older(m', o) == Older(m, o)
  {
    var top, os := |m.chains| - 1, Survivors(m, m');
    assert KeptLevel(m, d, m', d', top);
    LiveIsNode(m);
    LiveIsNode(m');
    TopChain(m, m', 0, top);
    var a, b := ChainView(m', 0, top), Only(ChainView(m, 0, top), os);
    forall i | 0 <= i < |b| ensures m'.chains[0][|a| - |b| + i] == Those(m.chains[0], m.ids, os)[i] {
      assert a[|a| - |b|..][i] == b[i];
    }
    forall j | 0 < j <= top ensures m'.chains[j] == Those(m.chains[j], m.ids, os) {
      TopChain(m, m', j, top);
      assert ChainView(m', j, top) == Only(ChainView(m, j, top), os);
    }
    forall o | o in os
      ensures d'[o] == d[o] && m'.tracks[o].level == m.tracks[o].level && Older(m', o) == Older(m, o)
    {
      TopPlace(m, o);
      TopPlace(m', o);
      assert ValueAt(m, d, o, top) == ValueAt(m', d', o, top);
    }
  }

  lemma TopChain<O>(m: Model<O>, m': Model<O>, j: nat, top: nat)
    requires Inv(m) && Inv(m') && j <= top == |m.chains| - 1 == |m'.chains| - 1
    ensures forall i :: 0 <= i < |m'.chains[j]| ==> ChainView(m', j, top)[i].1 == m'.chains[j][i]
    ensures var os := Survivors(m, m'); var b := Only(ChainView(m, j, top), os);
            && |b| == |Those(m.chains[j], m.ids, os)|
            && forall i :: 0 <= i < |b| ==> b[i].1 == Those(m.chains[j], m.ids, os)[i]
  {
    TopView(m, j, top);
    TopView(m', j, top);
    OnlyThose(ChainView(m, j, top), m.chains[j], m.ids, Survivors(m, m'));
  }

  // ---------- restoring an object ----------

  lemma UnwoundVersion<O>(m: Model<O>, o: O, j: nat, i: nat, l: nat)
    requires CanUnwind(m, o, j, i) && l < m.tracks[o].level
    ensures Inv(Unwound(m, o, j, i))
    ensures var m', c := Unwound(m, o, j, i), Newest(m.tracks[o]);
            && Version(m', o, l) == (if Version(m, o, l) == c then o else Version(m, o, l))
            && PlaceAt(m', o, l) == PlaceAt(m, o, l)
  {
    var m' := Unwound(m, o, j, i);
    var t := m.tracks[o];
    var c := Newest(t);
    UnwoundInv(m, o, j, i);
    assert Tracked(m, o);
    assert VersionNode(t, o, |t.saved| - 1) == c;
    AtRestored(t, o, o, l);
    VersionPlace(m', o, l);
    VersionPlace(m, o, l);
    assert Owned(m, Version(m, o, l));
  }

  lemma UnwoundSeen<O>(m: Model<O>, o: O, j: nat, i: nat, l: nat, k: nat, x: nat)
    requires CanUnwind(m, o, j, i) && k <= l < m.tracks[o].level && x < |m.chains[k]|
    ensures var m' := Unwound(m, o, j, i); Seen(m', m'.chains[k][x], l) == Seen(m, m.chains[k][x], l)
  {
    var t := m.tracks[o];
    UnwoundVersion(m, o, j, i, l);
    VersionPlace(m, o, l);
    LiveIsNode(m);
    assert Tracked(m, o);
    assert VersionNode(t, o, |t.saved| - 1) == Newest(t);
    assert Distinct(m.chains[k]);
    assert Placed(m, k, x);
  }

  lemma UnwoundObject<O, D>(m: Model<O>, d: map<O, D>, o: O, j: nat, i: nat, d': map<O, D>, l: nat, x: O)
    requires CanUnwind(m, o, j, i) && l < m.tracks[o].level && x in m.tracks
    requires m.ids.Keys == d.Keys && Unwound(m, o, j, i).ids.Keys == d'.Keys
    requires var c := Newest(m.tracks[o]); o in d' && c in d && d'[o] == d[c]
    requires forall n :: n in d' && n != o ==> n in d && d'[n] == d[n]
    ensures Inv(Unwound(m, o, j, i))
    ensures var m' := Unwound(m, o, j, i);
            && PlaceAt(m, x, l) == PlaceAt(m', x, l)
            && ValueAt(m, d, x, l) == ValueAt(m', d', x, l)
  {
    var t := m.tracks[o];
    UnwoundVersion(m, o, j, i, l);
    LiveIsNode(m);
    assert Tracked(m, o);
    assert VersionNode(t, o, |t.saved| - 1) == Newest(t);
    VersionPlace(m, x, l);
    VersionPlace(m, o, l);
  }

  /** Restoring an object changes no level below the one it leaves. */
  lemma UnwoundViews<O, D>(m: Model<O>, d: map<O, D>, o: O, j: nat, i: nat, d': map<O, D>)
    requires CanUnwind(m, o, j, i) && m.ids.Keys == d.Keys && Unwound(m, o, j, i).ids.Keys == d'.Keys
    requires var c := Newest(m.tracks[o]); o in d' && c in d && d'[o] == d[c]
    requires forall n :: n in d' && n != o ==> n in d && d'[n] == d[n]
    ensures SameBelow(m, d, Unwound(m, o, j, i), d', m.tracks[o].level)
  {
    var m' := Unwound(m, o, j, i);
    UnwoundInv(m, o, j, i);
    LiveIsNode(m);
    forall l | 0 <= l < m.tracks[o].level ensures SameLevel(m, d, m', d', l) {
      forall x | x in m.tracks
        ensures PlaceAt(m, x, l) == PlaceAt(m', x, l) && ValueAt(m, d, x, l) == ValueAt(m', d', x, l)
      {
        UnwoundObject(m, d, o, j, i, d', l, x);
      }
      forall k | 0 <= k <= l ensures ChainView(m, k, l) == ChainView(m', k, l) {
        forall x | 0 <= x < |m.chains[k]| ensures Seen(m', m'.chains[k][x], l) == Seen(m, m.chains[k][x], l) {
          UnwoundSeen(m, o, j, i, l, k, x);
        }
      }
    }
  }

  // ---------- how the operations change restore pointers ----------

  lemma CreatedOlder<O>(m: Model<O>, o: O)
    requires Inv(m) && o !in m.ids
    ensures Older(Created(m, o), o) == None
    ensures forall n :: n in m.ids ==> Older(Created(m, o), n) == Older(m, n)
  {
    LiveIsNode(m);
    forall n | n in m.ids ensures Older(Created(m, o), n) == Older(m, n) { assert Owned(m, n); }
  }

  lemma UpdatedOlder<O>(m: Model<O>, o: O, i: nat, saved: O)
    requires CanUpdate(m, o, i, saved)
    ensures o in m.ids
    ensures var m' := Updated(m, o, i, saved);
            && Older(m', o) == Some(saved) && Older(m', saved) == Older(m, o)
            && forall n :: n in m.ids && n != o ==> Older(m', n) == Older(m, n)
  {
    LiveIsNode(m);
    var m' := Updated(m, o, i, saved);
    forall n | n in m.ids && n != o ensures Older(m', n) == Older(m, n) { assert Owned(m, n); }
  }

  lemma UnwoundOlder<O>(m: Model<O>, o: O, j: nat, i: nat)
    requires CanUnwind(m, o, j, i)
    ensures var m', c := Unwound(m, o, j, i), Newest(m.tracks[o]);
            && o in m.ids && c in m.ids && c != o && Older(m, o) == Some(c)
            && m'.ids.Keys == m.ids.Keys - {c}
            && Older(m', o) == Older(m, c)
            && forall n :: n in m.ids && n != o && n != c ==> Older(m', n) == Older(m, n)
  {
    LiveIsNode(m);
    var t := m.tracks[o];
    assert Tracked(m, o);
    assert VersionNode(t, o, |t.saved| - 1) == Newest(t);
    var m' := Unwound(m, o, j, i);
    forall n | n in m.ids && n != o && n != Newest(t) ensures Older(m', n) == Older(m, n) {
      assert Owned(m, n);
    }
  }

  lemma DroppedOlder<O>(m: Model<O>, o: O, i: nat)
    requires Inv(m) && o in m.tracks && m.tracks[o].saved == []
    requires i < |m.chains[0]| && m.chains[0][i] == o
    ensures o in m.ids
    ensures forall n :: n in m.ids && n != o ==> Older(Dropped(m, o, i), n) == Older(m, n)
  {
    LiveIsNode(m);
    forall n | n in m.ids && n != o ensures Older(Dropped(m, o, i), n) == Older(m, n) { assert Owned(m, n); }
  }

  // ---------- destroying an object ----------

  /** The members of `c` that are no version of `o`, in order. */
  ghost function Others<O>(c: seq<O>, ids: map<O, Id<O>>, o: O): seq<O> {
    if c == [] then [] else Other(c[0], ids, o) + Others(c[1..], ids, o)
  }

  ghost function Other<O>(n: O, ids: map<O, Id<O>>, o: O): seq<O> {
    if n in ids && ids[n].owner == o then [] else [n]
  }

  lemma {:induction false} OthersConcat<O>(a: seq<O>, b: seq<O>, ids: map<O, Id<O>>, o: O)
    ensures Others(a + b, ids, o) == Others(a, ids, o) + Others(b, ids, o)
  {
    if a == [] {
      assert a + b == b;
    } else {
      var c := a + b;
      assert c[0] == a[0] && c[1..] == a[1..] + b;
      OthersConcat(a[1..], b, ids, o);
    }
  }

  lemma {:induction false} OthersCongruent<O>(c: seq<O>, ids: map<O, Id<O>>, ids': map<O, Id<O>>, o: O)
    requires forall i :: 0 <= i < |c| ==>
             ((c[i] in ids && ids[c[i]].owner == o) <==> (c[i] in ids' && ids'[c[i]].owner == o))
    ensures Others(c, ids, o) == Others(c, ids', o)
  {
    if c != [] {
      forall i | 0 <= i < |c[1..]|
        ensures (c[1..][i] in ids && ids[c[1..][i]].owner == o) <==> (c[1..][i] in ids' && ids'[c[1..][i]].owner == o)
      {
        assert c[1..][i] == c[i + 1];
      }
      OthersCongruent(c[1..], ids, ids', o);
    }
  }

  /** Taking a version of `o` out of a chain, or replacing one by another, leaves the others in place. */
  lemma OthersAround<O>(c: seq<O>, i: nat, x: O, ids: map<O, Id<O>>, o: O)
    requires i < |c| && c[i] in ids && ids[c[i]].owner == o && x in ids && ids[x].owner == o
    ensures Others(RemoveAt(c, i), ids, o) == Others(c, ids, o)
    ensures Others(c[i := x], ids, o) == Others(c, ids, o)
  {
    OthersSkip(c[..i], c[i], c[i + 1..], ids, o);
    OthersSkip(c[..i], x, c[i + 1..], ids, o);
    assert c == c[..i] + [c[i]] + c[i + 1..];
    assert c[i := x] == c[..i] + [x] + c[i + 1..];
  }

  lemma OthersSkip<O>(a: seq<O>, x: O, b: seq<O>, ids: map<O, Id<O>>, o: O)
    requires x in ids && ids[x].owner == o
    ensures Others(a + [x] + b, ids, o) == Others(a + b, ids, o)
  {
    var xb := [x] + b;
    assert xb[0] == x && xb[1..] == b;
    assert Others(xb, ids, o) == Others(b, ids, o);
    OthersConcat(a, xb, ids, o);
    OthersConcat(a, b, ids, o);
    assert a + [x] + b == a + xb;
  }

  lemma {:induction false} OthersAll<O>(c: seq<O>, ids: map<O, Id<O>>, o: O)
    requires forall i :: 0 <= i < |c| ==> !(c[i] in ids && ids[c[i]].owner == o)
    ensures Others(c, ids, o) == c
  {
    if c != [] {
      OthersAll(c[1..], ids, o);
    }
  }

  /** Nothing but `o` has changed: the other objects and their copies, and their order in every chain. */
  ghost predicate OnlyTouches<O>(m: Model<O>, m': Model<O>, o: O) {
    && |m'.chains| == |m.chains|
    && m'.tracks - {o} == m.tracks - {o}
    && m'.ids.Keys <= m.ids.Keys
    && (forall n :: n in m.ids && m.ids[n].owner != o ==> n in m'.ids && m'.ids[n] == m.ids[n])
    && (forall n :: n in m'.ids && m'.ids[n].owner != o ==> n in m.ids && m.ids[n] == m'.ids[n])
    && forall l :: 0 <= l < |m.chains| ==> Others(m'.chains[l], m'.ids, o) == Others(m.chains[l], m.ids, o)
  }

  lemma UnwoundTouches<O>(m: Model<O>, o: O, j: nat, i: nat)
    requires CanUnwind(m, o, j, i)
    ensures OnlyTouches(m, Unwound(m, o, j, i), o)
  {
    var m', t := Unwound(m, o, j, i), m.tracks[o];
    var c := Newest(t);
    LiveIsNode(m);
    assert Tracked(m, o);
    assert VersionNode(t, o, |t.saved| - 1) == c;
    UnwoundOlder(m, o, j, i);
    forall l | 0 <= l < |m.chains| ensures Others(m'.chains[l], m'.ids, o) == Others(m.chains[l], m.ids, o) {
      UnwoundOthers(m, o, j, i, l);
    }
    assert m'.tracks - {o} == m.tracks - {o};
  }

  lemma UnwoundOthers<O>(m: Model<O>, o: O, j: nat, i: nat, l: nat)
    requires CanUnwind(m, o, j, i) && l < |m.chains|
    ensures Others(Unwound(m, o, j, i).chains[l], Unwound(m, o, j, i).ids, o) == Others(m.chains[l], m.ids, o)
  {
    var m', t := Unwound(m, o, j, i), m.tracks[o];
    LiveIsNode(m);
    assert Tracked(m, o);
    assert VersionNode(t, o, |t.saved| - 1) == Newest(t);
    UnwoundInv(m, o, j, i);
    forall k | 0 <= k < |m'.chains[l]|
      ensures (m'.chains[l][k] in m.ids && m.ids[m'.chains[l][k]].owner == o) <==>
              (m'.chains[l][k] in m'.ids && m'.ids[m'.chains[l][k]].owner == o)
    {
      assert Placed(m', l, k);
    }
    OthersCongruent(m'.chains[l], m.ids, m'.ids, o);
    if l == t.level {
      OthersAround(m.chains[l], j, o, m.ids, o);
    } else if l == t.Restored().level {
      OthersAround(m.chains[l], i, o, m.ids, o);
    }
  }

  lemma OnlyTouchesTransitive<O>(m: Model<O>, m': Model<O>, m'': Model<O>, o: O)
    requires OnlyTouches(m, m', o) && OnlyTouches(m', m'', o)
    ensures OnlyTouches(m, m'', o)
  {
  }

  /** Once `o` is dropped, exactly the other objects are left, in their old order. */
  lemma DroppedTouches<O>(m: Model<O>, o: O, i: nat)
    requires Inv(m) && o in m.tracks && m.tracks[o].saved == []
    requires i < |m.chains[0]| && m.chains[0][i] == o
    ensures var m' := Dropped(m, o, i);
            && m'.ids.Keys == m.ids.Keys - {o}
            && OnlyTouches(m, m', o)
            && forall l :: 0 <= l < |m.chains| ==> m'.chains[l] == Others(m.chains[l], m.ids, o)
  {
    var m' := Dropped(m, o, i);
    LiveIsNode(m);
    DroppedInv(m, o, i);
    forall n | n in m.ids && m.ids[n].owner == o ensures n == o {
      assert Owned(m, n);
    }
    forall l | 0 <= l < |m.chains|
      ensures m'.chains[l] == Others(m.chains[l], m.ids, o)
      ensures Others(m'.chains[l], m'.ids, o) == Others(m.chains[l], m.ids, o)
    {
      forall k | 0 <= k < |m'.chains[l]|
        ensures m'.chains[l][k] in m.ids && m'.chains[l][k] in m'.ids && m.ids[m'.chains[l][k]].owner != o
      {
        assert Placed(m', l, k);
      }
      OthersAll(m'.chains[l], m.ids, o);
      OthersAll(m'.chains[l], m'.ids, o);
      if l == 0 {
        OthersAround(m.chains[0], i, o, m.ids, o);
      }
    }
    assert m'.tracks - {o} == m.tracks - {o};
  }

  // ---------- the values of an object at all levels ----------

  ghost function ValuesOf<O, D>(m: Model<O>, d: map<O, D>, o: O): (vs: seq<D>)
    requires Inv(m) && o in m.tracks && m.ids.Keys == d.Keys
    ensures |vs| == |m.chains| && forall l :: 0 <= l < |vs| ==> vs[l] == ValueAt(m, d, o, l)
  {
    seq(|m.chains|, l requires 0 <= l => ValueAt(m, d, o, l))
  }

  /** At the top level an object has the value that it holds now. */
  lemma TopValue<O, D>(m: Model<O>, d: map<O, D>, o: O)
    requires Inv(m) && o in m.tracks && m.ids.Keys == d.Keys
    ensures o in d && ValuesOf(m, d, o)[|m.chains| - 1] == d[o]
  {
    TopPlace(m, o);
  }

  /** A push duplicates the value at the top. */
  lemma PushedValues<O, D>(m: Model<O>, d: map<O, D>, o: O)
    requires Inv(m) && o in m.tracks && m.ids.Keys == d.Keys
    ensures Inv(Pushed(m)) && ValuesOf(Pushed(m), d, o) == ValuesOf(m, d, o) + [ValuesOf(m, d, o)[|m.chains| - 1]]
  {
    PushedInv(m);
    PushedViews(m, d);
    TopValue(m, d, o);
    TopValue(Pushed(m), d, o);
    forall l | 0 <= l < |m.chains| ensures ValueAt(Pushed(m), d, o, l) == ValueAt(m, d, o, l) {
      assert SameLevel(m, d, Pushed(m), d, l);
      assert PlaceAt(m, o, l) == PlaceAt(Pushed(m), o, l);
    }
  }

  /** Where levels are the same, so are the values. */
  lemma SameValues<O, D>(m: Model<O>, d: map<O, D>, m': Model<O>, d': map<O, D>, n: nat, o: O)
    requires SameBelow(m, d, m', d', n) && n <= |m.chains| && n <= |m'.chains| && o in m.tracks
    ensures ValuesOf(m', d', o)[..n] == ValuesOf(m, d, o)[..n]
  {
    forall l | 0 <= l < n ensures ValueAt(m', d', o, l) == ValueAt(m, d, o, l) {
      assert SameLevel(m, d, m', d', l);
      assert PlaceAt(m, o, l) == PlaceAt(m', o, l);
    }
  }

  /** The same for an object that survives creations and destructions of others. */
  lemma KeptValues<O, D>(m: Model<O>, d: map<O, D>, m': Model<O>, d': map<O, D>, o: O)
    requires KeptBelow(m, d, m', d', |m.chains|) && |m'.chains| == |m.chains| && o in m.tracks && o in m'.tracks
    ensures ValuesOf(m', d', o) == ValuesOf(m, d, o)
  {
    forall l | 0 <= l < |m.chains| ensures ValueAt(m', d', o, l) == ValueAt(m, d, o, l) {
      assert KeptLevel(m, d, m', d', l);
      assert PlaceAt(m, o, l) == PlaceAt(m', o, l);
    }
  }

  /** A write replaces the value at the top. */
  lemma WrittenValues<O, D>(m: Model<O>, d: map<O, D>, m': Model<O>, d': map<O, D>, o: O)
    requires m.chains != [] && SameBelow(m, d, m', d', |m.chains| - 1) && |m'.chains| == |m.chains| && o in m.tracks
    ensures o in d' && ValuesOf(m', d', o) == ValuesOf(m, d, o)[|m.chains| - 1 := d'[o]]
  {
    var n := |m.chains| - 1;
    SameValues(m, d, m', d', n, o);
    TopValue(m', d', o);
    forall l | 0 <= l < n ensures ValuesOf(m', d', o)[l] == ValuesOf(m, d, o)[l] {
      assert ValuesOf(m', d', o)[..n][l] == ValuesOf(m, d, o)[..n][l];
    }
  }

  /** A new object has its value at every level. */
  lemma CreatedValues<O, D>(m: Model<O>, o: O, d': map<O, D>)
    requires Inv(m) && o !in m.ids && Created(m, o).ids.Keys == d'.Keys
    ensures Inv(Created(m, o)) && o in d' && ValuesOf(Created(m, o), d', o) == seq(|m.chains|, _ => d'[o])
  {
    CreatedInv(m, o);
    var m' := Created(m, o);
    assert m'.tracks[o] == Track(0, []);
  }

  // ---------- copies ----------

  /** The saved copies that are left are the versions they were, in the regions in which they were. */
  ghost predicate CopiesSame<O>(m: Model<O>, m': Model<O>) {
    && m.tracks.Keys == m'.tracks.Keys
    && forall n {:trigger n in m'.ids} :: n in m'.ids && n in m.ids && n !in m.tracks ==> m'.ids[n] == m.ids[n]
  }

  /** A save of `o`, in the region of the top level, if it is not current. */
  ghost predicate OneSaved<O>(m: Model<O>, m': Model<O>, o: O)
    requires o in m.tracks && o in m'.tracks
  {
    if m.tracks[o].level == |m.chains| - 1 then m'.ids.Keys == m.ids.Keys
    else
      && m'.tracks[o].saved != []
      && var c := Newest(m'.tracks[o]);
         c !in m.ids && c !in m'.tracks && m'.ids.Keys == m.ids.Keys + {c} && m'.ids[c].region == |m.chains| - 1
  }

  /** A saved copy lies in the region of the version made from it: above its own level and not yet popped. */
  lemma CopyRegion<O>(m: Model<O>, n: O)
    requires Inv(m) && n in m.ids && n != m.ids[n].owner
    ensures m.ids[n].owner in m.tracks && m.ids[n].version < |m.tracks[m.ids[n].owner].saved|
    ensures VersionLevel(m.tracks[m.ids[n].owner], m.ids[n].version) < m.ids[n].region < |m.chains|
  {
    assert Owned(m, n);
    var o := m.ids[n].owner;
    assert Tracked(m, o);
    assert VersionNode(m.tracks[o], o, m.ids[n].version) == n;
  }
}
