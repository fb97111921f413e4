/**
 A hash map kept as a trail of insertions, and its context-dependent form
 (src/context/cdtrail_hashmap.h).  A pop of the context cuts the trail; an insert
 of a key that the current level has inserted before overwrites its trail entry.
 */
module TrailHashMap {
  import opened SaveStack
  import opened StackRuns

  /** A trail entry: `prevKey` is the previous entry with the same key, or the entry itself. */
  datatype Entry<K, D> = Entry(key: K, data: D, prevKey: nat, current: bool)

  /** The map that a trail denotes: the last entry for a key counts. */
  ghost function Content<K, D>(trail: seq<(K, D)>): map<K, D> {
    if trail == [] then map[] else Content(trail[..|trail| - 1])[trail[|trail| - 1].0 := trail[|trail| - 1].1]
  }

  ghost function Pairs<K, D>(es: seq<Entry<K, D>>): (r: seq<(K, D)>)
    ensures |r| == |es| && forall i :: 0 <= i < |es| ==> r[i] == (es[i].key, es[i].data)
  {
    seq(|es|, i requires 0 <= i < |es| => (es[i].key, es[i].data))
  }

  /** Entry i is the last one for its key. */
  ghost predicate LastFor<K, D>(trail: seq<(K, D)>, i: nat) {
    i < |trail| && forall j :: i < j < |trail| ==> trail[j].0 != trail[i].0
  }

  lemma {:induction false} ContentLast<K, D>(trail: seq<(K, D)>, i: nat)
    requires LastFor(trail, i)
    ensures trail[i].0 in Content(trail) && Content(trail)[trail[i].0] == trail[i].1
  {
    if i < |trail| - 1 {
      assert LastFor(trail[..|trail| - 1], i);
      ContentLast(trail[..|trail| - 1], i);
    }
  }

  lemma {:induction false} ContentHas<K, D>(trail: seq<(K, D)>, k: K)
    ensures k in Content(trail) <==> exists i :: 0 <= i < |trail| && trail[i].0 == k
  {
    if trail != [] {
      var t := trail[..|trail| - 1];
      ContentHas(t, k);
      if k in Content(t) {
        var i :| 0 <= i < |t| && t[i].0 == k;
        assert trail[i].0 == k;
      }
      if exists i :: 0 <= i < |trail| && trail[i].0 == k {
        var i :| 0 <= i < |trail| && trail[i].0 == k;
        assert i < |t| ==> t[i].0 == k;
      }
    }
  }

  lemma ContentAppend<K, D>(trail: seq<(K, D)>, k: K, d: D)
    ensures Content(trail + [(k, d)]) == Content(trail)[k := d]
  {
    assert (trail + [(k, d)])[..|trail|] == trail;
  }

  /** Overwriting the last entry of a key in place has the effect of an insert. */
  lemma {:induction false} ContentOverwrite<K, D>(trail: seq<(K, D)>, i: nat, d: D)
    requires LastFor(trail, i)
    ensures Content(trail[i := (trail[i].0, d)]) == Content(trail)[trail[i].0 := d]
  {
    var n, k := |trail| - 1, trail[i].0;
    var trail' := trail[i := (k, d)];
    if i == n {
      assert trail'[..n] == trail[..n];
    } else {
      assert LastFor(trail[..n], i);
      ContentOverwrite(trail[..n], i, d);
      assert trail'[..n] == trail[..n][i := (k, d)] && trail'[n] == trail[n];
      assert Content(trail') == Content(trail[..n])[k := d][trail[n].0 := trail[n].1];
      assert trail[n].0 != k;
    }
  }

  // ---------- the trail ----------

  /** The links of the trail: each entry knows the previous entry for its key, and `pos` the last. */
  ghost predicate Threaded<K, D>(es: seq<Entry<K, D>>, pos: map<K, nat>) {
    && (forall k {:trigger KeyOk(es, pos, k)} :: k in pos ==> KeyOk(es, pos, k))
    && (forall i {:trigger EntryOk(es, pos, i)} :: 0 <= i < |es| ==> EntryOk(es, pos, i))
  }

  ghost predicate KeyOk<K, D>(es: seq<Entry<K, D>>, pos: map<K, nat>, k: K) {
    k in pos && pos[k] < |es| && es[pos[k]].key == k
  }

  ghost predicate EntryOk<K, D>(es: seq<Entry<K, D>>, pos: map<K, nat>, i: nat)
    requires i < |es|
  {
    var e := es[i];
    && e.key in pos && i <= pos[e.key]
    && (e.current <==> pos[e.key] == i)
    && e.prevKey <= i && es[e.prevKey].key == e.key
    && forall j :: 0 <= j < i && es[j].key == e.key ==> e.prevKey < i && j <= e.prevKey
  }

  /** The position map finds, for every key of the denoted map, the entry that counts. */
  lemma PosIsContent<K, D>(es: seq<Entry<K, D>>, pos: map<K, nat>)
    requires Threaded(es, pos)
    ensures pos.Keys == Content(Pairs(es)).Keys
    ensures forall k :: k in pos ==> LastFor(Pairs(es), pos[k]) && Content(Pairs(es))[k] == es[pos[k]].data
  {
    var trail := Pairs(es);
    forall k | k in pos ensures LastFor(trail, pos[k]) && k in Content(trail) && Content(trail)[k] == es[pos[k]].data {
      assert KeyOk(es, pos, k);
      forall j | pos[k] < j < |trail| ensures trail[j].0 != trail[pos[k]].0 { assert EntryOk(es, pos, j); }
      ContentLast(trail, pos[k]);
    }
    forall k | k in Content(trail) ensures k in pos {
      ContentHas(trail, k);
      var i :| 0 <= i < |trail| && trail[i].0 == k;
      assert EntryOk(es, pos, i);
    }
  }

  /** Exactly one entry of a key is marked as current. */
  lemma OneCurrent<K, D>(es: seq<Entry<K, D>>, pos: map<K, nat>, k: K)
    requires Threaded(es, pos)
    ensures k in Content(Pairs(es)) <==> exists i :: 0 <= i < |es| && es[i].key == k && es[i].current
    ensures forall i :: 0 <= i < |es| && es[i].key == k && es[i].current ==> k in pos && pos[k] == i
  {
    PosIsContent(es, pos);
    forall i | 0 <= i < |es| && es[i].key == k ensures k in pos && (es[i].current <==> pos[k] == i) {
      assert EntryOk(es, pos, i);
    }
    if k in pos {
      assert KeyOk(es, pos, k);
    }
  }

  lemma ThreadedNew<K, D>(es: seq<Entry<K, D>>, pos: map<K, nat>, k: K, d: D)
    requires Threaded(es, pos) && k !in pos
    ensures Threaded(es + [Entry(k, d, |es|, true)], pos[k := |es|])
  {
    var es', pos' := es + [Entry(k, d, |es|, true)], pos[k := |es|];
    forall x | x in pos' ensures KeyOk(es', pos', x) { assert x != k ==> KeyOk(es, pos, x); }
    forall i | 0 <= i < |es| ensures EntryOk(es', pos', i) && es[i].key != k { assert EntryOk(es, pos, i); }
    assert EntryOk(es', pos', |es|);
  }

  lemma ThreadedAgain<K, D>(es: seq<Entry<K, D>>, pos: map<K, nat>, k: K, d: D)
    requires Threaded(es, pos) && k in pos
    ensures KeyOk(es, pos, k)
    ensures Threaded((es + [Entry(k, d, pos[k], true)])[pos[k] := es[pos[k]].(current := false)], pos[k := |es|])
  {
    assert KeyOk(es, pos, k);
    var p := pos[k];
    var es', pos' := (es + [Entry(k, d, p, true)])[p := es[p].(current := false)], pos[k := |es|];
    forall x | x in pos' ensures KeyOk(es', pos', x) { assert KeyOk(es, pos, x); }
    forall i | 0 <= i < |es| ensures EntryOk(es', pos', i)
      && (es[i].key == k ==> i <= p) { assert EntryOk(es, pos, i); }
    assert EntryOk(es', pos', |es|);
  }

  lemma ThreadedData<K, D>(es: seq<Entry<K, D>>, pos: map<K, nat>, p: nat, d: D)
    requires Threaded(es, pos) && p < |es|
    ensures Threaded(es[p := es[p].(data := d)], pos)
  {
    var es' := es[p := es[p].(data := d)];
    forall x | x in pos ensures KeyOk(es', pos, x) { assert KeyOk(es, pos, x); }
    forall i | 0 <= i < |es'| ensures EntryOk(es', pos, i) { assert EntryOk(es, pos, i); }
  }

  /** Dropping the last entry when it is the only one for its key. */
  lemma ThreadedPopOnly<K, D>(es: seq<Entry<K, D>>, pos: map<K, nat>)
    requires Threaded(es, pos) && es != [] && es[|es| - 1].prevKey == |es| - 1
    ensures es[|es| - 1].key in pos && Threaded(es[..|es| - 1], pos - {es[|es| - 1].key})
  {
    var n := |es| - 1;
    assert EntryOk(es, pos, n);
    var es', pos' := es[..n], pos - {es[n].key};
    forall x | x in pos' ensures KeyOk(es', pos', x) { assert KeyOk(es, pos, x); }
    forall i | 0 <= i < n ensures EntryOk(es', pos', i) { assert EntryOk(es, pos, i); }
  }

  /** Dropping the last entry when its key has an older one, which becomes current. */
  lemma ThreadedPopAgain<K, D>(es: seq<Entry<K, D>>, pos: map<K, nat>)
    requires Threaded(es, pos) && es != [] && es[|es| - 1].prevKey != |es| - 1
    ensures var n := |es| - 1; var p := es[n].prevKey;
            && p < n && es[n].key in pos
            && Threaded(es[p := es[p].(current := true)][..n], pos[es[n].key := p])
  {
    var n := |es| - 1;
    var k, p := es[n].key, es[n].prevKey;
    assert EntryOk(es, pos, n);
    var es', pos' := es[p := es[p].(current := true)][..n], pos[k := p];
    forall x | x in pos' ensures KeyOk(es', pos', x) { assert KeyOk(es, pos, x); }
    forall i | 0 <= i < n ensures EntryOk(es', pos', i) { assert EntryOk(es, pos, i); }
  }

  class TrailHashMap<K(==), D> {
    var kdts: seq<Entry<K, D>>
    var posMap: map<K, nat>
    var uniqueKeys: nat

    ghost predicate Valid()
      reads this
    {
      Threaded(kdts, posMap) && uniqueKeys == |posMap|
    }

    ghost function Trail(): seq<(K, D)>
      reads this
    {
      Pairs(kdts)
    }

    constructor ()
      ensures Valid() && kdts == []
    {
      kdts, posMap, uniqueKeys := [], map[], 0;
    }

    method Contains(k: K) returns (b: bool)
      requires Valid()
      ensures b == (k in Content(Trail()))
    {
      PosIsContent(kdts, posMap);
      b := k in posMap;
    }

    method Lookup(k: K) returns (d: D)
      requires Valid() && k in Content(Trail())
      ensures d == Content(Trail())[k]
    {
      PosIsContent(kdts, posMap);
      assert KeyOk(kdts, posMap, k);
      d := kdts[posMap[k]].data;
    }

    /**
     compacting_push_back: an insert that reuses the entry of the key if it is at or
     above `threshold`; the part of the trail below the threshold does not change.
     */
    method CompactingPushBack(k: K, d: D, threshold: nat) returns (isNew: bool, grown: bool)
      requires Valid() && threshold <= |kdts|
      modifies this
      ensures Valid() && isNew == (k !in Content(old(Trail())))
      ensures |kdts| == |old(kdts)| + if grown then 1 else 0
      ensures Content(Trail()) == Content(old(Trail()))[k := d]
      ensures Trail()[..threshold] == old(Trail())[..threshold]
    {
      PosIsContent(kdts, posMap);
      isNew := k !in posMap;
      if isNew {
        Append(k, d);
        grown := true;
      } else {
        assert KeyOk(kdts, posMap, k);
        grown := posMap[k] < threshold;
        if grown {
          AppendAgain(k, d);
        } else {
          Overwrite(k, d);
        }
      }
    }

    /** A new entry for a key that has one already, which stops being current. */
    method AppendAgain(k: K, d: D)
      requires Valid() && k in posMap
      modifies this
      ensures Valid() && |kdts| == |old(kdts)| + 1 && Trail() == old(Trail()) + [(k, d)]
      ensures Content(Trail()) == Content(old(Trail()))[k := d]
    {
      var backPos, prevPos := |kdts|, posMap[k];
      ghost var trail := Trail();
      ThreadedAgain(kdts, posMap, k, d);
      kdts := (kdts + [Entry(k, d, prevPos, true)])[prevPos := kdts[prevPos].(current := false)];
      posMap := posMap[k := backPos];
      assert Trail() == trail + [(k, d)];
      ContentAppend(trail, k, d);
    }

    /** The entry of the key gets new data in place. */
    method Overwrite(k: K, d: D)
      requires Valid() && k in posMap && posMap[k] < |kdts|
      modifies this
      ensures Valid() && posMap == old(posMap) && Trail() == old(Trail())[posMap[k] := (k, d)]
      ensures Content(Trail()) == Content(old(Trail()))[k := d]
    {
      PosIsContent(kdts, posMap);
      assert KeyOk(kdts, posMap, k);
      var prevPos := posMap[k];
      ghost var trail := Trail();
      ThreadedData(kdts, posMap, prevPos, d);
      kdts := kdts[prevPos := kdts[prevPos].(data := d)];
      assert Trail() == trail[prevPos := (k, d)];
      ContentOverwrite(trail, prevPos, d);
    }

    /** The insertion of a key that is not in the map. */
    method Append(k: K, d: D)
      requires Valid() && k !in posMap
      modifies this
      ensures Valid() && |kdts| == |old(kdts)| + 1 && Trail() == old(Trail()) + [(k, d)]
      ensures Content(Trail()) == Content(old(Trail()))[k := d]
    {
      ThreadedNew(kdts, posMap, k, d);
      ContentAppend(Trail(), k, d);
      ghost var trail := Trail();
      posMap := posMap[k := |kdts|];
      kdts := kdts + [Entry(k, d, |kdts|, true)];
      uniqueKeys := uniqueKeys + 1;
      assert Trail() == trail + [(k, d)];
    }

    method InsertNoOverwrite(k: K, d: D) returns (inserted: bool)
      requires Valid()
      modifies this
      ensures Valid() && inserted == (k !in Content(old(Trail())))
      ensures !inserted ==> kdts == old(kdts)
      ensures inserted ==> Trail() == old(Trail()) + [(k, d)] && Content(Trail()) == Content(old(Trail()))[k := d]
    {
      PosIsContent(kdts, posMap);
      inserted := k !in posMap;
      if inserted {
        Append(k, d);
      }
    }

    method PopBack()
      requires Valid() && kdts != []
      modifies this
      ensures Valid() && Trail() == old(Trail())[..|old(kdts)| - 1]
    {
      var n := |kdts| - 1;
      var back := kdts[n];
      ghost var trail := Trail();
      if back.prevKey == n {
        ThreadedPopOnly(kdts, posMap);
        posMap := posMap - {back.key};
        uniqueKeys := uniqueKeys - 1;
        kdts := kdts[..n];
      } else {
        ThreadedPopAgain(kdts, posMap);
        posMap := posMap[back.key := back.prevKey];
        kdts := kdts[back.prevKey := kdts[back.prevKey].(current := true)];
        kdts := kdts[..n];
      }
      assert Trail() == trail[..n];
    }

    method PopToSize(s: nat)
      requires Valid() && s <= |kdts|
      modifies this
      ensures Valid() && Trail() == old(Trail())[..s]
    {
      while |kdts| > s
        invariant Valid() && s <= |kdts| <= |old(kdts)| && Trail() == old(Trail())[..|kdts|]
      {
        PopBack();
      }
    }

    /** Iteration from begin() to end(): the current entries of the trail. */
    method Entries() returns (r: seq<(K, D)>)
      requires Valid()
      ensures |r| == |Content(Trail())| == uniqueKeys
      ensures forall i, j :: 0 <= i < j < |r| ==> r[i].0 != r[j].0
      ensures forall p :: p in r <==> p.0 in Content(Trail()) && Content(Trail())[p.0] == p.1
    {
      PosIsContent(kdts, posMap);
      r := [];
      ghost var keys: set<K> := {};
      for i := 0 to |kdts|
        invariant forall k :: k in keys <==> k in posMap && posMap[k] < i
        invariant |r| == |keys|
        invariant forall a, b :: 0 <= a < b < |r| ==> r[a].0 != r[b].0
        invariant forall p :: p in r <==> p.0 in keys && p.1 == Content(Trail())[p.0]
      {
        assert EntryOk(kdts, posMap, i);
        if kdts[i].current {
          r := r + [(kdts[i].key, kdts[i].data)];
          keys := keys + {kdts[i].key};
        }
        forall k | k in posMap && posMap[k] == i ensures kdts[i].key == k { assert KeyOk(kdts, posMap, k); }
      }
      forall k | k in posMap ensures k in keys { assert KeyOk(kdts, posMap, k); }
      assert keys == posMap.Keys;
    }
  }

  // ---------- the context-dependent map ----------

  /** What CDTrailHashMap::save copies. */
  datatype Sizes = Sizes(trailSize: nat, prevTrailSize: nat)

  ghost function Prefix<T>(s: seq<T>, n: nat): (r: seq<T>)
    ensures n <= |s| ==> r == s[..n]
  {
    if n <= |s| then s[..n] else s
  }

  /** Every saved copy denotes the map of a prefix of the shared trail. */
  ghost function MapOf<K, D>(trail: seq<(K, D)>): Sizes -> map<K, D> {
    (z: Sizes) => Content(Prefix(trail, z.trailSize))
  }

  /** The trail of a level begins no earlier than where the trail of the level before it ended. */
  ghost predicate Nested(t: Track<Sizes>, live: Sizes) {
    && live.prevTrailSize <= live.trailSize
    && (forall i :: 0 <= i < |t.saved| ==>
          t.saved[i].copy.prevTrailSize <= t.saved[i].copy.trailSize <= live.prevTrailSize)
    && (forall i, j :: 0 <= i < j < |t.saved| ==> t.saved[i].copy.trailSize <= t.saved[j].copy.prevTrailSize)
  }

  /** A restore keeps what the saved copies denote. */
  lemma TrailCut<K, D>(trail: seq<(K, D)>, t: Track<Sizes>, live: Sizes, top: nat)
    requires t.Valid() && t.level == top > 0 && Nested(t, live) && live.trailSize == |trail|
    ensures var data := t.saved[|t.saved| - 1].copy;
            && data.trailSize <= |trail| && t.Restored().Valid() && t.Restored().level < top
               && Nested(t.Restored(), data)
            && View(MapOf(trail[..data.trailSize]), t.Restored(), data, top - 1) ==
               View(MapOf(trail), t, live, top)[..top]
  {
    var n := t.saved[|t.saved| - 1].copy.trailSize;
    forall z: Sizes | z.trailSize <= n ensures MapOf(trail[..n])(z) == MapOf(trail)(z) {
      assert trail[..n][..z.trailSize] == trail[..z.trailSize];
    }
    PopView(MapOf(trail), MapOf(trail[..n]), t, live, top);
  }

  datatype Op<K, D> = Insert(key: K, data: D) | InsertNoOverwrite(key: K, data: D)

  /** What the operations do to a map. */
  ghost function Effect<K, D>(m: map<K, D>, op: Op<K, D>): map<K, D> {
    if op.InsertNoOverwrite? && op.key in m then m else m[op.key := op.data]
  }

  class CDTrailHashMap<K(==), D> {
    const trailMap: TrailHashMap<K, D>
    var trailSize: nat
    var prevTrailSize: nat
    /** The level of the context and this object's place in it. */
    var top: nat
    var track: Track<Sizes>

    ghost predicate Valid()
      reads this, trailMap
    {
      && trailMap.Valid()
      && track.Valid() && track.level <= top
      && trailSize == |trailMap.kdts|
      && Nested(track, Live())
    }

    ghost function Live(): Sizes
      reads this
    {
      Sizes(trailSize, prevTrailSize)
    }

    /** The map at every level of the context. */
    ghost function Stack(): (r: seq<map<K, D>>)
      requires Valid()
      reads this, trailMap
      ensures |r| == top + 1
    {
      View(MapOf(trailMap.Trail()), track, Live(), top)
    }

    /** The map in the current context. */
    ghost function Map(): map<K, D>
      reads this, trailMap
    {
      Content(trailMap.Trail())
    }

    lemma MapIsTop()
      requires Valid()
      ensures Stack()[top] == Map()
    {
      PushView(MapOf(trailMap.Trail()), track, Live(), top);
      assert trailMap.Trail()[..trailSize] == trailMap.Trail();
    }

    constructor ()
      ensures Valid() && fresh(trailMap) && top == 0 && Stack() == [map[]]
    {
      trailMap := new TrailHashMap<K, D>();
      trailSize, prevTrailSize := 0, 0;
      top, track := 0, Track(0, []);
      new;
      MapIsTop();
    }

    method InternalMakeCurrent()
      requires track.Valid() && track.level <= top && Nested(track, Live())
      modifies this
      ensures track.Valid() && Nested(track, Live())
      ensures top == old(top) && trailSize == old(trailSize)
      ensures track == old(track).MakeCurrent(top, old(Live()))
      ensures prevTrailSize == if old(track).level == top then old(prevTrailSize) else trailSize
    {
      if track.level != top {
        track := track.MakeCurrent(top, Sizes(trailSize, prevTrailSize));
        prevTrailSize := trailSize;
      }
    }

    /** After any change that leaves the trail below the new threshold alone. */
    twostate lemma Wrote()
      requires old(Valid())
      requires Valid() && top == old(top) && track == old(track).MakeCurrent(top, old(Live()))
      requires prevTrailSize == if old(track).level == top then old(prevTrailSize) else old(trailSize)
      requires prevTrailSize <= trailSize && trailMap.Trail()[..prevTrailSize] == old(trailMap.Trail())[..prevTrailSize]
      ensures Stack() == old(Stack())[top := Map()]
    {
      var was, now := old(trailMap.Trail()), trailMap.Trail();
      forall n | 0 <= n <= prevTrailSize ensures was[..n] == now[..n] {
        assert was[..n] == was[..prevTrailSize][..n] && now[..n] == now[..prevTrailSize][..n];
      }
      WriteView(MapOf(was), MapOf(now), old(track), old(Live()), Live(), top);
      assert now[..trailSize] == now;
    }

    method Insert(k: K, d: D) returns (isNew: bool)
      requires Valid()
      modifies this, trailMap
      ensures Valid() && top == old(top)
      ensures isNew == (k !in old(Map()))
      ensures Stack() == old(Stack())[top := old(Map())[k := d]]
    {
      InternalMakeCurrent();
      var grown;
      isNew, grown := trailMap.CompactingPushBack(k, d, prevTrailSize);
      trailSize := if grown then trailSize + 1 else trailSize;
      Wrote();
    }

    method InsertNoOverwrite(k: K, d: D) returns (inserted: bool)
      requires Valid()
      modifies this, trailMap
      ensures Valid() && top == old(top)
      ensures inserted == (k !in old(Map()))
      ensures Stack() == if inserted then old(Stack())[top := old(Map())[k := d]] else old(Stack())
    {
      inserted := trailMap.InsertNoOverwrite(k, d);
      if inserted {
        InternalMakeCurrent();
        trailSize := trailSize + 1;
        Wrote();
      }
    }

    /** The context is pushed; the object is not touched. */
    method ContextPush()
      requires Valid()
      modifies this
      ensures Valid() && top == old(top) + 1 && Stack() == old(Stack()) + [old(Map())]
    {
      MapIsTop();
      PushView(MapOf(trailMap.Trail()), track, Live(), top);
      top := top + 1;
    }

    /** The context is popped, which restores the object if it was changed in the popped level. */
    method ContextPop()
      requires Valid() && top > 0
      modifies this, trailMap
      ensures Valid() && top == old(top) - 1 && Stack() == old(Stack())[..top + 1]
    {
      if track.level == top {
        Undo();
      } else {
        PopView(MapOf(trailMap.Trail()), MapOf(trailMap.Trail()), track, Live(), top);
        top := top - 1;
      }
    }

    method Undo()
      requires Valid() && track.level == top > 0
      modifies this, trailMap
      ensures Valid() && top == old(top) - 1 && Stack() == old(Stack())[..top + 1]
    {
      TrailCut(trailMap.Trail(), track, Live(), top);
      var data := track.saved[|track.saved| - 1].copy;
      track, top := track.Restored(), top - 1;
      RestoreFrom(data);
    }

    /** restore() */
    method RestoreFrom(data: Sizes)
      requires trailMap.Valid() && data.trailSize <= |trailMap.kdts|
      modifies this`trailSize, this`prevTrailSize, trailMap
      ensures trailMap.Valid() && Live() == data && trailSize == |trailMap.kdts|
      ensures trailMap.Trail() == old(trailMap.Trail())[..trailSize]
    {
      var oldSize := data.trailSize;
      trailMap.PopToSize(oldSize);
      trailSize := oldSize;
      prevTrailSize := data.prevTrailSize;
    }

    method Contains(k: K) returns (b: bool)
      requires Valid()
      ensures b == (k in Stack()[top])
    {
      MapIsTop();
      b := trailMap.Contains(k);
    }

    method Lookup(k: K) returns (d: D)
      requires Valid() && k in Stack()[top]
      ensures d == Stack()[top][k]
    {
      MapIsTop();
      d := trailMap.Lookup(k);
    }

    method Size() returns (n: nat)
      requires Valid()
      ensures n == |Stack()[top]|
    {
      MapIsTop();
      PosIsContent(trailMap.kdts, trailMap.posMap);
      assert trailMap.posMap.Keys == Map().Keys;
      n := trailMap.uniqueKeys;
    }

    method Empty() returns (b: bool)
      requires Valid()
      ensures b == (Stack()[top] == map[])
    {
      MapIsTop();
      b := trailSize == 0;
      if !b {
        ContentHas(trailMap.Trail(), trailMap.kdts[0].key);
        assert trailMap.Trail()[0].0 == trailMap.kdts[0].key;
      }
    }

    /** Iteration yields every mapping of the current map once. */
    method Iterate() returns (r: seq<(K, D)>)
      requires Valid()
      ensures |r| == |Stack()[top]|
      ensures forall i, j :: 0 <= i < j < |r| ==> r[i].0 != r[j].0
      ensures forall p :: p in r <==> p.0 in Stack()[top] && Stack()[top][p.0] == p.1
    {
      MapIsTop();
      r := trailMap.Entries();
    }

    /** Any run of inserts, pushes and pops acts as the same run on a stack of maps. */
    method Run(steps: seq<Step<Op<K, D>>>)
      requires Valid() && Legal(top + 1, steps)
      modifies this, trailMap
      ensures Valid() && Stack() == After(Effect, old(Stack()), steps)
      decreases |steps|
    {
      if steps != [] {
        MapIsTop();
        match steps[0] {
          case Push => ContextPush();
          case Pop => ContextPop();
          case Act(Insert(k, d)) => var _ := Insert(k, d);
          case Act(InsertNoOverwrite(k, d)) => var _ := InsertNoOverwrite(k, d);
        }
        assert Stack() == Apply(Effect, old(Stack()), steps[0]);
        Run(steps[1..]);
      }
    }
  }
}
