/**
 CDChunkList: a list in segments of growing size that live in context memory
 (src/context/cdchunk_list.h).  A pop cuts the list back to the saved tail segment.
 */
module ChunkList {
  import opened SaveStack
  import opened StackRuns

  const INITIAL_SEGMENT_SIZE: nat := 10
  const INCREMENTAL_GROWTH_FACTOR: nat := 2

  // ---------- the contents of the segments ----------

  /** The elements of the first n segments. */
  ghost function Front<T>(data: seq<seq<T>>, n: nat): seq<T>
    requires n <= |data|
  {
    if n == 0 then [] else Front(data, n - 1) + data[n - 1]
  }

  ghost function Flat<T>(data: seq<seq<T>>): seq<T> {
    Front(data, |data|)
  }

  ghost function Sum(caps: seq<nat>, n: nat): nat
    requires n <= |caps|
  {
    if n == 0 then 0 else Sum(caps, n - 1) + caps[n - 1]
  }

  ghost function Total(caps: seq<nat>): nat {
    Sum(caps, |caps|)
  }

  lemma {:induction false} FrontSame<T>(a: seq<seq<T>>, b: seq<seq<T>>, n: nat)
    requires n <= |a| && n <= |b| && forall i :: 0 <= i < n ==> a[i] == b[i]
    ensures Front(a, n) == Front(b, n)
  {
    if n > 0 {
      FrontSame(a, b, n - 1);
    }
  }

  lemma {:induction false} SumSame(a: seq<nat>, b: seq<nat>, n: nat)
    requires n <= |a| && n <= |b| && forall i :: 0 <= i < n ==> a[i] == b[i]
    ensures Sum(a, n) == Sum(b, n)
  {
    if n > 0 {
      SumSame(a, b, n - 1);
    }
  }

  lemma {:induction false} FrontPrefix<T>(data: seq<seq<T>>, p: nat, n: nat)
    requires p <= n <= |data|
    ensures Front(data, p) <= Front(data, n)
  {
    if p < n {
      FrontPrefix(data, p, n - 1);
    }
  }

  /** The elements before position j of segment p, as a prefix of all elements. */
  lemma FlatAt<T>(data: seq<seq<T>>, p: nat, j: nat)
    requires p < |data| && j <= |data[p]|
    ensures |Front(data, p)| + j <= |Flat(data)|
    ensures Flat(data)[..|Front(data, p)| + j] == Front(data, p) + data[p][..j]
    ensures j < |data[p]| ==> |Front(data, p)| + j < |Flat(data)| && Flat(data)[|Front(data, p)| + j] == data[p][j]
  {
    FrontPrefix(data, p + 1, |data|);
    var all, front := Flat(data), Front(data, p);
    assert Front(data, p + 1) == front + data[p];
    assert all[..|front| + |data[p]|] == front + data[p];
    assert all[..|front| + j] == (front + data[p])[..|front| + j];
  }

  /** An element beyond segment p is in a later one. */
  lemma NotLast<T>(data: seq<seq<T>>, p: nat, i: nat)
    requires p < |data| && |Front(data, p)| + |data[p]| <= i < |Flat(data)|
    ensures p + 1 < |data| && |Front(data, p + 1)| == |Front(data, p)| + |data[p]|
  {
  }

  /** The segments up to position t of segment p. */
  ghost function Cut<T>(data: seq<seq<T>>, p: nat, t: nat): (r: seq<seq<T>>)
    requires p < |data| && t <= |data[p]|
    ensures |r| == p + 1
  {
    data[..p] + [data[p][..t]]
  }

  lemma FlatCut<T>(data: seq<seq<T>>, p: nat, t: nat)
    requires p < |data| && t <= |data[p]|
    ensures |Front(data, p)| + t <= |Flat(data)|
    ensures Flat(Cut(data, p, t)) == Flat(data)[..|Front(data, p)| + t]
  {
    FlatAt(data, p, t);
    FrontSame(Cut(data, p, t), data, p);
  }

  lemma FlatNew<T>(data: seq<seq<T>>)
    ensures Flat(data + [[]]) == Flat(data)
  {
    FrontSame(data + [[]], data, |data|);
  }

  lemma FlatAppend<T>(data: seq<seq<T>>, x: T)
    requires data != []
    ensures Flat(data[|data| - 1 := data[|data| - 1] + [x]]) == Flat(data) + [x]
  {
    var n := |data| - 1;
    FrontSame(data[n := data[n] + [x]], data, n);
    Associative(Front(data, n), data[n], [x]);
  }

  /** The elements before position j of segment p, the position after the last segment being the end. */
  ghost function UpTo<T>(data: seq<seq<T>>, p: nat, j: nat): seq<T> {
    if p < |data| && j <= |data[p]| then Front(data, p) + data[p][..j] else Flat(data)
  }

  lemma UpToNext<T>(data: seq<seq<T>>, p: nat, j: nat)
    requires p < |data| && j < |data[p]|
    ensures UpTo(data, p, j) + [data[p][j]] == if j + 1 < |data[p]| then UpTo(data, p, j + 1) else UpTo(data, p + 1, 0)
  {
    assert data[p][..j + 1] == data[p][..j] + [data[p][j]];
    Associative(Front(data, p), data[p][..j], [data[p][j]]);
    assert j + 1 == |data[p]| ==> data[p][..j + 1] == data[p];
  }

  /** The elements from position j of segment p on. */
  ghost function From<T>(data: seq<seq<T>>, p: nat, j: nat): seq<T>
    requires p <= |data|
  {
    var n := |Front(data, p)| + j;
    if n <= |Flat(data)| then Flat(data)[n..] else []
  }

  /** The rest of segment p, and what follows it. */
  lemma FromSegment<T>(data: seq<seq<T>>, p: nat, j: nat)
    requires p < |data| && j <= |data[p]|
    ensures From(data, p, j) == data[p][j..] + From(data, p + 1, 0)
  {
    var all, n := Flat(data), |Front(data, p)|;
    FlatAt(data, p, j);
    FlatAt(data, p, |data[p]|);
    assert data[p][..|data[p]|] == data[p];
    assert all[..n + |data[p]|][n..] == data[p];
    assert all[n + j..] == all[n + j..n + |data[p]|] + all[n + |data[p]|..];
    assert all[n + j..n + |data[p]|] == all[..n + |data[p]|][n..][j..];
  }

  lemma Associative<T>(a: seq<T>, b: seq<T>, c: seq<T>)
    ensures a + (b + c) == (a + b) + c
  {
  }

  /** Segments before the last one are full. */
  ghost predicate Full<T>(data: seq<seq<T>>, caps: seq<nat>) {
    && |data| == |caps| > 0
    && (forall i :: 0 <= i < |data| - 1 ==> |data[i]| == caps[i])
    && |data[|data| - 1]| <= caps[|data| - 1]
  }

  lemma {:induction false} FullFront<T>(data: seq<seq<T>>, caps: seq<nat>, n: nat)
    requires Full(data, caps) && n < |data|
    ensures Sum(caps, n) == |Front(data, n)|
  {
    if n > 0 {
      FullFront(data, caps, n - 1);
    }
  }

  lemma FullTotal<T>(data: seq<seq<T>>, caps: seq<nat>)
    requires Full(data, caps)
    ensures Total(caps) - |Flat(data)| == caps[|data| - 1] - |data[|data| - 1]|
  {
    FullFront(data, caps, |data| - 1);
  }

  lemma {:induction false} SumFirst(caps: seq<nat>, n: nat)
    requires 0 < n <= |caps|
    ensures caps[0] <= Sum(caps, n)
  {
    if n > 1 {
      SumFirst(caps, n - 1);
    }
  }

  // ---------- the saved copies ----------

  class Segment<T> {
    var next: Segment?<T>
    var size: nat
    const list: array<T>
    /** The level of the context, and the region of context memory, at the time of the allocation. */
    const level: nat
    const region: nat

    constructor (list: array<T>, level: nat, region: nat)
      ensures next == null && size == 0 && this.list == list && this.level == level && this.region == region
    {
      next, size, this.list, this.level, this.region := null, 0, list, level, region;
    }
  }

  /**
   The regions of context memory that have not been released, one for each level.  A push opens
   a region with a number of its own, and a pop releases the newest.  `created` is the level at
   which the list was created and `lowest` the lowest level since then.
   */
  datatype Memory = Memory(regions: seq<nat>, next: nat, created: nat, lowest: nat) {

    function Pushed(): Memory {
      Memory(regions + [next], next + 1, created, lowest)
    }

    function Popped(): Memory
      requires |regions| > 1
    {
      var n := |regions| - 1;
      Memory(regions[..n], next, created, if lowest < n then lowest else n - 1)
    }

    /** The context has never been popped below the level of creation. */
    predicate NeverBelow() {
      created <= lowest
    }

    /** How many levels the context is above the level below that of creation, or zero if it has been there. */
    function Room(top: nat): int {
      if NeverBelow() then top + 1 - created else 0
    }

    function Moved<W>(step: Step<W>): Memory
      requires step.Pop? ==> |regions| > 1
    {
      match step case Push => Pushed() case Pop => Popped() case Act(_) => this
    }

    ghost predicate Valid(top: nat) {
      && |regions| == top + 1 && lowest <= top
      && (forall i :: 0 <= i < |regions| ==> regions[i] < next)
      && (forall i, j :: 0 <= i < j < |regions| ==> regions[i] < regions[j])
    }
  }

  /**
   Where the segments lie: the first one in the region in which the list was created, which may have
   been released, and the others in the regions of their levels.  Once the region of the first one
   is released, the list is as old as level zero again and no pop has to restore it.
   */
  ghost predicate Placed<T>(segs: seq<Segment<T>>, t: Track<Mark<T>>, mem: Memory, top: nat) {
    && mem.Valid(top) && segs != [] && segs[0].region < mem.next
    && (if mem.NeverBelow() then segs[0].region == mem.regions[mem.created]
        else t.level == 0 && segs[0].region !in mem.regions)
    && (t.level == 0 || t.level >= mem.created)
    && (forall k {:trigger SavedSince(t.saved[k], mem)} :: 0 < k < |t.saved| ==> SavedSince(t.saved[k], mem))
    && (forall i {:trigger InPlace(segs[i], mem)} :: 0 < i < |segs| ==> InPlace(segs[i], mem))
  }

  ghost predicate SavedSince<S>(s: Saved<S>, mem: Memory) {
    s.level >= mem.created
  }

  ghost predicate InPlace<T>(s: Segment<T>, mem: Memory) {
    s.level < |mem.regions| && s.region == mem.regions[s.level]
  }

  /** No reachable segment lies in a region that has been released. */
  ghost predicate AllLive<T>(segs: seq<Segment<T>>, mem: Memory) {
    forall i :: 0 <= i < |segs| ==> segs[i].region in mem.regions
  }

  lemma PlacedLive<T>(segs: seq<Segment<T>>, t: Track<Mark<T>>, mem: Memory, top: nat)
    requires Placed(segs, t, mem, top)
    ensures AllLive(segs, mem) <==> mem.NeverBelow()
  {
    if mem.NeverBelow() {
      forall i | 0 <= i < |segs| ensures segs[i].region in mem.regions {
        assert i > 0 ==> InPlace(segs[i], mem);
      }
    } else {
      assert segs[0].region !in mem.regions;
    }
  }

  lemma PlacedPush<T>(segs: seq<Segment<T>>, t: Track<Mark<T>>, mem: Memory, top: nat)
    requires Placed(segs, t, mem, top)
    ensures Placed(segs, t, mem.Pushed(), top + 1)
  {
    forall i | 0 < i < |segs| ensures InPlace(segs[i], mem.Pushed()) {
      assert InPlace(segs[i], mem);
    }
    forall k | 0 < k < |t.saved| ensures SavedSince(t.saved[k], mem.Pushed()) {
      assert SavedSince(t.saved[k], mem);
    }
  }

  /** A pop that leaves segments below the level and a version of the list below it. */
  lemma PlacedPop<T>(segs: seq<Segment<T>>, t: Track<Mark<T>>, mem: Memory, top: nat, t': Track<Mark<T>>, p: nat)
    requires Placed(segs, t, mem, top) && top > 0 && p < |segs| && Older(segs, p, t'.level) && t'.level < top
    requires t.Valid() && (t' == t || (t.level > 0 && t' == t.Restored()))
    ensures Placed(segs[..p + 1], t', mem.Popped(), top - 1)
  {
    var segs', mem' := segs[..p + 1], mem.Popped();
    forall i | 0 < i < |segs'| ensures InPlace(segs'[i], mem') {
      assert segs[i].level <= t'.level && InPlace(segs[i], mem);
    }
    forall k | 0 < k < |t'.saved| ensures SavedSince(t'.saved[k], mem') {
      assert SavedSince(t.saved[k], mem);
    }
    if t' != t && |t.saved| > 1 {
      assert SavedSince(t.saved[|t.saved| - 1], mem);
    }
    if mem.NeverBelow() && !mem'.NeverBelow() {
      assert mem.created == top;
    }
  }

  /** Appending in a level at or above that of creation. */
  lemma PlacedWrite<T>(segs: seq<Segment<T>>, segs': seq<Segment<T>>, t: Track<Mark<T>>, live: Mark<T>, mem: Memory,
    top: nat)
    requires Placed(segs, t, mem, top) && t.Valid() && t.level <= top && mem.NeverBelow()
    requires segs' == segs
             || (|segs'| == |segs| + 1 && segs'[..|segs|] == segs
                 && segs'[|segs|].level == top && segs'[|segs|].region == mem.regions[top])
    ensures Placed(segs', t.MakeCurrent(top, live), mem, top)
  {
    assert forall i :: 0 <= i < |segs| ==> segs'[i] == segs[i];
    forall i | 0 < i < |segs'| ensures InPlace(segs'[i], mem) {
      assert i < |segs| ==> InPlace(segs[i], mem);
    }
    var t' := t.MakeCurrent(top, live);
    forall k | 0 < k < |t'.saved| ensures SavedSince(t'.saved[k], mem) {
      assert k < |t.saved| ==> SavedSince(t.saved[k], mem);
    }
  }

  /** No append once the context has been popped below the level of creation, which is n levels down. */
  ghost predicate AppendsAbove<W>(n: int, steps: seq<Step<W>>)
    decreases |steps|
  {
    if n <= 0 then forall i :: 0 <= i < |steps| ==> !steps[i].Act?
    else steps == [] || AppendsAbove(n + Change(steps[0]), steps[1..])
  }

  /** One step of a run, and what it leaves of the condition on the rest. */
  lemma RoomStep<W>(mem: Memory, top: nat, steps: seq<Step<W>>)
    requires mem.Valid(top) && steps != [] && top + 1 + Change(steps[0]) > 0 && AppendsAbove(mem.Room(top), steps)
    ensures steps[0].Act? ==> mem.NeverBelow()
    ensures var room := mem.Moved(steps[0]).Room(top + Change(steps[0]));
            AppendsAbove(room, steps[1..]) && (Legal(mem.Room(top), steps) <==> Legal(room, steps[1..]))
  {
    assert mem.Room(top) <= 0 ==> !steps[0].Act?;
  }

  /** CDChunkListSave */
  datatype Mark<T> = Mark(tail: Segment<T>, tailSize: nat, size: nat, sizeAlloc: nat)

  ghost function Caps<T>(segs: seq<Segment<T>>): (r: seq<nat>)
    ensures |r| == |segs| && forall i :: 0 <= i < |r| ==> r[i] == segs[i].list.Length
  {
    seq(|segs|, i requires 0 <= i < |segs| => segs[i].list.Length)
  }

  /** The mark describes the list up to position `tailSize` of segment p. */
  ghost predicate MarkOk<T>(segs: seq<Segment<T>>, data: seq<seq<T>>, m: Mark<T>, p: nat) {
    && |data| == |segs| && p < |segs| && m.tail == segs[p]
    && m.tailSize <= |data[p]| && (p > 0 ==> m.tailSize > 0)
    && m.size == |Front(data, p)| + m.tailSize
    && m.sizeAlloc == Sum(Caps(segs), p + 1)
  }

  /** The segments up to p other than the first were allocated at or below the level. */
  ghost predicate Older<T>(segs: seq<Segment<T>>, p: nat, level: nat) {
    forall i {:trigger segs[i].level} :: 0 < i <= p && i < |segs| ==> segs[i].level <= level
  }

  /** All saved copies are marks in the list, each beyond the one before it. */
  ghost predicate Marks<T>(segs: seq<Segment<T>>, data: seq<seq<T>>, saved: seq<Saved<Mark<T>>>, place: seq<nat>) {
    && |place| == |saved|
    && (forall k {:trigger MarkOk(segs, data, saved[k].copy, place[k])} {:trigger Older(segs, place[k],
       saved[k].level)} ::
          0 <= k < |saved| ==> MarkOk(segs, data, saved[k].copy, place[k]) && Older(segs, place[k], saved[k].level))
    && (forall k, l :: 0 <= k < l < |saved| ==> saved[k].copy.size < saved[l].copy.size && place[k] <= place[l])
  }

  /** Marks survive when segments are added and the last segment grows. */
  lemma MarkKept<T>(segs: seq<Segment<T>>, data: seq<seq<T>>, segs': seq<Segment<T>>, data': seq<seq<T>>, m: Mark<T>,
    p: nat)
    requires MarkOk(segs, data, m, p) && segs <= segs' && |data'| == |segs'|
    requires forall i :: 0 <= i < |data| ==> data[i] <= data'[i] && (i < |data| - 1 ==> data[i] == data'[i])
    ensures MarkOk(segs', data', m, p)
  {
    FrontSame(data', data, p);
    SumSame(Caps(segs'), Caps(segs), p + 1);
  }

  lemma MarksKept<T>(segs: seq<Segment<T>>, data: seq<seq<T>>, segs': seq<Segment<T>>, data': seq<seq<T>>,
                     saved: seq<Saved<Mark<T>>>, place: seq<nat>)
    requires Marks(segs, data, saved, place) && |data| == |segs| && segs <= segs' && |data'| == |segs'|
    requires forall i :: 0 <= i < |data| ==> data[i] <= data'[i] && (i < |data| - 1 ==> data[i] == data'[i])
    ensures Marks(segs', data', saved, place)
  {
    forall k | 0 <= k < |saved| ensures MarkOk(segs', data', saved[k].copy, place[k])
      && Older(segs', place[k], saved[k].level) {
      MarkKept(segs, data, segs', data', saved[k].copy, place[k]);
      assert Older(segs, place[k], saved[k].level);
    }
  }

  /** A save adds a mark at the end of the list. */
  lemma MarksSave<T>(segs: seq<Segment<T>>, data: seq<seq<T>>, saved: seq<Saved<Mark<T>>>, place: seq<nat>,
    m: Mark<T>, level: nat)
    requires Marks(segs, data, saved, place) && segs != [] && MarkOk(segs, data, m, |segs| - 1)
             && Older(segs, |segs|, level)
    requires forall k :: 0 <= k < |saved| ==> saved[k].copy.size < m.size
    ensures Marks(segs, data, saved + [Saved(level, m)], place + [|segs| - 1])
  {
    var saved', place' := saved + [Saved(level, m)], place + [|segs| - 1];
    forall k | 0 <= k < |saved'|
      ensures MarkOk(segs, data, saved'[k].copy, place'[k]) && Older(segs, place'[k], saved'[k].level)
    {
      assert k < |saved| ==> MarkOk(segs, data, saved[k].copy, place[k]);
    }
  }

  /** The segments are full but for the last one, and the two sizes are the totals. */
  ghost predicate Shape<T>(segs: seq<Segment<T>>, data: seq<seq<T>>, size: nat, sizeAlloc: nat) {
    && Full(data, Caps(segs)) && segs[0].list.Length > 0
    && size == |Flat(data)| && sizeAlloc == Total(Caps(segs))
  }

  lemma ShapeFirst<T>(s: Segment<T>)
    requires s.list.Length > 0
    ensures Shape([s], [[]], 0, s.list.Length)
  {
    var data: seq<seq<T>> := [[]];
    assert Front(data, 0) == [] && Sum(Caps([s]), 0) == 0;
  }

  /** A new segment behind a full one. */
  lemma ShapeNew<T>(segs: seq<Segment<T>>, data: seq<seq<T>>, s: Segment<T>, size: nat)
    requires Shape(segs, data, size, size)
    ensures size > 0 && Shape(segs + [s], data + [[]], size, size + s.list.Length)
  {
    SumFirst(Caps(segs), |segs|);
    FullTotal(data, Caps(segs));
    FlatNew(data);
    SumSame(Caps(segs + [s]), Caps(segs), |segs|);
  }

  /** A new element in the last segment. */
  lemma ShapeAppend<T>(segs: seq<Segment<T>>, data: seq<seq<T>>, x: T, size: nat, sizeAlloc: nat)
    requires Shape(segs, data, size, sizeAlloc) && size < sizeAlloc
    ensures |data[|data| - 1]| < segs[|data| - 1].list.Length
    ensures Shape(segs, data[|data| - 1 := data[|data| - 1] + [x]], size + 1, sizeAlloc)
  {
    FullTotal(data, Caps(segs));
    FlatAppend(data, x);
  }

  /** The restore of a mark. */
  lemma ShapeCut<T>(segs: seq<Segment<T>>, data: seq<seq<T>>, size: nat, sizeAlloc: nat, m: Mark<T>, p: nat)
    requires Shape(segs, data, size, sizeAlloc) && MarkOk(segs, data, m, p)
    ensures Shape(segs[..p + 1], Cut(data, p, m.tailSize), m.size, m.sizeAlloc)
  {
    FlatCut(data, p, m.tailSize);
    SumSame(Caps(segs[..p + 1]), Caps(segs), p + 1);
  }

  /** Marks survive the restore of a later mark. */
  lemma MarkCut<T>(segs: seq<Segment<T>>, data: seq<seq<T>>, m: Mark<T>, p: nat, m': Mark<T>, p': nat)
    requires MarkOk(segs, data, m, p) && MarkOk(segs, data, m', p') && p <= p' && m.size < m'.size
    ensures MarkOk(segs[..p' + 1], Cut(data, p', m'.tailSize), m, p)
  {
    FrontSame(Cut(data, p', m'.tailSize), data, p);
    SumSame(Caps(segs[..p' + 1]), Caps(segs), p + 1);
  }

  lemma MarksCut<T>(segs: seq<Segment<T>>, data: seq<seq<T>>, saved: seq<Saved<Mark<T>>>, place: seq<nat>)
    requires Marks(segs, data, saved, place) && saved != []
    requires MarkOk(segs, data, saved[|saved| - 1].copy, place[|saved| - 1])
    ensures var n := |saved| - 1;
            Marks(segs[..place[n] + 1], Cut(data, place[n], saved[n].copy.tailSize), saved[..n], place[..n])
  {
    var n := |saved| - 1;
    var segs', data' := segs[..place[n] + 1], Cut(data, place[n], saved[n].copy.tailSize);
    forall k | 0 <= k < n ensures MarkOk(segs', data', saved[k].copy, place[k])
      && Older(segs', place[k], saved[k].level) {
      MarkCut(segs, data, saved[k].copy, place[k], saved[n].copy, place[n]);
      assert Older(segs, place[k], saved[k].level);
    }
  }

  /** One element more, in the last segment or in a new one of level `top`. */
  ghost predicate Extends<T>(segs: seq<Segment<T>>, data: seq<seq<T>>, segs': seq<Segment<T>>, data': seq<seq<T>>,
    x: T, top: nat) {
    && |data| == |segs| > 0
    && ( || (segs' == segs && data' == data[|data| - 1 := data[|data| - 1] + [x]])
         || (|segs'| == |segs| + 1 && segs'[..|segs|] == segs && segs'[|segs|].level == top && data' == data + [[x]]))
  }

  lemma ExtendsFacts<T>(segs: seq<Segment<T>>, data: seq<seq<T>>, segs': seq<Segment<T>>, data': seq<seq<T>>, x: T,
    top: nat)
    requires Extends(segs, data, segs', data', x, top)
    ensures segs <= segs' && |data'| == |segs'| && Flat(data') == Flat(data) + [x]
    ensures forall i :: 0 <= i < |data| ==> data[i] <= data'[i] && (i < |data| - 1 ==> data[i] == data'[i])
    ensures forall i :: |data| <= i < |data'| ==> data'[i] != []
    ensures Older(segs, |segs|, top) ==> Older(segs', |segs'|, top)
  {
    if segs' == segs {
      FlatAppend(data, x);
    } else {
      FrontSame(data', data, |data|);
    }
  }

  // ---------- the chain of segments ----------

  ghost predicate Linked<T>(segs: seq<Segment<T>>, i: nat)
    requires i < |segs|
    reads segs`next
  {
    segs[i].next == if i + 1 < |segs| then segs[i + 1] else null
  }

  ghost predicate Apart<T>(s: Segment<T>, t: Segment<T>) {
    s.list != t.list
  }

  ghost predicate Chain<T>(segs: seq<Segment<T>>)
    reads segs`next
  {
    && segs != []
    && (forall i, j {:trigger Apart(segs[i], segs[j])} :: 0 <= i < j < |segs| ==> Apart(segs[i], segs[j]))
    && (forall i {:trigger Linked(segs, i)} :: 0 <= i < |segs| ==> Linked(segs, i))
  }

  ghost predicate Holds<T>(s: Segment<T>, d: seq<T>)
    reads s`size, s.list
  {
    s.size == |d| <= s.list.Length && s.list[..s.size] == d
  }

  ghost function Buffers<T>(segs: seq<Segment<T>>): set<array<T>> {
    set s | s in segs :: s.list
  }

  ghost predicate Contents<T>(segs: seq<Segment<T>>, data: seq<seq<T>>)
    reads segs`size, Buffers(segs)
  {
    |data| == |segs| && forall i {:trigger Holds(segs[i], data[i])} :: 0 <= i < |segs| ==> Holds(segs[i], data[i])
  }

  /** Add a segment behind the tail. */
  method LinkTo<T>(tail: Segment<T>, s: Segment<T>, ghost segs: seq<Segment<T>>, ghost data: seq<seq<T>>)
    requires Chain(segs) && Contents(segs, data) && tail == segs[|segs| - 1]
    requires s !in segs && s.list !in Buffers(segs) && s.next == null && s.size == 0
    modifies tail`next
    ensures Chain(segs + [s]) && Contents(segs + [s], data + [[]])
  {
    tail.next := s;
    ghost var segs' := segs + [s];
    forall i, j | 0 <= i < j < |segs'| ensures Apart(segs'[i], segs'[j]) {
      assert j < |segs| ==> Apart(segs[i], segs[j]);
      assert segs[i].list in Buffers(segs);
    }
    forall i | 0 <= i < |segs| + 1 ensures Linked(segs', i) {
      assert i < |segs| ==> old(Linked(segs, i));
      assert i < |segs| - 1 ==> Apart(segs[i], segs[|segs| - 1]);
    }
    forall i | 0 <= i < |segs| + 1 ensures Holds((segs + [s])[i], (data + [[]])[i]) {
      assert i < |segs| ==> old(Holds(segs[i], data[i]));
    }
  }

  /** Allocate a segment and add it behind the tail. */
  method NewSegment<T(0)>(tail: Segment<T>, capacity: nat, level: nat, region: nat, ghost segs: seq<Segment<T>>,
    ghost data: seq<seq<T>>)
    returns (s: Segment<T>)
    requires Chain(segs) && Contents(segs, data) && tail == segs[|segs| - 1]
    modifies tail`next
    ensures fresh(s) && fresh(s.list) && s.list.Length == capacity && s.level == level && s.region == region
    ensures Chain(segs + [s]) && Contents(segs + [s], data + [[]])
  {
    var list := new T[capacity];
    s := new Segment(list, level, region);
    LinkTo(tail, s, segs, data);
  }

  /** Store an element at the end of the tail. */
  method Construct<T>(tail: Segment<T>, x: T, ghost segs: seq<Segment<T>>, ghost data: seq<seq<T>>)
    requires Chain(segs) && Contents(segs, data) && tail == segs[|segs| - 1] && tail.size < tail.list.Length
    modifies tail`size, tail.list
    ensures Chain(segs) && Contents(segs, data[|data| - 1 := data[|data| - 1] + [x]])
  {
    ghost var n := |segs| - 1;
    ghost var data' := data[n := data[n] + [x]];
    assert Holds(segs[n], data[n]);
    tail.list[tail.size] := x;
    tail.size := tail.size + 1;
    forall i | 0 <= i < |segs| ensures Holds(segs[i], data'[i]) {
      assert i < n ==> old(Holds(segs[i], data[i])) && Apart(segs[i], segs[n]);
    }
  }

  /** Make segment p the tail, with its first t elements. */
  method CutLink<T>(tail: Segment<T>, t: nat, ghost segs: seq<Segment<T>>, ghost data: seq<seq<T>>, ghost p: nat)
    requires Chain(segs) && Contents(segs, data) && p < |segs| && tail == segs[p] && t <= |data[p]|
    modifies tail`size, tail`next
    ensures tail.size == t && Chain(segs[..p + 1]) && Contents(segs[..p + 1], Cut(data, p, t))
  {
    assert Holds(segs[p], data[p]);
    tail.size := t;
    tail.next := null;
    ghost var segs' := segs[..p + 1];
    forall i, j | 0 <= i < j <= p ensures Apart(segs'[i], segs'[j]) {
      assert Apart(segs[i], segs[j]);
    }
    forall i | 0 <= i <= p ensures Linked(segs', i) && Holds(segs'[i], Cut(data, p, t)[i]) {
      assert old(Linked(segs, i)) && old(Holds(segs[i], data[i]));
      assert i < p ==> Apart(segs[i], segs[p]);
    }
  }

  /** The segment and the position in it of element i. */
  method Locate<T>(head: Segment<T>, i: nat, ghost segs: seq<Segment<T>>, ghost data: seq<seq<T>>)
    returns (seg: Segment<T>, j: nat, ghost p: nat)
    requires Chain(segs) && Contents(segs, data) && head == segs[0] && i < |Flat(data)|
    ensures p < |segs| && seg == segs[p] && j < |data[p]| && i == |Front(data, p)| + j
    ensures data[p][j] == Flat(data)[i]
    ensures j < seg.list.Length && seg.list[j] == Flat(data)[i]
  {
    seg, j, p := head, i, 0;
    while j >= seg.size
      invariant p < |segs| && seg == segs[p] && i == |Front(data, p)| + j
      decreases |segs| - p
    {
      assert Holds(segs[p], data[p]) && Linked(segs, p);
      NotLast(data, p, i);
      j := j - seg.size;
      seg := seg.next;
      p := p + 1;
    }
    assert Holds(segs[p], data[p]);
    FlatAt(data, p, j);
  }

  // ---------- the list ----------

  /** What a saved copy stands for: a prefix of the elements. */
  ghost function PrefixOf<T>(elems: seq<T>): Mark<T> -> seq<T> {
    (m: Mark<T>) => if m.size <= |elems| then elems[..m.size] else elems
  }

  lemma PrefixView<T>(elems: seq<T>, x: T, t: Track<Mark<T>>, live: Mark<T>, live': Mark<T>, top: nat)
    requires t.Valid() && t.level <= top && live.size == |elems| && live'.size == |elems| + 1
    requires forall k :: 0 <= k < |t.saved| ==> t.saved[k].copy.size < |elems|
    ensures View(PrefixOf(elems + [x]), t.MakeCurrent(top, live), live', top) ==
            View(PrefixOf(elems), t, live, top)[top := elems + [x]]
  {
    forall m: Mark<T> | m.size <= |elems| ensures PrefixOf(elems + [x])(m) == PrefixOf(elems)(m) {
      assert (elems + [x])[..m.size] == elems[..m.size];
    }
    assert (elems + [x])[..live'.size] == elems + [x];
    WriteView(PrefixOf(elems), PrefixOf(elems + [x]), t, live, live', top);
  }

  lemma CutView<T>(elems: seq<T>, t: Track<Mark<T>>, live: Mark<T>, top: nat)
    requires t.Valid() && t.level == top > 0 && forall k :: 0 <= k < |t.saved| ==> t.saved[k].copy.size <= |elems|
    requires forall k, l :: 0 <= k < l < |t.saved| ==> t.saved[k].copy.size < t.saved[l].copy.size
    ensures var save := t.saved[|t.saved| - 1].copy;
            && t.Restored().Valid() && t.Restored().level < top
            && View(PrefixOf(elems[..save.size]), t.Restored(), save, top - 1) ==
               View(PrefixOf(elems), t, live, top)[..top]
  {
    var n := t.saved[|t.saved| - 1].copy.size;
    forall m: Mark<T> | m.size <= n ensures PrefixOf(elems[..n])(m) == PrefixOf(elems)(m) {
      assert elems[..n][..m.size] == elems[..m.size];
    }
    PopView(PrefixOf(elems), PrefixOf(elems[..n]), t, live, top);
  }

  /** The saved copies are older marks of the list; segments other than the first are not empty. */
  ghost predicate Consistent<T>(segs: seq<Segment<T>>, data: seq<seq<T>>, t: Track<Mark<T>>, place: seq<nat>,
    size: nat, top: nat) {
    && t.Valid() && t.level <= top
    && Marks(segs, data, t.saved, place)
    && Older(segs, |segs|, t.level)
    && (forall i :: 0 < i < |data| ==> data[i] != [])
    && (forall k :: 0 <= k < |t.saved| ==> t.saved[k].copy.size < size)
  }

  /** A restore keeps all this for the level below. */
  lemma ConsistentCut<T>(segs: seq<Segment<T>>, data: seq<seq<T>>, t: Track<Mark<T>>, place: seq<nat>, live: Mark<T>,
    top: nat)
    requires Consistent(segs, data, t, place, live.size, top) && t.level == top > 0 && live.size == |Flat(data)|
    ensures var n := |t.saved| - 1; var save, p := t.saved[n].copy, place[n];
            && MarkOk(segs, data, save, p) && save.size < live.size
            && Consistent(segs[..p + 1], Cut(data, p, save.tailSize), t.Restored(), place[..n], save.size, top - 1)
            && Flat(Cut(data, p, save.tailSize)) == Flat(data)[..save.size]
            && View(PrefixOf(Flat(data)[..save.size]), t.Restored(), save, top - 1) ==
               View(PrefixOf(Flat(data)), t, live, top)[..top]
  {
    var n := |t.saved| - 1;
    var save, p := t.saved[n].copy, place[n];
    assert MarkOk(segs, data, save, p) && Older(segs, p, t.saved[n].level);
    MarksCut(segs, data, t.saved, place);
    FlatCut(data, p, save.tailSize);
    CutView(Flat(data), t, live, top);
  }

  /** What the restore that a pop performs leaves behind. */
  lemma CutState<T>(segs: seq<Segment<T>>, data: seq<seq<T>>, t: Track<Mark<T>>, place: seq<nat>, live: Mark<T>,
    mem: Memory, top: nat,
                    segs': seq<Segment<T>>, data': seq<seq<T>>, t': Track<Mark<T>>, place': seq<nat>, save: Mark<T>,
                      mem': Memory)
    requires Consistent(segs, data, t, place, live.size, top) && t.level == top > 0 && live.size == |Flat(data)|
    requires Placed(segs, t, mem, top)
    requires var n := |t.saved| - 1;
             && save == t.saved[n].copy && place' == place[..n] && MarkOk(segs, data, save, place[n])
             && segs' == segs[..place[n] + 1] && data' == Cut(data, place[n], save.tailSize)
             && t' == t.Restored() && mem' == mem.Popped()
    ensures Consistent(segs', data', t', place', save.size, top - 1) && Placed(segs', t', mem', top - 1)
    ensures Flat(data') == Flat(data)[..save.size]
    ensures View(PrefixOf(Flat(data')), t', save, top - 1) == View(PrefixOf(Flat(data)), t, live, top)[..top]
  {
    var n := |t.saved| - 1;
    ConsistentCut(segs, data, t, place, live, top);
    assert MarkOk(segs, data, save, place[n]) && Older(segs, place[n], t.saved[n].level);
    PlacedPop(segs, t, mem, top, t', place[n]);
  }

  class CDChunkList<T(0)> {
    const headSegment: Segment<T>
    var tailSegment: Segment<T>
    const callDestructor: bool
    var size: nat
    var totalSizeAlloc: nat
    /** The largest request that the allocator of context memory serves. */
    const maxSize: nat
    /** The elements on which the destructor was called. */
    var destroyed: seq<T>
    /** The level of the context and this object's place in it. */
    var top: nat
    var track: Track<Mark<T>>
    var mem: Memory
    ghost var segs: seq<Segment<T>>
    ghost var data: seq<seq<T>>
    /** The number of the segment to which each saved copy points. */
    ghost var place: seq<nat>

    ghost function Live(): Mark<T>
      reads this, tailSegment`size
    {
      Mark(tailSegment, tailSegment.size, size, totalSizeAlloc)
    }

    /** The segments: linked in order, full but for the tail, with the two totals. */
    ghost predicate Core()
      reads this`segs, this`data, this`tailSegment, this`size, this`totalSizeAlloc, segs, Buffers(segs)
    {
      && Chain(segs) && Contents(segs, data) && Shape(segs, data, size, totalSizeAlloc)
      && segs[0] == headSegment && segs[|segs| - 1] == tailSegment && maxSize > 0
    }

    ghost predicate Valid()
      reads this, segs, Buffers(segs)
    {
      Core() && Consistent(segs, data, track, place, size, top) && Placed(segs, track, mem, top)
    }

    /** The list at every level of the context. */
    ghost function Stack(): (r: seq<seq<T>>)
      requires segs != []
      reads this, tailSegment`size
      ensures |r| == top + 1
    {
      View(PrefixOf(Flat(data)), track, Live(), top)
    }

    constructor (callDestructor: bool, maxSize: nat, level: nat)
      requires maxSize > 0
      ensures Valid() && top == mem.created == level && mem.NeverBelow() && Stack() == seq(level + 1, _ => [])
      ensures headSegment.level == headSegment.region == level
      ensures fresh(headSegment) && fresh(headSegment.list) && segs == [headSegment] && destroyed == []
    {
      var newSize := if INITIAL_SEGMENT_SIZE > maxSize then maxSize else INITIAL_SEGMENT_SIZE;
      var list := new T[newSize];
      var head := new Segment(list, level, level);
      headSegment, tailSegment := head, head;
      this.callDestructor, this.maxSize := callDestructor, maxSize;
      size, totalSizeAlloc, destroyed := 0, newSize, [];
      top, track, mem := level, Track(0, []), Memory(seq(level + 1, i => i), level + 1, level, level);
      segs, data, place := [head], [[]], [];
      new;
      assert Linked(segs, 0) && Holds(segs[0], data[0]);
      ShapeFirst(head);
      assert Flat(data) == [];
    }

    lemma TopIsFlat()
      requires Valid()
      ensures Stack()[top] == Flat(data)
    {
      PushView(PrefixOf(Flat(data)), track, Live(), top);
    }

    /** The first segment lies in the region of the level of creation, and every other in that of its own level. */
    lemma NoDangling()
      requires Valid()
      ensures AllLive(segs, mem) <==> mem.NeverBelow()
    {
      PlacedLive(segs, track, mem, top);
    }

    method ContextPush()
      requires Valid()
      modifies this`top, this`mem
      ensures Valid() && top == old(top) + 1 && Stack() == old(Stack()) + [old(Stack()[top])]
      ensures mem == old(mem).Pushed()
    {
      PushView(PrefixOf(Flat(data)), track, Live(), top);
      PlacedPush(segs, track, mem, top);
      top, mem := top + 1, mem.Pushed();
    }

    method MakeCurrent()
      requires Valid()
      modifies this`track, this`place
      ensures Core() && track == old(track).MakeCurrent(top, Live()) && track.Valid()
      ensures Marks(segs, data, track.saved, place) && Older(segs, |segs|, top)
      ensures forall k :: 0 <= k < |track.saved| ==> track.saved[k].copy.size <= size
    {
      if track.level != top {
        ghost var place' := place + [|segs| - 1];
        assert Marks(segs, data, track.saved + [Saved(track.level, Live())], place') by {
          MarkLive();
          MarksSave(segs, data, track.saved, place, Live(), track.level);
        }
        assert track.MakeCurrent(top, Live()).Valid() by {
          WriteLevels(track, Live(), Live(), top);
        }
        track := track.MakeCurrent(top, Mark(tailSegment, tailSegment.size, size, totalSizeAlloc));
        place := place';
      }
    }

    /** The list as it is now, as a mark. */
    lemma MarkLive()
      requires Valid()
      ensures MarkOk(segs, data, Live(), |segs| - 1)
    {
      var n := |segs| - 1;
      assert Holds(segs[n], data[n]);
    }

    /** Allocate a new segment with more space. */
    method Grow()
      requires Core() && size == totalSizeAlloc && top < |mem.regions|
      modifies this`tailSegment, this`totalSizeAlloc, this`segs, this`data, tailSegment`next
      ensures Core() && size < totalSizeAlloc && data == old(data) + [[]]
      ensures fresh(tailSegment) && fresh(tailSegment.list) && tailSegment.level == top
              && segs == old(segs) + [tailSegment]
      ensures tailSegment.region == mem.regions[top]
      ensures tailSegment.list.Length == if 2 * old(totalSizeAlloc) > maxSize then maxSize else 2 * old(totalSizeAlloc)
      ensures totalSizeAlloc == old(totalSizeAlloc) + tailSegment.list.Length
    {
      ShapeNew(segs, data, tailSegment, size);
      var newSize := INCREMENTAL_GROWTH_FACTOR * totalSizeAlloc;
      newSize := if newSize > maxSize then maxSize else newSize;
      var newSegment := NewSegment(tailSegment, newSize, top, mem.regions[top], segs, data);
      ShapeNew(segs, data, newSegment, size);
      tailSegment := newSegment;
      segs, data := segs + [newSegment], data + [[]];
      totalSizeAlloc := totalSizeAlloc + newSize;
    }

    /** Construct the new element in the tail. */
    method Append(x: T)
      requires Core() && size < totalSizeAlloc
      modifies this`data, this`size, tailSegment`size, tailSegment.list
      ensures Core() && data == old(data)[|data| - 1 := old(data)[|data| - 1] + [x]] && size == old(size) + 1
    {
      ShapeAppend(segs, data, x, size, totalSizeAlloc);
      ghost var n := |segs| - 1;
      assert Holds(segs[n], data[n]);
      Construct(tailSegment, x, segs, data);
      data := data[n := data[n] + [x]];
      size := size + 1;
    }

    /** The new element goes to the tail, or to a new segment when the tail is full. */
    method Store(x: T)
      requires Core() && top < |mem.regions|
      modifies this`tailSegment, this`totalSizeAlloc, this`segs, this`data, this`size, tailSegment, tailSegment.list
      ensures Core() && Extends(old(segs), old(data), segs, data, x, top)
      ensures segs == old(segs) || (segs == old(segs) + [tailSegment] && fresh(tailSegment) && fresh(tailSegment.list))
      ensures segs != old(segs) ==> tailSegment.level == top && tailSegment.region == mem.regions[top]
    {
      if size == totalSizeAlloc {
        Grow();
        ghost var d := data;
        Append(x);
        assert data == d[|d| - 1 := [x]] == old(data) + [[x]] by {
          assert d[|d| - 1] + [x] == [x];
        }
      } else {
        FullTotal(data, Caps(segs));
        Append(x);
      }
    }

    method PushBack(x: T)
      requires Valid() && mem.NeverBelow()
      modifies this, tailSegment, tailSegment.list
      ensures Valid() && top == old(top) && mem == old(mem) && destroyed == old(destroyed)
      ensures Stack() == old(Stack())[top := old(Stack()[top]) + [x]]
      ensures segs == old(segs) || (segs == old(segs) + [tailSegment] && fresh(tailSegment) && fresh(tailSegment.list))
    {
      TopIsFlat();
      MakeCurrent();
      Store(x);
      PlacedWrite(old(segs), segs, old(track), old(Live()), mem, top);
      Pushed(x);
    }

    twostate lemma Pushed(x: T)
      requires old(Valid()) && Core() && top == old(top) && track == old(track).MakeCurrent(top, old(Live()))
      requires Marks(old(segs), old(data), track.saved, place) && track.Valid() && Older(old(segs), |old(segs)|, top)
      requires forall k :: 0 <= k < |track.saved| ==> track.saved[k].copy.size <= old(size)
      requires Extends(old(segs), old(data), segs, data, x, top) && Placed(segs, track, mem, top)
      ensures Valid() && Stack() == old(Stack())[top := old(Flat(data)) + [x]]
    {
      ExtendsFacts(old(segs), old(data), segs, data, x, top);
      MarksKept(old(segs), old(data), segs, data, track.saved, place);
      PrefixView(Flat(old(data)), x, old(track), old(Live()), Live(), top);
    }

    /** Call the destructor of the elements from position `from` on, each once and in order. */
    method DestroyFrom(from: nat)
      requires Core() && from < size
      modifies this`destroyed
      ensures destroyed == old(destroyed) + Flat(data)[from..]
    {
      var s, i: nat;
      ghost var p;
      s, i, p := Locate(headSegment, from, segs, data);
      FlatAt(data, p, i);
      var seg: Segment?<T> := s;
      ghost var all := destroyed + From(data, p, i);
      while seg != null
        invariant p <= |segs| && seg == (if p < |segs| then segs[p] else null)
        invariant p < |segs| ==> i <= |data[p]|
        invariant all == destroyed + From(data, p, i)
        decreases |segs| - p
      {
        i, seg := DestroyNext(seg, i, p, all);
        p := p + 1;
      }
    }

    /** One turn of the outer loop: the rest of a segment. */
    method DestroyNext(seg: Segment<T>, i: nat, ghost p: nat, ghost all: seq<T>) returns (i': nat, seg': Segment?<T>)
      requires Core() && p < |segs| && seg == segs[p] && i <= |data[p]| && all == destroyed + From(data, p, i)
      modifies this`destroyed
      ensures i' == 0 && seg' == (if p + 1 < |segs| then segs[p + 1] else null)
      ensures all == destroyed + From(data, p + 1, 0)
    {
      assert Holds(segs[p], data[p]) && Linked(segs, p);
      FromSegment(data, p, i);
      Associative(destroyed, data[p][i..], From(data, p + 1, 0));
      DestroySegment(seg, i, data[p]);
      i', seg' := 0, seg.next;
    }

    method DestroySegment(seg: Segment<T>, from: nat, ghost d: seq<T>)
      requires Holds(seg, d) && from <= |d|
      modifies this`destroyed
      ensures destroyed == old(destroyed) + d[from..]
    {
      var i := from;
      while i < seg.size
        invariant from <= i <= |d| && destroyed == old(destroyed) + d[from..i]
      {
        destroyed := destroyed + [seg.list[i]];
        i := i + 1;
      }
    }

    /** restore() */
    method RestoreFrom(save: Mark<T>, ghost p: nat)
      requires Core() && MarkOk(segs, data, save, p) && save.size < size
      modifies this`size, this`tailSegment, this`totalSizeAlloc, this`destroyed, this`segs, this`data, save.tail`size,
               save.tail`next
      ensures Core() && Live() == save && segs == old(segs)[..p + 1] && data == Cut(old(data), p, save.tailSize)
      ensures destroyed == old(destroyed) + if callDestructor then old(Flat(data))[save.size..] else []
    {
      if callDestructor {
        DestroyFrom(save.size);
      }
      ShapeCut(segs, data, size, totalSizeAlloc, save, p);
      CutBack(save, p);
    }

    method CutBack(save: Mark<T>, ghost p: nat)
      requires Core() && MarkOk(segs, data, save, p)
      requires Shape(segs[..p + 1], Cut(data, p, save.tailSize), save.size, save.sizeAlloc)
      modifies this`size, this`tailSegment, this`totalSizeAlloc, this`segs, this`data, save.tail`size, save.tail`next
      ensures Core() && Live() == save && segs == old(segs)[..p + 1] && data == Cut(old(data), p, save.tailSize)
    {
      ghost var segs0, data0 := segs, data;
      segs, data := segs0[..p + 1], Cut(data0, p, save.tailSize);
      size := save.size;
      tailSegment := save.tail;
      totalSizeAlloc := save.sizeAlloc;
      CutLink(save.tail, save.tailSize, segs0, data0, p);
    }

    /** The newest save, the level and its memory go. */
    method DropLevel()
      requires Core() && track.saved != [] && |place| == |track.saved| && top > 0 && |mem.regions| > 1
      modifies this`track, this`place, this`top, this`mem
      ensures Core() && track == old(track).Restored() && place == old(place)[..|old(place)| - 1]
      ensures top == old(top) - 1 && mem == old(mem).Popped()
    {
      track, place, top, mem := track.Restored(), place[..|place| - 1], top - 1, mem.Popped();
    }

    /** The context is popped: the list goes back to its elements at the push, and the others are destroyed. */
    method ContextPop()
      requires Valid() && top > 0
      modifies this, segs`size, segs`next
      ensures Valid() && top == old(top) - 1 && Stack() == old(Stack())[..top + 1] && segs <= old(segs)
      ensures mem == old(mem).Popped()
      ensures destroyed == old(destroyed) + if callDestructor then old(Flat(data))[|Stack()[top]|..] else []
    {
      if track.level == top {
        Undo();
        TopIsFlat();
      } else {
        Skip();
        TopIsFlat();
      }
    }

    /** A level in which nothing was appended. */
    method Skip()
      requires Valid() && track.level < top
      modifies this`top, this`mem
      ensures Valid() && top == old(top) - 1 && Stack() == old(Stack())[..top + 1] && mem == old(mem).Popped()
    {
      PopView(PrefixOf(Flat(data)), PrefixOf(Flat(data)), track, Live(), top);
      PlacedPop(segs, track, mem, top, track, |segs| - 1);
      assert segs[..|segs|] == segs;
      top, mem := top - 1, mem.Popped();
    }

    /** The memory of the level is released after the restore, so that the restore finds all segments. */
    method Undo()
      requires Valid() && track.level == top > 0 && mem.NeverBelow()
      modifies this, segs`size, segs`next
      ensures Valid() && top == old(top) - 1 && Stack() == old(Stack())[..top + 1] && segs <= old(segs)
      ensures mem == old(mem).Popped()
      ensures size < old(size) && destroyed == old(destroyed) + if callDestructor then old(Flat(data))[size..] else []
    {
      ConsistentCut(segs, data, track, place, Live(), top);
      ghost var p := place[|place| - 1];
      var save := track.saved[|track.saved| - 1].copy;
      RestoreAndDrop(save, p);
      CutState(old(segs), old(data), old(track), old(place), old(Live()), old(mem), old(top), segs, data, track,
        place, save, mem);
    }

    method RestoreAndDrop(save: Mark<T>, ghost p: nat)
      requires Core() && MarkOk(segs, data, save, p) && save.size < size
      requires track.saved != [] && |place| == |track.saved| && top > 0 && |mem.regions| > 1
      modifies this, segs`size, segs`next
      ensures Core() && Live() == save && segs == old(segs)[..p + 1] && data == Cut(old(data), p, save.tailSize)
      ensures destroyed == old(destroyed) + if callDestructor then old(Flat(data))[save.size..] else []
      ensures track == old(track).Restored() && place == old(place)[..|old(place)| - 1]
      ensures top == old(top) - 1 && mem == old(mem).Popped()
    {
      assert save.tail in segs;
      RestoreFrom(save, p);
      DropLevel();
    }

    method RunOne(step: Step<T>)
      requires Valid() && top + 1 + Change(step) > 0 && (step.Act? ==> mem.NeverBelow())
      modifies this, segs, Buffers(segs)
      ensures Valid() && Stack() == Apply(Snoc, old(Stack()), step) && top == old(top) + Change(step)
      ensures mem == old(mem.Moved(step))
      ensures forall s :: s in segs ==> s in old(segs) || (fresh(s) && fresh(s.list))
    {
      match step {
        case Push =>
          ContextPush();
          assert Stack() == Apply(Snoc, old(Stack()), step);
        case Pop =>
          ContextPop();
          assert Stack() == Apply(Snoc, old(Stack()), step);
        case Act(x) =>
          PushBack(x);
          assert Stack() == Apply(Snoc, old(Stack()), step);
      }
    }

    /**
     Any run of appends, pushes and pops, with no appends after a pop below the level of creation, acts
     as the same run on a stack of sequences.  Afterwards all segments are in memory that has not been
     released exactly if there was no such pop.
     */
    method Run(steps: seq<Step<T>>)
      requires Valid() && Legal(top + 1, steps) && AppendsAbove(mem.Room(top), steps)
      modifies this, segs, Buffers(segs)
      ensures Valid() && Stack() == After(Snoc, old(Stack()), steps)
      ensures AllLive(segs, mem) <==> Legal(old(mem.Room(top)), steps)
    {
      RunSteps(steps);
      NoDangling();
    }

    method RunSteps(steps: seq<Step<T>>)
      requires Valid() && Legal(top + 1, steps) && AppendsAbove(mem.Room(top), steps)
      modifies this, segs, Buffers(segs)
      ensures Valid() && Stack() == After(Snoc, old(Stack()), steps)
      ensures mem.NeverBelow() <==> Legal(old(mem.Room(top)), steps)
      decreases |steps|
    {
      if steps != [] {
        RoomStep(mem, top, steps);
        ghost var room := mem.Moved(steps[0]).Room(top + Change(steps[0]));
        RunOne(steps[0]);
        assert mem.Room(top) == room;
        assert forall s :: s in segs ==> s in old(segs) || (fresh(s) && fresh(s.list));
        RunSteps(steps[1..]);
      }
    }

    /** operator[] */
    method Get(i: nat) returns (x: T)
      requires Valid() && mem.NeverBelow() && i < size
      ensures i < |Stack()[top]| && x == Stack()[top][i]
    {
      TopIsFlat();
      var seg, j;
      ghost var p;
      seg, j, p := Locate(headSegment, i, segs, data);
      assert Holds(segs[p], data[p]);
      x := seg.list[j];
    }

    method Back() returns (x: T)
      requires Valid() && mem.NeverBelow() && size > 0
      ensures Stack()[top] != [] && x == Stack()[top][size - 1]
    {
      TopIsFlat();
      ghost var n := |segs| - 1;
      assert Holds(segs[n], data[n]) && Front(data, 0) == [];
      assert Flat(data) == Front(data, n) + data[n];
      x := tailSegment.list[tailSegment.size - 1];
    }

    /** From begin() to end(): the elements in order. */
    method Iterate() returns (r: seq<T>)
      requires Valid() && mem.NeverBelow()
      ensures r == Stack()[top]
    {
      TopIsFlat();
      r := [];
      assert Holds(segs[0], data[0]) && Linked(segs, 0);
      var segment: Segment?<T>, index: nat := Next(headSegment, -1);
      ghost var p := if data[0] == [] then 1 else 0;
      assert data[0] == [] ==> |segs| == 1 && UpTo(data, 1, 0) == Front(data, 0) + data[0] == [];
      assert UpTo(data, 0, 0) == [];
      while segment != null
        invariant p <= |segs| && segment == (if p < |segs| then segs[p] else null)
        invariant p < |segs| ==> index < |data[p]|
        invariant r == UpTo(data, p, index)
        decreases |segs| - p, if p < |segs| then |data[p]| - index else 0
      {
        assert Holds(segs[p], data[p]) && Linked(segs, p);
        UpToNext(data, p, index);
        r := r + [segment.list[index]];
        segment, index := Next(segment, index);
        p := if index == 0 then p + 1 else p;
      }
    }

    /** const_iterator::operator++ */
    static method Next(segment: Segment<T>, index: int) returns (segment': Segment?<T>, index': nat)
      requires index >= -1
      ensures index + 1 < segment.size ==> segment' == segment && index' == index + 1
      ensures index + 1 >= segment.size ==> segment' == segment.next && index' == 0
    {
      segment', index' := segment, index + 1;
      if index' >= segment.size {
        segment', index' := segment.next, 0;
      }
    }
  }
  /** A list created at level zero never loses its memory, whatever the run. */
  method RunFromZero<T(0)>(callDestructor: bool, maxSize: nat, steps: seq<Step<T>>) returns (list: CDChunkList<T>)
    requires maxSize > 0 && Legal(1, steps)
    ensures list.Valid() && AllLive(list.segs, list.mem) && list.Stack() == After(Snoc, [[]], steps)
  {
    LegalAppends(1, steps);
    list := new CDChunkList(callDestructor, maxSize, 0);
    assert list.mem.Room(list.top) == 1 && list.top + 1 == 1;
    ghost var empty := list.Stack();
    assert empty == [[]];
    list.Run(steps);
  }

  lemma {:induction false} LegalAppends<W>(n: int, steps: seq<Step<W>>)
    requires Legal(n, steps)
    ensures AppendsAbove(n, steps)
    decreases |steps|
  {
    if steps != [] {
      LegalAppends(n + Change(steps[0]), steps[1..]);
    }
  }

  /**
   A list whose level of creation is popped and pushed again: the level is back, but its first segment is in
   released memory.
   */
  method PopAndPush<T(0)>(callDestructor: bool, maxSize: nat, level: nat) returns (list: CDChunkList<T>)
    requires maxSize > 0 && level > 0
    ensures list.Valid() && list.top == list.headSegment.level == level
    ensures list.headSegment in list.segs && list.headSegment.region !in list.mem.regions
  {
    list := new CDChunkList(callDestructor, maxSize, level);
    list.ContextPop();
    list.ContextPush();
  }
}
