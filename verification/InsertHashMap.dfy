/**
 CDInsertHashMap: an insert-only map whose keys form a deque
 (src/context/cdinsert_hashmap.h).  A pop drops keys from the back; keys that
 were inserted at level zero are pushed on the front, where no pop reaches them.
 */
module InsertHashMap {
  import opened Basics
  import opened SaveStack
  import opened StackRuns

  /** The deque and the hash map hold the same keys, each once. */
  ghost predicate Same<K, D>(keys: seq<K>, m: map<K, D>) {
    && (forall i {:trigger Mapped(keys, m, i)} :: 0 <= i < |keys| ==> Mapped(keys, m, i))
    && (forall k {:trigger Listed(keys, m, k)} :: k in m ==> Listed(keys, m, k))
    && (forall i, j :: 0 <= i < j < |keys| ==> keys[i] != keys[j])
  }

  ghost predicate Mapped<K, D>(keys: seq<K>, m: map<K, D>, i: nat)
    requires i < |keys|
  {
    keys[i] in m
  }

  ghost predicate Listed<K, D>(keys: seq<K>, m: map<K, D>, k: K)
    requires k in m
  {
    exists i :: 0 <= i < |keys| && keys[i] == k
  }

  /** The mappings in the order of the deque. */
  ghost function Pairs<K, D>(keys: seq<K>, m: map<K, D>): (r: seq<(K, D)>)
    requires Same(keys, m)
    ensures |r| == |keys| && forall i :: 0 <= i < |r| ==> r[i].0 == keys[i] && keys[i] in m && r[i].1 == m[keys[i]]
  {
    AllMapped(keys, m);
    seq(|keys|, i requires 0 <= i < |keys| && keys[i] in m => (keys[i], m[keys[i]]))
  }

  lemma AllMapped<K, D>(keys: seq<K>, m: map<K, D>)
    requires Same(keys, m)
    ensures forall i :: 0 <= i < |keys| ==> keys[i] in m
  {
    forall i | 0 <= i < |keys| ensures keys[i] in m { assert Mapped(keys, m, i); }
  }

  lemma SameFront<K, D>(keys: seq<K>, m: map<K, D>, k: K, d: D)
    requires Same(keys, m) && k !in m
    ensures Same([k] + keys, m[k := d]) && Pairs([k] + keys, m[k := d]) == [(k, d)] + Pairs(keys, m)
  {
    var keys', m' := [k] + keys, m[k := d];
    forall i | 0 <= i < |keys'| ensures Mapped(keys', m', i) && (i > 0 ==> keys'[i] != k) {
      assert i > 0 ==> Mapped(keys, m, i - 1);
    }
    forall x | x in m' ensures Listed(keys', m', x) {
      if x == k {
        assert keys'[0] == x;
      } else {
        assert Listed(keys, m, x);
        var i :| 0 <= i < |keys| && keys[i] == x;
        assert keys'[i + 1] == x;
      }
    }
  }

  lemma SameBack<K, D>(keys: seq<K>, m: map<K, D>, k: K, d: D)
    requires Same(keys, m) && k !in m
    ensures Same(keys + [k], m[k := d]) && Pairs(keys + [k], m[k := d]) == Pairs(keys, m) + [(k, d)]
  {
    var keys', m' := keys + [k], m[k := d];
    forall i | 0 <= i < |keys'| ensures Mapped(keys', m', i) && (i < |keys| ==> keys'[i] != k) {
      assert i < |keys| ==> Mapped(keys, m, i);
    }
    forall x | x in m' ensures Listed(keys', m', x) {
      if x == k {
        assert keys'[|keys|] == x;
      } else {
        assert Listed(keys, m, x);
        var i :| 0 <= i < |keys| && keys[i] == x;
        assert keys'[i] == x;
      }
    }
  }

  /** Removing the key at either end. */
  lemma SameRemove<K, D>(keys: seq<K>, m: map<K, D>, j: nat)
    requires Same(keys, m) && j < |keys| && (j == 0 || j == |keys| - 1)
    ensures keys[j] in m && Same(keys[..j] + keys[j + 1..], m - {keys[j]})
    ensures Pairs(keys[..j] + keys[j + 1..], m - {keys[j]}) == Pairs(keys, m)[..j] + Pairs(keys, m)[j + 1..]
  {
    assert Mapped(keys, m, j);
    var keys', m' := keys[..j] + keys[j + 1..], m - {keys[j]};
    forall i | 0 <= i < |keys'| ensures Mapped(keys', m', i) {
      assert Mapped(keys, m, if i < j then i else i + 1);
    }
    forall x | x in m' ensures Listed(keys', m', x) {
      assert Listed(keys, m, x);
      var i :| 0 <= i < |keys| && keys[i] == x;
      assert keys'[if i < j then i else i - 1] == x;
    }
  }

  lemma {:induction false} SameSize<K, D>(keys: seq<K>, m: map<K, D>)
    requires Same(keys, m)
    ensures |keys| == |m|
  {
    if keys == [] {
      assert forall k :: k in m ==> Listed(keys, m, k);
      assert m == map[];
    } else {
      var n := |keys| - 1;
      SameRemove(keys, m, n);
      assert keys[..n] + keys[n + 1..] == keys[..n];
      SameSize(keys[..n], m - {keys[n]});
      assert m.Keys == (m - {keys[n]}).Keys + {keys[n]};
    }
  }

  class InsertHashMap<K(==), D> {
    var keys: seq<K>
    var hashMap: map<K, D>

    ghost predicate Valid()
      reads this
    {
      Same(keys, hashMap)
    }

    ghost function Entries(): seq<(K, D)>
      requires Valid()
      reads this
    {
      Pairs(keys, hashMap)
    }

    constructor ()
      ensures Valid() && keys == []
    {
      keys, hashMap := [], map[];
    }

    method PushFront(k: K, d: D)
      requires Valid() && k !in hashMap
      modifies this
      ensures Valid() && Entries() == [(k, d)] + old(Entries())
    {
      SameFront(keys, hashMap, k, d);
      hashMap := hashMap[k := d];
      keys := [k] + keys;
    }

    method PushBack(k: K, d: D)
      requires Valid() && k !in hashMap
      modifies this
      ensures Valid() && Entries() == old(Entries()) + [(k, d)]
    {
      SameBack(keys, hashMap, k, d);
      hashMap := hashMap[k := d];
      keys := keys + [k];
    }

    method PopBack()
      requires Valid() && keys != []
      modifies this
      ensures Valid() && Entries() == old(Entries())[..|old(keys)| - 1]
    {
      var n := |keys| - 1;
      SameRemove(keys, hashMap, n);
      assert keys[..n] + keys[n + 1..] == keys[..n];
      hashMap := hashMap - {keys[n]};
      keys := keys[..n];
    }

    method PopToSize(s: nat)
      requires Valid() && s <= |keys|
      modifies this
      ensures Valid() && Entries() == old(Entries())[..s]
    {
      while |keys| > s
        invariant Valid() && s <= |keys| <= |old(keys)| && Entries() == old(Entries())[..|keys|]
      {
        PopBack();
      }
    }
  }

  // ---------- the context-dependent map ----------

  /** What a saved copy keeps. */
  datatype Sizes = Sizes(size: nat, pushFronts: nat)

  /** How many keys a saved copy stands for once `pushFronts` keys have been pushed on the front. */
  ghost function Reach(z: Sizes, pushFronts: nat): int {
    z.size + (pushFronts - z.pushFronts)
  }

  ghost function Take<T>(s: seq<T>, n: int): (r: seq<T>)
    ensures 0 <= n <= |s| ==> r == s[..n]
  {
    if 0 <= n <= |s| then s[..n] else s
  }

  /** A saved copy stands for its own keys and all that were pushed on the front since. */
  ghost function MapOf<K, D>(entries: seq<(K, D)>, pushFronts: nat): Sizes -> seq<(K, D)> {
    (z: Sizes) => Take(entries, Reach(z, pushFronts))
  }

  ghost predicate Nested(t: Track<Sizes>, live: Sizes) {
    && (forall i :: 0 <= i < |t.saved| ==>
          t.saved[i].copy.pushFronts <= live.pushFronts && Reach(t.saved[i].copy, live.pushFronts) <= live.size)
    && (forall i, j :: 0 <= i < j < |t.saved| ==>
          Reach(t.saved[i].copy, live.pushFronts) <= Reach(t.saved[j].copy, live.pushFronts))
  }

  datatype Op<K, D> = InsertSafe(key: K, data: D) | InsertAtLevelZero(key: K, data: D)

  ghost function Local<K, D>(m: seq<(K, D)>, op: Op<K, D>): seq<(K, D)> {
    if op.InsertSafe? && !Has(m, op.key) then m + [(op.key, op.data)] else m
  }

  ghost function AtLevelZero<K, D>(m: seq<(K, D)>, op: Op<K, D>): seq<(K, D)> {
    [(op.key, op.data)] + m
  }

  /** Level-zero insertions add the same keys in front of any map. */
  lemma {:induction false} FoldFront<K, D>(m: seq<(K, D)>, ops: seq<Op<K, D>>)
    ensures Fold(AtLevelZero, m, ops) == Fold(AtLevelZero, [], ops) + m
    decreases |ops|
  {
    if ops != [] {
      var one := AtLevelZero([], ops[0]);
      FoldFront(AtLevelZero(m, ops[0]), ops[1..]);
      FoldFront(one, ops[1..]);
      assert AtLevelZero(m, ops[0]) == one + m;
      assert Fold(AtLevelZero, [], ops[1..]) + (one + m) == (Fold(AtLevelZero, [], ops[1..]) + one) + m;
    }
  }

  ghost predicate Accepted<K, D>(m: seq<(K, D)>, op: Op<K, D>) {
    op.InsertAtLevelZero? && !Has(m, op.key)
  }

  ghost function MapEffects<K, D>(): Effects<seq<(K, D)>, Op<K, D>> {
    Effects(Local, AtLevelZero, Accepted)
  }

  lemma PushRunPopMaps<K, D>(stack: seq<seq<(K, D)>>, steps: seq<Step<Op<K, D>>>)
    requires stack != [] && Legal(1, steps) && Depth(1, steps) == 1
    ensures var pushed := stack + [stack[|stack| - 1]];
            && Legal(|pushed|, steps) && Depth(|pushed|, steps) == |pushed|
            && var added := Fold(AtLevelZero, [], Escaped(MapEffects(), pushed, steps));
               forall i :: 0 <= i < |stack| ==> AfterAll(MapEffects(), pushed, steps)[..|stack|][i] == added + stack[i]
  {
    PushRunPopAll(MapEffects(), stack, steps);
    var ops := Escaped(MapEffects(), stack + [stack[|stack| - 1]], steps);
    forall i | 0 <= i < |stack| ensures Fold(AtLevelZero, stack[i], ops) == Fold(AtLevelZero, [], ops) + stack[i] {
      FoldFront(stack[i], ops);
    }
  }

  /** An insertion at the back changes the top level only. */
  lemma ViewBack<K, D>(entries: seq<(K, D)>, e: (K, D), t: Track<Sizes>, live: Sizes, top: nat)
    requires t.Valid() && t.level <= top && Nested(t, live) && live.size == |entries|
    ensures var t' := t.MakeCurrent(top, live); var live' := live.(size := live.size + 1);
            && t'.Valid() && t'.level <= top && Nested(t', live')
            && View(MapOf(entries + [e], live.pushFronts), t', live', top) ==
               View(MapOf(entries, live.pushFronts), t, live, top)[top := entries + [e]]
  {
    var f, f' := MapOf(entries, live.pushFronts), MapOf(entries + [e], live.pushFronts);
    var live' := live.(size := live.size + 1);
    forall z: Sizes | 0 <= Reach(z, live.pushFronts) <= |entries| ensures f'(z) == f(z) {
      var n := Reach(z, live.pushFronts);
      assert (entries + [e])[..n] == entries[..n];
    }
    assert f'(live') == entries + [e] by {
      assert (entries + [e])[..|entries| + 1] == entries + [e];
    }
    WriteView(f, f', t, live, live', top);
  }

  lemma NestedFront(t: Track<Sizes>, live: Sizes, top: nat)
    requires t.Valid() && t.level <= top && Nested(t, live)
    ensures var t' := t.MakeCurrent(top, live);
            t'.Valid() && t'.level <= top && Nested(t', Sizes(live.size + 1, live.pushFronts + 1))
  {
    WriteLevels(t, live, live, top);
  }

  /** One key more on the front is one key more for every copy. */
  lemma MapOfFront<K, D>(entries: seq<(K, D)>, op: Op<K, D>, pushFronts: nat, z: Sizes)
    requires 0 <= Reach(z, pushFronts) <= |entries|
    ensures MapOf(AtLevelZero(entries, op), pushFronts + 1)(z) == AtLevelZero(MapOf(entries, pushFronts)(z), op)
  {
    var n := Reach(z, pushFronts);
    assert AtLevelZero(entries, op)[..n + 1] == AtLevelZero(entries[..n], op);
  }

  /** An insertion at the front changes every level. */
  lemma ViewFront<K, D>(entries: seq<(K, D)>, entries': seq<(K, D)>, op: Op<K, D>,
                        t: Track<Sizes>, t': Track<Sizes>, live: Sizes, live': Sizes, top: nat)
    requires t.Valid() && t.level <= top && Nested(t, live) && live.size == |entries|
    requires entries' == AtLevelZero(entries, op) && t' == t.MakeCurrent(top, live)
    requires live' == Sizes(live.size + 1, live.pushFronts + 1)
    ensures View(MapOf(entries', live'.pushFronts), t', live', top) ==
            Everywhere(AtLevelZero, View(MapOf(entries, live.pushFronts), t, live, top), op)
  {
    var pf := live.pushFronts;
    var f, f' := MapOf(entries, pf), MapOf(entries', pf + 1);
    forall k | 0 <= k < |t.saved| ensures f'(t.saved[k].copy) == AtLevelZero(f(t.saved[k].copy), op) {
      MapOfFront(entries, op, pf, t.saved[k].copy);
    }
    MapOfFront(entries, op, pf, live);
    assert Reach(live', pf + 1) == Reach(live, pf + 1);
    assert f'(live') == f'(live) == AtLevelZero(f(live), op);
    EverywhereView(f, f', AtLevelZero, op, t, live, live', top);
  }

  /** A restore keeps what the newest saved copy stands for. */
  lemma ViewCut<K, D>(entries: seq<(K, D)>, t: Track<Sizes>, live: Sizes, top: nat)
    requires t.Valid() && t.level == top > 0 && Nested(t, live) && live.size == |entries|
    ensures var pf := live.pushFronts; var n := Reach(t.saved[|t.saved| - 1].copy, pf);
            && 0 <= n <= |entries| && t.Restored().Valid() && t.Restored().level < top
               && Nested(t.Restored(), Sizes(n, pf))
            && View(MapOf(entries[..n], pf), t.Restored(), Sizes(n, pf), top - 1) ==
               View(MapOf(entries, pf), t, live, top)[..top]
  {
    var pf, data := live.pushFronts, t.saved[|t.saved| - 1].copy;
    var n := Reach(data, pf);
    var f, f' := MapOf(entries, pf), MapOf(entries[..n], pf);
    forall z: Sizes | 0 <= Reach(z, pf) <= n ensures f'(z) == f(z) {
      assert entries[..n][..Reach(z, pf)] == entries[..Reach(z, pf)];
    }
    PopView(f, f', t, live, top);
    ViewSame(f', t.Restored(), data, Sizes(n, pf), top - 1);
  }

  class CDInsertHashMap<K(==), D> {
    const insertMap: InsertHashMap<K, D>
    var size: nat
    var pushFronts: nat
    /** The level of the context and this object's place in it. */
    var top: nat
    var track: Track<Sizes>

    ghost function Live(): Sizes
      reads this
    {
      Sizes(size, pushFronts)
    }

    ghost predicate Valid()
      reads this, insertMap
    {
      && insertMap.Valid() && size == |insertMap.keys|
      && track.Valid() && track.level <= top && Nested(track, Live())
    }

    /** The mappings of every level of the context, in the order of the deque. */
    ghost function Stack(): (r: seq<seq<(K, D)>>)
      requires insertMap.Valid()
      reads this, insertMap
      ensures |r| == top + 1
    {
      View(MapOf(insertMap.Entries(), pushFronts), track, Live(), top)
    }

    lemma TopIsAll()
      requires Valid()
      ensures Stack()[top] == insertMap.Entries()
    {
      PushView(MapOf(insertMap.Entries(), pushFronts), track, Live(), top);
    }

    lemma TopHas(k: K)
      requires Valid()
      ensures k in insertMap.hashMap <==> Has(Stack()[top], k)
    {
      TopIsAll();
      if k in insertMap.hashMap {
        assert Listed(insertMap.keys, insertMap.hashMap, k);
        var i :| 0 <= i < |insertMap.keys| && insertMap.keys[i] == k;
        assert Stack()[top][i].0 == k;
      }
    }

    constructor ()
      ensures Valid() && fresh(insertMap) && top == 0 && Stack() == [[]]
    {
      insertMap := new InsertHashMap<K, D>();
      size, pushFronts, top, track := 0, 0, 0, Track(0, []);
      new;
      EmptyStack();
    }

    lemma EmptyStack()
      requires Valid() && size == 0 && top == 0
      ensures Stack() == [[]]
    {
      TopIsAll();
    }

    method MakeCurrent()
      modifies this`track
      ensures track == old(track).MakeCurrent(top, Live())
    {
      track := track.MakeCurrent(top, Sizes(size, pushFronts));
    }

    method Insert(k: K, d: D)
      requires Valid() && !Has(Stack()[top], k)
      modifies this, insertMap
      ensures Valid() && top == old(top) && Stack() == old(Stack())[top := old(Stack()[top]) + [(k, d)]]
    {
      TopHas(k);
      TopIsAll();
      ViewBack(insertMap.Entries(), (k, d), track, Live(), top);
      MakeCurrent();
      size := size + 1;
      insertMap.PushBack(k, d);
    }

    method InsertSafe(k: K, d: D) returns (inserted: bool)
      requires Valid()
      modifies this, insertMap
      ensures Valid() && top == old(top) && inserted == !Has(old(Stack()[top]), k)
      ensures Stack() == if inserted then old(Stack())[top := old(Stack()[top]) + [(k, d)]] else old(Stack())
    {
      var has := Contains(k);
      if has {
        inserted := false;
      } else {
        Insert(k, d);
        inserted := true;
      }
    }

    method InsertAtContextLevelZero(k: K, d: D)
      requires Valid() && !Has(Stack()[top], k)
      modifies this, insertMap
      ensures Valid() && top == old(top)
      ensures Stack() == Everywhere(AtLevelZero, old(Stack()), Op.InsertAtLevelZero(k, d))
    {
      TopHas(k);
      NestedFront(track, Live(), top);
      MakeCurrent();
      size := size + 1;
      pushFronts := pushFronts + 1;
      insertMap.PushFront(k, d);
      ViewFront(old(insertMap.Entries()), insertMap.Entries(), Op.InsertAtLevelZero(k, d), old(track), track,
        old(Live()), Live(), top);
    }

    /** The context is popped, which restores the object if it was changed in the popped level. */
    method ContextPop()
      requires Valid() && top > 0
      modifies this, insertMap
      ensures Valid() && top == old(top) - 1 && Stack() == old(Stack())[..top + 1]
    {
      if track.level == top {
        var data := track.saved[|track.saved| - 1].copy;
        ViewCut(insertMap.Entries(), track, Live(), top);
        track, top := track.Restored(), top - 1;
        RestoreFrom(data);
      } else {
        PopView(MapOf(insertMap.Entries(), pushFronts), MapOf(insertMap.Entries(), pushFronts), track, Live(), top);
        top := top - 1;
      }
    }

    /** restore(): the keys that were pushed on the front since the save stay. */
    method RestoreFrom(data: Sizes)
      requires insertMap.Valid() && data.pushFronts <= pushFronts && Reach(data, pushFronts) <= |insertMap.keys|
      modifies this`size, insertMap
      ensures insertMap.Valid() && size == |insertMap.keys| == Reach(data, pushFronts)
      ensures insertMap.Entries() == old(insertMap.Entries())[..size]
    {
      var restoreSize := data.size + (pushFronts - data.pushFronts);
      insertMap.PopToSize(restoreSize);
      size := restoreSize;
    }

    method RunOne(step: Step<Op<K, D>>)
      requires Valid() && top + 1 + Change(step) > 0
      modifies this, insertMap
      ensures Valid() && Stack() == ApplyAll(MapEffects(), old(Stack()), step)
    {
      match step {
        case Push =>
          ContextPush();
          assert Stack() == ApplyAll(MapEffects(), old(Stack()), step);
        case Pop =>
          ContextPop();
          assert Stack() == ApplyAll(MapEffects(), old(Stack()), step);
        case Act(InsertSafe(k, d)) =>
          var _ := InsertSafe(k, d);
          assert Stack() == ApplyAll(MapEffects(), old(Stack()), step);
        case Act(InsertAtLevelZero(k, d)) =>
          var has := Contains(k);
          if !has {
            InsertAtContextLevelZero(k, d);
          }
          assert Stack() == ApplyAll(MapEffects(), old(Stack()), step);
      }
    }

    /** Any run of insertions, pushes and pops acts as the same run on a stack of maps. */
    method Run(steps: seq<Step<Op<K, D>>>)
      requires Valid() && Legal(top + 1, steps)
      modifies this, insertMap
      ensures Valid() && Stack() == AfterAll(MapEffects(), old(Stack()), steps)
      decreases |steps|
    {
      if steps != [] {
        RunOne(steps[0]);
        Run(steps[1..]);
      }
    }

    /**
     A push, any run above it and a pop: every level is as before but for the later level-zero insertions,
     newest first.
     */
    method PushRunPop(steps: seq<Step<Op<K, D>>>)
      requires Valid() && Legal(1, steps) && Depth(1, steps) == 1
      modifies this, insertMap
      ensures Valid() && top == old(top) && Legal(top + 2, steps)
      ensures var added := Fold(AtLevelZero, [], Escaped(MapEffects(), old(Stack() + [Stack()[top]]), steps));
              forall i :: 0 <= i <= top ==> Stack()[i] == added + old(Stack())[i]
    {
      ghost var stack := Stack();
      PushRunPopMaps(stack, steps);
      ContextPush();
      Run(steps);
      ContextPop();
    }

    method ContextPush()
      requires Valid()
      modifies this`top
      ensures Valid() && top == old(top) + 1 && Stack() == old(Stack()) + [old(Stack()[top])]
    {
      PushView(MapOf(insertMap.Entries(), pushFronts), track, Live(), top);
      top := top + 1;
    }

    method Contains(k: K) returns (b: bool)
      requires Valid()
      ensures b == Has(Stack()[top], k)
    {
      TopHas(k);
      b := k in insertMap.hashMap;
    }

    method Lookup(k: K) returns (d: D)
      requires Valid() && Has(Stack()[top], k)
      ensures (k, d) in Stack()[top]
    {
      TopHas(k);
      TopIsAll();
      d := insertMap.hashMap[k];
      assert Listed(insertMap.keys, insertMap.hashMap, k);
      ghost var i :| 0 <= i < |insertMap.keys| && insertMap.keys[i] == k;
      assert Stack()[top][i] == (k, d);
    }

    method Size() returns (n: nat)
      requires Valid()
      ensures n == |Stack()[top]| == |insertMap.keys| == |insertMap.hashMap|
    {
      TopIsAll();
      SameSize(insertMap.keys, insertMap.hashMap);
      n := size;
    }

    /** key_begin() to key_end(): every key once. */
    method Keys() returns (r: seq<K>)
      requires Valid()
      ensures |r| == |Stack()[top]| == size
      ensures forall i :: 0 <= i < |r| ==> r[i] == Stack()[top][i].0
      ensures forall i, j :: 0 <= i < j < |r| ==> r[i] != r[j]
    {
      TopIsAll();
      r := insertMap.keys;
    }
  }
}
