/**
 CDList and CDQueue: a dynamic array whose size is context-dependent
 (src/context/cdlist.h), and a queue on top of it that gives up its elements as
 soon as no level needs them (src/context/cdqueue.h).
 */
module Queue {
  import opened SaveStack
  import opened StackRuns

  const INITIAL_SIZE: nat := 10
  const GROWTH_FACTOR: nat := 2

  ghost function Reversed<T>(s: seq<T>): (r: seq<T>)
    ensures |r| == |s| && forall i :: 0 <= i < |s| ==> r[i] == s[|s| - 1 - i]
  {
    seq(|s|, i requires 0 <= i < |s| => s[|s| - 1 - i])
  }

  ghost function Capped(n: nat, max: nat): nat {
    if n > max then max else n
  }

  /** The part of CDList that a pop of the context does not touch: the array and what it holds. */
  class Buffer<T(0)> {
    var list: array?<T>
    var size: nat
    var sizeAlloc: nat
    const callDestructor: bool
    /** The largest number of elements that the allocator serves. */
    const maxSize: nat
    /** The elements that were cleaned up and destroyed, in order. */
    var destroyed: seq<T>
    ghost var elems: seq<T>

    ghost function Repr(): set<object>
      reads this
    {
      if list == null then {this} else {this, list}
    }

    ghost predicate Valid()
      reads this, Repr()
    {
      && |elems| == size <= sizeAlloc <= maxSize && maxSize > 0
      && (list == null ==> sizeAlloc == 0)
      && (list != null ==> sizeAlloc == list.Length > 0 && list[..size] == elems)
    }

    constructor (callDestructor: bool, maxSize: nat)
      requires maxSize > 0
      ensures Valid() && elems == [] && fresh(Repr()) && destroyed == []
      ensures this.callDestructor == callDestructor && this.maxSize == maxSize
    {
      list, size, sizeAlloc, destroyed, elems := null, 0, 0, [], [];
      this.callDestructor, this.maxSize := callDestructor, maxSize;
    }

    /** Reallocate the array with more space; it is an error if the allocator serves no larger array. */
    method Grow() returns (ok: bool)
      requires Valid() && size == sizeAlloc
      modifies this`list, this`sizeAlloc
      ensures Valid() && ok == (size < maxSize)
      ensures ok ==> size < sizeAlloc && list != null && fresh(list)
      ensures ok ==> sizeAlloc == Capped(if old(list) == null then INITIAL_SIZE else 2 * old(sizeAlloc), maxSize)
      ensures !ok ==> list == old(list) && sizeAlloc == old(sizeAlloc)
    {
      ok := true;
      if list == null {
        sizeAlloc := INITIAL_SIZE;
        if sizeAlloc > maxSize {
          sizeAlloc := maxSize;
        }
        list := new T[sizeAlloc];
      } else {
        var newSize := GROWTH_FACTOR * sizeAlloc;
        if newSize > maxSize {
          newSize := maxSize;
          if newSize <= sizeAlloc {
            return false;
          }
        }
        var oldList: array<T>, newList := list, new T[newSize];
        for i := 0 to sizeAlloc
          invariant newList[..i] == oldList[..i] && oldList[..] == old(list[..])
        {
          newList[i] := oldList[i];
        }
        assert newList[..size] == oldList[..size];
        list := newList;
        sizeAlloc := newSize;
      }
    }

    /** The rest of push_back, once the list is current. */
    method Append(x: T) returns (ok: bool)
      requires Valid()
      modifies this`list, this`sizeAlloc, this`size, this`elems, Repr() - {this}
      ensures Valid() && fresh(Repr() - old(Repr())) && ok == (old(size) < maxSize)
      ensures elems == if ok then old(elems) + [x] else old(elems)
    {
      if size == sizeAlloc {
        ok := Grow();
        if !ok {
          return;
        }
      }
      ok := true;
      list[size] := x;
      size := size + 1;
      elems := elems + [x];
    }

    /** Elements go from the end, one by one. */
    method TruncateList(s: nat)
      requires Valid() && s <= size
      modifies this`size, this`destroyed, this`elems
      ensures Valid() && elems == old(elems)[..s]
      ensures destroyed == old(destroyed) + if callDestructor then Reversed(old(elems)[s..]) else []
    {
      if callDestructor {
        while size != s
          invariant Valid() && s <= size <= |old(elems)| && elems == old(elems)[..size]
          invariant destroyed == old(destroyed) + Reversed(old(elems)[size..])
          decreases size
        {
          size := size - 1;
          destroyed := destroyed + [list[size]];
          elems := elems[..size];
        }
      } else {
        size := s;
        elems := elems[..s];
      }
    }
  }

  // ---------- the list ----------

  ghost function PrefixOf<T>(elems: seq<T>): nat -> seq<T> {
    (n: nat) => if n <= |elems| then elems[..n] else elems
  }

  lemma ListAppend<T>(elems: seq<T>, x: T, t: Track<nat>, top: nat)
    requires t.Valid() && t.level <= top && Ascending(t, |elems|)
    ensures var t' := t.MakeCurrent(top, |elems|);
            && t'.Valid() && t'.level <= top && Ascending(t', |elems| + 1)
            && View(PrefixOf(elems + [x]), t', |elems| + 1, top) ==
               View(PrefixOf(elems), t, |elems|, top)[top := elems + [x]]
  {
    var f, f' := PrefixOf(elems), PrefixOf(elems + [x]);
    forall n: nat | n <= |elems| ensures f'(n) == f(n) {
      assert (elems + [x])[..n] == elems[..n];
    }
    assert (elems + [x])[..|elems| + 1] == elems + [x];
    WriteView(f, f', t, |elems|, |elems| + 1, top);
  }

  /** A save changes nothing at any level. */
  lemma ListCurrent<T>(elems: seq<T>, t: Track<nat>, top: nat)
    requires t.Valid() && t.level <= top && Ascending(t, |elems|)
    ensures var t' := t.MakeCurrent(top, |elems|);
            && t'.Valid() && t'.level <= top && Ascending(t', |elems|)
            && View(PrefixOf(elems), t', |elems|, top) == View(PrefixOf(elems), t, |elems|, top)
  {
    PushView(PrefixOf(elems), t, |elems|, top);
    WriteView(PrefixOf(elems), PrefixOf(elems), t, |elems|, |elems|, top);
  }

  /** An append to a list of at most `max` elements. */
  ghost function SnocUpTo<T>(max: nat): (seq<T>, T) -> seq<T> {
    (s: seq<T>, x: T) => if |s| < max then s + [x] else s
  }

  lemma ListTruncate<T>(elems: seq<T>, t: Track<nat>, top: nat)
    requires t.Valid() && t.level == top > 0 && Ascending(t, |elems|)
    ensures var n := t.saved[|t.saved| - 1].copy;
            && t.Restored().Valid() && t.Restored().level < top && Ascending(t.Restored(), n)
            && View(PrefixOf(elems[..n]), t.Restored(), n, top - 1) == View(PrefixOf(elems), t, |elems|, top)[..top]
  {
    var n := t.saved[|t.saved| - 1].copy;
    var f, f' := PrefixOf(elems), PrefixOf(elems[..n]);
    forall m: nat | m <= n ensures f'(m) == f(m) {
      assert elems[..n][..m] == elems[..m];
    }
    PopView(f, f', t, |elems|, top);
  }

  /** The newest saved size. */
  ghost function NewestSize(t: Track<nat>): nat {
    if t.saved == [] then 0 else t.saved[|t.saved| - 1].copy
  }

  class CDList<T(0)> {
    const buffer: Buffer<T>
    /** The level of the context and this object's place in it. */
    var top: nat
    var track: Track<nat>

    ghost predicate Valid()
      reads this, buffer, buffer.Repr()
    {
      buffer.Valid() && track.Valid() && track.level <= top && Ascending(track, buffer.size)
    }

    /** The list at every level of the context. */
    ghost function Stack(): (r: seq<seq<T>>)
      reads this, buffer
      ensures |r| == top + 1
    {
      View(PrefixOf(buffer.elems), track, buffer.size, top)
    }

    lemma TopIsElems()
      requires Valid()
      ensures Stack()[top] == buffer.elems
    {
      PushView(PrefixOf(buffer.elems), track, buffer.size, top);
    }

    /** A list can be created at any level; it is empty in all of them. */
    constructor (callDestructor: bool, maxSize: nat, level: nat)
      requires maxSize > 0
      ensures Valid() && fresh(buffer) && fresh(buffer.Repr()) && buffer.maxSize == maxSize && buffer.size == 0
      ensures top == level && track == Track(0, []) && Stack() == seq(level + 1, _ => [])
    {
      buffer := new Buffer<T>(callDestructor, maxSize);
      top, track := level, Track(0, []);
      new;
      TopIsElems();
    }

    /** A list that the allocator cannot make larger is made current, and stays as it is. */
    method PushBack(x: T) returns (ok: bool)
      requires Valid()
      modifies this`track, buffer, buffer.Repr()
      ensures Valid() && ok == (|old(Stack()[top])| < buffer.maxSize)
      ensures track == old(track).MakeCurrent(top, old(buffer.size))
      ensures Stack() == if ok then old(Stack())[top := old(Stack()[top]) + [x]] else old(Stack())
      ensures fresh(buffer.Repr() - old(buffer.Repr()))
    {
      TopIsElems();
      ListAppend(buffer.elems, x, track, top);
      ListCurrent(buffer.elems, track, top);
      track := track.MakeCurrent(top, buffer.size);
      ok := buffer.Append(x);
    }

    method Get(i: nat) returns (x: T)
      requires Valid() && i < buffer.size
      ensures i < |Stack()[top]| && x == Stack()[top][i]
    {
      TopIsElems();
      x := buffer.list[i];
    }

    method ContextPush()
      requires Valid()
      modifies this`top
      ensures Valid() && top == old(top) + 1 && Stack() == old(Stack()) + [old(Stack()[top])]
    {
      PushView(PrefixOf(buffer.elems), track, buffer.size, top);
      top := top + 1;
    }

    /** Elements that the list loses are cleaned up from the end. */
    method ContextPop()
      requires Valid() && top > 0
      modifies this, buffer
      ensures Valid() && top == old(top) - 1 && Stack() == old(Stack())[..top + 1]
              && buffer.Repr() == old(buffer.Repr())
      ensures buffer.size <= old(buffer.size) && buffer.destroyed ==
              old(buffer.destroyed) + if buffer.callDestructor then Reversed(old(buffer.elems)[buffer.size..]) else []
      ensures track == if old(track.level) == old(top) then old(track).Restored() else old(track)
      ensures buffer.size == if old(track.level) == old(top) then NewestSize(old(track)) else old(buffer.size)
    {
      if track.level == top {
        ListTruncate(buffer.elems, track, top);
        var n := track.saved[|track.saved| - 1].copy;
        track := track.Restored();
        buffer.TruncateList(n);
      } else {
        PopView(PrefixOf(buffer.elems), PrefixOf(buffer.elems), track, buffer.size, top);
      }
      top := top - 1;
    }

    method RunOne(step: Step<T>)
      requires Valid() && top + 1 + Change(step) > 0
      modifies this, buffer, buffer.Repr()
      ensures Valid() && Stack() == Apply(SnocUpTo(buffer.maxSize), old(Stack()), step)
      ensures fresh(buffer.Repr() - old(buffer.Repr()))
    {
      match step {
        case Push =>
          ContextPush();
          assert Stack() == Apply(SnocUpTo(buffer.maxSize), old(Stack()), step);
        case Pop =>
          ContextPop();
          assert Stack() == Apply(SnocUpTo(buffer.maxSize), old(Stack()), step);
        case Act(x) =>
          var _ := PushBack(x);
          assert Stack() == Apply(SnocUpTo(buffer.maxSize), old(Stack()), step);
      }
    }

    /** Any run of appends, pushes and pops acts as the same run on a stack of sequences of bounded size. */
    method Run(steps: seq<Step<T>>)
      requires Valid() && Legal(top + 1, steps)
      modifies this, buffer, buffer.Repr()
      ensures Valid() && Stack() == After(SnocUpTo(buffer.maxSize), old(Stack()), steps)
      decreases |steps|
    {
      if steps != [] {
        RunOne(steps[0]);
        Run(steps[1..]);
      }
    }
  }

  // ---------- the queue ----------

  /** What a saved copy of a queue keeps. */
  datatype Ends = Ends(size: nat, iter: nat, lastsave: nat)

  /** The elements that are not dequeued. */
  ghost function Pending<T>(elems: seq<T>): Ends -> seq<T> {
    (e: Ends) => if e.iter <= e.size <= |elems| then elems[e.iter..e.size] else elems
  }

  /** `lastsave` is the latest saved size, here and in every saved copy; sizes never go below it. */
  ghost predicate Guarded(t: Track<Ends>, live: Ends) {
    && live.iter <= live.size && live.lastsave <= live.size
    && live.lastsave == (if t.saved == [] then 0 else t.saved[|t.saved| - 1].copy.size)
    && (forall k :: 0 <= k < |t.saved| ==>
          && t.saved[k].copy.iter <= t.saved[k].copy.size
          && t.saved[k].copy.lastsave <= t.saved[k].copy.size <= live.lastsave)
    && (forall k {:trigger NotesLast(t, k)} :: 0 <= k < |t.saved| ==> NotesLast(t, k))
    && (forall k, l :: 0 <= k < l < |t.saved| ==> t.saved[k].copy.size <= t.saved[l].copy.size)
  }

  ghost predicate NotesLast(t: Track<Ends>, k: nat)
    requires k < |t.saved|
  {
    t.saved[k].copy.lastsave == if k == 0 then 0 else t.saved[k - 1].copy.size
  }

  /** makeCurrent: a save notes the size. */
  ghost function Noted(t: Track<Ends>, live: Ends, top: nat): Ends {
    if t.level == top then live else live.(lastsave := live.size)
  }

  lemma NotedGuarded(t: Track<Ends>, live: Ends, top: nat)
    requires t.Valid() && t.level <= top && Guarded(t, live)
    ensures var t' := t.MakeCurrent(top, live); t'.Valid() && t'.level <= top && Guarded(t', Noted(t, live, top))
  {
    WriteLevels(t, live, live, top);
    var t' := t.MakeCurrent(top, live);
    forall k | 0 <= k < |t'.saved| ensures NotesLast(t', k) {
      assert k < |t.saved| ==> NotesLast(t, k);
    }
  }

  /** The storage below `n` is all that a copy of size at most n needs. */
  lemma PendingSame<T>(elems: seq<T>, elems': seq<T>, n: nat, e: Ends)
    requires e.iter <= e.size <= n <= |elems| && n <= |elems'| && elems[..n] == elems'[..n]
    ensures Pending(elems)(e) == Pending(elems')(e)
  {
    assert elems[e.iter..e.size] == elems[..n][e.iter..e.size];
    assert elems'[e.iter..e.size] == elems'[..n][e.iter..e.size];
  }

  /** A change of the storage from `n` on is a change of the top level, if no saved copy reaches beyond n. */
  lemma QueueWrite<T>(elems: seq<T>, elems': seq<T>, n: nat, t: Track<Ends>, t': Track<Ends>, live: Ends, live': Ends,
    top: nat)
    requires t.Valid() && t.level <= top && Guarded(t, live) && t' == t.MakeCurrent(top, live)
    requires n <= |elems| && n <= |elems'| && elems[..n] == elems'[..n]
    requires Noted(t, live, top).lastsave <= n
    ensures View(Pending(elems'), t', live', top) == View(Pending(elems), t, live, top)[top := Pending(elems')(live')]
  {
    forall k | 0 <= k < |t.saved| ensures Pending(elems')(t.saved[k].copy) == Pending(elems)(t.saved[k].copy) {
      PendingSame(elems, elems', n, t.saved[k].copy);
    }
    if t.level != top {
      PendingSame(elems, elems', n, live);
    }
    WriteView(Pending(elems), Pending(elems'), t, live, live', top);
  }

  lemma QueuePush<T>(elems: seq<T>, x: T, t: Track<Ends>, live: Ends, live': Ends, top: nat)
    requires t.Valid() && t.level <= top && Guarded(t, live) && live.size == |elems|
    requires live' == Noted(t, live, top).(size := live.size + 1)
    ensures var t' := t.MakeCurrent(top, live);
            && t'.Valid() && t'.level <= top && Guarded(t', live')
            && View(Pending(elems + [x]), t', live', top) ==
               View(Pending(elems), t, live, top)[top := elems[live.iter..live.size] + [x]]
  {
    var t' := t.MakeCurrent(top, live);
    NotedGuarded(t, live, top);
    assert (elems + [x])[..|elems|] == elems[..|elems|];
    QueueWrite(elems, elems + [x], |elems|, t, t', live, live', top);
    assert Pending(elems + [x])(live') == elems[live.iter..live.size] + [x];
  }

  /** A save changes nothing at any level. */
  lemma QueueCurrent<T>(elems: seq<T>, t: Track<Ends>, live: Ends, live': Ends, top: nat)
    requires t.Valid() && t.level <= top && Guarded(t, live) && live.size == |elems| && live' == Noted(t, live, top)
    ensures var t' := t.MakeCurrent(top, live);
            && t'.Valid() && t'.level <= top && Guarded(t', live')
            && View(Pending(elems), t', live', top) == View(Pending(elems), t, live, top)
  {
    NotedGuarded(t, live, top);
    PushView(Pending(elems), t, live, top);
    QueueWrite(elems, elems, |elems|, t, t.MakeCurrent(top, live), live, live', top);
  }

  /** The element at the front goes; when none is left, so does all that no saved copy covers. */
  ghost function Popped(e: Ends): Ends {
    if e.iter + 1 == e.size && e.lastsave != e.size then Ends(e.lastsave, e.lastsave, e.lastsave)
    else e.(iter := e.iter + 1)
  }

  lemma PoppedGuarded(t: Track<Ends>, live: Ends)
    requires Guarded(t, live) && live.iter < live.size
    ensures Guarded(t, Popped(live))
  {
  }

  lemma QueuePop<T>(elems: seq<T>, t: Track<Ends>, live: Ends, live': Ends, top: nat)
    requires t.Valid() && t.level <= top && Guarded(t, live) && live.iter < live.size == |elems|
    requires live' == Popped(Noted(t, live, top))
    ensures var t' := t.MakeCurrent(top, live);
            && t'.Valid() && t'.level <= top && Guarded(t', live') && live'.size <= |elems|
            && View(Pending(elems[..live'.size]), t', live', top) ==
               View(Pending(elems), t, live, top)[top := elems[live.iter..live.size][1..]]
  {
    var t' := t.MakeCurrent(top, live);
    NotedGuarded(t, live, top);
    PoppedGuarded(t', Noted(t, live, top));
    QueueWrite(elems, elems[..live'.size], live'.size, t, t', live, live', top);
    assert elems[..live'.size][live'.iter..live'.size] == elems[live.iter..live.size][1..];
  }

  lemma QueueRestore<T>(elems: seq<T>, t: Track<Ends>, live: Ends, top: nat)
    requires t.Valid() && t.level == top > 0 && Guarded(t, live) && live.size == |elems|
    ensures var data := t.saved[|t.saved| - 1].copy;
            && data.size <= |elems| && t.Restored().Valid() && t.Restored().level < top && Guarded(t.Restored(), data)
            && View(Pending(elems[..data.size]), t.Restored(), data, top - 1) ==
               View(Pending(elems), t, live, top)[..top]
  {
    var n := t.saved[|t.saved| - 1].copy.size;
    var f, f' := Pending(elems), Pending(elems[..n]);
    forall e: Ends | e.iter <= e.size <= n ensures f'(e) == f(e) {
      assert elems[..n][e.iter..e.size] == elems[e.iter..e.size];
    }
    GuardedRestored(t, live);
    PopView(f, f', t, live, top);
  }

  lemma GuardedRestored(t: Track<Ends>, live: Ends)
    requires t.Valid() && t.saved != [] && Guarded(t, live)
    ensures var data := t.saved[|t.saved| - 1].copy;
            data.size <= live.size && Guarded(t.Restored(), data)
  {
    assert NotesLast(t, |t.saved| - 1);
    forall k | 0 <= k < |t.saved| - 1 ensures NotesLast(t.Restored(), k) {
      assert NotesLast(t, k);
    }
  }

  datatype Op<T> = Enqueue(x: T) | Dequeue

  /** A dequeue from an empty queue is the caller's error; a run skips it. */
  ghost function Fifo<T>(q: seq<T>, op: Op<T>): seq<T> {
    match op
    case Enqueue(x) => q + [x]
    case Dequeue => if q == [] then q else q[1..]
  }

  class CDQueue<T(0)> {
    const buffer: Buffer<T>
    var iter: nat
    var lastsave: nat
    /** The level of the context and this object's place in it. */
    var top: nat
    var track: Track<Ends>

    ghost function Live(): Ends
      reads this, buffer
    {
      Ends(buffer.size, iter, lastsave)
    }

    ghost predicate Valid()
      reads this, buffer, buffer.Repr()
    {
      buffer.Valid() && track.Valid() && track.level <= top && Guarded(track, Live())
    }

    /** The queue at every level of the context. */
    ghost function Stack(): (r: seq<seq<T>>)
      reads this, buffer
      ensures |r| == top + 1
    {
      View(Pending(buffer.elems), track, Live(), top)
    }

    lemma TopIsPending()
      requires Valid()
      ensures Stack()[top] == buffer.elems[iter..buffer.size]
    {
      PushView(Pending(buffer.elems), track, Live(), top);
    }

    constructor (callDestructor: bool, maxSize: nat)
      requires maxSize > 0
      ensures Valid() && fresh(buffer) && buffer.maxSize == maxSize && top == 0 && Stack() == [[]]
    {
      buffer := new Buffer<T>(callDestructor, maxSize);
      iter, lastsave, top, track := 0, 0, 0, Track(0, []);
      new;
      TopIsPending();
    }

    /** makeCurrent, with the save() of a queue. */
    method MakeCurrent()
      modifies this`track, this`lastsave
      ensures track == old(track).MakeCurrent(top, old(Live()))
              && lastsave == Noted(old(track), old(Live()), top).lastsave
    {
      if track.level != top {
        track := track.MakeCurrent(top, Ends(buffer.size, iter, lastsave));
        lastsave := buffer.size;
      }
    }

    /** An element is refused when the array cannot get larger; elements dequeued before may still be in it. */
    method Push(x: T) returns (ok: bool)
      requires Valid()
      modifies this, buffer, buffer.Repr()
      ensures Valid() && top == old(top) && ok == (old(buffer.size) < buffer.maxSize)
      ensures Stack() == if ok then old(Stack())[top := old(Stack()[top]) + [x]] else old(Stack())
      ensures buffer.size == old(buffer.size) + if ok then 1 else 0
      ensures fresh(buffer.Repr() - old(buffer.Repr())) && buffer.destroyed == old(buffer.destroyed)
    {
      TopIsPending();
      MakeCurrent();
      ok := buffer.Append(x);
      if ok {
        QueuePush(old(buffer.elems), x, old(track), old(Live()), Live(), top);
      } else {
        QueueCurrent(old(buffer.elems), old(track), old(Live()), Live(), top);
      }
    }

    method Pop()
      requires Valid() && Stack()[top] != []
      modifies this, buffer
      ensures Valid() && top == old(top) && Stack() == old(Stack())[top := old(Stack()[top])[1..]]
      ensures buffer.Repr() == old(buffer.Repr()) && lastsave <= buffer.size <= old(buffer.size)
      ensures buffer.destroyed == old(buffer.destroyed) +
              if buffer.callDestructor then Reversed(old(buffer.elems)[buffer.size..]) else []
    {
      TopIsPending();
      MakeCurrent();
      Advance();
      QueuePop(old(buffer.elems), old(track), old(Live()), Live(), top);
    }

    /** The rest of pop(), once the queue is current. */
    method Advance()
      requires buffer.Valid() && iter < buffer.size && lastsave <= buffer.size
      modifies this`iter, buffer
      ensures buffer.Valid() && buffer.Repr() == old(buffer.Repr())
      ensures Live() == Popped(old(Live())) && buffer.size <= old(buffer.size)
              && buffer.elems == old(buffer.elems)[..buffer.size]
      ensures buffer.destroyed == old(buffer.destroyed) +
              if buffer.callDestructor then Reversed(old(buffer.elems)[buffer.size..]) else []
    {
      iter := iter + 1;
      if iter == buffer.size && lastsave != buffer.size {
        buffer.TruncateList(lastsave);
        iter := lastsave;
      }
    }

    method ContextPush()
      requires Valid()
      modifies this`top
      ensures Valid() && top == old(top) + 1 && Stack() == old(Stack()) + [old(Stack()[top])]
    {
      PushView(Pending(buffer.elems), track, Live(), top);
      top := top + 1;
    }

    method ContextPop()
      requires Valid() && top > 0
      modifies this, buffer
      ensures Valid() && top == old(top) - 1 && Stack() == old(Stack())[..top + 1]
              && buffer.Repr() == old(buffer.Repr()) && buffer.size <= old(buffer.size)
    {
      if track.level == top {
        QueueRestore(buffer.elems, track, Live(), top);
        var qdata := track.saved[|track.saved| - 1].copy;
        track := track.Restored();
        iter := qdata.iter;
        lastsave := qdata.lastsave;
        buffer.TruncateList(qdata.size);
      } else {
        PopView(Pending(buffer.elems), Pending(buffer.elems), track, Live(), top);
      }
      top := top - 1;
    }

    method Empty() returns (b: bool)
      requires Valid()
      ensures b == (Stack()[top] == [])
    {
      TopIsPending();
      b := iter == buffer.size;
    }

    method Size() returns (n: nat)
      requires Valid()
      ensures n == |Stack()[top]|
    {
      TopIsPending();
      n := buffer.size - iter;
    }

    method Front() returns (x: T)
      requires Valid() && Stack()[top] != []
      ensures x == Stack()[top][0]
    {
      TopIsPending();
      x := buffer.list[iter];
    }

    method Back() returns (x: T)
      requires Valid() && Stack()[top] != []
      ensures x == Stack()[top][|Stack()[top]| - 1]
    {
      TopIsPending();
      x := buffer.list[buffer.size - 1];
    }

    /** One step; an enqueue may be refused when there is no room. */
    method RunOne(step: Step<Op<T>>) returns (ok: bool)
      requires Valid() && top + 1 + Change(step) > 0
      modifies this, buffer, buffer.Repr()
      ensures Valid() && fresh(buffer.Repr() - old(buffer.Repr()))
      ensures top == old(top) + if ok then Change(step) else 0
      ensures Stack() == if ok then Apply(Fifo, old(Stack()), step) else old(Stack())
      ensures !ok ==> Enqueues(step) == 1 && old(buffer.size) == buffer.maxSize
      ensures buffer.size <= old(buffer.size) + Enqueues(step)
    {
      ok := true;
      ghost var after := Apply(Fifo, Stack(), step);
      match step {
        case Push =>
          ContextPush();
          assert Stack() == after;
        case Pop =>
          ContextPop();
          assert Stack() == after;
        case Act(Enqueue(x)) =>
          ok := Push(x);
          assert ok ==> Stack() == after;
        case Act(Dequeue) =>
          Dequeue();
          assert Stack() == after;
      }
    }

    /** A dequeue, unless the queue is empty. */
    method Dequeue()
      requires Valid()
      modifies this, buffer
      ensures Valid() && top == old(top) && buffer.Repr() == old(buffer.Repr()) && buffer.size <= old(buffer.size)
      ensures Stack() == if old(Stack()[top]) == [] then old(Stack()) else old(Stack())[top := old(Stack()[top])[1..]]
    {
      var empty := Empty();
      if !empty {
        Pop();
      }
    }

    /**
     Any run of enqueues, dequeues, pushes and pops acts on a stack of queues as the same run without the
     enqueues that are refused; none is if the array has room for all of them.
     */
    method Run(steps: seq<Step<Op<T>>>) returns (done: seq<Step<Op<T>>>)
      requires Valid() && Legal(top + 1, steps)
      modifies this, buffer, buffer.Repr()
      ensures Valid() && Refused(steps, done) && Legal(old(top) + 1, done)
      ensures Stack() == After(Fifo, old(Stack()), done)
      ensures old(buffer.size) + AllEnqueues(steps) <= buffer.maxSize ==> done == steps
      decreases |steps|
    {
      done := [];
      if steps != [] {
        ghost var stack := Stack();
        var ok := RunOne(steps[0]);
        assert Stack() == if ok then Apply(Fifo, stack, steps[0]) else stack;
        done := Run(steps[1..]);
        if ok {
          DoneFirst(stack, steps, done);
          done := [steps[0]] + done;
        }
      }
    }
  }

  lemma DoneFirst<T>(stack: seq<seq<T>>, steps: seq<Step<Op<T>>>, rest: seq<Step<Op<T>>>)
    requires stack != [] && steps != [] && Refused(steps[1..], rest) && Legal(|stack| + Change(steps[0]), rest)
    ensures var done := [steps[0]] + rest;
            && Refused(steps, done) && Legal(|stack|, done)
            && After(Fifo, stack, done) == After(Fifo, Apply(Fifo, stack, steps[0]), rest)
            && (rest == steps[1..] ==> done == steps)
  {
    assert ([steps[0]] + rest)[1..] == rest;
  }

  ghost function Enqueues<T>(step: Step<Op<T>>): nat {
    if step.Act? && step.act.Enqueue? then 1 else 0
  }

  ghost function AllEnqueues<T>(steps: seq<Step<Op<T>>>): nat {
    if steps == [] then 0 else Enqueues(steps[0]) + AllEnqueues(steps[1..])
  }

  /** `done` is `steps` without some of its enqueues. */
  ghost predicate Refused<T>(steps: seq<Step<Op<T>>>, done: seq<Step<Op<T>>>) {
    if steps == [] then done == []
    else
      || (done != [] && done[0] == steps[0] && Refused(steps[1..], done[1..]))
      || (Enqueues(steps[0]) == 1 && Refused(steps[1..], done))
  }
}
