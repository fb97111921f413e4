/**
 Two vectors that undo writes from a log: CDVector keeps one entry per slot and
 level (src/context/cdvector.h), StackingVector one per write
 (src/context/stacking_vector.h).
 */
module Vectors {
  import opened SaveStack
  import opened StackRuns

  /** An entry of an undo log: what slot `index` held before the write. */
  datatype Entry<E> = Entry(cached: E, index: nat)

  /** The slots after all but the first n entries are undone, newest first. */
  ghost function Undone<E>(slots: seq<E>, log: seq<Entry<E>>, n: nat): (r: seq<E>)
    ensures |r| == |slots|
    decreases |log|
  {
    if |log| <= n then slots
    else
      var last := log[|log| - 1];
      Undone(if last.index < |slots| then slots[last.index := last.cached] else slots, log[..|log| - 1], n)
  }

  ghost predicate InRange<E>(log: seq<Entry<E>>, n: nat) {
    forall p :: 0 <= p < |log| ==> log[p].index < n
  }

  /** A write that is logged can be undone. */
  lemma UndoneLogged<E>(slots: seq<E>, log: seq<Entry<E>>, i: nat, e: E, n: nat)
    requires i < |slots| && n <= |log|
    ensures Undone(slots[i := e], log + [Entry(slots[i], i)], n) == Undone(slots, log, n)
  {
    var log' := log + [Entry(slots[i], i)];
    assert log'[..|log'| - 1] == log;
    assert slots[i := e][i := slots[i]] == slots;
  }

  /** A write that is not logged does not matter where an entry for the slot is undone. */
  lemma {:induction false} UndoneHidden<E>(slots: seq<E>, log: seq<Entry<E>>, i: nat, e: E, n: nat, p: nat)
    requires i < |slots| && n <= p < |log| && log[p].index == i
    ensures Undone(slots[i := e], log, n) == Undone(slots, log, n)
    decreases |log|
  {
    var m := |log| - 1;
    var last := log[m];
    if last.index == i {
      assert slots[i := e][i := last.cached] == slots[i := last.cached];
    } else if last.index < |slots| {
      assert slots[i := e][last.index := last.cached] == slots[last.index := last.cached][i := e];
      UndoneHidden(slots[last.index := last.cached], log[..m], i, e, n, p);
    } else {
      UndoneHidden(slots, log[..m], i, e, n, p);
    }
  }

  /** Undoing in two stages. */
  lemma {:induction false} UndoneTwice<E>(slots: seq<E>, log: seq<Entry<E>>, m: nat, n: nat)
    requires n <= m <= |log|
    ensures Undone(Undone(slots, log, m), log[..m], n) == Undone(slots, log, n)
    decreases |log|
  {
    if |log| == m {
      assert log[..m] == log;
    } else {
      var last := log[|log| - 1];
      var slots' := if last.index < |slots| then slots[last.index := last.cached] else slots;
      UndoneTwice(slots', log[..|log| - 1], m, n);
      assert log[..|log| - 1][..m] == log[..m];
    }
  }

  /** Slots added later stay as they are. */
  lemma {:induction false} UndoneGrown<E>(slots: seq<E>, more: seq<E>, log: seq<Entry<E>>, n: nat)
    requires InRange(log, |slots|)
    ensures Undone(slots + more, log, n) == Undone(slots, log, n) + more
    decreases |log|
  {
    if |log| > n {
      var last := log[|log| - 1];
      assert (slots + more)[last.index := last.cached] == slots[last.index := last.cached] + more;
      UndoneGrown(slots[last.index := last.cached], more, log[..|log| - 1], n);
    }
  }

  // ---------- CDVector ----------

  /** UpdatableElement: a stamp of -1 is the impossible level. */
  datatype Slot<T> = Slot(data: T, stamp: int)

  ghost function Datas<T>(slots: seq<Slot<T>>): (r: seq<T>)
    ensures |r| == |slots| && forall i :: 0 <= i < |r| ==> r[i] == slots[i].data
  {
    seq(|slots|, i requires 0 <= i < |slots| => slots[i].data)
  }

  /** The level of the last entry for slot i among the first n, given the level in which each entry was made. */
  ghost function Stamp<T>(log: seq<Entry<Slot<T>>>, made: seq<nat>, n: nat, i: nat): int
    requires n <= |log| == |made|
  {
    if n == 0 then -1 else if log[n - 1].index == i then made[n - 1] else Stamp(log, made, n - 1, i)
  }

  lemma {:induction false} StampHas<T>(log: seq<Entry<Slot<T>>>, made: seq<nat>, n: nat, i: nat)
    requires n <= |log| == |made|
    ensures Stamp(log, made, n, i) == -1 <==> (forall p :: 0 <= p < n ==> log[p].index != i)
    ensures Stamp(log, made, n, i) != -1 ==>
              exists p :: 0 <= p < n && log[p].index == i && made[p] == Stamp(log, made, n, i)
                          && forall q :: p < q < n ==> log[q].index != i
  {
    if n > 0 && log[n - 1].index != i {
      StampHas(log, made, n - 1, i);
    }
  }

  lemma {:induction false} StampPrefix<T>(log: seq<Entry<Slot<T>>>, made: seq<nat>, m: nat, n: nat, i: nat)
    requires n <= m <= |log| == |made|
    ensures Stamp(log[..m], made[..m], n, i) == Stamp(log, made, n, i)
  {
    if n > 0 && log[n - 1].index != i {
      StampPrefix(log, made, m, n - 1, i);
    }
  }

  /** Stamps name the level of the last entry for the slot; a slot has at most one entry per level. */
  ghost predicate Stamped<T>(slots: seq<Slot<T>>, log: seq<Entry<Slot<T>>>, made: seq<nat>) {
    && |made| == |log| && InRange(log, |slots|)
    && (forall i {:trigger slots[i].stamp} :: 0 <= i < |slots| ==> slots[i].stamp == Stamp(log, made, |log|, i))
    && (forall p {:trigger log[p].cached} :: 0 <= p < |log| ==>
       log[p].cached.stamp == Stamp(log, made, p, log[p].index))
    && OncePerLevel(log, made)
  }

  ghost predicate OncePerLevel<T>(log: seq<Entry<Slot<T>>>, made: seq<nat>)
    requires |made| == |log|
  {
    forall p, q :: 0 <= p < q < |log| && log[p].index == log[q].index ==> made[p] < made[q]
  }

  /** Entries before a saved size were made at or below its level, later ones above. */
  ghost predicate Levelled(made: seq<nat>, t: Track<nat>) {
    && (forall p :: 0 <= p < |made| ==> made[p] <= t.level)
    && (forall k :: 0 <= k < |t.saved| ==> Splits(made, t.saved[k].level, t.saved[k].copy))
    && (forall k, l :: 0 <= k < l < |t.saved| ==> t.saved[k].copy <= t.saved[l].copy)
  }

  ghost predicate Splits(made: seq<nat>, level: nat, n: nat) {
    n <= |made| && forall p :: 0 <= p < |made| ==> (p < n <==> made[p] <= level)
  }

  lemma StampAppend<T>(log: seq<Entry<Slot<T>>>, made: seq<nat>, e: Entry<Slot<T>>, top: nat, n: nat, i: nat)
    requires |log| == |made| && n <= |log|
    ensures Stamp(log + [e], made + [top], n, i) == Stamp(log, made, n, i)
  {
    StampPrefix(log + [e], made + [top], |log|, n, i);
    assert (log + [e])[..|log|] == log && (made + [top])[..|log|] == made;
  }

  lemma OnceAppend<T>(log: seq<Entry<Slot<T>>>, made: seq<nat>, e: Entry<Slot<T>>, top: nat)
    requires |log| == |made| && OncePerLevel(log, made) && Stamp(log, made, |log|, e.index) != top
    requires forall p :: 0 <= p < |made| ==> made[p] <= top
    ensures OncePerLevel(log + [e], made + [top])
  {
    StampHas(log, made, |log|, e.index);
  }

  lemma StampedSet<T>(slots: seq<Slot<T>>, log: seq<Entry<Slot<T>>>, made: seq<nat>, i: nat, d: T, top: nat)
    requires Stamped(slots, log, made) && i < |slots| && slots[i].stamp != top
    requires forall p :: 0 <= p < |made| ==> made[p] <= top
    ensures Stamped(slots[i := Slot(d, top)], log + [Entry(slots[i], i)], made + [top])
  {
    var e := Entry(slots[i], i);
    var slots', log', made' := slots[i := Slot(d, top)], log + [e], made + [top];
    OnceAppend(log, made, e, top);
    forall j | 0 <= j < |slots'| ensures slots'[j].stamp == Stamp(log', made', |log'|, j) {
      StampAppend(log, made, e, top, |log|, j);
      assert j != i ==> slots[j].stamp == Stamp(log, made, |log|, j);
    }
    forall p | 0 <= p < |log'| ensures log'[p].cached.stamp == Stamp(log', made', p, log'[p].index) {
      StampAppend(log, made, e, top, p, log'[p].index);
      assert p < |log| ==> log[p].cached.stamp == Stamp(log, made, p, log[p].index);
    }
  }

  lemma StampedUndo<T>(slots: seq<Slot<T>>, log: seq<Entry<Slot<T>>>, made: seq<nat>)
    requires Stamped(slots, log, made) && log != []
    ensures var m := |log| - 1;
            log[m].index < |slots| && Stamped(slots[log[m].index := log[m].cached], log[..m], made[..m])
  {
    var m := |log| - 1;
    var slots' := slots[log[m].index := log[m].cached];
    forall n, j: nat | 0 <= n <= m ensures Stamp(log[..m], made[..m], n, j) == Stamp(log, made, n, j) {
      StampPrefix(log, made, m, n, j);
    }
    forall i | 0 <= i < |slots'| ensures slots'[i].stamp == Stamp(log[..m], made[..m], m, i) {
      assert i != log[m].index ==> slots[i].stamp == Stamp(log, made, |log|, i);
    }
    forall p | 0 <= p < m ensures log[..m][p].cached.stamp == Stamp(log[..m], made[..m], p, log[..m][p].index) {
      assert log[p].cached.stamp == Stamp(log, made, p, log[p].index);
    }
  }

  lemma StampedGrow<T>(slots: seq<Slot<T>>, log: seq<Entry<Slot<T>>>, made: seq<nat>, d: T)
    requires Stamped(slots, log, made)
    ensures Stamped(slots + [Slot(d, -1)], log, made)
  {
    StampHas(log, made, |log|, |slots|);
  }

  /** A slot that was stamped in the top level has an entry that every pop undoes. */
  lemma StampedHidden<T>(slots: seq<Slot<T>>, log: seq<Entry<Slot<T>>>, made: seq<nat>, t: Track<nat>, top: nat, i: nat)
    returns (p: nat)
    requires Stamped(slots, log, made) && Levelled(made, t) && t.Valid() && t.level <= top
    requires i < |slots| && slots[i].stamp == top
    ensures p < |log| && log[p].index == i && t.level == top
    ensures forall k :: 0 <= k < |t.saved| ==> t.saved[k].copy <= p
  {
    StampHas(log, made, |log|, i);
    p :| 0 <= p < |log| && log[p].index == i && made[p] == top;
    forall k | 0 <= k < |t.saved| ensures t.saved[k].copy <= p {
      assert Splits(made, t.saved[k].level, t.saved[k].copy);
    }
  }

  lemma LevelledSave(made: seq<nat>, t: Track<nat>, top: nat)
    requires Levelled(made, t) && t.Valid() && t.level <= top
    ensures var t' := t.MakeCurrent(top, |made|); t'.Valid() && Levelled(made + [top], t')
  {
    WriteLevels(t, |made|, |made|, top);
    var t', made' := t.MakeCurrent(top, |made|), made + [top];
    forall k | 0 <= k < |t'.saved| ensures Splits(made', t'.saved[k].level, t'.saved[k].copy) {
      assert k < |t.saved| ==> Splits(made, t.saved[k].level, t.saved[k].copy);
    }
  }

  lemma LevelledCut(made: seq<nat>, t: Track<nat>)
    requires Levelled(made, t) && t.Valid() && t.saved != []
    ensures var n := t.saved[|t.saved| - 1].copy; n <= |made| && Levelled(made[..n], t.Restored())
  {
    var m := |t.saved| - 1;
    var n := t.saved[m].copy;
    assert Splits(made, t.saved[m].level, n);
    forall k | 0 <= k < m ensures Splits(made[..n], t.saved[k].level, t.saved[k].copy) {
      assert Splits(made, t.saved[k].level, t.saved[k].copy);
    }
  }

  /** What a saved size of the log stands for. */
  ghost function DataAt<T>(slots: seq<Slot<T>>, log: seq<Entry<Slot<T>>>): nat -> seq<T> {
    (n: nat) => Datas(Undone(slots, log, n))
  }

  datatype Op<T> = Set(index: nat, data: T) | Append(data: T)

  /** A set beyond the end is the caller's error; a run skips it. */
  ghost function SetOne<T>(v: seq<T>, op: Op<T>): seq<T> {
    if op.Set? && op.index < |v| then v[op.index := op.data] else v
  }

  ghost function AppendOne<T>(v: seq<T>, op: Op<T>): seq<T> {
    v + [op.data]
  }

  ghost predicate Appends<T>(v: seq<T>, op: Op<T>) {
    op.Append?
  }

  /** A set acts on the current level, an append on all of them. */
  ghost function VectorEffects<T>(): Effects<seq<T>, Op<T>> {
    Effects(SetOne, AppendOne, Appends)
  }

  lemma SetLogged<T>(slots: seq<Slot<T>>, log: seq<Entry<Slot<T>>>, i: nat, e: Slot<T>, t: Track<nat>, top: nat)
    requires t.Valid() && t.level <= top && i < |slots|
    requires forall k :: 0 <= k < |t.saved| ==> t.saved[k].copy <= |log|
    ensures View(DataAt(slots[i := e], log + [Entry(slots[i], i)]), t.MakeCurrent(top, |log|), |log| + 1, top) ==
            View(DataAt(slots, log), t, |log|, top)[top := Datas(slots)[i := e.data]]
  {
    var f, f' := DataAt(slots, log), DataAt(slots[i := e], log + [Entry(slots[i], i)]);
    forall n: nat | n <= |log| ensures f'(n) == f(n) {
      UndoneLogged(slots, log, i, e, n);
    }
    WriteView(f, f', t, |log|, |log| + 1, top);
    assert Datas(slots[i := e]) == Datas(slots)[i := e.data];
  }

  lemma SetHidden<T>(slots: seq<Slot<T>>, log: seq<Entry<Slot<T>>>, i: nat, e: Slot<T>, t: Track<nat>, top: nat, p: nat)
    requires t.Valid() && t.level == top && i < |slots| && p < |log| && log[p].index == i
    requires forall k :: 0 <= k < |t.saved| ==> t.saved[k].copy <= p
    ensures View(DataAt(slots[i := e], log), t, |log|, top) ==
            View(DataAt(slots, log), t, |log|, top)[top := Datas(slots)[i := e.data]]
  {
    var f, f' := DataAt(slots, log), DataAt(slots[i := e], log);
    forall n: nat | n <= p ensures f'(n) == f(n) {
      UndoneHidden(slots, log, i, e, n, p);
    }
    WriteView(f, f', t, |log|, |log|, top);
    assert Datas(slots[i := e]) == Datas(slots)[i := e.data];
  }

  lemma Grown<T>(slots: seq<Slot<T>>, log: seq<Entry<Slot<T>>>, e: Slot<T>, t: Track<nat>, top: nat)
    requires InRange(log, |slots|)
    ensures View(DataAt(slots + [e], log), t, |log|, top) ==
            Everywhere(AppendOne, View(DataAt(slots, log), t, |log|, top), Append(e.data))
  {
    var f, f' := DataAt(slots, log), DataAt(slots + [e], log);
    forall i | 0 <= i <= top ensures f'(t.At(|log|, i)) == f(t.At(|log|, i)) + [e.data] {
      UndoneGrown(slots, [e], log, t.At(|log|, i));
    }
  }

  lemma CutLog<T>(slots: seq<Slot<T>>, log: seq<Entry<Slot<T>>>, t: Track<nat>, top: nat)
    requires t.Valid() && t.level == top > 0
    requires forall k :: 0 <= k < |t.saved| ==> t.saved[k].copy <= t.saved[|t.saved| - 1].copy <= |log|
    ensures var n := t.saved[|t.saved| - 1].copy;
            && t.Restored().Valid() && t.Restored().level < top
            && View(DataAt(Undone(slots, log, n), log[..n]), t.Restored(), n, top - 1) ==
               View(DataAt(slots, log), t, |log|, top)[..top]
  {
    var n := t.saved[|t.saved| - 1].copy;
    var f, f' := DataAt(slots, log), DataAt(Undone(slots, log, n), log[..n]);
    forall m: nat | m <= n ensures f'(m) == f(m) {
      UndoneTwice(slots, log, n, m);
    }
    PopView(f, f', t, |log|, top);
  }

  class CDVector<T> {
    var current: seq<Slot<T>>
    /** The history is a CDList: `track` holds its saved sizes. */
    var history: seq<Entry<Slot<T>>>
    /** The level of the context and the history's place in it. */
    var top: nat
    var track: Track<nat>
    /** The level in which each entry of the history was made. */
    ghost var made: seq<nat>

    ghost predicate Valid()
      reads this
    {
      Stamped(current, history, made) && Levelled(made, track) && track.Valid() && track.level <= top
    }

    /** The vector at every level of the context. */
    ghost function Stack(): (r: seq<seq<T>>)
      reads this
      ensures |r| == top + 1
    {
      View(DataAt(current, history), track, |history|, top)
    }

    lemma TopIsCurrent()
      requires Valid()
      ensures Stack()[top] == Datas(current)
    {
      PushView(DataAt(current, history), track, |history|, top);
    }

    lemma SavedInLog()
      requires Valid()
      ensures forall k :: 0 <= k < |track.saved| ==> track.saved[k].copy <= |history|
    {
      assert forall k :: 0 <= k < |track.saved| ==> Splits(made, track.saved[k].level, track.saved[k].copy);
    }

    constructor ()
      ensures Valid() && top == 0 && Stack() == [[]]
    {
      current, history, made := [], [], [];
      top, track := 0, Track(0, []);
      new;
      TopIsCurrent();
    }

    /** The new slot has its value in every level. */
    method PushBack(d: T)
      requires Valid()
      modifies this`current
      ensures Valid() && Stack() == Everywhere(AppendOne, old(Stack()), Append(d))
    {
      StampedGrow(current, history, made, d);
      Grown(current, history, Slot(d, -1), track, top);
      current := current + [Slot(d, -1)];
    }

    method Get(i: nat) returns (d: T)
      requires Valid() && i < |current|
      ensures i < |Stack()[top]| && d == Stack()[top][i]
    {
      TopIsCurrent();
      d := current[i].data;
    }

    method Set(i: nat, d: T)
      requires Valid() && i < |current|
      modifies this`current, this`history, this`track, this`made
      ensures Valid() && |current| == |old(current)|
      ensures Stack() == old(Stack())[top := old(Datas(current))[i := d]]
    {
      if current[i].stamp == top {
        ghost var p := StampedHidden(current, history, made, track, top, i);
        SetHidden(current, history, i, Slot(d, top), track, top, p);
        current := current[i := current[i].(data := d)];
      } else {
        SavedInLog();
        SetLogged(current, history, i, Slot(d, top), track, top);
        StampedSet(current, history, made, i, d, top);
        LevelledSave(made, track, top);
        track := track.MakeCurrent(top, |history|);
        history := history + [Entry(current[i], i)];
        made := made + [top];
        current := current[i := Slot(d, top)];
      }
    }

    method ContextPush()
      requires Valid()
      modifies this`top
      ensures Valid() && top == old(top) + 1 && Stack() == old(Stack()) + [old(Stack()[top])]
    {
      PushView(DataAt(current, history), track, |history|, top);
      top := top + 1;
    }

    method ContextPop()
      requires Valid() && top > 0
      modifies this
      ensures Valid() && top == old(top) - 1 && Stack() == old(Stack())[..top + 1]
    {
      if track.level == top {
        Undo();
      } else {
        PopView(DataAt(current, history), DataAt(current, history), track, |history|, top);
        top := top - 1;
      }
    }

    method Undo()
      requires Valid() && track.level == top > 0
      modifies this
      ensures Valid() && top == old(top) - 1 && Stack() == old(Stack())[..top + 1]
    {
      SavedInLog();
      LevelledCut(made, track);
      CutLog(current, history, track, top);
      var n := track.saved[|track.saved| - 1].copy;
      track, top := track.Restored(), top - 1;
      TruncateHistory(n);
    }

    /** truncateList of the history, whose clean-up puts the cached slot back. */
    method TruncateHistory(n: nat)
      requires Stamped(current, history, made) && n <= |history|
      modifies this`current, this`history, this`made
      ensures Stamped(current, history, made) && history == old(history)[..n] && made == old(made)[..n]
      ensures current == Undone(old(current), old(history), n)
    {
      while |history| != n
        invariant Stamped(current, history, made) && n <= |history| <= |old(history)|
        invariant history == old(history)[..|history|] && made == old(made)[..|history|]
        invariant Undone(current, history, n) == Undone(old(current), old(history), n)
        decreases |history|
      {
        StampedUndo(current, history, made);
        var back := history[|history| - 1];
        made := made[..|history| - 1];
        history := history[..|history| - 1];
        current := current[back.index := back.cached];
      }
    }

    method RunOne(step: Step<Op<T>>)
      requires Valid() && top + 1 + Change(step) > 0
      modifies this
      ensures Valid() && Stack() == ApplyAll(VectorEffects(), old(Stack()), step)
    {
      TopIsCurrent();
      match step {
        case Push =>
          ContextPush();
          assert Stack() == ApplyAll(VectorEffects(), old(Stack()), step);
        case Pop =>
          ContextPop();
          assert Stack() == ApplyAll(VectorEffects(), old(Stack()), step);
        case Act(Append(d)) =>
          PushBack(d);
          assert Stack() == ApplyAll(VectorEffects(), old(Stack()), step);
        case Act(Set(i, d)) =>
          if i < |current| {
            Set(i, d);
          }
          assert Stack() == ApplyAll(VectorEffects(), old(Stack()), step);
      }
    }

    /** Any run of sets, appends, pushes and pops acts as the same run on a stack of sequences. */
    method Run(steps: seq<Step<Op<T>>>)
      requires Valid() && Legal(top + 1, steps)
      modifies this
      ensures Valid() && Stack() == AfterAll(VectorEffects(), old(Stack()), steps)
      decreases |steps|
    {
      if steps != [] {
        RunOne(steps[0]);
        Run(steps[1..]);
      }
    }
  }

  // ---------- StackingVector ----------

  /** operator[]: beyond the end there is the default value. */
  ghost function Read<T>(v: seq<T>, i: nat, dflt: T): T {
    if i < |v| then v[i] else dflt
  }

  /** vector::resize to at least n elements. */
  function Resized<T>(v: seq<T>, n: nat, dflt: T): (r: seq<T>)
    ensures |r| == (if n <= |v| then |v| else n) && v <= r
    ensures forall i: nat :: Read(r, i, dflt) == Read(v, i, dflt)
  {
    if n <= |v| then v else v + seq(n - |v|, _ => dflt)
  }

  ghost function StateAt<T>(slots: seq<T>, log: seq<Entry<T>>): nat -> seq<T> {
    (n: nat) => Undone(slots, log, n)
  }

  /** Every level reads the same after a resize. */
  lemma ResizedLevels<T>(slots: seq<T>, slots': seq<T>, log: seq<Entry<T>>, dflt: T, t: Track<nat>, live: nat,
    top: nat, n: nat)
    requires InRange(log, |slots|) && slots' == Resized(slots, n, dflt)
    ensures forall l: nat, i: nat :: 0 <= l <= top ==>
              Read(View(StateAt(slots', log), t, live, top)[l], i, dflt) ==
                Read(View(StateAt(slots, log), t, live, top)[l], i, dflt)
  {
    var more := slots'[|slots|..];
    assert slots' == slots + more;
    forall i | 0 <= i < |more| ensures more[i] == dflt {
      assert Read(slots', |slots| + i, dflt) == Read(slots, |slots| + i, dflt);
    }
    forall l: nat, i: nat | 0 <= l <= top
      ensures Read(View(StateAt(slots', log), t, live, top)[l], i, dflt) ==
              Read(View(StateAt(slots, log), t, live, top)[l], i, dflt)
    {
      UndoneGrown(slots, more, log, t.At(live, l));
    }
  }

  lemma TraceWrite<T>(slots: seq<T>, log: seq<Entry<T>>, i: nat, e: T, t: Track<nat>, top: nat)
    requires t.Valid() && t.level <= top && i < |slots| && Ascending(t, |log|)
    ensures var t' := t.MakeCurrent(top, |log|);
            && t'.Valid() && t'.level <= top && Ascending(t', |log| + 1)
            && View(StateAt(slots[i := e], log + [Entry(slots[i], i)]), t', |log| + 1, top) ==
               View(StateAt(slots, log), t, |log|, top)[top := slots[i := e]]
  {
    var f, f' := StateAt(slots, log), StateAt(slots[i := e], log + [Entry(slots[i], i)]);
    forall n: nat | n <= |log| ensures f'(n) == f(n) {
      UndoneLogged(slots, log, i, e, n);
    }
    WriteView(f, f', t, |log|, |log| + 1, top);
  }

  lemma TraceCut<T>(slots: seq<T>, log: seq<Entry<T>>, t: Track<nat>, top: nat)
    requires t.Valid() && t.level == top > 0 && Ascending(t, |log|)
    ensures var n := t.saved[|t.saved| - 1].copy;
            && n <= |log| && t.Restored().Valid() && t.Restored().level < top && Ascending(t.Restored(), n)
            && View(StateAt(Undone(slots, log, n), log[..n]), t.Restored(), n, top - 1) ==
               View(StateAt(slots, log), t, |log|, top)[..top]
  {
    var n := t.saved[|t.saved| - 1].copy;
    var f, f' := StateAt(slots, log), StateAt(Undone(slots, log, n), log[..n]);
    forall m: nat | m <= n ensures f'(m) == f(m) {
      UndoneTwice(slots, log, n, m);
    }
    PopView(f, f', t, |log|, top);
  }

  /** The newest saved offset. */
  ghost function NewestOffset(t: Track<nat>): nat {
    if t.saved == [] then 0 else t.saved[|t.saved| - 1].copy
  }

  class StackingVector<T> {
    /** The value of the default constructor of the element type. */
    const dflt: T
    var elems: seq<T>
    var trace: seq<Entry<T>>
    /** A CDO: `track` holds its saved values. */
    var offset: nat
    /** The level of the context and the offset's place in it. */
    var top: nat
    var track: Track<nat>

    ghost predicate Valid()
      reads this
    {
      && offset == |trace| && InRange(trace, |elems|)
      && track.Valid() && track.level <= top && Ascending(track, offset)
    }

    /** The vector at every level of the context. */
    ghost function Stack(): (r: seq<seq<T>>)
      reads this
      ensures |r| == top + 1
    {
      View(StateAt(elems, trace), track, offset, top)
    }

    /** What level l reads at index i. */
    ghost function ReadAt(l: nat, i: nat): T
      requires l <= top
      reads this
    {
      Read(Stack()[l], i, dflt)
    }

    /** A vector can be created at any level. */
    constructor (dflt: T, level: nat)
      ensures Valid() && top == level && track == Track(0, []) && offset == 0 && this.dflt == dflt
      ensures forall l: nat, i: nat :: l <= level ==> ReadAt(l, i) == dflt
    {
      this.dflt := dflt;
      elems, trace, offset, top, track := [], [], 0, level, Track(0, []);
    }

    method Get(n: nat) returns (v: T)
      requires Valid()
      ensures v == ReadAt(top, n)
    {
      PushView(StateAt(elems, trace), track, offset, top);
      v := if n < |elems| then elems[n] else dflt;
    }

    /** Only the current level sees the new value; growing the vector shows in no level. */
    method Set(n: nat, newValue: T)
      requires Valid()
      modifies this`elems, this`trace, this`offset, this`track
      ensures Valid() && track == old(track).MakeCurrent(top, old(offset))
      ensures OneWritten(old(Stack()), dflt, n, newValue, Stack())
    {
      ResizedLevels(elems, Resized(elems, n + 1, dflt), trace, dflt, track, offset, top, n + 1);
      if n >= |elems| {
        elems := Resized(elems, n + 1, dflt);
      }
      assert forall l: nat, i: nat :: l <= top ==> ReadAt(l, i) == old(ReadAt(l, i));
      Write(n, newValue);
    }

    method Write(n: nat, newValue: T)
      requires Valid() && n < |elems|
      modifies this`elems, this`trace, this`offset, this`track
      ensures Valid() && track == old(track).MakeCurrent(top, old(offset))
      ensures OneWritten(old(Stack()), dflt, n, newValue, Stack())
    {
      PushView(StateAt(elems, trace), track, offset, top);
      TraceWrite(elems, trace, n, newValue, track, top);
      trace := trace + [Entry(elems[n], n)];
      track := track.MakeCurrent(top, offset);
      offset := |trace|;
      elems := elems[n := newValue];
      assert Stack() == old(Stack())[top := elems];
    }

    method ContextPush()
      requires Valid()
      modifies this`top
      ensures Valid() && top == old(top) + 1 && Stack() == old(Stack()) + [old(Stack()[top])]
    {
      PushView(StateAt(elems, trace), track, offset, top);
      top := top + 1;
    }

    /** The offset is restored first; the notification that follows the pop undoes the trace down to it. */
    method ContextPop()
      requires Valid() && top > 0
      modifies this
      ensures Valid() && top == old(top) - 1 && Stack() == old(Stack())[..top + 1]
      ensures track == if old(track.level) == old(top) then old(track).Restored() else old(track)
      ensures offset == if old(track.level) == old(top) then NewestOffset(old(track)) else old(offset)
    {
      if track.level == top {
        TraceCut(elems, trace, track, top);
        offset := track.saved[|track.saved| - 1].copy;
        track := track.Restored();
      } else {
        PopView(StateAt(elems, trace), StateAt(elems, trace), track, offset, top);
        assert trace[..|trace|] == trace;
      }
      top := top - 1;
      ContextNotifyPop();
    }

    method ContextNotifyPop()
      requires offset <= |trace| && InRange(trace, |elems|)
      modifies this`elems, this`trace
      ensures trace == old(trace)[..offset] && elems == Undone(old(elems), old(trace), offset)
    {
      while offset < |trace|
        invariant offset <= |trace| <= |old(trace)| && trace == old(trace)[..|trace|] && |elems| == |old(elems)|
        invariant Undone(elems, trace, offset) == Undone(old(elems), old(trace), offset)
      {
        var p := trace[|trace| - 1];
        elems := elems[p.index := p.cached];
        trace := trace[..|trace| - 1];
      }
    }

    /** The vectors of the levels as finite maps, with the default elsewhere. */
    ghost function Maps(): (r: seq<map<nat, T>>)
      reads this
      ensures |r| == top + 1
    {
      var stack := Stack();
      seq(|stack|, l requires 0 <= l < |stack| => map i: nat | i < |stack[l]| :: stack[l][i])
    }

    /** Every level reads what the map for it says. */
    ghost predicate Agrees(maps: seq<map<nat, T>>)
      reads this
    {
      ReadsLike(Stack(), dflt, maps)
    }

    method RunOne(step: Step<(nat, T)>, ghost maps: seq<map<nat, T>>)
      requires Valid() && Agrees(maps) && top + 1 + Change(step) > 0
      modifies this
      ensures Valid() && Agrees(Apply(SetEntry, maps, step))
    {
      ghost var stack := Stack();
      match step {
        case Push => ContextPush();
        case Pop => ContextPop();
        case Act((k, v)) => Set(k, v);
      }
      ReadsAfter(stack, dflt, maps, step, Stack());
    }

    method RunFrom(steps: seq<Step<(nat, T)>>, ghost maps: seq<map<nat, T>>)
      requires Valid() && Agrees(maps) && Legal(top + 1, steps)
      modifies this
      ensures Valid() && Agrees(After(SetEntry, maps, steps))
      decreases |steps|
    {
      if steps != [] {
        RunOne(steps[0], maps);
        RunFrom(steps[1..], Apply(SetEntry, maps, steps[0]));
      }
    }

    /** Any run of writes, pushes and pops acts as the same run on a stack of maps. */
    method Run(steps: seq<Step<(nat, T)>>)
      requires Valid() && Legal(top + 1, steps)
      modifies this
      ensures Valid() && Agrees(After(SetEntry, old(Maps()), steps))
    {
      assert Agrees(Maps());
      RunFrom(steps, Maps());
    }
  }

  /** Every level of the stack reads what the map for it says. */
  ghost predicate ReadsLike<T>(stack: seq<seq<T>>, dflt: T, maps: seq<map<nat, T>>) {
    |maps| == |stack| && forall l, i: nat :: 0 <= l < |stack| ==> Read(stack[l], i, dflt) == Entered(maps[l], i, dflt)
  }

  /** Index n of the top level reads the new value, and all else is as it was. */
  ghost predicate OneWritten<T>(stack: seq<seq<T>>, dflt: T, n: nat, v: T, stack': seq<seq<T>>) {
    && |stack'| == |stack|
    && forall l, i: nat :: 0 <= l < |stack| ==>
         Read(stack'[l], i, dflt) == if l == |stack| - 1 && i == n then v else Read(stack[l], i, dflt)
  }

  lemma ReadsAfter<T>(stack: seq<seq<T>>, dflt: T, maps: seq<map<nat, T>>, step: Step<(nat, T)>, stack': seq<seq<T>>)
    requires ReadsLike(stack, dflt, maps) && stack != [] && |stack| + Change(step) > 0
    requires match step
             case Push => stack' == stack + [stack[|stack| - 1]]
             case Pop => stack' == stack[..|stack| - 1]
             case Act((n, v)) => OneWritten(stack, dflt, n, v, stack')
    ensures ReadsLike(stack', dflt, Apply(SetEntry, maps, step))
  {
  }

  ghost function Entered<T>(m: map<nat, T>, i: nat, dflt: T): T {
    if i in m then m[i] else dflt
  }

  ghost function SetEntry<T>(m: map<nat, T>, e: (nat, T)): map<nat, T> {
    m[e.0 := e.1]
  }
}
