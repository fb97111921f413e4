/**
 The save/restore protocol as one context object sees it.

 A context object remembers the scope level it was last made current in and,
 through its restore pointer, one saved copy for every older level in which it
 was current.  A copy taken while the object lived in level `l` describes the
 object for every level from `l` up to (not including) the level of the version
 that was made from it.  The heap protocol that maintains this information is
 module ContextKernel; the containers use it as their own bookkeeping.
 */
module SaveStack {

  /** A saved copy together with the scope level it lives in. */
  datatype Saved<S> = Saved(level: nat, copy: S)

  /** The level of the live object and its saved copies, oldest first. */
  datatype Track<S> = Track(level: nat, saved: seq<Saved<S>>) {

    /** Restore pointers strictly descend in level and end in level zero. */
    ghost predicate Valid() {
      && (saved == [] <==> level == 0)
      && (saved != [] ==> saved[0].level == 0 && saved[|saved| - 1].level < level)
      && forall i, j :: 0 <= i < j < |saved| ==> saved[i].level < saved[j].level
    }

    /** What the object holds at scope level `i`, when `live` is what it holds now. */
    ghost function At(live: S, i: nat): (r: S)
      ensures r == live || exists k :: 0 <= k < |saved| && r == saved[k].copy
      decreases |saved|
    {
      if saved == [] || level <= i then live
      else Track(saved[|saved| - 1].level, saved[..|saved| - 1]).At(saved[|saved| - 1].copy, i)
    }

    /** ContextObj::makeCurrent: nothing, or a save of `copy` and a move to level `top`. */
    function MakeCurrent(top: nat, copy: S): Track<S> {
      if level == top then this else Track(top, saved + [Saved(level, copy)])
    }

    /** The restore that a pop of level `top` performs: drop the newest copy. */
    function Restored(): Track<S>
      requires saved != []
    {
      Track(saved[|saved| - 1].level, saved[..|saved| - 1])
    }
  }

  /** The stack of what the object holds at the levels 0, 1, ..., `top`. */
  ghost function Levels<S>(t: Track<S>, live: S, top: nat): (r: seq<S>)
    ensures |r| == top + 1
    ensures forall i :: 0 <= i <= top ==> r[i] == t.At(live, i)
  {
    seq(top + 1, i requires 0 <= i => t.At(live, i))
  }

  /** Saved sizes grow up to the current one. */
  ghost predicate Ascending(t: Track<nat>, size: nat) {
    && (forall k :: 0 <= k < |t.saved| ==> t.saved[k].copy <= size)
    && (forall k, l :: 0 <= k < l < |t.saved| ==> t.saved[k].copy <= t.saved[l].copy)
  }

  /** A push duplicates the top of the stack. */
  lemma PushLevels<S>(t: Track<S>, live: S, top: nat)
    requires t.Valid() && t.level <= top
    ensures Levels(t, live, top + 1) == Levels(t, live, top) + [live]
    ensures Levels(t, live, top)[top] == live
  {
  }

  /** Making the object current, and then changing it, touches only the top of the stack. */
  lemma WriteLevels<S>(t: Track<S>, live: S, live': S, top: nat)
    requires t.Valid() && t.level <= top
    ensures var t' := t.MakeCurrent(top, live);
            && t'.Valid() && t'.level == top
            && Levels(t', live', top) == Levels(t, live, top)[top := live']
  {
    var t' := t.MakeCurrent(top, live);
    if t.level != top {
      assert t'.saved[..|t'.saved| - 1] == t.saved;
    }
  }

  /** A pop drops the top of the stack, whether or not the object has to be restored. */
  lemma PopLevels<S>(t: Track<S>, live: S, top: nat)
    requires t.Valid() && t.level <= top && top > 0
    ensures t.level == top ==>
              && t.Restored().Valid() && t.Restored().level < top
              && Levels(t.Restored(), t.saved[|t.saved| - 1].copy, top - 1) == Levels(t, live, top)[..top]
    ensures t.level != top ==> Levels(t, live, top - 1) == Levels(t, live, top)[..top]
  {
  }

  /** Where a version is found after makeCurrent: only the newest versions move. */
  lemma AtMakeCurrent<S>(t: Track<S>, live: S, top: nat, copy: S, live': S, i: nat)
    requires t.Valid() && t.level < top
    ensures t.MakeCurrent(top, copy).Valid()
    ensures t.MakeCurrent(top, copy).At(live', i) ==
            if top <= i then live' else if t.level <= i then copy else t.At(live, i)
  {
    var t' := t.MakeCurrent(top, copy);
    assert t'.saved[..|t'.saved| - 1] == t.saved;
  }

  /** Below the object's own level a saved copy is in force. */
  lemma AtIsSaved<S>(t: Track<S>, live: S, i: nat)
    requires t.Valid() && i < t.level
    ensures exists k :: 0 <= k < |t.saved| && t.At(live, i) == t.saved[k].copy
  {
    var n := |t.saved| - 1;
    assert t.At(live, i) == t.Restored().At(t.saved[n].copy, i);
  }

  /** Where a version is found after a restore. */
  lemma AtRestored<S>(t: Track<S>, live: S, live': S, i: nat)
    requires t.Valid() && t.saved != [] && i < t.level
    ensures t.Restored().Valid()
    ensures t.Restored().At(live', i) == if t.Restored().level <= i then live' else t.At(live, i)
    ensures t.Restored().level <= i ==> t.At(live, i) == t.saved[|t.saved| - 1].copy
  {
  }

  // ---------- containers whose saved copies are read against shared storage ----------

  /** The stack of abstract values, when `f` reads a saved copy against the storage that all copies share. */
  ghost function View<S, A>(f: S -> A, t: Track<S>, live: S, top: nat): (r: seq<A>)
    ensures |r| == top + 1
    ensures forall i :: 0 <= i <= top ==> r[i] == f(t.At(live, i))
  {
    seq(top + 1, i requires 0 <= i => f(t.At(live, i)))
  }

  lemma PushView<S, A>(f: S -> A, t: Track<S>, live: S, top: nat)
    requires t.Valid() && t.level <= top
    ensures View(f, t, live, top + 1) == View(f, t, live, top) + [f(live)]
    ensures View(f, t, live, top)[top] == f(live)
  {
  }

  /** A write may change the storage, so long as every saved copy still reads the same. */
  lemma WriteView<S, A>(f: S -> A, f': S -> A, t: Track<S>, live: S, live': S, top: nat)
    requires t.Valid() && t.level <= top
    requires forall k :: 0 <= k < |t.saved| ==> f'(t.saved[k].copy) == f(t.saved[k].copy)
    requires t.level != top ==> f'(live) == f(live)
    ensures var t' := t.MakeCurrent(top, live);
            && t'.Valid() && t'.level == top
            && View(f', t', live', top) == View(f, t, live, top)[top := f'(live')]
  {
    WriteLevels(t, live, live', top);
    var t' := t.MakeCurrent(top, live);
    forall i | 0 <= i < top ensures f'(t'.At(live', i)) == f(t.At(live, i)) {
      assert Levels(t', live', top)[i] == Levels(t, live, top)[i];
      if i < t.level { AtIsSaved(t, live, i); }
    }
  }

  lemma PopView<S, A>(f: S -> A, f': S -> A, t: Track<S>, live: S, top: nat)
    requires t.Valid() && t.level <= top && top > 0
    requires forall k :: 0 <= k < |t.saved| ==> f'(t.saved[k].copy) == f(t.saved[k].copy)
    ensures t.level == top ==>
              && t.Restored().Valid() && t.Restored().level < top
              && View(f', t.Restored(), t.saved[|t.saved| - 1].copy, top - 1) == View(f, t, live, top)[..top]
    ensures t.level != top ==> View(f, t, live, top - 1) == View(f, t, live, top)[..top]
  {
    PopLevels(t, live, top);
    if t.level == top {
      var copy := t.saved[|t.saved| - 1].copy;
      forall i | 0 <= i < top ensures f'(t.Restored().At(copy, i)) == f(t.At(live, i)) {
        assert Levels(t.Restored(), copy, top - 1)[i] == Levels(t, live, top)[i];
        AtIsSaved(t, live, i);
      }
    }
  }

  /** The live object may be replaced by one that reads the same. */
  lemma ViewSame<S, A>(f: S -> A, t: Track<S>, live: S, live': S, top: nat)
    requires f(live) == f(live')
    ensures View(f, t, live, top) == View(f, t, live', top)
  {
    forall i | 0 <= i <= top ensures f(t.At(live, i)) == f(t.At(live', i)) {
      assert t.saved == [] || t.level <= i || t.At(live, i) == t.At(live', i);
    }
  }
}
