/**
 A StackingVector in its context (src/context/stacking_vector.h on top of src/context/context.cpp): the
 context saves and restores the offset, which is one of its objects, and the vector undoes its trace when
 it is notified of a pop.  Other objects live in the same context.
 */
module ContextVector {
  import opened SaveStack
  import opened ContextModel
  import opened ContextTracks
  import opened ContextKernel
  import opened Vectors

  // ---------- the operations of the context, as one of its objects sees them ----------

  ghost predicate Hosted<P>(c: Context<P>, o: ContextObj<P>)
    reads c, c.scopes, c.m.ids.Keys
  {
    c.Valid() && o in c.m.tracks && o in c.m.ids
  }

  ghost function Saves<P>(c: Context<P>, o: ContextObj<P>): (t: Track<P>)
    requires Hosted(c, o)
    reads c, c.scopes, c.m.ids.Keys
    ensures t.Valid() && t.level <= c.Level()
  {
    TrackOf(c.m, c.Data(), o)
  }

  /** The newest saved copy of its data. */
  ghost function Latest<P>(c: Context<P>, o: ContextObj<P>): P
    requires Hosted(c, o)
    reads c, c.scopes, c.m.ids.Keys, o
  {
    var t := Saves(c, o);
    if t.saved == [] then o.data else t.saved[|t.saved| - 1].copy
  }

  /** A new object of the context, which has not been saved. */
  method Join<P>(c: Context<P>, v: P) returns (o: ContextObj<P>)
    requires c.Valid()
    modifies c, c.scopes, c.m.ids.Keys
    ensures Hosted(c, o) && fresh(o) && o.data == v && Saves(c, o) == Track(0, [])
    ensures c.scopes == old(c.scopes) && fresh(c.m.ids.Keys - old(c.m.ids.Keys))
  {
    o := c.New(v);
  }

  /** CDO::set */
  method Assign<P>(c: Context<P>, o: ContextObj<P>, v: P)
    requires Hosted(c, o)
    modifies c, c.scopes, c.m.ids.Keys
    ensures Hosted(c, o) && o.data == v && Saves(c, o) == old(Saves(c, o)).MakeCurrent(c.Level(), old(o.data))
    ensures c.scopes == old(c.scopes) && c.m.tracks.Keys == old(c.m.tracks.Keys)
  {
    ghost var m, d := c.m, c.Data();
    c.Set(o, v);
    SetTrack(m, d, c.m, c.Data(), o);
  }

  /** A push leaves the object as it is. */
  method PushObject<P>(c: Context<P>, o: ContextObj<P>)
    requires Hosted(c, o)
    modifies c
    ensures Hosted(c, o) && c.Level() == old(c.Level()) + 1
    ensures Saves(c, o) == old(Saves(c, o)) && unchanged(o)
    ensures c.m.tracks == old(c.m.tracks)
  {
    PushTrack(c.m, c.Data(), o);
    c.Push();
  }

  /** A pop restores the object exactly if it is current in the level that goes. */
  method PopObject<P>(c: Context<P>, o: ContextObj<P>) returns (restored: bool)
    requires Hosted(c, o) && c.Level() > 0
    modifies c, c.scopes, c.m.ids.Keys
    ensures Hosted(c, o) && c.Level() == old(c.Level()) - 1
    ensures restored == (old(Saves(c, o).level) == old(c.Level()))
    ensures Saves(c, o) == if restored then old(Saves(c, o)).Restored() else old(Saves(c, o))
    ensures o.data == if restored then old(Latest(c, o)) else old(o.data)
    ensures c.scopes == old(c.scopes)[..c.Level() + 1] && c.m.tracks.Keys == old(c.m.tracks.Keys)
  {
    c.ScopeLevel(o);
    restored := o.scope == c.scopes[|c.scopes| - 1];
    ghost var m, d := c.m, c.Data();
    c.Pop();
    PopTrack(m, d, c.m, c.Data(), o);
  }

  /** A write of another object. */
  method Pass<P>(c: Context<P>, o: ContextObj<P>, other: ContextObj<P>, v: P)
    requires Hosted(c, o) && Hosted(c, other) && o != other
    modifies c, c.scopes, c.m.ids.Keys
    ensures Hosted(c, o) && Saves(c, o) == old(Saves(c, o)) && o.data == old(o.data)
    ensures c.scopes == old(c.scopes) && c.m.tracks.Keys == old(c.m.tracks.Keys)
    ensures other.data == v && c.m.tracks[other].level == c.Level()
  {
    ghost var m, d := c.m, c.Data();
    c.ScopeLevel(o);
    c.Set(other, v);
    c.ScopeLevel(o);
    OtherTrack(m, d, c.m, c.Data(), o);
  }

  // ---------- the vector ----------

  /** A StackingVector, the CDO that holds its offset, and the context that drives them. */
  class DrivenVector<T> {
    const context: Context<nat>
    const offset: ContextObj<nat>
    const vector: StackingVector<T>

    ghost predicate Valid()
      reads this, context, context.scopes, context.m.ids.Keys, vector
    {
      Hosted(context, offset) && vector.Valid() && InStep()
    }

    /** What the vector believes of the context is so. */
    ghost predicate InStep()
      requires Hosted(context, offset)
      reads this, context, context.scopes, context.m.ids.Keys, vector
    {
      vector.top == context.Level() && vector.track == Saves(context, offset) && vector.offset == offset.data
    }

    /** A vector can be created at any level. */
    constructor (context: Context<nat>, dflt: T)
      requires context.Valid()
      modifies context, context.scopes, context.m.ids.Keys
      ensures Valid() && this.context == context && fresh(offset) && fresh(vector)
      ensures forall l: nat, i: nat :: l <= vector.top ==> vector.ReadAt(l, i) == dflt
    {
      var o := Join(context, 0);
      var v := new StackingVector<T>(dflt, |context.scopes| - 1);
      this.context, offset, vector := context, o, v;
    }

    /** push() of the context. */
    method ContextPush()
      requires Valid()
      modifies context, vector
      ensures Valid() && context.Level() == old(context.Level()) + 1
      ensures vector.Stack() == old(vector.Stack()) + [old(vector.Stack()[vector.top])]
    {
      Enter();
      VectorPush();
    }

    method Enter()
      requires Hosted(context, offset)
      modifies context
      ensures Hosted(context, offset) && Saves(context, offset) == old(Saves(context, offset))
      ensures context.Level() == old(context.Level()) + 1 && unchanged(offset) && unchanged(vector)
    {
      PushObject(context, offset);
    }

    method VectorPush()
      requires Hosted(context, offset) && vector.Valid()
      modifies vector
      ensures vector.Valid() && vector.top == old(vector.top) + 1
      ensures vector.Stack() == old(vector.Stack()) + [old(vector.Stack()[vector.top])]
      ensures vector.track == old(vector.track) && vector.offset == old(vector.offset)
      ensures Hosted(context, offset) && Saves(context, offset) == old(Saves(context, offset))
      ensures unchanged(context) && unchanged(offset)
    {
      vector.ContextPush();
    }

    /** pop() of the context restores the offset, exactly if it is current, and notifies the vector. */
    method ContextPop() returns (restored: bool)
      requires Valid() && context.Level() > 0
      modifies context, context.scopes, context.m.ids.Keys, vector
      ensures Valid() && context.Level() == old(context.Level()) - 1
      ensures vector.Stack() == old(vector.Stack())[..vector.top + 1]
      ensures restored == (old(vector.track.level) == old(vector.top))
    {
      restored := Leave();
      VectorPop();
    }

    method Leave() returns (restored: bool)
      requires Hosted(context, offset) && context.Level() > 0
      modifies context, context.scopes, context.m.ids.Keys
      ensures Hosted(context, offset) && context.Level() == old(context.Level()) - 1 && unchanged(vector)
      ensures restored == (old(Saves(context, offset).level) == old(context.Level()))
      ensures Saves(context, offset) ==
              if restored then old(Saves(context, offset)).Restored() else old(Saves(context, offset))
      ensures offset.data == if restored then NewestOffset(old(Saves(context, offset))) else old(offset.data)
    {
      ghost var t := Saves(context, offset);
      restored := PopObject(context, offset);
      assert restored ==> t.saved != [] && offset.data == NewestOffset(t);
    }

    method VectorPop()
      requires Hosted(context, offset) && vector.Valid() && vector.top > 0
      modifies vector
      ensures vector.Valid() && vector.top == old(vector.top) - 1
      ensures vector.Stack() == old(vector.Stack())[..vector.top + 1]
      ensures var restored := old(vector.track.level) == old(vector.top);
              && vector.track == (if restored then old(vector.track).Restored() else old(vector.track))
              && vector.offset == (if restored then NewestOffset(old(vector.track)) else old(vector.offset))
      ensures Hosted(context, offset) && Saves(context, offset) == old(Saves(context, offset))
      ensures unchanged(context) && unchanged(offset)
    {
      vector.ContextPop();
    }

    /** set() */
    method Set(n: nat, v: T)
      requires Valid()
      modifies context, context.scopes, context.m.ids.Keys, vector
      ensures Valid() && context.scopes == old(context.scopes)
      ensures OneWritten(old(vector.Stack()), vector.dflt, n, v, vector.Stack())
    {
      ghost var t, off, top := vector.track, vector.offset, vector.top;
      VectorSet(n, v);
      assert vector.track == t.MakeCurrent(top, off) && Saves(context, offset) == t && offset.data == off;
      ghost var t', off', stack := vector.track, vector.offset, vector.Stack();
      SetOffset(vector.offset);
      assert vector.track == t' && vector.offset == off' && vector.Stack() == stack;
    }

    method VectorSet(n: nat, v: T)
      requires Hosted(context, offset) && vector.Valid()
      modifies vector
      ensures vector.Valid() && vector.top == old(vector.top)
      ensures vector.track == old(vector.track).MakeCurrent(vector.top, old(vector.offset))
      ensures OneWritten(old(vector.Stack()), vector.dflt, n, v, vector.Stack())
      ensures Hosted(context, offset) && Saves(context, offset) == old(Saves(context, offset))
      ensures unchanged(context) && unchanged(offset)
    {
      vector.Set(n, v);
    }

    method SetOffset(n: nat)
      requires Hosted(context, offset)
      modifies context, context.scopes, context.m.ids.Keys
      ensures Hosted(context, offset) && offset.data == n && context.scopes == old(context.scopes) && unchanged(vector)
      ensures Saves(context, offset) == old(Saves(context, offset)).MakeCurrent(context.Level(), old(offset.data))
    {
      Assign(context, offset, n);
    }

    /** A write of another object of the context. */
    method Elsewhere(o: ContextObj<nat>, v: nat)
      requires Valid() && Hosted(context, o) && o != offset
      modifies context, context.scopes, context.m.ids.Keys
      ensures Valid() && context.scopes == old(context.scopes) && unchanged(vector) && o.data == v
    {
      Pass(context, offset, o, v);
    }
  }
}
