/**
 The context and its region allocator together (src/context/context.cpp on top of
 src/context/context_mm.cpp): a push opens a region, saved copies and scopes are allocated in the
 region of the level in which they are made, and a pop releases the region after its objects have
 been restored.  No saved copy that is still needed lies in released memory.
 */
module ContextMemory {
  import opened Basics
  import opened SaveStack
  import opened ContextModel
  import opened ContextKernel
  import opened RegionAllocator

  ghost predicate IsCopy<O>(m: Model<O>, n: O) {
    n in m.ids && n !in m.tracks
  }

  /** The block of a copy was allocated in its region: after the blocks of the region below, before the next push. */
  ghost predicate Housed<O>(m: Model<O>, place: map<O, nat>, stack: seq<Region>, n: O)
    requires IsCopy(m, n)
  {
    var r := m.ids[n].region;
    n in place && 0 < r < |stack| && |stack[r - 1].blocks| <= place[n] < |stack[r].blocks|
  }

  /** Every saved copy has a block of its own in its region, and there is a region for every level. */
  ghost predicate Lodged<O>(m: Model<O>, place: map<O, nat>, stack: seq<Region>) {
    && |stack| == |m.chains|
    && (forall n {:trigger IsCopy(m, n)} :: n in m.ids && IsCopy(m, n) ==> Housed(m, place, stack, n))
    && (forall n, n' {:trigger IsCopy(m, n), IsCopy(m, n')} ::
          n in m.ids && n' in m.ids && IsCopy(m, n) && IsCopy(m, n') && n != n' ==> place[n] != place[n'])
  }

  /** No two saved copies share a byte, and all their bytes are in chunks that have not been released. */
  lemma CopiesApart<O>(m: Model<O>, place: map<O, nat>, stack: seq<Region>, n: O, n': O, p: Ptr)
    requires Lodged(m, place, stack) && Nested(stack) && IsCopy(m, n) && IsCopy(m, n')
    ensures var r := stack[|stack| - 1];
            && n in place && place[n] < |r.blocks| && n' in place && place[n'] < |r.blocks|
            && (r.blocks[place[n]].Covers(p) ==> p.chunk in r.chunks && p.offset < CHUNK_SIZE)
            && (r.blocks[place[n]].Covers(p) && r.blocks[place[n']].Covers(p) ==> n == n')
  {
    var top := |stack| - 1;
    assert Housed(m, place, stack, n) && Housed(m, place, stack, n');
    var a, b := m.ids[n].region, m.ids[n'].region;
    assert a < top ==> Continues(stack[a], stack[top]);
    assert b < top ==> Continues(stack[b], stack[top]);
    if stack[top].blocks[place[n]].Covers(p) {
      BlocksDisjoint(stack[top], place[n], place[n'], p);
    }
  }

  lemma LodgedPush<O>(m: Model<O>, place: map<O, nat>, stack: seq<Region>)
    requires Lodged(m, place, stack) && stack != []
    ensures Lodged(Pushed(m), place, stack + [stack[|stack| - 1]])
  {
    var m', stack' := Pushed(m), stack + [stack[|stack| - 1]];
    forall n | n in m'.ids && IsCopy(m', n) ensures Housed(m', place, stack', n) {
      assert IsCopy(m, n) && Housed(m, place, stack, n);
    }
    forall n, n' | n in m'.ids && n' in m'.ids && IsCopy(m', n) && IsCopy(m', n') && n != n'
      ensures place[n] != place[n'] {
      assert IsCopy(m, n) && IsCopy(m, n');
    }
  }

  /** The region of the top level has got further blocks. */
  ghost predicate TopGrows(stack: seq<Region>, stack': seq<Region>) {
    var top := |stack| - 1;
    && stack != [] && |stack'| == |stack| && stack'[..top] == stack[..top] && stack[top].blocks <= stack'[top].blocks
  }

  lemma LodgedGrow<O>(m: Model<O>, place: map<O, nat>, stack: seq<Region>, stack': seq<Region>)
    requires Lodged(m, place, stack) && TopGrows(stack, stack')
    ensures Lodged(m, place, stack')
  {
    var top := |stack| - 1;
    forall n | n in m.ids && IsCopy(m, n) ensures Housed(m, place, stack', n) {
      assert Housed(m, place, stack, n);
      var r := m.ids[n].region;
      assert stack'[r - 1] == stack'[..top][r - 1] == stack[..top][r - 1] == stack[r - 1];
      assert r < top ==> stack'[r] == stack'[..top][r] == stack[..top][r] == stack[r];
    }
  }

  /** The block that was allocated last belongs to the region of the top level, and to no copy. */
  ghost predicate OneSpare<O>(m: Model<O>, place: map<O, nat>, stack: seq<Region>) {
    && |stack| > 1 && |stack[|stack| - 2].blocks| < |stack[|stack| - 1].blocks|
    && forall n {:trigger IsCopy(m, n)} :: n in m.ids && IsCopy(m, n) ==>
         n in place && place[n] != |stack[|stack| - 1].blocks| - 1
  }

  lemma SpareBlock<O>(m: Model<O>, place: map<O, nat>, stack: seq<Region>, stack': seq<Region>)
    requires Lodged(m, place, stack) && Nested(stack) && TopGrows(stack, stack') && |stack| > 1
    requires |stack'[|stack| - 1].blocks| == |stack[|stack| - 1].blocks| + 1
    ensures OneSpare(m, place, stack')
  {
    var top := |stack| - 1;
    assert Continues(stack[top - 1], stack[top]);
    assert stack'[top - 1] == stack'[..top][top - 1] == stack[..top][top - 1] == stack[top - 1];
    forall n | n in m.ids && IsCopy(m, n) ensures n in place && place[n] < |stack[top].blocks| {
      assert Housed(m, place, stack, n);
      var r := m.ids[n].region;
      assert r < top ==> Continues(stack[r], stack[top]);
    }
  }

  /** A copy that is saved in the top level gets the block that was allocated last. */
  lemma LodgedSave<O>(m: Model<O>, m': Model<O>, place: map<O, nat>, stack: seq<Region>, o: O)
    requires Lodged(m, place, stack) && OneSpare(m, place, stack) && |m'.chains| == |m.chains|
    requires o in m.tracks && o in m'.tracks && m.tracks[o].level != |m.chains| - 1
    requires CopiesSame(m, m') && OneSaved(m, m', o)
    ensures Lodged(m', place[Newest(m'.tracks[o]) := |stack[|stack| - 1].blocks| - 1], stack)
  {
    var top, c := |stack| - 1, Newest(m'.tracks[o]);
    var place' := place[c := |stack[top].blocks| - 1];
    forall n | n in m'.ids && IsCopy(m', n) ensures Housed(m', place', stack, n) {
      assert n != c ==> IsCopy(m, n) && Housed(m, place, stack, n);
    }
    forall n, n' | n in m'.ids && n' in m'.ids && IsCopy(m', n) && IsCopy(m', n') && n != n'
      ensures place'[n] != place'[n']
    {
      assert n != c ==> IsCopy(m, n) && Housed(m, place, stack, n);
      assert n' != c ==> IsCopy(m, n') && Housed(m, place, stack, n');
    }
  }

  /** An operation after which all copies are copies from before. */
  lemma LodgedAmong<O>(m: Model<O>, m': Model<O>, place: map<O, nat>, stack: seq<Region>)
    requires Lodged(m, place, stack) && |m'.chains| == |m.chains|
    requires forall n {:trigger IsCopy(m', n)} :: n in m'.ids && IsCopy(m', n) ==> IsCopy(m, n) && m'.ids[n] == m.ids[n]
    ensures Lodged(m', place, stack)
  {
    forall n | n in m'.ids && IsCopy(m', n) ensures IsCopy(m, n) && Housed(m', place, stack, n) {
      assert IsCopy(m, n) && Housed(m, place, stack, n);
    }
  }

  lemma OthersLeft<O>(m: Model<O>, m': Model<O>, o: O)
    requires Inv(m) && Inv(m') && OnlyTouches(m, m', o) && m'.tracks == m.tracks - {o}
    ensures forall n {:trigger IsCopy(m', n)} :: n in m'.ids && IsCopy(m', n) ==> IsCopy(m, n) && m'.ids[n] == m.ids[n]
  {
    forall n | n in m'.ids && IsCopy(m', n) ensures IsCopy(m, n) && m'.ids[n] == m.ids[n] {
      assert Owned(m', n);
      LiveIsNode(m);
    }
  }

  /** A pop leaves no copy that lies in the region that goes. */
  lemma LodgedPop<O>(m: Model<O>, m': Model<O>, place: map<O, nat>, stack: seq<Region>)
    requires Lodged(m, place, stack) && |m'.chains| == |m.chains| - 1 > 0 && Inv(m')
    requires CopiesSame(m, m') && m'.ids.Keys <= m.ids.Keys
    ensures Lodged(m', place, stack[..|stack| - 1])
  {
    LiveIsNode(m');
    forall n | n in m'.ids && IsCopy(m', n) ensures IsCopy(m, n) && Housed(m', place, stack[..|stack| - 1], n) {
      assert IsCopy(m, n) && Housed(m, place, stack, n);
      assert Owned(m', n);
      CopyRegion(m', n);
    }
  }

  /** CDO::set, on the context alone. */
  method Assign<P>(c: Context<P>, o: ContextObj<P>, v: P)
    requires c.Valid() && o in c.m.tracks
    modifies c, c.scopes, c.m.ids.Keys
    ensures c.Valid() && c.scopes == old(c.scopes) && |c.m.chains| == |old(c.m).chains|
    ensures o in c.m.tracks && c.m.tracks[o].level == c.Level() && o.data == v
    ensures CopiesSame(old(c.m), c.m) && OneSaved(old(c.m), c.m, o)
  {
    c.ScopeLevel(o);
    c.Set(o, v);
  }

  class ManagedContext<P> {
    const context: Context<P>
    const memory: ContextMemoryManager
    /** The size of a Scope. */
    const scopeSize: nat
    /** The number of the block of each saved copy, in the order of allocation. */
    ghost var place: map<ContextObj<P>, nat>

    ghost predicate Valid()
      reads this, context, context.scopes, context.m.ids.Keys, memory
    {
      && context.Valid() && memory.Valid() && scopeSize <= CHUNK_SIZE
      && Lodged(context.m, place, memory.Stack())
    }

    constructor (scopeSize: nat)
      requires scopeSize <= CHUNK_SIZE
      ensures Valid() && fresh(context) && fresh(context.scopes) && fresh(memory) && context.m.ids == map[]
    {
      context := new Context<P>();
      memory := new ContextMemoryManager();
      this.scopeSize, place := scopeSize, map[];
    }

    /** Context::push */
    method Push()
      requires Valid()
      modifies context, memory
      ensures Valid() && context.Level() == old(context.Level()) + 1
      ensures memory.Stack()[..context.Level()] == old(memory.Stack())
      ensures |memory.blocks| == |old(memory.blocks)| + 1 && memory.blocks[|old(memory.blocks)|].size == scopeSize
    {
      ghost var m, stack := context.m, memory.Stack();
      LodgedPush(m, place, stack);
      Open();
      LodgedGrow(Pushed(m), place, stack + [stack[|stack| - 1]], memory.Stack());
      context.Push();
    }

    /** The region for the new level, with its scope. */
    method Open()
      requires memory.Valid() && scopeSize <= CHUNK_SIZE
      modifies memory
      ensures memory.Valid()
      ensures var stack := old(memory.Stack()); TopGrows(stack + [stack[|stack| - 1]], memory.Stack())
      ensures |memory.blocks| == |old(memory.blocks)| + 1 && memory.blocks[|old(memory.blocks)|].size == scopeSize
    {
      memory.Push();
      var _ := memory.NewData(scopeSize);
    }

    /** Context::pop: the objects are restored, and then the region goes. */
    method Pop()
      requires Valid() && context.Level() > 0
      modifies context, context.scopes, context.m.ids.Keys, memory
      ensures Valid() && context.Level() == old(context.Level()) - 1
      ensures memory.Stack() == old(memory.Stack())[..context.Level() + 1]
      ensures SameBelow(old(context.m), old(context.Data()), context.m, context.Data(), context.Level() + 1)
    {
      ghost var m, stack := context.m, memory.Stack();
      Leave();
      LodgedPop(m, context.m, place, stack);
      Release();
    }

    method Leave()
      requires context.Valid() && context.Level() > 0
      modifies context, context.scopes, context.m.ids.Keys
      ensures context.Valid() && context.Level() == old(context.Level()) - 1 && unchanged(memory)
      ensures context.m.ids.Keys <= old(context.m.ids.Keys) && CopiesSame(old(context.m), context.m)
      ensures SameBelow(old(context.m), old(context.Data()), context.m, context.Data(), context.Level() + 1)
    {
      context.Pop();
    }

    method Release()
      requires context.Valid() && memory.Valid() && |memory.Stack()| > 1
      modifies memory
      ensures context.Valid() && unchanged(context) && context.Data() == old(context.Data())
      ensures memory.Valid() && memory.Stack() == old(memory.Stack())[..|old(memory.Stack())| - 1]
    {
      memory.Pop();
    }

    /** A new object is not allocated here. */
    method New(v: P) returns (o: ContextObj<P>)
      requires Valid()
      modifies context, context.scopes, context.m.ids.Keys
      ensures Valid() && fresh(o) && o in context.m.tracks && o.data == v
      ensures context.scopes == old(context.scopes) && unchanged(memory)
    {
      ghost var m, stack := context.m, memory.Stack();
      LiveIsNode(m);
      o := context.New(v);
      LodgedAmong(m, context.m, place, stack);
    }

    /** A destruction gives up copies, and their blocks stay taken until their regions go. */
    method Destroy(o: ContextObj<P>)
      requires Valid() && o in context.m.tracks
      modifies context, context.scopes, context.m.ids.Keys
      ensures Valid() && context.m.tracks == old(context.m.tracks) - {o}
      ensures context.scopes == old(context.scopes) && unchanged(memory)
    {
      ghost var m, stack := context.m, memory.Stack();
      LiveIsNode(m);
      context.Destroy(o);
      OthersLeft(m, context.m, o);
      LodgedAmong(m, context.m, place, stack);
    }

    /** A write.  The copy of an object that is not current is allocated first, and it has to fit into a chunk. */
    method Set(o: ContextObj<P>, v: P, size: nat) returns (ok: bool)
      requires Valid() && o in context.m.tracks
      modifies this`place, context, context.scopes, context.m.ids.Keys, memory
      ensures Valid() && context.scopes == old(context.scopes)
      ensures ok == (old(context.m.tracks[o].level == context.Level()) || size <= CHUNK_SIZE)
      ensures ok ==> o.data == v && o in context.m.tracks && context.m.tracks[o].level == context.Level()
      ensures !ok ==> unchanged(context) && place == old(place)
      ensures memory.Stack()[..context.Level()] == old(memory.Stack())[..context.Level()]
      ensures old(context.m.tracks[o].level == context.Level()) ==> unchanged(memory) && place == old(place)
      ensures ok && old(context.m.tracks[o].level != context.Level()) ==> CopyStored(o, size)
    {
      context.ScopeLevel(o);
      if o.scope == context.scopes[|context.scopes| - 1] {
        SetCurrent(o, v);
        ok := true;
      } else {
        ok := SaveAndSet(o, v, size);
      }
    }

    method SaveAndSet(o: ContextObj<P>, v: P, size: nat) returns (ok: bool)
      requires Valid() && o in context.m.tracks && context.m.tracks[o].level != context.Level()
      requires context.Level() > 0
      modifies this`place, context, context.scopes, context.m.ids.Keys, memory
      ensures Valid() && context.scopes == old(context.scopes) && ok == (size <= CHUNK_SIZE)
      ensures memory.Stack()[..context.Level()] == old(memory.Stack())[..context.Level()]
      ensures !ok ==> unchanged(context) && place == old(place)
      ensures ok ==> o.data == v && o in context.m.tracks && context.m.tracks[o].level == context.Level()
      ensures ok ==> CopyStored(o, size)
    {
      ok := Allocate(size);
      if ok {
        Settle(o, v);
      }
    }

    method Settle(o: ContextObj<P>, v: P)
      requires Valid() && o in context.m.tracks && context.m.tracks[o].level != context.Level()
      requires OneSpare(context.m, place, memory.Stack())
      modifies this`place, context, context.scopes, context.m.ids.Keys
      ensures Valid() && context.scopes == old(context.scopes) && unchanged(memory) && memory.blocks != []
      ensures o.data == v && o in context.m.tracks && context.m.tracks[o].level == context.Level()
      ensures CopyStored(o, memory.blocks[|memory.blocks| - 1].size)
    {
      ghost var place' := SetSaved(o, v);
      place := place';
    }

    /** The newest copy of the object has a block of its size. */
    ghost predicate CopyStored(o: ContextObj<P>, size: nat)
      reads this, context, memory
    {
      && o in context.m.tracks && context.m.tracks[o].saved != []
      && var c := Newest(context.m.tracks[o]);
         c in place && place[c] < |memory.blocks| && memory.blocks[place[c]].size == size
    }

    method SetCurrent(o: ContextObj<P>, v: P)
      requires Valid() && o in context.m.tracks && context.m.tracks[o].level == context.Level()
      modifies context, context.scopes, context.m.ids.Keys
      ensures Valid() && context.scopes == old(context.scopes) && unchanged(memory)
      ensures o.data == v && o in context.m.tracks && context.m.tracks[o].level == context.Level()
    {
      ghost var m, stack := context.m, memory.Stack();
      Write(o, v);
      LodgedAmong(m, context.m, place, stack);
    }

    /** The context does not touch the allocator. */
    method Write(o: ContextObj<P>, v: P)
      requires context.Valid() && o in context.m.tracks
      modifies context, context.scopes, context.m.ids.Keys
      ensures context.Valid() && context.scopes == old(context.scopes)
      ensures o in context.m.tracks && context.m.tracks[o].level == context.Level() && o.data == v
      ensures CopiesSame(old(context.m), context.m) && OneSaved(old(context.m), context.m, o)
      ensures |context.m.chains| == |old(context.m).chains|
      ensures unchanged(memory)
    {
      Assign(context, o, v);
    }

    /** A block for the next copy, behind those that are taken. */
    method Allocate(size: nat) returns (ok: bool)
      requires Valid() && context.Level() > 0
      modifies memory
      ensures Valid() && ok == (size <= CHUNK_SIZE)
      ensures var top := context.Level();
              && |memory.Stack()| == |old(memory.Stack())| && memory.Stack()[..top] == old(memory.Stack())[..top]
              && (ok ==> OneSpare(context.m, place, memory.Stack()) && memory.blocks[|memory.blocks| - 1].size == size)
    {
      ghost var stack := memory.Stack();
      ok := NewBlock(size);
      LodgedGrow(context.m, place, stack, memory.Stack());
      if ok {
        SpareBlock(context.m, place, stack, memory.Stack());
      }
    }

    method NewBlock(size: nat) returns (ok: bool)
      requires memory.Valid()
      modifies memory
      ensures memory.Valid() && ok == (size <= CHUNK_SIZE) && TopGrows(old(memory.Stack()), memory.Stack())
      ensures ok ==> |memory.blocks| == |old(memory.blocks)| + 1 && memory.blocks[|memory.blocks| - 1].size == size
    {
      var p := memory.NewData(size);
      ok := p.Some?;
    }

    /** The copy takes the block that was allocated last. */
    method SetSaved(o: ContextObj<P>, v: P) returns (ghost place': map<ContextObj<P>, nat>)
      requires Valid() && o in context.m.tracks && context.m.tracks[o].level != context.Level()
      requires OneSpare(context.m, place, memory.Stack())
      modifies context, context.scopes, context.m.ids.Keys
      ensures context.Valid() && context.scopes == old(context.scopes) && unchanged(memory) && unchanged(this)
      ensures o.data == v && o in context.m.tracks && context.m.tracks[o].level == context.Level()
      ensures context.m.tracks[o].saved != [] && memory.blocks != []
      ensures place' == place[Newest(context.m.tracks[o]) := |memory.blocks| - 1]
      ensures memory.Valid() && Lodged(context.m, place', memory.Stack())
    {
      ghost var m, stack := context.m, memory.Stack();
      Write(o, v);
      LodgedSave(m, context.m, place, stack, o);
      place' := place[Newest(context.m.tracks[o]) := |stack[|stack| - 1].blocks| - 1];
    }

    /** No two saved copies share a byte, and all their bytes are in active chunks. */
    lemma Apart(n: ContextObj<P>, n': ContextObj<P>, p: Ptr)
      requires Valid() && IsCopy(context.m, n) && IsCopy(context.m, n')
      ensures n in place && place[n] < |memory.blocks| && n' in place && place[n'] < |memory.blocks|
      ensures memory.blocks[place[n]].Covers(p) ==> p.chunk in memory.chunkList && p.offset < CHUNK_SIZE
      ensures memory.blocks[place[n]].Covers(p) && memory.blocks[place[n']].Covers(p) ==> n == n'
    {
      CopiesApart(context.m, place, memory.Stack(), n, n', p);
    }
  }
}
