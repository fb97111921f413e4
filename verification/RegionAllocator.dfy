/**
 The region-based memory manager of the context (src/context/context_mm.cpp).  A
 pointer is a chunk, numbered by the call of malloc that made it, and an offset.
 */
module RegionAllocator {
  import opened Basics
  import opened StackRuns

  const CHUNK_SIZE: nat := 16384
  const MAX_FREE_CHUNKS: nat := 100

  datatype Ptr = Ptr(chunk: nat, offset: nat)

  /** A result of newData: `size` bytes of the chunk at `position` in the list of active chunks. */
  datatype Block = Block(start: Ptr, size: nat, position: nat) {
    ghost predicate Covers(p: Ptr) {
      p.chunk == start.chunk && start.offset <= p.offset < start.offset + size
    }
  }

  /** The allocation point of a region, with all the chunks and blocks up to it. */
  datatype Region = Region(chunks: seq<nat>, nextFree: Ptr, endChunk: Ptr, blocks: seq<Block>) {

    ghost predicate Ok() {
      && chunks != [] && Distinct(chunks)
      && nextFree.chunk == chunks[|chunks| - 1] && endChunk == Ptr(nextFree.chunk, CHUNK_SIZE)
      && (forall i :: 0 <= i < |blocks| ==> InPlace(blocks[i]))
      && (forall i, j :: 0 <= i < j < |blocks| ==> Before(blocks[i], blocks[j].position, blocks[j].start.offset))
    }

    /** The block lies within one active chunk, before the allocation point. */
    ghost predicate InPlace(b: Block) {
      && b.position < |chunks| && b.start.chunk == chunks[b.position]
      && b.start.offset + b.size <= CHUNK_SIZE
      && Before(b, |chunks| - 1, nextFree.offset)
    }
  }

  ghost predicate Before(b: Block, position: int, offset: nat) {
    b.position < position || (b.position == position && b.start.offset + b.size <= offset)
  }

  ghost predicate Bounded(s: seq<nat>, n: nat) {
    forall i :: 0 <= i < |s| ==> s[i] < n
  }

  ghost predicate Apart(a: seq<nat>, b: seq<nat>) {
    Distinct(a) && Distinct(b) && forall i, j :: 0 <= i < |a| && 0 <= j < |b| ==> a[i] != b[j]
  }

  /** No byte belongs to two blocks that have not been released, and all are bytes of active chunks. */
  lemma BlocksDisjoint(r: Region, i: nat, j: nat, p: Ptr)
    requires r.Ok() && i < |r.blocks| && r.blocks[i].Covers(p)
    ensures p.chunk in r.chunks && p.offset < CHUNK_SIZE
    ensures j < |r.blocks| && r.blocks[j].Covers(p) ==> i == j
  {
    assert r.InPlace(r.blocks[i]);
    if j < |r.blocks| && j != i {
      assert r.InPlace(r.blocks[j]);
      var a, b := if i < j then r.blocks[i] else r.blocks[j], if i < j then r.blocks[j] else r.blocks[i];
      assert Before(a, b.position, b.start.offset);
    }
  }

  /** A request is served right at the allocation point. */
  ghost function Bumped(r: Region, size: nat): Region
    requires r.chunks != []
  {
    r.(nextFree := Ptr(r.nextFree.chunk, r.nextFree.offset + size),
       blocks := r.blocks + [Block(r.nextFree, size, |r.chunks| - 1)])
  }

  lemma BumpedOk(r: Region, size: nat)
    requires r.Ok() && r.nextFree.offset + size <= CHUNK_SIZE
    ensures Bumped(r, size).Ok()
  {
    var r' := Bumped(r, size);
    forall i | 0 <= i < |r'.blocks| ensures r'.InPlace(r'.blocks[i]) {
      assert i < |r.blocks| ==> r.InPlace(r.blocks[i]);
    }
    forall i | 0 <= i < |r.blocks| ensures Before(r.blocks[i], |r.chunks| - 1, r.nextFree.offset) {
      assert r.InPlace(r.blocks[i]);
    }
  }

  /** The allocation point moves to a chunk that was not active. */
  ghost function Extended(r: Region, chunk: nat, offset: nat): Region {
    Region(r.chunks + [chunk], Ptr(chunk, offset), Ptr(chunk, CHUNK_SIZE), r.blocks)
  }

  lemma ExtendedOk(r: Region, chunk: nat, offset: nat)
    requires r.Ok() && chunk !in r.chunks
    ensures Extended(r, chunk, offset).Ok()
  {
    var r' := Extended(r, chunk, offset);
    forall i | 0 <= i < |r'.blocks| ensures r'.InPlace(r'.blocks[i]) {
      assert r.InPlace(r.blocks[i]);
    }
  }

  /** A stack of regions, each of which continues the one before it. */
  ghost predicate Nested(stack: seq<Region>) {
    && stack != []
    && (forall i :: 0 <= i < |stack| ==> stack[i].Ok())
    && (forall i, j :: 0 <= i < j < |stack| ==> Continues(stack[i], stack[j]))
  }

  ghost predicate Continues(r: Region, r': Region) {
    r.chunks <= r'.chunks && r.blocks <= r'.blocks
  }

  lemma NestedTop(stack: seq<Region>, r: Region)
    requires Nested(stack) && r.Ok() && Continues(stack[|stack| - 1], r)
    ensures Nested(stack[|stack| - 1 := r])
  {
    var n := |stack| - 1;
    forall i | 0 <= i < n ensures Continues(stack[i], r) {
      assert Continues(stack[i], stack[n]);
    }
  }

  lemma NestedPrefix(stack: seq<Region>, n: nat)
    requires Nested(stack) && 0 < n <= |stack|
    ensures Nested(stack[..n])
  {
  }

  /** The chunk at the start or the end of a list goes to another list. */
  lemma ApartMove(a: seq<nat>, b: seq<nat>, c: seq<nat>, i: nat)
    requires Apart(a, b) && Apart(a, c) && Apart(b, c) && i < |b|
    ensures var b', c' := b[..i] + b[i + 1..], c + [b[i]];
            Apart(a, b') && Apart(a, c') && Apart(b', c')
  {
    assert forall j :: 0 <= j < |a| ==> a[j] != b[i];
  }

  lemma {:induction false} AtMost(s: seq<nat>, n: nat)
    requires Distinct(s) && Bounded(s, n)
    ensures |s| <= n
  {
    if s != [] {
      assert s[0] < n;
      if i :| 0 <= i < |s| && s[i] == n - 1 {
        AtMost(s[..i] + s[i + 1..], n - 1);
      } else {
        AtMost(s, n - 1);
      }
    }
  }

  /** Different numbers below n, n of them, are all the numbers below n. */
  lemma AllBelow(s: seq<nat>, n: nat)
    requires Distinct(s) && Bounded(s, n) && |s| == n
    ensures forall c :: c in s <==> 0 <= c < n
  {
    forall c | 0 <= c < n ensures c in s {
      if c !in s {
        AtMost(s + [c], n);
      }
    }
  }

  class ContextMemoryManager {
    var chunkList: seq<nat>
    var freeChunks: seq<nat>
    var nextFree: Ptr
    var endChunk: Ptr
    var indexChunkList: nat
    var nextFreeStack: seq<Ptr>
    var endChunkStack: seq<Ptr>
    var indexChunkListStack: seq<nat>
    /** The calls of malloc, which number the chunks, and the chunks given to free, in order. */
    var mallocs: nat
    var freed: seq<nat>
    /** The blocks that are not released, in the order of allocation. */
    ghost var blocks: seq<Block>
    /** The regions to which the pops return, as they were when they were pushed. */
    ghost var saved: seq<Region>

    /** The saved regions and the current one. */
    ghost function Stack(): (r: seq<Region>)
      reads this
      ensures |r| == |saved| + 1
    {
      saved + [Region(chunkList, nextFree, endChunk, blocks)]
    }

    /** Every chunk is in one place of one of these: active, free, given back. */
    ghost predicate ChunksOk()
      reads this`chunkList, this`freeChunks, this`freed, this`mallocs
    {
      && Apart(chunkList, freeChunks) && Apart(chunkList, freed) && Apart(freeChunks, freed)
      && Bounded(chunkList, mallocs) && Bounded(freeChunks, mallocs) && Bounded(freed, mallocs)
      && mallocs == |chunkList| + |freeChunks| + |freed|
    }

    /** The three stacks describe the saved regions. */
    ghost predicate StacksOk()
      reads this
    {
      && |chunkList| == indexChunkList + 1
      && |nextFreeStack| == |endChunkStack| == |indexChunkListStack| == |saved|
      && forall i :: 0 <= i < |saved| ==>
         Describes(saved[i], nextFreeStack[i], endChunkStack[i], indexChunkListStack[i])
    }

    ghost predicate Valid()
      reads this
    {
      Nested(Stack()) && StacksOk() && ChunksOk() && |freeChunks| <= MAX_FREE_CHUNKS
    }

    constructor ()
      ensures Valid() && Stack() == [Region([0], Ptr(0, 0), Ptr(0, CHUNK_SIZE), [])] && freeChunks == []
    {
      chunkList, freeChunks := [0], [];
      nextFree, endChunk := Ptr(0, 0), Ptr(0, CHUNK_SIZE);
      indexChunkList, mallocs, freed := 0, 1, [];
      nextFreeStack, endChunkStack, indexChunkListStack := [], [], [];
      blocks, saved := [], [];
    }

    method NewChunk()
      requires Valid()
      modifies this`chunkList, this`freeChunks, this`nextFree, this`endChunk, this`indexChunkList, this`mallocs
      ensures Valid() && nextFree.chunk !in old(chunkList) && nextFree.offset == 0
      ensures chunkList == old(chunkList) + [nextFree.chunk]
      ensures Stack() == old(Stack())[|saved| := Extended(old(Stack()[|saved|]), nextFree.chunk, 0)]
    {
      ghost var was := Stack();
      ghost var r := was[|saved|];
      indexChunkList := indexChunkList + 1;
      TakeChunk();
      var chunk := chunkList[|chunkList| - 1];
      assert chunkList == r.chunks + [chunk];
      ExtendedOk(r, chunk, 0);
      NestedTop(was, Extended(r, chunk, 0));
      nextFree := Ptr(chunk, 0);
      endChunk := Ptr(chunk, CHUNK_SIZE);
      assert Stack() == was[|saved| := Extended(r, nextFree.chunk, 0)];
    }

    /** A free chunk, the newest first, or a new one from malloc. */
    method TakeChunk()
      requires ChunksOk() && |freeChunks| <= MAX_FREE_CHUNKS
      modifies this`chunkList, this`freeChunks, this`mallocs
      ensures ChunksOk() && |freeChunks| <= MAX_FREE_CHUNKS
      ensures |chunkList| == |old(chunkList)| + 1 && chunkList[..|old(chunkList)|] == old(chunkList)
      ensures chunkList[|old(chunkList)|] !in old(chunkList)
    {
      var n, m := |chunkList|, |freeChunks| - 1;
      if freeChunks == [] {
        chunkList := chunkList + [mallocs];
        mallocs := mallocs + 1;
      } else {
        chunkList := chunkList + [freeChunks[m]];
        freeChunks := freeChunks[..m];
      }
    }

    /**
     newData: `size` bytes from the current region.  A request beyond the chunk size is an error
     that uses up a chunk; it spoils nothing, as the next request moves on to another chunk.
     */
    method NewData(size: nat) returns (res: Option<Ptr>)
      requires Valid()
      modifies this`chunkList, this`freeChunks, this`nextFree, this`endChunk, this`indexChunkList, this`mallocs,
               this`blocks
      ensures Valid() && Stack()[..|saved|] == old(Stack())[..|saved|]
      ensures res.Some? <==> size <= CHUNK_SIZE
      ensures blocks ==
              match res { case None => old(blocks) case Some(p) => old(blocks) + [Block(p, size, |chunkList| - 1)] }
      ensures old(nextFree).offset + size <= CHUNK_SIZE ==> res == Some(old(nextFree)) && chunkList == old(chunkList)
      ensures old(nextFree).offset + size > CHUNK_SIZE ==> chunkList == old(chunkList) + [nextFree.chunk]
      ensures nextFree.offset == size + if chunkList == old(chunkList) then old(nextFree).offset else 0
      ensures Answered(old(Stack()[|saved|]), Stack()[|saved|], size, res)
    {
      if nextFree.offset + size > CHUNK_SIZE {
        NewChunk();
        if size > CHUNK_SIZE {
          Overrun(size);
          return None;
        }
      }
      res := Some(nextFree);
      Bump(size);
    }

    method Bump(size: nat)
      requires Valid() && nextFree.offset + size <= CHUNK_SIZE
      modifies this`nextFree, this`blocks
      ensures Valid() && Stack() == old(Stack())[|saved| := Bumped(old(Stack()[|saved|]), size)]
      ensures nextFree == Ptr(old(nextFree).chunk, old(nextFree).offset + size)
      ensures blocks == old(blocks) + [Block(old(nextFree), size, |chunkList| - 1)]
    {
      ghost var was := Stack();
      BumpedOk(was[|saved|], size);
      NestedTop(was, Bumped(was[|saved|], size));
      blocks := blocks + [Block(nextFree, size, |chunkList| - 1)];
      nextFree := Ptr(nextFree.chunk, nextFree.offset + size);
      assert Stack() == was[|saved| := Bumped(was[|saved|], size)];
    }

    /** The pointer has been moved past the end of the new chunk when the error is raised. */
    method Overrun(size: nat)
      requires Valid() && nextFree.offset == 0
      modifies this`nextFree
      ensures Valid() && nextFree == Ptr(old(nextFree).chunk, size) && Stack()[..|saved|] == old(Stack())[..|saved|]
    {
      ghost var was := Stack();
      ghost var r := was[|saved|];
      nextFree := Ptr(nextFree.chunk, size);
      ghost var r' := r.(nextFree := nextFree);
      assert r'.Ok() by {
        forall i | 0 <= i < |r.blocks| ensures r'.InPlace(r.blocks[i]) { assert r.InPlace(r.blocks[i]); }
      }
      NestedTop(was, r');
      assert Stack() == was[|saved| := r'];
    }

    method Push()
      requires Valid()
      modifies this`nextFreeStack, this`endChunkStack, this`indexChunkListStack, this`saved
      ensures Valid() && Stack() == old(Stack()) + [old(Stack()[|saved|])]
    {
      nextFreeStack := nextFreeStack + [nextFree];
      endChunkStack := endChunkStack + [endChunk];
      indexChunkListStack := indexChunkListStack + [indexChunkList];
      saved := saved + [Stack()[|saved|]];
    }

    /** The region goes back to exactly what it was at the matching push; few free chunks are kept. */
    method Pop()
      requires Valid() && saved != []
      modifies this
      ensures Valid() && Stack() == old(Stack())[..|old(saved)|]
      ensures |freeChunks| <= MAX_FREE_CHUNKS && mallocs == old(mallocs)
    {
      SavedTop();
      ghost var n := |saved| - 1;
      ghost var r := saved[n];
      var last := |nextFreeStack| - 1;
      nextFree := nextFreeStack[last];
      nextFreeStack := nextFreeStack[..last];
      endChunk := endChunkStack[last];
      endChunkStack := endChunkStack[..last];
      FreeDownTo(indexChunkListStack[last]);
      indexChunkListStack := indexChunkListStack[..last];
      TrimFree();
      blocks, saved := r.blocks, saved[..n];
      assert Stack()[n] == r;
      assert Stack() == old(saved);
    }

    /** The newest saved region, as the stacks describe it. */
    lemma SavedTop()
      requires Valid() && saved != []
      ensures Nested(saved) && saved == Stack()[..|saved|]
      ensures var n := |saved| - 1; var i := indexChunkListStack[n];
              i <= indexChunkList
                && saved[n] == Region(chunkList[..i + 1], nextFreeStack[n], endChunkStack[n], saved[n].blocks)
    {
      var n := |saved| - 1;
      NestedPrefix(Stack(), n + 1);
      assert Describes(saved[n], nextFreeStack[n], endChunkStack[n], indexChunkListStack[n]);
      assert Continues(Stack()[n], Stack()[n + 1]);
      assert saved[n].chunks == chunkList[..|saved[n].chunks|];
    }

    /** All chunks after the given index become free. */
    method FreeDownTo(index: nat)
      requires ChunksOk() && |chunkList| == indexChunkList + 1 && index <= indexChunkList
      modifies this`chunkList, this`freeChunks, this`indexChunkList
      ensures ChunksOk() && indexChunkList == index && chunkList == old(chunkList)[..index + 1]
    {
      while indexChunkList > index
        invariant ChunksOk() && |chunkList| == indexChunkList + 1 && index <= indexChunkList <= old(indexChunkList)
        invariant chunkList == old(chunkList)[..indexChunkList + 1]
      {
        freeChunks := freeChunks + [chunkList[indexChunkList]];
        chunkList := chunkList[..indexChunkList];
        indexChunkList := indexChunkList - 1;
      }
    }

    /** The oldest free chunks go back to the system. */
    method TrimFree()
      requires ChunksOk()
      modifies this`freeChunks, this`freed
      ensures ChunksOk() && |freeChunks| <= MAX_FREE_CHUNKS
      ensures |old(freeChunks)| <= MAX_FREE_CHUNKS ==> freeChunks == old(freeChunks) && freed == old(freed)
      ensures |old(freeChunks)| > MAX_FREE_CHUNKS ==>
                var n := |old(freeChunks)| - MAX_FREE_CHUNKS;
                freeChunks == old(freeChunks)[n..] && freed == old(freed) + old(freeChunks)[..n]
    {
      ghost var n := 0;
      while |freeChunks| > MAX_FREE_CHUNKS
        invariant ChunksOk() && n <= |old(freeChunks)| && freeChunks == old(freeChunks)[n..]
        invariant freed == old(freed) + old(freeChunks)[..n]
        invariant n > 0 ==> |freeChunks| >= MAX_FREE_CHUNKS
      {
        ApartMove(chunkList, freeChunks, freed, 0);
        freed := freed + [freeChunks[0]];
        freeChunks := freeChunks[1..];
        n := n + 1;
      }
    }

    /** The destructor: every chunk that malloc made has been given to free, and no chunk twice. */
    method Destroy()
      requires ChunksOk()
      modifies this`chunkList, this`freeChunks, this`freed
      ensures chunkList == [] && freeChunks == [] && old(freed) <= freed
      ensures Distinct(freed) && forall c :: c in freed <==> 0 <= c < mallocs
    {
      while chunkList != []
        invariant ChunksOk() && old(freed) <= freed
      {
        var n := |chunkList| - 1;
        ApartMove(freeChunks, chunkList, freed, n);
        freed := freed + [chunkList[n]];
        chunkList := chunkList[..n];
      }
      while freeChunks != []
        invariant ChunksOk() && chunkList == [] && old(freed) <= freed
      {
        var n := |freeChunks| - 1;
        ApartMove(chunkList, freeChunks, freed, n);
        freed := freed + [freeChunks[n]];
        freeChunks := freeChunks[..n];
      }
      AllBelow(freed, mallocs);
    }

    method RunOne(step: Step<nat>)
      requires Valid() && |saved| + 1 + Change(step) > 0
      modifies this
      ensures Valid() && Layouts(Stack()) == Apply(Served, old(Layouts(Stack())), step)
      ensures forall n :: 0 <= n <= old(|saved|) && n <= |saved| ==> Stack()[..n] == old(Stack())[..n]
    {
      ghost var was := Stack();
      match step {
        case Push =>
          Push();
          PushLayouts(was);
        case Pop =>
          Pop();
          PopLayouts(was);
        case Act(size) =>
          var res := NewData(size);
          ServedLayout(was, Stack(), size, res);
      }
    }

    /**
     Any run of requests, pushes and pops lays out the blocks of every region as the same run on a stack of
     layouts does; if it pops none of the lowest n regions, these and every block in them are as they were.
     */
    method Run(steps: seq<Step<nat>>, ghost n: nat)
      requires Valid() && n <= |saved| && Legal(|saved| + 1 - n, steps)
      modifies this
      ensures Valid() && n <= |saved| && Stack()[..n] == old(Stack())[..n]
      ensures Legal(old(|saved|) + 1, steps) && Layouts(Stack()) == After(Served, old(Layouts(Stack())), steps)
      decreases |steps|
    {
      if steps != [] {
        ghost var was := Layouts(Stack());
        AfterKeeps(Served, was, n, steps);
        ghost var after := After(Served, was, steps);
        RunOne(steps[0]);
        assert n <= |saved| && Layouts(Stack()) == Apply(Served, was, steps[0]);
        Run(steps[1..], n);
        assert Layouts(Stack()) == after;
      }
    }
  }

  // ---------- where the blocks lie ----------

  /** A region without the numbers of its chunks: position, offset and size of each block, and the allocation point. */
  datatype Layout = Layout(chunks: nat, offset: nat, blocks: seq<(int, nat, nat)>)

  /**
   A request is served where there is room, else at the start of a further chunk, and fails if it is
   too large for one.
   */
  ghost function Served(l: Layout, size: nat): Layout {
    if l.offset + size <= CHUNK_SIZE then Layout(l.chunks, l.offset + size, l.blocks + [(l.chunks - 1, l.offset, size)])
    else if size <= CHUNK_SIZE then Layout(l.chunks + 1, size, l.blocks + [(l.chunks, 0, size)])
    else Layout(l.chunks + 1, size, l.blocks)
  }

  ghost function LayoutOf(r: Region): (l: Layout)
    ensures l.chunks == |r.chunks| && l.offset == r.nextFree.offset && |l.blocks| == |r.blocks|
    ensures forall i :: 0 <= i < |r.blocks| ==>
              l.blocks[i] == (r.blocks[i].position, r.blocks[i].start.offset, r.blocks[i].size)
  {
    Layout(|r.chunks|, r.nextFree.offset,
           seq(|r.blocks|, i requires 0 <= i < |r.blocks| =>
             (r.blocks[i].position, r.blocks[i].start.offset, r.blocks[i].size)))
  }

  ghost function Layouts(stack: seq<Region>): (r: seq<Layout>)
    ensures |r| == |stack| && forall i :: 0 <= i < |r| ==> r[i] == LayoutOf(stack[i])
  {
    seq(|stack|, i requires 0 <= i < |stack| => LayoutOf(stack[i]))
  }

  lemma PushLayouts(stack: seq<Region>)
    requires stack != []
    ensures Layouts(stack + [stack[|stack| - 1]]) == Apply(Served, Layouts(stack), Step<nat>.Push)
  {
  }

  lemma PopLayouts(stack: seq<Region>)
    requires stack != []
    ensures Layouts(stack[..|stack| - 1]) == Apply(Served, Layouts(stack), Step<nat>.Pop)
  {
  }

  /** A request as newData answers it. */
  lemma ServedLayout(stack: seq<Region>, stack': seq<Region>, size: nat, res: Option<Ptr>)
    requires stack != [] && |stack'| == |stack| && stack'[..|stack| - 1] == stack[..|stack| - 1]
    requires var r, r' := stack[|stack| - 1], stack'[|stack| - 1];
             && r.chunks != [] && Answered(r, r', size, res)
    ensures Layouts(stack') == Apply(Served, Layouts(stack), Act(size))
  {
    var n := |stack| - 1;
    var r, r' := stack[n], stack'[n];
    assert LayoutOf(r').blocks == Served(LayoutOf(r), size).blocks;
    assert LayoutOf(r') == Served(LayoutOf(r), size);
    forall i | 0 <= i < n ensures stack'[i] == stack[i] {
      assert stack'[..n][i] == stack[..n][i];
    }
    assert Layouts(stack') == Layouts(stack)[n := LayoutOf(r')];
  }

  ghost predicate Answered(r: Region, r': Region, size: nat, res: Option<Ptr>) {
    && r'.chunks != [] && (res.Some? <==> size <= CHUNK_SIZE)
    && r'.blocks == (match res case None => r.blocks case Some(p) => r.blocks + [Block(p, size, |r'.chunks| - 1)])
    && (if r.nextFree.offset + size <= CHUNK_SIZE then
          res == Some(r.nextFree) && r'.chunks == r.chunks && r'.nextFree.offset == r.nextFree.offset + size
        else
          && |r'.chunks| == |r.chunks| + 1 && r'.nextFree.offset == size
          && (res.Some? ==> res.value.offset == 0))
  }

  ghost predicate Describes(r: Region, nextFree: Ptr, endChunk: Ptr, index: nat) {
    r.nextFree == nextFree && r.endChunk == endChunk && |r.chunks| == index + 1
  }
}
