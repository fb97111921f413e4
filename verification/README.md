# A verified model of CVC4's backtracking core

This project models, in Dafny 4.11, the parts of CVC4 whose correctness is hardest to see from the code, and
proves what they promise.  `dafny verify dfyconfig.toml` checks everything.

**The backtracking context.**  `ContextKernel` is the heap protocol of `src/context`: scopes with intrusive,
doubly linked chains, context objects that move between them, saved copies, restore pointers, `destroy`.  Each
operation keeps a ghost value (`ContextModel`) that lists every chain and every version of every object, and the
theorems about levels are proved on that value.  The main result, `Context.Speculate`, is about every
interleaving of pushes, pops, guarded writes, creations and destructions of objects: afterwards everything that was
live and has not been destroyed has the data, scope and restore pointer it had before, and its place in every chain.
What such a run does is said by `Context.Run`: every object holds at every level what the same operations leave on a
stack of values per object (`ContextStore`), where a push duplicates the top, a pop drops it and a write replaces it.
`ContextMemory` runs the context together with its region allocator (`RegionAllocator`): every saved copy has a block
of its own in a region that has not been popped.

**The containers on top of it.**  A container sees one object's share of that protocol: the level it is current
in and its saved copies (`SaveStack.Track`, the same value that `ContextModel` keeps for each object;
`MakeCurrent` and `Restored` are what `Updated` and `Unwound` do to it).  So each container class has the fields
of the original plus the level `top` of the context and its `track`; `ContextPush` and `ContextPop` are what a
push or pop of the context does to it.  `ContextTracks` proves that the context drives each of its objects in just this
way: a pop restores an object exactly if the level of its `track` is the level that goes; `ContextVector` puts one
container, StackingVector, into a `ContextKernel.Context` beside other objects.

Every container is proved to refine a stack of simple values (`StackRuns`): a push duplicates the top value, a pop
drops it, an operation changes it, and an operation that goes through a level-zero escape hatch changes all of them.
The `Run` methods state this for every run.

**The justification heuristic.**  `Justification` is the splitter search at decision threshold 0 with its
caches.  `SatView` states what it may rely on: the clauses of the assertions are unit-propagated and not in
conflict.  A verdict to stop means that every assertion is true in every extension of the assignment, over all
runs of assignments, new assertions, pushes and pops.  A literal that it decides has the sign that the search asks
for: `Goals` says which values a formula that is to become true asks of its parts, and for assertions of negations,
conjunctions, disjunctions and implications the literal occurs in the negation normal form.

**LFSC side-condition code.**  `LfscReader` gives nodes to the names in a piece of code, `LfscChecker` is the type
checker on its mutable symbol table, `LfscRun` the evaluator that binds variables by overwriting shared nodes.
Reader and checker work by name and are modelled for all code; against them stand static scoping and a type system
(`LfscTyping`), and against the evaluator one with environments as values (`LfscEval`).  Both of these are shown to
be exactly what rules with their own conditions say, a typing judgement (`LfscJudgement`) and a relation between code
and outcomes (`LfscMeaning`), from which the laws of arithmetic, signs and marks follow (`LfscLaws`).  `LfscCommands` puts them
together: what is read and checked yields values of its type under two conditions that the original does not enforce,
and each is shown to be needed (see below).  `Trie` is the path-compressed symbol table.

**Two arithmetic cores.**  `HashWord` and `Sha1` are the symbolic SHA-1 encoder, `Fips180` is SHA-1 after FIPS
180-4 (sections 4.1.1, 4.2.1, 5.1.1, 5.3.1 and 6.1.2), and the expressions of the first are proved to denote the
second.  `Luby` is the restart sequence.

Where the code does not do what its documentation or its purpose promises, the code is modelled:

- `examples/hashsmt/sha1.hpp:30-31` says that messages up to 2^32 bytes are handled.  The length field holds 32
  bits, so the padding is right exactly below 2^29 bytes (`Sha1.PaddingExact`).
- `src/decision/justification_heuristic.cpp:333-346` sorts children by a polarity, but its callers pass a SAT
  value that always converts to `true`; the order of the children is a function of the node alone.
- `src/decision/justification_heuristic.cpp:142-162` asks of an unassigned side of an equivalence or exclusive or
  the value that gives the connective the opposite of the desired value (`Justification.XorIffDesired`).  The verdict
  to stop does not depend on it.
- `proofs/lfsc_checker/code.cpp:945-966` and `:112-119` put back the entries that a pattern has overwritten in the
  order in which they were made, and a pattern such as `(c x x)` is not rejected.  The table is restored if and only
  if no name is repeated (`LfscChecker.CaseRestoresExact`); otherwise `x` keeps a node and a type after the match,
  and code that mentions it there is accepted but returns an unbound symbol (`LfscCommands.RepeatedNameFails`,
  `LfscCommands.PatternExact`).  Type preservation therefore has the condition `DistinctNames`: no pattern has two
  variables with the same name.  Static scoping, on which `LfscRun.Machine.Run` relies, has the same condition.
- `proofs/lfsc_checker/check.cpp:1237` discards the type of the body of a program.  The values it returns have the
  declared type if and only if the body has it (`LfscCommands.WrongResultFails`, `LfscCommands.DeclaredResultExact`).
- `src/context/cdchunk_list.h:277-322` lets a list be created at any level, but puts its first segment into the
  memory of that level while the list itself belongs to level zero.  All reachable segments lie in memory that is not
  released if and only if the context has never been popped below the level of creation, even if the level has been pushed
  again since (`ChunkList.CDChunkList.NoDangling`, `ChunkList.PopAndPush`).  Operations that touch the segments have
  this condition; for a list created at level zero it always holds (`ChunkList.RunFromZero`).

## Model

| member | source | states |
|---|---|---|
| `ContextKernel.AddToChain` | src/context/context.h:738-746 | the object becomes the first of the chain; the chain stays doubly linked and without repetition |
| `ContextKernel.Splice` | src/context/context.cpp:158-174 | a node that has copied the links of another takes exactly its place in the chain |
| `ContextKernel.Unlink` | src/context/context.cpp:250-253 | the node leaves the chain; the order of the others is kept |
| `ContextKernel.MoveToTop` | src/context/context.cpp:158-190 | the copy stands where the object stood and the object is first in the top chain; no other chain changes |
| `ContextKernel.RestoreAndContinue` | src/context/context.cpp:214-235 | the object takes the place of its newest copy in the lower chain and the next object of the walk is returned |
| `ContextKernel.UnlinkAndRestore` | src/context/context.cpp:245-262 | one round of destroy keeps every chain linked |
| `ContextKernel.Context.Push` | src/context/context.cpp:62-71 | a new empty scope; no lower level changes in any respect |
| `ContextKernel.Context.New` | src/context/context.cpp:268-279 | a new object enters the bottom scope and no level changes for any other object |
| `ContextKernel.Context.Update` | src/context/context.cpp:139-195 | the invariant of all chains and versions is kept, and nothing changes for any level below the top |
| `ContextKernel.Context.MakeCurrent` | src/context/context.h:718-722 | the object is current afterwards; no lower level changes |
| `ContextKernel.Context.Set` | src/context/cdo.h:148-151 | the write is seen at the top level only |
| `ContextKernel.Context.ScopeLevel` | src/context/context.h:558-560 | the pointer comparison of isCurrent decides whether the level of the object is the top level |
| `ContextKernel.Context.PopOne` | src/context/context.h:728-735 | one round of the loop of ~Scope restores one object and changes no lower level |
| `ContextKernel.Context.RestoreAll` | src/context/context.h:728-735 | ~Scope terminates with every object of the scope restored and no lower level changed |
| `ContextKernel.Context.Release` | src/context/context.cpp:92-96 | with the scope gone, all chains and versions are consistent again |
| `ContextKernel.Context.Pop` | src/context/context.cpp:74-109 | every lower level is exactly as before: data, scopes, restore pointers and chains of all objects |
| `ContextKernel.Context.PopTo` | src/context/context.cpp:112-116 | the same for any number of pops, with the level clamped to the range of levels |
| `ContextKernel.Context.Run` | src/context/context.cpp:62-279 | after any interleaving of pushes, pops, writes, creations and destructions every object that is left holds, at every level, what the same operations leave on its stack of values; if the run stays at or above a level, all levels below it are as they were for every object that is not destroyed |
| `ContextKernel.Context.Change` | src/context/cdo.h:148-151 | a write of an object is a write at the top of its stack of values, and the other stacks stay |
| `ContextKernel.Context.PushRunPop` | src/context/context.cpp:62-116 | a push, any such run, and pops back: every level is as it was for the objects that are left |
| `ContextKernel.Context.Speculate` | src/context/context.h:129-146 | every object that was live and is not destroyed has its data, scope, restore pointer and place in its chain from before; destroyed objects are gone from every chain and created ones are in front of the bottom chain |
| `ContextKernel.Context.LiveFields` | src/context/context.cpp:182-190 | the fields of a live object are those its version in the model prescribes |
| `ContextKernel.Context.RestorePointer` | src/context/context.cpp:202-212 | the restore pointer is null exactly for an object in its first version, which is in the bottom scope |
| `ContextKernel.Context.Destroy` | src/context/context.cpp:239-265 | at any level, the object and all its copies leave all chains; every other object and the order of the others stay |
| `ContextModel.PushedInv` | src/context/context.cpp:62-71 | push keeps the invariant: chains without repetition, each node in the one chain of its version, restore levels strictly descending |
| `ContextModel.CreatedInv` | src/context/context.cpp:268-279 | so does the creation of an object |
| `ContextModel.UpdatedInv` | src/context/context.cpp:139-195 | so does update |
| `ContextModel.UnwoundInv` | src/context/context.cpp:198-236 | so does a restore, from any place in any chain |
| `ContextModel.DroppedInv` | src/context/context.cpp:245-256 | so does the removal of an object in its first version |
| `ContextModel.PoppedInv` | src/context/context.cpp:86-96 | so does the removal of a scope whose objects are all restored |
| `ContextModel.VersionPlace` | src/context/context.cpp:182-190 | at level l an object is represented by itself exactly from its own level on, and otherwise by one of its copies |
| `ContextModel.UpdatedViews` | src/context/context.cpp:139-195 | update changes no level below the top, whatever is then written to the object |
| `ContextModel.WrittenViews` | src/context/cdo.h:148-151 | a write to a current object changes no level below the top |
| `ContextModel.UnwoundViews` | src/context/context.cpp:198-236 | a restore changes no level below the one that the object leaves |
| `ContextModel.PoppedViews` | src/context/context.cpp:86-96 | the removal of the emptied top scope changes no other level |
| `ContextModel.CreatedViews` | src/context/context.cpp:268-279 | a creation changes no level for the objects that exist |
| `ContextModel.MemberOfTop` | src/context/context.cpp:202-216 | every member of the top chain, when it is not the bottom one, is a live object with a copy in a lower chain |
| `ContextModel.KeptTop` | src/context/context.h:129-146 | two contexts of the same height that agree on all levels agree on the fields and the places of all objects |
| `ContextModel.CopyRegion` | src/context/context.cpp:144-145 | a saved copy lies in the memory region of the version made from it, which is above its own level and not popped |
| `ContextModel.DestroyedViews` | src/context/context.cpp:239-265 | a destruction changes no level for any other object: data, scopes, restore pointers and the order of the chains |
| `ContextModel.KeptLevelTransitive` | src/context/context.h:129-146 | what two runs keep for their survivors, one after the other keep for the survivors of both |
| `ContextModel.UnwoundTouches` | src/context/context.cpp:245-262 | a round of destroy leaves the other objects, their copies and their order in every chain |
| `ContextModel.DroppedTouches` | src/context/context.cpp:250-256 | the last round leaves exactly the others |
| `ContextModel.PushedValues` | src/context/context.cpp:62-71 | a push duplicates the value at the top, for every object |
| `ContextModel.WrittenValues` | src/context/cdo.h:148-151 | if nothing below the top changes, the values of an object are those from before with the new data at the top |
| `ContextModel.SameValues` | src/context/context.cpp:74-109 | if levels below n are as before, the lowest n values of every object are |
| `ContextModel.CreatedValues` | src/context/context.cpp:268-279 | a new object has its value at every level |
| `ContextStore.StoreOfPush` | src/context/context.cpp:62-71 | the stacks of values after a push are those from before with their tops duplicated |
| `ContextStore.MirrorsPush` | src/context/context.cpp:62-71 | if the stacks of values say what every object holds at every level, the stacks with their tops duplicated do so after a push |
| `ContextStore.MirrorsPop` | src/context/context.cpp:74-116 | after pops the stacks cut to the new height do so |
| `ContextStore.MirrorsWrite` | src/context/cdo.h:148-151 | after a write the stacks with one top replaced do so |
| `ContextStore.MirrorsNewWrite` | src/context/cdo.h:148-151 | the same for a write of an object created in the run |
| `ContextStore.MirrorsCreate` | src/context/context.cpp:268-279 | after a creation the stacks with one more, of the initial value, do so |
| `ContextStore.MirrorsDestroy` | src/context/context.cpp:239-265 | after a destruction the stacks without that of the object do so |
| `ContextStore.MirrorsNewDestroy` | src/context/context.cpp:239-265 | the same for an object created in the run |
| `SaveStack.PushLevels` | src/context/context.cpp:62-71 | a push duplicates the top of the stack of values of an object |
| `SaveStack.WriteLevels` | src/context/context.h:718-722 | makeCurrent followed by any change touches the top of the stack only |
| `SaveStack.PopLevels` | src/context/context.h:728-735 | a pop drops the top, whether or not the object has to be restored |
| `SaveStack.AtMakeCurrent` | src/context/context.cpp:182-190 | which version is in force at each level after a save |
| `SaveStack.WriteView` | src/context/context.h:718-722 | a container may change storage that its copies share as long as every copy reads the same |
| `SaveStack.PopView` | src/context/context.h:728-735 | a restore may do so too |
| `StackRuns.AfterKeeps` | src/context/context.cpp:62-116 | a run that stays above its lowest n levels leaves these levels as they are |
| `StackRuns.PushRunPop` | src/context/context.h:129-146 | a push, any balanced run and a pop give back the same stack |
| `StackRuns.AfterAllKeeps` | src/context/cdhashmap.h:421-444 | with an escape hatch, the lowest n levels see the operations that escape, in order, and nothing else |
| `StackRuns.PushRunPopAll` | src/context/cdhashmap.h:421-444 | a push, any run above it and a pop: every level has seen the operations that escape, in order, and nothing else |
| `TrailHashMap.PosIsContent` | src/context/cdtrail_hashmap.h:94-113 | the position map has exactly the keys of the denoted map and finds the entry that counts for each |
| `TrailHashMap.OneCurrent` | src/context/cdtrail_hashmap.h:282-308 | a key of the map has exactly one entry that is marked current, the one in the position map |
| `TrailHashMap.TrailHashMap.CompactingPushBack` | src/context/cdtrail_hashmap.h:282-308 | the map is updated at the key, in a new entry or in place; the trail below the threshold does not change |
| `TrailHashMap.TrailHashMap.InsertNoOverwrite` | src/context/cdtrail_hashmap.h:311-320 | the key is added at the end if it is new, and otherwise nothing changes |
| `TrailHashMap.TrailHashMap.PopBack` | src/context/cdtrail_hashmap.h:323-338 | the trail loses its last entry; links, marks, position map and count are right for the shorter trail |
| `TrailHashMap.TrailHashMap.PopToSize` | src/context/cdtrail_hashmap.h:341-345 | the trail is cut to its prefix |
| `TrailHashMap.TrailHashMap.Entries` | src/context/cdtrail_hashmap.h:133-194 | iteration over the current entries gives every mapping once and no other |
| `TrailHashMap.ContentOverwrite` | src/context/cdtrail_hashmap.h:296-299 | overwriting the last entry of a key in place has the effect of an insert on the denoted map |
| `TrailHashMap.CDTrailHashMap.Insert` | src/context/cdtrail_hashmap.h:475-484 | the map of the current level is updated at the key and no other level changes, also when an entry is reused |
| `TrailHashMap.CDTrailHashMap.InsertNoOverwrite` | src/context/cdtrail_hashmap.h:490-498 | the same for an insert that does not overwrite; without an insertion nothing changes |
| `TrailHashMap.CDTrailHashMap.ContextPop` | src/context/cdtrail_hashmap.h:411-425 | the stack of maps loses its top |
| `TrailHashMap.CDTrailHashMap.Contains` | src/context/cdtrail_hashmap.h:501-503 | membership in the map of the current level |
| `TrailHashMap.CDTrailHashMap.Lookup` | src/context/cdtrail_hashmap.h:509-511 | the value in the map of the current level |
| `TrailHashMap.CDTrailHashMap.Size` | src/context/cdtrail_hashmap.h:466-468 | the number of keys of the map of the current level |
| `TrailHashMap.CDTrailHashMap.Empty` | src/context/cdtrail_hashmap.h:461-463 | an empty trail is an empty map |
| `TrailHashMap.CDTrailHashMap.Iterate` | src/context/cdtrail_hashmap.h:543-549 | every mapping of the current level once |
| `TrailHashMap.CDTrailHashMap.Run` | src/context/cdtrail_hashmap.h:411-498 | every run of inserts, pushes and pops acts as the same run on a stack of finite maps |
| `HashMap.LinkLast` | src/context/cdhashmap.h:226-236 | the new element closes the circle as its last member |
| `HashMap.Unlink` | src/context/cdhashmap.h:142-154 | the element leaves the circle, the first pointer is moved on or cleared, and the order of the others is kept |
| `HashMap.RemoveRow` | src/context/cdhashmap.h:130-137 | an element whose newest copy has a null map pointer is seen by no lower level |
| `HashMap.EntriesSet` | src/context/cdhashmap.h:243-246 | set changes the value in place at the current level and nothing at lower levels |
| `HashMap.EntriesRestore` | src/context/cdhashmap.h:162-164 | restoring one element changes no lower level |
| `HashMap.EntriesRemove` | src/context/cdhashmap.h:133-161 | nor does removing one |
| `HashMap.StackNew` | src/context/cdhashmap.h:187-237 | an insertion adds the key at the end of the current level only |
| `HashMap.StackZero` | src/context/cdhashmap.h:202-208 | an insertion at level zero adds the key at the end of every level |
| `HashMap.CDHashMap.Insert` | src/context/cdhashmap.h:406-419 | a new key goes to the end, an old one keeps its place and gets the value, at the current level only |
| `HashMap.CDHashMap.Access` | src/context/cdhashmap.h:391-404 | a missing key is inserted with the default value |
| `HashMap.CDHashMap.InsertAtContextLevelZero` | src/context/cdhashmap.h:445-453 | a new key is added to every level; for a present key the error is reported and nothing changes |
| `HashMap.CDHashMap.Restore` | src/context/cdhashmap.h:130-170 | one restore keeps list, table and trash consistent and changes no lower level |
| `HashMap.CDHashMap.ContextPop` | src/context/cdhashmap.h:130-170 | in whatever order the elements of the level are restored, keys inserted in it go, values go back and the order of the others stays |
| `HashMap.CDHashMap.EmptyTrash` | src/context/cdhashmap.h:305-314 | exactly the elements of the trash are deleted, in order; no element is ever deleted twice, or used after that |
| `HashMap.CDHashMap.DeleteFirst` | src/context/cdhashmap.h:84-90 | an element is outside the list and in its first version when it is deleted, so that destroy has nothing to restore |
| `HashMap.CDHashMap.Iterate` | src/context/cdhashmap.h:265-271 | the circle enumerates the keys of the current level once each, in the order of insertion |
| `HashMap.CDHashMap.Count` | src/context/cdhashmap.h:386-388 | one for a key of the current level, else zero |
| `HashMap.CDHashMap.Size` | src/context/cdhashmap.h:378-380 | the number of keys of the current level |
| `HashMap.CDHashMap.Run` | src/context/cdhashmap.h:130-453 | every run acts as the same run on a stack of insertion-ordered maps with level-zero insertions |
| `HashMap.CDHashMap.PushRunPop` | src/context/cdhashmap.h:130-453 | a push, any run above it and a pop: every level has the map it had, followed by the later level-zero insertions, and nothing else |
| `HashMap.FoldBack` | src/context/cdhashmap.h:445-454 | level-zero insertions add the same keys behind the map of any level |
| `ContextTracks.Determined` | src/context/context.cpp:139-235 | level and saved copies of an object are determined by the version in force at every level |
| `ContextTracks.TrackLevels` | src/context/context.cpp:139-235 | the version in force at a level, in the chains, is the one that the track of the object says |
| `ContextTracks.SetTrack` | src/context/context.cpp:139-195 | a write saves the object exactly if it is not current, and makes it current |
| `ContextTracks.OtherTrack` | src/context/context.cpp:139-195 | an operation on another object leaves the object and its saved copies as they are |
| `ContextTracks.PopTrack` | src/context/context.h:728-735 | a pop restores an object exactly if it is current in the level that goes, from its newest copy |
| `ContextVector.Assign` | src/context/cdo.h:148-151 | the same for CDO::set on the heap |
| `ContextVector.PopObject` | src/context/context.cpp:74-109 | the same for Context::pop on the heap |
| `ContextVector.Pass` | src/context/cdo.h:148-151 | the same for a write of another object on the heap, which gets its value |
| `ContextVector.DrivenVector.ContextPush` | src/context/context.cpp:62-71 | the vector stays in step with the context, which has the same level and the same saved offsets |
| `ContextVector.DrivenVector.ContextPop` | src/context/stacking_vector.h:100-109 | the context restores the offset exactly if it is current; with the notification that follows, the stack of vectors loses its top and the two stay in step |
| `ContextVector.DrivenVector.Set` | src/context/stacking_vector.h:88-97 | one index of the current level changes, and the two stay in step |
| `ContextVector.DrivenVector.Elsewhere` | src/context/stacking_vector.h:88-97 | a write of another object of the context is made and leaves the vector as it is |
| `ContextMemory.CopiesApart` | src/context/context_mm.cpp:79-95 | no two saved copies share a byte, and all their bytes lie in chunks that are not released |
| `ContextMemory.LodgedSave` | src/context/context.cpp:144-145 | a copy that is saved gets a block of its own in the region of the top level |
| `ContextMemory.LodgedPop` | src/context/context.cpp:92-109 | no copy that is left after a pop lies in the region that goes |
| `ContextMemory.ManagedContext.Push` | src/context/context.cpp:62-71 | a region for the new level, with its scope; the invariant of context, allocator and blocks is kept |
| `ContextMemory.ManagedContext.Pop` | src/context/context.cpp:74-109 | the levels below and their regions are as they were, and every copy that is left keeps its block |
| `ContextMemory.ManagedContext.Set` | src/context/context.cpp:139-195 | a copy is allocated exactly if the object is not current, in a block of its own of the size of the object; an object larger than a chunk is refused and the context does not change |
| `ContextMemory.ManagedContext.Destroy` | src/context/context.cpp:239-265 | the copies of the other objects keep their blocks |
| `ContextMemory.ManagedContext.Apart` | src/context/context_mm.cpp:79-95 | in every state that the operations reach, saved copies share no byte and lie in active chunks |
| `RegionAllocator.BlocksDisjoint` | src/context/context_mm.cpp:79-95 | no byte belongs to two blocks that are not released, and every byte of one lies in an active chunk |
| `RegionAllocator.ContextMemoryManager.NewChunk` | src/context/context_mm.cpp:30-52 | the allocation point moves to the start of a chunk that was not active; no saved region changes |
| `RegionAllocator.ContextMemoryManager.NewData` | src/context/context_mm.cpp:79-95 | a request of at most a chunk gets a block at the allocation point, or at the start of a further chunk if it does not fit; a larger one fails and uses up a chunk, and the allocator stays usable |
| `RegionAllocator.ContextMemoryManager.Push` | src/context/context_mm.cpp:98-103 | the region is saved as it is |
| `RegionAllocator.ContextMemoryManager.Pop` | src/context/context_mm.cpp:106-128 | allocation point, active chunks and blocks are exactly those of the push; at most 100 free chunks are kept |
| `RegionAllocator.ContextMemoryManager.FreeDownTo` | src/context/context_mm.cpp:115-120 | all chunks since the push become free; no chunk is active and free |
| `RegionAllocator.ContextMemoryManager.TrimFree` | src/context/context_mm.cpp:123-127 | the newest 100 free chunks stay |
| `RegionAllocator.ContextMemoryManager.Destroy` | src/context/context_mm.cpp:66-76 | the chunks given to free are those that malloc made, without repetition |
| `RegionAllocator.ContextMemoryManager.Run` | src/context/context_mm.cpp:79-128 | every run of requests, pushes and pops lays out the blocks of every region as the same run on a stack of layouts does; the lowest n regions are unchanged if the run pops none of them |
| `RegionAllocator.ServedLayout` | src/context/context_mm.cpp:79-95 | a request is laid out at the allocation point if it fits there, else at the start of a further chunk, and gets no block if it is larger than a chunk |
| `ChunkList.Locate` | src/context/cdchunk_list.h:397-405 | the segment walk terminates at the segment and offset of the element with the given index |
| `ChunkList.FullTotal` | src/context/cdchunk_list.h:357-388 | with all segments but the tail full, the free space of the list is that of the tail |
| `ChunkList.ShapeNew` | src/context/cdchunk_list.h:187-218 | growing keeps: segments before the tail full, sizes and capacities sum to the two totals |
| `ChunkList.ShapeCut` | src/context/cdchunk_list.h:263-267 | so does a restore |
| `ChunkList.CDChunkList.Grow` | src/context/cdchunk_list.h:187-218 | a new empty tail of the current level whose capacity is twice the total one, or the largest request; the total grows by it and there is room for an element |
| `ChunkList.CDChunkList.PushBack` | src/context/cdchunk_list.h:357-388 | the element is appended to the list of the current level and no other level changes |
| `ChunkList.CDChunkList.DestroyFrom` | src/context/cdchunk_list.h:248-261 | the destructor is called for exactly the elements from a position on, once each and in order |
| `ChunkList.CDChunkList.RestoreFrom` | src/context/cdchunk_list.h:241-273 | the tail is the saved one with no link beyond it, and exactly the saved prefix is left |
| `ChunkList.CDChunkList.ContextPop` | src/context/cdchunk_list.h:241-273 | the stack of lists loses its top, and the elements that go are destroyed |
| `ChunkList.CDChunkList.NoDangling` | src/context/cdchunk_list.h:163-186 | all reachable segments lie in regions that are not released if and only if the context was never popped below the level of creation |
| `ChunkList.PlacedPop` | src/context/cdchunk_list.h:163-218 | a pop releases the region of the first segment exactly if it leaves the level of creation, and then the list is as old as level zero |
| `ChunkList.PopAndPush` | src/context/cdchunk_list.h:277-322 | a list created at a level that is popped and pushed again has its first segment in released memory |
| `ChunkList.RunFromZero` | src/context/cdchunk_list.h:241-388 | a list created at level zero keeps all its segments in memory over every run, and acts as a stack of sequences |
| `ChunkList.CDChunkList.Get` | src/context/cdchunk_list.h:397-405 | indexing gives the element of the flat list |
| `ChunkList.CDChunkList.Back` | src/context/cdchunk_list.h:410-413 | the last element of the flat list |
| `ChunkList.CDChunkList.Iterate` | src/context/cdchunk_list.h:457-489 | iteration from begin to end gives the flat list in order, also when it is empty |
| `ChunkList.CDChunkList.Run` | src/context/cdchunk_list.h:241-388 | every run of appends, pushes and pops, without appends after a pop below the level of creation, acts as the same run on a stack of sequences; afterwards all segments are in memory exactly if there was no such pop |
| `InsertHashMap.SameSize` | src/context/cdinsert_hashmap.h:60-66 | deque and hash map with the same keys, each once, have the same size |
| `InsertHashMap.InsertHashMap.PushFront` | src/context/cdinsert_hashmap.h:133-137 | a new key in front of the others |
| `InsertHashMap.InsertHashMap.PopBack` | src/context/cdinsert_hashmap.h:164-171 | the last key goes from both structures |
| `InsertHashMap.InsertHashMap.PopToSize` | src/context/cdinsert_hashmap.h:176-180 | a prefix of the keys is left in both structures |
| `InsertHashMap.MapOfFront` | src/context/cdinsert_hashmap.h:248-253 | a key pushed on the front is added to what every saved copy stands for |
| `InsertHashMap.CDInsertHashMap.InsertSafe` | src/context/cdinsert_hashmap.h:316-323 | a new key is added to the current level; a present one is refused and nothing changes |
| `InsertHashMap.CDInsertHashMap.Insert` | src/context/cdinsert_hashmap.h:304-309 | a new key is added at the end of the current level only |
| `InsertHashMap.CDInsertHashMap.InsertAtContextLevelZero` | src/context/cdinsert_hashmap.h:332-337 | a new key is added in front of every level |
| `InsertHashMap.CDInsertHashMap.RestoreFrom` | src/context/cdinsert_hashmap.h:240-257 | the keys of the save and all pushed on the front since are left |
| `InsertHashMap.CDInsertHashMap.ContextPop` | src/context/cdinsert_hashmap.h:240-257 | the stack of maps loses its top; level-zero insertions stay in all others |
| `InsertHashMap.CDInsertHashMap.Size` | src/context/cdinsert_hashmap.h:295-297 | the size field, the deque, the hash map and the map of the current level have the same size |
| `InsertHashMap.CDInsertHashMap.Contains` | src/context/cdinsert_hashmap.h:340-342 | membership in the map of the current level |
| `InsertHashMap.CDInsertHashMap.Lookup` | src/context/cdinsert_hashmap.h:348-350 | the value in the map of the current level |
| `InsertHashMap.CDInsertHashMap.Keys` | src/context/cdinsert_hashmap.h:377-383 | every key of the current level once |
| `InsertHashMap.CDInsertHashMap.Run` | src/context/cdinsert_hashmap.h:240-337 | every run acts as the same run on a stack of maps with level-zero insertions |
| `InsertHashMap.CDInsertHashMap.PushRunPop` | src/context/cdinsert_hashmap.h:240-337 | a push, any run above it and a pop: every level has the map it had, with the later level-zero insertions in front, newest first, and nothing else |
| `InsertHashMap.FoldFront` | src/context/cdinsert_hashmap.h:332-337 | level-zero insertions add the same keys in front of the map of any level |
| `Queue.Buffer.Grow` | src/context/cdlist.h:124-160 | a copy of the array with twice the room, or the largest that the allocator serves; if that is no larger the error is reported and nothing changes |
| `Queue.Buffer.TruncateList` | src/context/cdlist.h:208-219 | a prefix is left; the elements that go are cleaned up once each, from the end |
| `Queue.CDList.PushBack` | src/context/cdlist.h:271-303 | the element is appended at the current level only; a list of the largest size stays as it is at every level |
| `Queue.CDList.ContextPop` | src/context/cdlist.h:186-199 | the stack of lists loses its top |
| `Queue.CDList.Run` | src/context/cdlist.h:186-303 | every run of appends, pushes and pops acts as the same run on a stack of sequences that are bounded by the largest request of the allocator |
| `Queue.NotedGuarded` | src/context/cdqueue.h:63-77 | after a save lastsave is the latest saved size, in the queue and in every copy, and no size is below it |
| `Queue.QueuePop` | src/context/cdqueue.h:125-136 | a dequeue, with or without truncation, changes the current level only |
| `Queue.QueueRestore` | src/context/cdqueue.h:83-88 | the pending elements of every level below are those of the matching push |
| `Queue.CDQueue.Push` | src/context/cdqueue.h:116-118 | the element goes to the end of the queue of the current level, unless the array cannot get larger, and then no level changes |
| `Queue.CDQueue.Pop` | src/context/cdqueue.h:125-136 | the first element goes; elements are destroyed only beyond the latest saved size |
| `Queue.CDQueue.ContextPop` | src/context/cdqueue.h:83-88 | the stack of queues loses its top |
| `Queue.CDQueue.Front` | src/context/cdqueue.h:139-142 | the first pending element |
| `Queue.CDQueue.Back` | src/context/cdqueue.h:147-150 | the last pending element |
| `Queue.CDQueue.Empty` | src/context/cdqueue.h:105-108 | no element is pending |
| `Queue.CDQueue.Size` | src/context/cdqueue.h:111-113 | the number of pending elements |
| `Queue.CDQueue.Run` | src/context/cdqueue.h:63-136 | every run acts on a stack of FIFO queues as the same run without the enqueues that are refused; with room for all of them none is |
| `Vectors.UndoneHidden` | src/context/cdvector.h:136-137 | a write that is not logged does not matter where an older entry for the slot is undone |
| `Vectors.UndoneGrown` | src/context/cdvector.h:115-117 | slots appended later keep their values when the log is undone |
| `Vectors.StampedSet` | src/context/cdvector.h:138-142 | stamps stay the level of the last entry of the slot, with one entry per slot and level |
| `Vectors.StampedHidden` | src/context/cdvector.h:136-137 | a slot stamped with the current level has an entry that the pop of this level undoes |
| `Vectors.CDVector.Set` | src/context/cdvector.h:132-144 | the slot is changed at the current level only |
| `Vectors.CDVector.PushBack` | src/context/cdvector.h:115-117 | the new slot has its value at every level |
| `Vectors.CDVector.TruncateHistory` | src/context/cdvector.h:79-81 | the clean-up puts back the cached slots, newest first, with their stamps |
| `Vectors.CDVector.ContextPop` | src/context/cdvector.h:79-81 | every slot reads what it read at the matching push |
| `Vectors.CDVector.Get` | src/context/cdvector.h:126-130 | the value at the current level |
| `Vectors.CDVector.Run` | src/context/cdvector.h:79-144 | every run acts as the same run on a stack of sequences in which appends reach all levels |
| `Vectors.StackingVector.Set` | src/context/stacking_vector.h:88-97 | the index is changed at the current level only; growing the vector is seen at no level |
| `Vectors.StackingVector.ContextNotifyPop` | src/context/stacking_vector.h:100-109 | the trace is undone down to the restored offset, newest first |
| `Vectors.StackingVector.ContextPop` | src/context/stacking_vector.h:100-109 | the stack of vectors loses its top |
| `Vectors.StackingVector.Get` | src/context/stacking_vector.h:59-61 | the value at the current level, or the default beyond the end |
| `Vectors.StackingVector.Run` | src/context/stacking_vector.h:88-109 | at every level and index the vector reads what the same run on a stack of finite maps leaves there, or the default |
| `KleeneLogic.EvalIsTruth` | src/decision/justification_heuristic.cpp:95-138 | a Kleene value that is determined by the assigned atoms is the truth value in every extension of the assignment |
| `KleeneLogic.EvalMonotone` | src/decision/justification_heuristic.h:49-51 | further assignments change no determined value, so facts remembered in the SAT context stay true |
| `SatView.DeterminedIsAssigned` | src/prop/cnf_stream.cpp:524-749 | in a propagation-complete assignment a formula with a literal has its determined value assigned |
| `SatView.AssertedNotRefuted` | src/prop/cnf_stream.cpp:524-749 | an assertion none of whose clauses is falsified does not evaluate to its opposite |
| `SatView.OpenPart` | src/decision/justification_heuristic.cpp:553-599 | the parts the search descends into are open for the values it asks of them |
| `Justification.XorIffDesired` | src/decision/justification_heuristic.cpp:142-162 | an assigned side is asked for its value, the first of two unassigned ones for false, and an unassigned one for the value that gives the connective the opposite of the desired value |
| `Justification.JustificationHeuristic.FindSplitterRec` | src/decision/justification_heuristic.cpp:394-551 | terminates; no splitter means that the assigned atoms determine the node; a splitter is a literal of an unassigned atom, with the value that the search from the node asks of this atom; the result is never unknown |
| `Justification.JustificationHeuristic.HandleAndOrEasy` | src/decision/justification_heuristic.cpp:553-572 | the same for a node that one child decides |
| `Justification.JustificationHeuristic.HandleAndOrHard` | src/decision/justification_heuristic.cpp:581-599 | the same for a node that needs all children, with the cached start index |
| `Justification.JustificationHeuristic.HandleBinaryEasy` | src/decision/justification_heuristic.cpp:601-624 | the same for implications that one side decides |
| `Justification.JustificationHeuristic.HandleBinaryHard` | src/decision/justification_heuristic.cpp:626-651 | the same for connectives that need both sides |
| `Justification.JustificationHeuristic.HandleITE` | src/decision/justification_heuristic.cpp:653-697 | the same for if-then-else |
| `Justification.JustificationHeuristic.HandleEmbeddedITEs` | src/decision/justification_heuristic.cpp:699-716 | the search through ITE assertions of skolems terminates although these refer to their own skolems |
| `Justification.JustificationHeuristic.GetITEs` | src/decision/justification_heuristic.cpp:360-375 | a list that is computed anew holds every skolem below the atom with its assertion |
| `Justification.JustificationHeuristic.ComputeITEs` | src/decision/justification_heuristic.cpp:377-392 | the depth-first search lists all skolems it has not seen |
| `Justification.JustificationHeuristic.FindSplitter` | src/decision/justification_heuristic.cpp:196-203 | a literal of an unassigned atom with the value that the search asks of it, or the node is determined |
| `Justification.JustificationHeuristic.Push` | src/decision/justification_heuristic.cpp:205-241 | what the caches say is kept for the level |
| `Justification.JustificationHeuristic.Pop` | src/decision/justification_heuristic.cpp:205-241 | caches and assignment return to a state in which the caches are sound |
| `Justification.JustificationHeuristic.Assign` | src/decision/justification_heuristic.cpp:205-241 | an assignment keeps the caches sound, now and for every pop |
| `Justification.JustificationHeuristic.AddAssertions` | src/decision/justification_heuristic.cpp:166-194 | new assertions keep the caches sound, also when a skolem gets another assertion |
| `Justification.JustificationHeuristic.GetNext` | src/decision/justification_heuristic.cpp:77-138 | stop means that every assertion is true in every extension of the assignment; otherwise a literal of an unassigned atom is returned, with the value that an assertion asked to be true asks of it; without exclusive or, equivalence, if-then-else and skolems it occurs in the negation normal form of the assertion |
| `Goals.PathOccurs` | src/decision/justification_heuristic.cpp:394-651 | in formulas of negations, conjunctions, disjunctions and implications, an atom that is asked for a value occurs with this sign in the negation normal form |
| `Goals.ReachesOccurs` | src/decision/justification_heuristic.cpp:394-651 | so does every literal that the search can reach |
| `Goals.NnfMeans` | src/decision/justification_heuristic.cpp:394-651 | the negation normal form for a value d is true exactly if the formula has the value d |
| `LfscScope.PutBackBound` | proofs/lfsc_checker/code.cpp:945-966 | putting back what was found in distinct symbols undoes the overwriting |
| `LfscScope.PutBackExact` | proofs/lfsc_checker/code.cpp:945-966 | overwriting and putting back in the same order is exact for all contents if and only if no symbol occurs twice |
| `LfscScope.BoundAt` | proofs/lfsc_checker/code.cpp:1266-1271 | after the overwriting a symbol holds the value of its last binding |
| `LfscScope.BoundElsewhere` | proofs/lfsc_checker/code.cpp:1266-1271 | and every symbol that is not bound what it held before |
| `LfscScope.DuplicateLeaks` | proofs/lfsc_checker/code.cpp:945-966 | a symbol that occurs more than once is left with the value of its last binding but one |
| `LfscScope.Overwrite` | proofs/lfsc_checker/code.cpp:1266-1271 | the binding loop: new contents, and the old ones in order |
| `LfscScope.Restore` | proofs/lfsc_checker/code.cpp:1274-1277 | the restoring loop |
| `LfscReader.ReadIsResolved` | proofs/lfsc_checker/code.cpp:53-125 | without repeated names the reader gives every name the node of the innermost binding around it, and leaves its table as it was |
| `LfscReader.ReadCaseResolved` | proofs/lfsc_checker/code.cpp:66-119 | the same for a case |
| `LfscReader.ResolvedScoped` | proofs/lfsc_checker/code.cpp:66-119 | statically scoped code mentions no variable outside its scope |
| `LfscChecker.Checker.CheckCode` | proofs/lfsc_checker/code.cpp:574-994 | for all code, the type and the table of a checker that passes its table along, including what repeated names leave in it |
| `LfscChecker.Checker.CheckMatch` | proofs/lfsc_checker/code.cpp:888-990 | the same for match |
| `LfscChecker.Checker.CheckCase` | proofs/lfsc_checker/code.cpp:919-966 | the same for a case, whose variables are bound by name |
| `LfscChecker.Checker.CheckLet` | proofs/lfsc_checker/code.cpp:708-731 | the same for let |
| `LfscChecker.Checker.CheckApp` | proofs/lfsc_checker/code.cpp:603-697 | the same for applications |
| `LfscChecker.CheckedIsTypeOf` | proofs/lfsc_checker/code.cpp:574-994 | without repeated names the type is that of the type system, and the table is as it was |
| `LfscChecker.CheckedCaseType` | proofs/lfsc_checker/code.cpp:919-966 | the same for a case |
| `LfscChecker.CaseRestoresExact` | proofs/lfsc_checker/code.cpp:945-966 | the check of a case restores every table, with any body that does so itself, if and only if no variable name is repeated |
| `LfscEval.Preservation` | proofs/lfsc_checker/code.cpp:574-1370 | if statically scoped and typed code returns a value, the value has its type; with patterns that bind all arguments nothing undefined happens |
| `LfscEval.PreservationApp` | proofs/lfsc_checker/code.cpp:1283-1367 | the same for constructors and for program calls, given that bodies have their declared types |
| `LfscEval.PreservationMatch` | proofs/lfsc_checker/code.cpp:1240-1282 | the same for match |
| `LfscEval.PreservationLet` | proofs/lfsc_checker/code.cpp:1053-1064 | the same for let |
| `LfscEval.PreservationIfMarked` | proofs/lfsc_checker/code.cpp:1171-1192 | the same for the test of a mark |
| `LfscEval.PreservationArith` | proofs/lfsc_checker/code.cpp:1065-1110 | the same for arithmetic, with division by zero as an outcome of its own |
| `LfscRun.Machine.Run` | proofs/lfsc_checker/code.cpp:1005-1370 | the result and the marks of the reference evaluation, and every symbol holds what it held before, on success and on failure and through recursive calls |
| `LfscRun.Machine.FollowDefs` | proofs/lfsc_checker/expr.h:405-423 | the value of the variable in the environment |
| `LfscRun.Machine.RunLet` | proofs/lfsc_checker/code.cpp:1053-1064 | the same for let |
| `LfscRun.Machine.RunMatch` | proofs/lfsc_checker/code.cpp:1240-1282 | the same for match |
| `LfscRun.Machine.RunCase` | proofs/lfsc_checker/code.cpp:1258-1279 | the same for the body of a case, whose variables may be bound already |
| `LfscRun.Machine.RunApp` | proofs/lfsc_checker/code.cpp:1283-1367 | the same for applications |
| `LfscRun.Machine.RunProgram` | proofs/lfsc_checker/code.cpp:1306-1366 | the same for a call, whose parameters may be bound by an outer call of the same program |
| `LfscRun.Machine.RunMarkVar` | proofs/lfsc_checker/code.cpp:1219-1239 | the same for toggling a mark |
| `LfscRun.Machine.RunArith` | proofs/lfsc_checker/code.cpp:1065-1110 | the same for arithmetic |
| `LfscJudgement.TypesIsTypeOf` | proofs/lfsc_checker/code.cpp:574-994 | the computed type is t if and only if the typing rules, each with its own conditions, give t to the code |
| `LfscJudgement.CheckedIsTyped` | proofs/lfsc_checker/code.cpp:574-994 | without repeated names check_code returns exactly the types that the rules give, and rejects exactly the code to which they give none |
| `LfscJudgement.CheckTyped` | proofs/lfsc_checker/code.cpp:574-994 | the same for the checker on its mutable table |
| `LfscJudgement.ConditionalTypes` | proofs/lfsc_checker/code.cpp:764-887 | the same for the conditionals |
| `LfscJudgement.AppTypes` | proofs/lfsc_checker/code.cpp:603-697 | the same for applications |
| `LfscJudgement.MatchTypes` | proofs/lfsc_checker/code.cpp:888-990 | the same for match |
| `LfscMeaning.GivesIsEval` | proofs/lfsc_checker/code.cpp:1005-1370 | the reference evaluation has an outcome and marks if and only if the rules of the constructs give them |
| `LfscMeaning.ComputesArithmetic` | proofs/lfsc_checker/code.cpp:1065-1110 | the one outcome of an operation is the number whose difference to one operand is the other, the product, the quotient rounded up for integers, or an error |
| `LfscMeaning.SelectedFirst` | proofs/lfsc_checker/code.cpp:1240-1282 | match selects the first case that is for the head of the value |
| `LfscLaws.GivesSome` | proofs/lfsc_checker/code.cpp:1005-1370 | all code has an outcome, within any bound on nested calls |
| `LfscLaws.GivesOnce` | proofs/lfsc_checker/code.cpp:1005-1370 | code has one outcome and one set of marks at most |
| `LfscLaws.PlusNegation` | proofs/lfsc_checker/code.cpp:1065-1130 | the sum of a number and its negation is zero, over integers and over rationals |
| `LfscLaws.SignBranch` | proofs/lfsc_checker/code.cpp:1138-1170 | a conditional on a number is its first branch exactly if the number is negative, or zero |
| `LfscLaws.MarkFlips` | proofs/lfsc_checker/code.cpp:1219-1239 | markvar changes the given mark of the given symbol and no other |
| `LfscLaws.MarkTwice` | proofs/lfsc_checker/code.cpp:1219-1239 | markvar twice is the identity on marks |
| `LfscLaws.MarkBranch` | proofs/lfsc_checker/code.cpp:1171-1192 | ifmarked is its first branch exactly if the mark is set |
| `LfscLaws.MarkThenTest` | proofs/lfsc_checker/code.cpp:1171-1239 | after markvar, ifmarked takes the other branch |
| `LfscLaws.CompareBranch` | proofs/lfsc_checker/code.cpp:1193-1218 | compare is its first branch exactly if the first symbol comes before the second |
| `LfscLaws.OperandsLaw` | proofs/lfsc_checker/code.cpp:1065-1110 | the outcome of an arithmetic operation, from the outcomes of its operands run one after the other |
| `LfscLaws.RunByRules` | proofs/lfsc_checker/code.cpp:1005-1370 | run_code ends with the outcome and the marks that the rules give, and every symbol holds what it held |
| `LfscLaws.RunOperands` | proofs/lfsc_checker/code.cpp:1065-1110 | run_code on an operation and on its two operands: sum, product and quotient of the two values, or the error of the first that fails |
| `LfscFuel.MoreFuel` | proofs/lfsc_checker/code.cpp:1283-1367 | an evaluation that ends within its bound on nested calls has the same result under any larger bound, whatever types are declared |
| `LfscCommands.AcceptIsTypeOf` | proofs/lfsc_checker/check.cpp:1226-1237 | without repeated names, what is read and checked is exactly the statically scoped and typed code |
| `LfscCommands.AcceptedWellTyped` | proofs/lfsc_checker/check.cpp:1153-1237 | accepted programs without repeated names, with bodies of their declared types, form a well-typed signature |
| `LfscCommands.AcceptedPreservation` | proofs/lfsc_checker/check.cpp:1134-1152 | accepted code without repeated names yields values of the type it was accepted at only |
| `LfscCommands.PatternExact` | proofs/lfsc_checker/code.cpp:945-966 | preservation holds after a pattern, whatever symbol is mentioned then, if and only if the pattern repeats no name |
| `LfscCommands.LeakedSymbol` | proofs/lfsc_checker/code.cpp:945-966 | the symbol that a repeated name leaves behind is accepted at the type of its last binding but one, and evaluates to itself |
| `LfscCommands.RepeatedNameFails` | proofs/lfsc_checker/code.cpp:945-966 | a program with the pattern (c x x) and a call of it that is accepted at type A and returns the unbound symbol x |
| `LfscCommands.WrongResultFails` | proofs/lfsc_checker/check.cpp:1237-1239 | a program whose body has another type than the declared one, and a call of it that is accepted at type A and returns a value of type T |
| `LfscCommands.DeclaredResultExact` | proofs/lfsc_checker/check.cpp:1237-1239 | the values that a program returns have the declared type if and only if its body has that type |
| `LfscCommands.CheckAndRun` | proofs/lfsc_checker/check.cpp:1134-1152 | checking code as read and running it gives the type and the result of the reference, and a value of the computed type |
| `Trie.Trie.Get` | proofs/lfsc_checker/trie.h:57-64 | the value last inserted for the string, or the default |
| `Trie.Trie.GetNext` | proofs/lfsc_checker/trie.h:33-42 | the same below a node |
| `Trie.Trie.Insert` | proofs/lfsc_checker/trie.h:66-104 | the previous value is returned, the string has the new value and no other string changes, although a stored suffix may move down |
| `Trie.Trie.InsertNext` | proofs/lfsc_checker/trie.h:18-30 | the same below a node |
| `HashWord.ExtendToSize` | examples/hashsmt/word.cpp:39-47 | zeros are added at the high end, and the expression is well sized |
| `HashWord.Convert` | examples/hashsmt/word.cpp:148-174 | the low bits, or zeros added: the value modulo the size |
| `HashWord.BinaryDenotes` | examples/hashsmt/word.cpp:90-130 | sum, and, or and exclusive or of the operands extended to the larger size |
| `HashWord.ShiftLeftDenotes` | examples/hashsmt/word.cpp:132-136 | the word gets wider and no bit is lost |
| `HashWord.ShiftRightDenotes` | examples/hashsmt/word.cpp:138-141 | a logical shift that keeps the size |
| `HashWord.LeftRotateIsRotl` | examples/hashsmt/sha1.hpp:51-54 | left_rotate over words that widen denotes ROTL of FIPS 180-4 |
| `HashWord.BitAddValue` | examples/hashsmt/word.cpp:90-95 | the number of a sum of words is the sum of their numbers, without the carry out of the highest bit |
| `HashWord.RotlValue` | examples/hashsmt/sha1.hpp:51-54 | a rotation brings the high bits of the number to the low end and moves the others up |
| `Sha1.MessageWordDenotes` | examples/hashsmt/sha1.hpp:131-136 | four bytes make the big-endian word |
| `Sha1.ScheduleDenotes` | examples/hashsmt/sha1.hpp:130-139 | the array w denotes the message schedule |
| `Sha1.RoundFunctionDenotes` | examples/hashsmt/sha1.hpp:148-163 | f denotes Ch, Parity and Maj, though written with | instead of the exclusive or |
| `Sha1.NextRegsDenotes` | examples/hashsmt/sha1.hpp:147-171 | one turn of the loop denotes one round |
| `Sha1.CompressDenotes` | examples/hashsmt/sha1.hpp:128-178 | the expressions built for a block denote the compression of section 6.1.2 |
| `Sha1.LengthExact` | examples/hashsmt/sha1.hpp:206-215 | the eight length bytes are those of the standard exactly for lengths below 2^32 bits |
| `Sha1.PaddingExact` | examples/hashsmt/sha1.hpp:180-215 | the bytes fed by get_digest are the padding of section 5.1.1 exactly for messages of less than 2^29 bytes |
| `Sha1.FoldDenotes` | examples/hashsmt/sha1.hpp:103-178 | the hash value denotes the hash value of the standard after any number of blocks |
| `Sha1.DigestDenotes` | examples/hashsmt/sha1.hpp:180-223 | for every message of less than 2^29 bytes and all values of its variables the digest denotes the hash of the standard |
| `Sha1.Sha1.Reset` | examples/hashsmt/sha1.hpp:91-101 | the initial hash value and an empty message |
| `Sha1.Sha1.ProcessByte` | examples/hashsmt/sha1.hpp:103-111 | the message grows by the byte; complete blocks are hashed and the rest is in the block |
| `Sha1.Sha1.ProcessBytes` | examples/hashsmt/sha1.hpp:113-126 | the message grows by the bytes |
| `Sha1.Sha1.ProcessBlock` | examples/hashsmt/sha1.hpp:128-178 | the registers become the compression of the block |
| `Sha1.Sha1.PadZeros` | examples/hashsmt/sha1.hpp:187-204 | the least number of zero bytes up to position 56, through the next block if need be |
| `Sha1.Sha1.GetDigest` | examples/hashsmt/sha1.hpp:180-223 | the digest of the message with its padding |
| `Sha1.Encode` | examples/hashsmt/sha1.hpp:103-223 | a message given in parts, however split, has the digest of the whole message; below 2^29 bytes it denotes the hash of the standard for all values of the variables |
| `Luby.Luby` | contrib/luby.c:28-42 | both loops terminate and the exponent is that of the term in the recursively defined sequence, and in the block definition; for base two the result is the term itself |
| `Luby.PowerOne` | contrib/luby.c:41-41 | the first power is the number itself |
| `Luby.PowerAdd` | contrib/luby.c:41-41 | exponents add up: a power of a sum is the product of the powers |
| `Luby.PowerTwo` | contrib/luby.c:41-41 | the powers of two are the whole numbers 2^n |
| `Luby.PowerUnique` | contrib/luby.c:41-41 | the power is determined by its value 1 at zero and the factor y from each to the next |
| `Luby.TermIsPower` | contrib/luby.c:28-42 | the terms of the sequence as whole numbers are the powers of two of the exponents |
| `Luby.ReduceSize` | contrib/luby.c:35-39 | one turn of the second loop halves the block and keeps the term |
| `Luby.BlockIsExponents` | contrib/luby.c:28-42 | the recursive definition and the definition by repeated blocks give the same sequence |

## Left out

- Objects allocated in context memory (`allocatedInCMM`, `makeSaveRestorePoint`): they force saves within one scope and are not part of this model.
- Notification objects of the context other than the post-pop notification of StackingVector.
- The containers other than StackingVector keep their own `top` and `track` and are not put into a `ContextKernel.Context`; `ContextTracks` states what the context does to an object for all of them.
- `CDHashMap::clear`, `CDHashMap::obliterate` and the destructors of the hash maps: not backtrackable.
- `CDVector::hasUpdates` and `pop_back`, `CDDenseSet`, `CDSet`, `backtrackable.h`: not part of this model.
- Queue.Buffer.Grow: the failure of the allocator for other reasons (`bad_alloc`) is not modelled.
- Vectors.CDVector.Set: the history is a sequence with the save and restore of CDList, not a second array buffer.
- RegionAllocator.ContextMemoryManager.NewData: the failure of malloc is not modelled, and a chunk that is freed is never handed out again under the same number.
- Justification.JustificationHeuristic.GetNext: decision threshold 0 only, so explored thresholds and weights do not restrict the search; pops of the user context are not modelled; whether ITEs embedded in atoms are justified on stop is not stated.
- LfscEval.Preservation: simple types only (no dependent or indexed types), first-order code without lambda heads and holes, and names of programs that are not names of constants.
- LfscCommands.AcceptedPreservation: what repeated names leave in the table for later declarations is not modelled, since under its condition nothing is left; every program is read and checked with all declarations in place.
- LfscEval.Eval: `fuel` bounds nested program calls; an evaluation that does not end has no result at any bound.
- LfscReader.Read: the text of the code; what is modelled is which node each name gets.
- `defeq`, `whr`, `clone`, reference counts and hole filling of the LFSC checker, `check`, `sccwriter` and `libwriter`.
- LfscRun.Machine.FollowDefs: one step, because values hold no symbol that is bound.
- Trie.Trie.Insert: character codes are positive numbers; a negative `char`, which becomes a huge index, is not distinguished. The cleaner and the destructor are not modelled.
- Sha1.Sha1.GetDigest: `size_t` is unbounded; at most 80 rounds, as the array w allows.
- Luby.Luby: `int` is unbounded and `pow` is the power of a real number.
- Machine limits in general: integers are unbounded and hash tables are finite maps.
