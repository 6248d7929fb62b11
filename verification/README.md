# MMgc: the marker, the page heap, the small-object allocator and the hash table

MMgc is a conservative and exact, incremental, mark/sweep garbage collector with
its own page allocator.  This project models its core in Dafny and proves what
the collector is trusted for: no reachable object is ever reclaimed, pages are
never lost or handed out twice, free lists give best fit, memory asked for as
zero is zero, lazy sweeping is as good as eager sweeping, and the tables are
finite maps whose probes end.

`dafny verify dfyconfig.toml` checks everything.

## The parts

**Incremental marking** (`MarkState`, `MarkSteps`, `MutatorSteps`, `Survival`,
`Marking`, `MarkRuns`, `CollectorRuns`).  Each object carries two bits: white 00, queued 10, marked 01, free 11.
The class `Marking.GC` has the collector's own fields: the mark stack, the barrier
stack and the overflow flag.  A push onto the mark stack may be refused at any time,
except onto an empty stack, whose first segment always has room.  A refused push
raises the flag, and the tri-colour invariant is suspended until the heap has been
rescanned; the restarts end because a round that raises the flag again has marked
at least one more object.  A program may delete objects that it still points to: such
fields are in the ghost set `dangling` from then on, until they are written again, and
the tri-colour invariant speaks of all others.  An object is `Reachable` by pointers
that do not dangle, and `Obtainable` by pointers of any kind and from what has a weak
reference; the marker saves the first and marks no more than the second.  `MarkRuns`
gives the same steps as a state machine and proves the tri-colour theorem over every
interleaving of the program and the marker, and `CollectorRuns` goes on through sweeps
and further cycles.  `Survival` says what a sweep leaves, to the object.

**The page heap** (`HeapLayout`, `FreeLists`, `HeapSteps`, `Coalescing`, `HeapRuns`,
`HeapAlloc`, `HeapDecommit`, `HeapRegions`, `HeapExpansion`, `HeapGrowth`, `HeapUsers`,
`HeapPolicy`, `HeapWitnesses`, `GCHeap`).  An array of descriptors with boundary tags, sentinels between regions,
thirty free lists, and memory that is committed or not.  Addresses are page numbers.
The invariant `HeapOk` is what `CheckFreelist` and `ValidateHeapBlocks` look for: the
descriptors tile the array, the tags agree, interiors are empty, each free block is on
exactly one list and in order, and no two adjacent free blocks are in the same
committed state.  `Sound` adds the regions, which lead from every page to its own
descriptor, the large allocations, and the heap's own blocks, which hold the
descriptors and the region records.  `InUse` is what clients have, by address and size.
A block is "in hand" while it is on no list.  The ghost set `zeroed` holds the cells
whose page is known to hold only zeros.

**The small-object allocator** (`AllocPool`, `AllocSteps`, `AllocFinalize`,
`GCAlloc`, `QuickListBudget`, `BlockIndexing`).  Items of one size in blocks, a free
list per block, a quick list whose items go back to their blocks only now and then,
a budget that limits all quick lists together, and blocks that are swept long after
the collection that found them.  `live` is the set of items the program may use.
`BlockIndexing` has the arithmetic that replaces division, and the proof that no
two items share a byte of mark bits, for which the source says it has none.

**The hash table** (`Probing`, `HashtableSlots`, `GCHashtable`) and **weak
references** (`WeakRefs`).  Open addressing with triangular probing, tombstones that
are recycled, growth, shrinking, and an EMPTY table that all empty tables share.

## What the code does, against what one might expect

- `count()` of a hash table in the EMPTY state is 4, because that state pretends to
  be full (`Hashtable.Count`: exact if and only if the table is not the EMPTY one).
- With `sloppyCommit`, `CreateCommittedBlock` subtracts the whole block from
  `numDecommitted`, its committed pages included; the account is right if and only
  if one block sufficed (`GCHeap.CreateCommittedBlock`, `GCHeap.AllocBlock`).
- `AddToFreeList` forgets the dirty flag of a block that it merges into a clean
  predecessor; its contract states exactly when that matters.  No caller gets there:
  slop in front of an aligned block has no free committed predecessor, or lies in the
  first block of a run, which has just been committed (`GCHeap.FindRunStart`,
  `GCHeap.AllocCommittedBlock`), and `FreeBlock` declares its block dirty.  So clean
  pages hold zeros over every run, for every alignment (`GCHeap.Run`).
- The search for a run begins at the list of the request's size.  A run whose
  decommitted blocks are all filed below is missed, and the heap grows instead
  (`HeapWitnesses.RunMissed`; `GCHeap.AllocBlock` says exactly when it fails).
- An aligned `LargeAlloc` may leave reserved pages behind its commitTop, and the next
  expansion may take them: the new pages then lead to the large allocation's region
  and not to their descriptors (`HeapWitnesses.TailCanBeTaken`, `HeapGrowth.TailLeadsNowhere`;
  `GCHeap.ExpandHeapInternal` is sound if and only if that does not happen, and
  `GCHeap.Run` holds up to there).
- `Decommit` subtracts the initial size from the heap's size without looking which is
  larger.  If the heap is smaller, the difference wraps and everything free is given
  back (`HeapPolicy.InitialSizeIsKept`).  Otherwise its unsigned arithmetic, with a cast
  to a signed integer on the way, comes to what one would expect (`HeapPolicy.AskedForIsDue`).
- `ExpandHeap` can come out one page short: when the descriptors stay where they are,
  a page for region records is needed, and the request is a multiple of 32 pages
  (`HeapExpansion.RestSuffices`, `HeapExpansion.OnePageShort`).
- `EnsureFreeRegion` takes a page that is never added to `numAlloc`; `uncounted` says
  how many there are.
- The loop of `CoalesceQuickList` that gives back empty blocks starts at the first
  block of the free list but goes on along the chain of all blocks, so that empty
  blocks earlier in the chain stay (`GCAlloc.FreeEmptyBlocks`).
- `AllocSlow` passes a comparison where `CreateChunk` expects flags, so that the
  permission to fail is lost; in this model it never fails.
- The branch of `FillQuickList` that asks for more budget is never taken: a block's
  worth is always left when the quick list is empty (`GCAlloc.FillQuickList`).
- `ObtainQuickListBudget` never makes the two bibop allocators give anything back, and
  loops forever if they hold too much (`QuickListBudget.NeverSettles`,
  `BibopAllocatorsTakeAll`).  It ends if coalescing all the others would free enough,
  for which 280 blocks' worth is the limit.
- `GCWeakRef::get` pushes its object before a sweep without looking whether it is on the
  mark stack: a second reading pushes it a second time, and marking works it off.  If the
  push is refused the object goes back to white, and the recovery, which starts from roots
  and marked objects, does not find it: it is freed although the callback has it, unless it was on the stack
  already or something that is marked leads to it (`MutatorSteps.ReadingCanBeLost`;
  `Survival.SweptExactly` and `Marking.GC.FinishIncrementalMark` say exactly what survives).  The first push is never refused
  (`Marking.GC.ReadWeakRefs`).
- An object freed by hand while a black object still points to it can be handed out
  again as a white one, so that a black object points to a white one
  (`MarkRuns.ReusedSlot`).  The invariant excuses exactly such pointers, and a program
  that does not make them has none to excuse (`MarkRuns.CarefulRunIsTricolor`).

## Model

| member | source | states |
|---|---|---|
| MarkRuns.TricolorOverEveryRun | src/MMgc/GC.cpp:2039-2090 | For every run of marker turns, root traces, barrier moves, stores, allocations, deletions, weak references and root changes from the start of a cycle, with any legal choice of refused pushes: queued objects are on exactly one stack exactly once; no black object points to a white one, but through a pointer whose target has been deleted since it was written, unless the overflow flag is up; only what the program could get at when the cycle began or what was born since has any mark; and once marking is complete everything reachable is marked |
| MarkRuns.CarefulRunIsTricolor | src/MMgc/GC.cpp:2822-2856 | A program that deletes only what nothing else points to never has a dangling pointer: the tri-colour invariant holds of all its pointers, and, if it holds nothing weakly, only what was reachable at the start or born since has any mark |
| MarkRuns.ReusedSlot | src/MMgc/GCAlloc.cpp:590-601 | The exception is needed: a legal run that ends with a black object pointing to a white one, because a slot is deleted and handed out again while marking; the invariant holds all the same |
| MarkRuns.StepKeeps | src/MMgc/GC.cpp:2822-2856 | Each single step, from any state that satisfies the invariant and not only from reachable ones, keeps all of it; the set of objects that may be marked grows only by an allocation |
| MarkRuns.RunKeeps | src/MMgc/GC.cpp:2884-2962 | The whole invariant of a cycle holds after every legal run of steps, of whatever length, and only objects born in the run join those that may be marked |
| MarkRuns.CarefulRunKeeps | src/MMgc/GC.cpp:2822-2856 | Each step of such a program keeps roots, weak references and fields free of pointers to free slots |
| CollectorRuns.WholeCycle | src/MMgc/GC.cpp:2039-3057 | One cycle from end to end, in any run: what is there after its sweep is what the program could get at when it began, or what was born while it lasted; all that can be reached when it ends, also from what its callbacks have read, is there with its contents; and the weak references that are left are exactly those to what has not been freed |
| CollectorRuns.EveryRunKeeps | src/MMgc/GC.cpp:2039-3057 | Cycle after cycle, with stores, allocations, deletions and root changes before, during and after each of them, with recoveries and sweeps: the invariant of a cycle holds within it, and between cycles nothing is marked or pending |
| CollectorRuns.CycleBound | src/MMgc/GC.cpp:2822-2962 | Within a cycle only births add to what may be marked |
| MarkState.NoLostObject | src/MMgc/GC.cpp:2964-3057 | With both stacks empty, the flag down and no root pointing to a white object, every object on a path from a root, of pointers that do not dangle, carries the mark bit |
| MarkState.ObtainableSetConfines | src/MMgc/GC.cpp:2039-2090 | What the program can get at, through pointers of any kind and weak references, is closed under pointers and holds the roots: the base case of the bound on floating garbage |
| MarkState.ReachableOrMore | src/MMgc/GC.cpp:3380-3408 | What the program can get at is what is reachable, and more only if a pointer dangles or an object is held weakly |
| MarkSteps.TracePointerKeeps | src/MMgc/GC.cpp:2822-2856 | Tracing one pointer, with the push accepted or refused, keeps the stacks free of duplicates and strays, keeps marks confined to allowed objects, and never lightens an object; a refused push shows in the flag |
| MarkSteps.PopAndMark | src/MMgc/GC.cpp:2535-2579 | What is on top of the stack is queued, or has been pushed once more than its colour says because it was read through a weak reference twice; popping and blackening it leaves every other object on the stacks as often as its colour says |
| MarkSteps.MarkedObject | src/MMgc/GC.cpp:2535-2579 | A whole turn of the marker keeps the tri-colour invariant: the object just blackened points to nothing white, or the flag is up |
| MutatorSteps.RoundMade | src/MMgc/GC.cpp:2930-2944 | A round of 100 turns, or of as many as there are items, leaves by so much less to mark or to work off |
| MarkSteps.DoneIntro | src/MMgc/GC.cpp:2964-3057 | All roots traced, both stacks empty and no overflow give exactly the condition of the no-lost-object theorem |
| MutatorSteps.TrapKeeps | src/MMgc/GC.cpp:3186-3211 | The write barrier's trap, on any of its three outcomes, keeps the invariant and leaves the container not black, so that any pointer may be stored in it |
| MutatorSteps.StoreKeeps | src/MMgc/GC.cpp:3121-3124 | Storing a pointer the cycle knows keeps the invariant if and only if it does not make a black object point to a white one while no recovery is due |
| MutatorSteps.AllocKeeps | src/MMgc/GCAlloc.cpp:365-409 | A new white object keeps the invariant, also in a slot that black objects still point to |
| MutatorSteps.FreeKeeps | src/MMgc/GCAlloc.cpp:548-626 | Deleting an object during marking keeps the invariant: a queued one stays on its stack, only cleared; any other becomes free, is on no stack, and what points to it dangles |
| MutatorSteps.ClearKeeps | src/MMgc/GCAlloc.cpp:548-564 | An object that is dying, or on a stack, loses its pointers and keeps its bits: the invariant holds on |
| MutatorSteps.RootsKeep | src/MMgc/GC.cpp:2119-2170 | Roots and stack may change to anything the program could get at before |
| MutatorSteps.WeakKeeps | src/MMgc/GC.cpp:3424-3464 | A weak reference to a known object keeps the invariant: from then on the object can be had without a pointer to it |
| MutatorSteps.WeakLeft | src/MMgc/GC.cpp:1156-1183 | After the sweep a weak reference is left exactly for what had one and has not been freed |
| MutatorSteps.ResurrectKeeps | src/MMgc/GC.cpp:3380-3408 | Reading a weak reference before the sweep keeps the invariant on each of the outcomes, and no mark is lost; the object is marked or on the stack afterwards if and only if its push was accepted or it was before |
| MutatorSteps.ReadingCanBeLost | src/MMgc/GC.cpp:3380-3408 | An input: two objects are read through weak references before the sweep, and the second push is refused; the recovery finds neither a root nor a marked object that leads to it, and marking is complete with the object white |
| Survival.SweptExactly | src/MMgc/GC.cpp:1255-1290 | Exactly what survives: what was marked when marking was complete, what callbacks read with a push that was not refused, and what pointers lead to from there; without dangling pointers it is an if-and-only-if |
| Survival.ReachedBounds | src/MMgc/GC.cpp:1262-1272 | The marking before the sweep may be bounded by what is led to from marked objects, the stack and the roots, and that is no more than the cycle allows |
| Survival.LedToIsMarked | src/MMgc/GC.cpp:1262-1272 | Once the stack is empty and the flag down, all that pointers lead to from marked objects is marked |
| Survival.NothingElse | src/MMgc/GC.cpp:1255-1290 | If the roots had been traced, the recovery from overflow marks nothing that is not led to from pending objects, although it traces the roots again |
| MutatorSteps.ObtainableIsAllowed | src/MMgc/GC.cpp:2964-3057 | Everything the program can get at, at any moment of a cycle, it could get at when the cycle began, or it was allocated since |
| MutatorSteps.Survivors | src/MMgc/GC.cpp:1206-1363 | After complete marking, the callbacks and a sweep: what is reachable, also from the objects that callbacks have read, is there with its contents, and every survivor could be got at when the cycle began or was allocated since |
| MutatorSteps.SweepIdle | src/MMgc/GC.cpp:1206-1363 | After a sweep every item is white or free, free items hold no pointers, whatever points to a free item dangles, and nothing is pending: a state in which a cycle can start |
| MutatorSteps.CycleStart | src/MMgc/GC.cpp:2039-2090 | With all bits clear and the stacks empty, the invariant of a cycle holds for the set of objects that can be got at now |
| Marking.GC.constructor | src/MMgc/GC.cpp:99-332 | A collector without objects is idle and satisfies the invariant, so the runs that the theorems speak of exist |
| Marking.GC.TryPush | src/MMgc/GCStack-inlines.h:18-25 | A push appends the item or leaves the stack alone; onto an empty stack it always succeeds |
| Marking.GC.PushGCObject | src/MMgc/GC.cpp:566-581 | A refused push clears the queued bit and raises the flag; otherwise the object is on top |
| Marking.GC.TracePointer | src/MMgc/GC.cpp:2822-2856 | Equals the pure step that the run theorem speaks of; objects without pointers go straight to black |
| Marking.GC.MarkItem | src/MMgc/GC.cpp:2535-2579 | The object is black and every pointer in it has been traced, or the flag is up |
| Marking.GC.MarkTop | src/MMgc/GC.cpp:1444-1455 | One turn keeps the tri-colour invariant and takes nothing else off the stack; if an object was on top it gets somewhere: one more object is marked or a second push worked off |
| Marking.GC.Mark | src/MMgc/GC.cpp:1431-1442 | Drains the mark stack, terminates whatever pushes are refused, and keeps the invariant |
| Marking.GC.MarkRoot | src/MMgc/GC.cpp:2119-2170 | One root: if it is of the chosen kind it points to no white object afterwards, or the flag is up; nothing that was due is lost; unless the stack is drained on the way, only what the root points to changes colour, and nothing does if the root is of the other kind |
| Marking.GC.MarkRoots | src/MMgc/GC.cpp:2109-2170 | No root of the chosen kind points to a white object afterwards, unless the flag is up; unless the stack is drained on the way, only what these roots point to changes colour |
| Marking.GC.HandleMarkStackOverflow | src/MMgc/GC.cpp:2172-2253 | From marks that prove nothing about black objects it re-establishes the tri-colour invariant, or the flag is up again and the pass has got somewhere |
| Marking.GC.FlushBarrierWork | src/MMgc/GC.cpp:3099-3113 | Moves all barrier work to the bottom of the mark stack, or raises the flag; no work is lost or duplicated |
| Marking.GC.MarkQueueAndStack | src/MMgc/GC.cpp:1498-1537 | Empties the mark stack; without overflow, the stack roots and (if asked) the native stack point to nothing white |
| Marking.GC.Recover | src/MMgc/GC.cpp:3020-3025 | One round of the restart loop: invariant restored, progress made if the flag is up again |
| Marking.GC.FinishQueued | src/MMgc/GC.cpp:2964-2991 | Terminates with an empty mark stack, the flag down and the tri-colour invariant intact |
| Marking.GC.FinishRoots | src/MMgc/GC.cpp:2999-3028 | Terminates with both stacks empty, the flag down and every root traced as it is now |
| Marking.GC.FinishMarking | src/MMgc/GC.cpp:2964-3030 | Terminates whatever pushes are refused; then every reachable object is marked, nothing is queued, and black objects could be got at when the cycle began or were born since |
| Marking.GC.WriteBarrierHit | src/MMgc/GC.cpp:3186-3211 | The container is on the barrier stack, else on the mark stack, else white with the flag up, in this order of preference |
| Marking.GC.WriteBarrierTrap | src/MMgc/WriteBarrier-inlines.h:128-147 | A container that is not marked is left alone; a marked one is trapped while marking and put back while sweeping |
| Marking.GC.Store | src/MMgc/WriteBarrier-inlines.h:149-159 | Stores any pointer the program can get at, dangling ones included; the invariant is kept in every phase, with the barrier on only while marking, except, exactly, when a marked object gets a pointer to an unmarked one while the barrier is off |
| Marking.GC.Alloc | src/MMgc/GCAlloc.cpp:365-409 | A new object is white, without pointers, known to the program's stack only, and allowed to float, while no other object changes; its slot may be one that marked objects still point to |
| Marking.GC.Free | src/MMgc/GCAlloc.cpp:548-626 | Deletion in every phase: queued or dying objects keep their bits and lose their contents, others go to the free list, and then exactly what points to them, or dangled before, dangles; the weak reference goes too, and the invariant is kept |
| Marking.GC.SetRoots | src/MMgc/GC.cpp:3338-3358 | Any change of roots and stack to pointers the program can get at, also through weak references, keeps the invariant |
| Marking.GC.MakeWeakRef | src/MMgc/GC.cpp:3424-3464 | The object can be got at without a pointer to it from now on, and the invariant is kept in every phase; none is made, exactly, for an object that has none yet and is about to die |
| Marking.GC.ReadWeakRef | src/MMgc/GC.cpp:3380-3408 | Before the sweep a read barrier: the objects that will be marked are those that would have been, and this one if its push is accepted; at all other times nothing changes |
| Marking.GC.MarkSome | src/MMgc/GC.cpp:1444-1455 | So many turns of the marker, or as many as empty the stack; none is idle: each marks an object or works off a second push; bits only darken, and the flag is never lowered |
| Marking.GC.CheckBarrierWork | src/MMgc/GC.cpp:3084-3089 | If, and only if, the barrier stack has more than nine segments' worth of objects, the full segment below its top goes to the bottom of the mark stack, always so if that stack is empty; the rest stays in its order, no bit changes, and every queued object is still on one stack once |
| Marking.GC.IncrementalMark | src/MMgc/GC.cpp:2884-2962 | An increment keeps the invariant; it ends before its time only with the mark stack empty and nothing to move over, and does nothing only if that is so at the start; each of its rounds gets somewhere, the first one by 100 turns or as many as there are items; bits only darken |
| Marking.GC.StartIncrementalMark | src/MMgc/GC.cpp:2039-2090 | The cycle begins with the invariant, bounded by exactly what the program can get at now; the roots that are not stack memory have been traced, unless the flag is up, and a first increment has been made |
| Marking.GC.ReadWeakRefs | src/MMgc/GC.cpp:1255-1262 | The callbacks before the sweep: what will be marked is what would have been, and what they read with a push that was not refused; the first is not refused |
| Marking.GC.MarkBeforeSweep | src/MMgc/GC.cpp:1262-1290 | The loop between the callbacks and the sweep: whatever pushes fail, it ends with an empty stack, the flag down and the invariant intact; nothing is marked but what is led to from marked objects, the stack and the roots, and nothing at all if nothing was pushed and the flag was down |
| Marking.GC.FinishSweep | src/MMgc/GC.cpp:1262-1363 | All that was pending, and what is led to from there, is marked, and nothing else but for roots; what is not marked is freed |
| Marking.GC.Sweep | src/MMgc/GC.cpp:1206-1363 | With the callbacks, the marking they cause and its own overflow recovery: marked is what is led to from what was marked and from what was read with a push that was not refused, and nothing else but for roots; weak references to unmarked objects are gone, unmarked objects are freed, and the collector is idle again |
| Marking.GC.FinishIncrementalMark | src/MMgc/GC.cpp:2964-3057 | All that the program can reach, also from what the callbacks have read, survives unchanged; all that survives could be got at when the cycle began or is younger; to be exact, an object survives if and only if it was marked when marking was complete, was read with an accepted push, or is led to from such objects (where nothing dangles; otherwise both halves with their own kind of pointers); without a stack scan this holds when the native stack has no pointers |
| Probing.ProbesReachEverySlot | src/MMgc/GCHashtable-inlines.h:122-143 | The first S probes of any key in a table of S slots, S a power of two, visit every slot |
| Probing.ProbesDistinct | src/MMgc/GCHashtable-inlines.h:122-143 | No two of the first S probes coincide |
| Probing.SlotStep | src/MMgc/GCHashtable-inlines.h:81-91 | Adding 1, 2, 3, ... in turn walks the triangular numbers |
| HashtableSlots.ProbeStops | src/MMgc/GCHashtable-inlines.h:71-96 | With a NULL slot left, a probe that has not stopped yet has turns left: the loop ends within S turns |
| HashtableSlots.StopsAtKey | src/MMgc/GCHashtable-inlines.h:71-96 | Where the probe stops decides membership: the slot holds the key if and only if the table maps it |
| HashtableSlots.WriteKeeps | src/MMgc/GCHashtable-inlines.h:145-169 | Writing a slot on the key's own chain keeps every other key's chain free of NULL and every key in one slot |
| HashtableSlots.WriteContents | src/MMgc/GCHashtable-inlines.h:145-169 | The map a table stands for changes by exactly the entry written over and the entry written |
| HashtableSlots.ContentsSize | src/MMgc/GCHashtable.h:48-48 | The number of entries is the number of slots that are neither NULL nor DELETED |
| HashtableSlots.LoadRuleKeepsNull | src/MMgc/GCHashtable-inlines.h:156-169 | The three-quarters rule leaves a NULL slot after every insertion if and only if tables have at least 4 slots |
| GCHashtable.ResizedFits | src/MMgc/GCHashtable-inlines.h:225-246 | Whichever way a rehash resizes the table, the load is below three quarters afterwards |
| GCHashtable.Find | src/MMgc/GCHashtable-inlines.h:71-96 | Terminates, at the key's slot or at the NULL that proves it absent |
| GCHashtable.FindForPut | src/MMgc/GCHashtable-inlines.h:111-143 | Terminates at the key's slot or at the NULL that proves it absent; the tombstone noted on the way is the first on the key's chain, and none is noted only if there is none |
| GCHashtable.Rehash | src/MMgc/GCHashtable-inlines.h:247-263 | Same map, no tombstones, exact count, every chain unbroken in the new table |
| GCHashtable.Hashtable.constructor | src/MMgc/GCHashtable-inlines.h:12-37 | An empty map, in the shared EMPTY table or in one of its own |
| GCHashtable.Hashtable.Clear | src/MMgc/GCHashtable-inlines.h:57-69 | The empty map and the EMPTY table |
| GCHashtable.Hashtable.Get | src/MMgc/GCHashtable.h:41-41 | The last value put, or 0 |
| GCHashtable.Hashtable.Count | src/MMgc/GCHashtable.h:48-48 | The number of entries if and only if the table is not the EMPTY one, which reports 4 |
| GCHashtable.Hashtable.Grow | src/MMgc/GCHashtable-inlines.h:211-272 | Same map in a fresh table below the load limit, twice as large if it was over half full, half as large if it was less than a fifth full and above 16 slots; or nothing at all when memory is short during a removal |
| GCHashtable.Hashtable.Put | src/MMgc/GCHashtable-inlines.h:98-171 | The map with the key bound to the value, never by writing the EMPTY table; a new key goes where the first tombstone on its way was, if there is one, and the table is replaced only if three quarters of it were taken |
| GCHashtable.Hashtable.Remove | src/MMgc/GCHashtable-inlines.h:173-195 | The map without the key, and its old value; without leave to rehash, exactly one slot becomes a tombstone and nothing moves; with it, the table is rehashed exactly if it is left less than a fifth full and there is memory |
| GCHashtable.Hashtable.Prune | src/MMgc/GCHashtable-inlines.h:197-209 | Same map; a table of its own that is less than a fifth full, if there is memory, loses its tombstones, and half of its slots if it has more than 16; otherwise nothing changes |
| GCHashtable.Run | src/MMgc/GCHashtable-inlines.h:98-209 | Over every run of put, remove, prune and clear a table is the finite map those operations make |
| WeakRefs.Iterator.NextKey | src/MMgc/GCHashtable.h:76-83 | The next live key, skipping only slots without one; NULL exactly at the end |
| WeakRefs.WeakRefTable.ClearWeakRef | src/MMgc/GC.cpp:3466-3476 | Entry, flag and the reference's pointer go together; without leave to rehash no other slot changes |
| WeakRefs.WeakRefTable.GetWeakRef | src/MMgc/GC.cpp:3424-3464 | One reference object per object for as long as it has one; none is made for an object about to die |
| WeakRefs.WeakRefTable.MarkOrClearWeakRefs | src/MMgc/GC.cpp:1156-1183 | Although entries are removed while iterating: every key left, and its reference, is marked; no marked key loses its entry; only references of removed keys become null; flags and back pointers match the table; a table left sparse loses its tombstones |
| HeapLayout.SplitLayout | src/MMgc/GCHeap.cpp:1596-1610 | Tiling, tags, sentinels and empty interiors survive a split, and no descriptor outside the block changes but the back tag after it |
| HeapLayout.MergeLayout | src/MMgc/GCHeap.cpp:1755-1801 | Tiling, tags, sentinels and empty interiors survive a merge of two adjacent blocks, and no descriptor outside them changes but the back tag after them |
| HeapLayout.HeadsApart | src/MMgc/GCHeap.cpp:1161-1210 | Blocks never overlap |
| HeapLayout.SplitPages | src/MMgc/GCHeap.cpp:1596-1610 | A split neither gains nor loses pages of any kind |
| FreeLists.FreeListIndexMonotone | src/MMgc/GCHeap-inlines.h:377-386 | A larger block is never filed under a lower list, and two sizes below the threshold of 16 pages never share one |
| FreeLists.UnlinkKeeps | src/MMgc/GCHeap-inlines.h:369-375 | When a block is taken off its list, each block that is still free is on exactly one list, exactly once, and in order |
| FreeLists.InsertKeeps | src/MMgc/GCHeap.cpp:1739-1749 | When a block is put in at a place that fits, each free block is on exactly one list, exactly once, and in order |
| FreeLists.SortedPointFits | src/MMgc/GCHeap.cpp:1805-1824 | The insertion loop's place keeps committed blocks at least as large as all before them |
| FreeLists.BackOfTheBusFits | src/MMgc/GCHeap.cpp:881-890 | A decommitted block put before the first decommitted one that is no smaller, or at the very end, leaves every committed block at least as large as all before it |
| HeapSteps.Unlink | src/MMgc/GCHeap-inlines.h:369-375 | Taking a block off its list keeps the whole heap invariant |
| HeapSteps.Insert | src/MMgc/GCHeap.cpp:1739-1749 | Filing a block whose neighbours differ in state keeps it |
| GCHeap.GCHeap.constructor | src/MMgc/GCHeap.cpp:354-434 | Whatever the system grants at the start, the heap is sound, its accounts are exact, and no client holds anything |
| GCHeap.GCHeap.RemoveFromList | src/MMgc/GCHeap-inlines.h:369-375 | Only a block that heads a run of pages is on a list; removal touches its links only, and its free neighbours are in the other state |
| GCHeap.GCHeap.FileBlock | src/MMgc/GCHeap.cpp:1805-1825 | Filed under its size: last in a list of one size, before the first that is not smaller in the others, so that the list is still in order |
| GCHeap.GCHeap.JoinPrev | src/MMgc/GCHeap.cpp:1755-1778 | The predecessor is taken in if and only if it is free and both are committed; what is known of zero pages is tracked through its dirty flag |
| GCHeap.GCHeap.JoinNext | src/MMgc/GCHeap.cpp:1781-1798 | The successor is taken in if and only if it is free and both are committed; what is known of zero pages is tracked through its dirty flag |
| GCHeap.GCHeap.AddToFreeList | src/MMgc/GCHeap.cpp:1751-1825 | No two adjacent free blocks are left in the same state, no other user's block changes, page counts are exact, nothing the heap could serve is lost; clean blocks still hold zeros if and only if the filed block's own dirt was not forgotten or its pages were zero anyway |
| GCHeap.GCHeap.Commit | src/MMgc/GCHeap.cpp:1612-1627 | Pages become usable; those that had been decommitted hold zeros unless new pages are dirty |
| GCHeap.GCHeap.PruneDecommittedBlock | src/MMgc/GCHeap.cpp:1574-1594 | Only what exceeds the request, if enough to matter, is split off and stays decommitted |
| HeapRuns.WellCutSizes | src/MMgc/GCHeap.cpp:1532-1594 | What the cutting of the last block comes to, in sizes: a part is split off exactly if that block was decommitted and the whole would be more than is needed and more than 32 pages |
| GCHeap.GCHeap.CoalesceRun | src/MMgc/GCHeap.cpp:1510-1566 | The loop terminates with a committed block built from the run only, no larger than the request asks for or 32 pages if its last block was decommitted; a first block that was decommitted comes back zero |
| GCHeap.GCHeap.CreateCommittedBlock | src/MMgc/GCHeap.cpp:1498-1572 | One committed block of at least the request and its slop, made from that contiguous run; if the last block taken was decommitted it is no larger than that, or than 32 pages, and a part is split off only if it must be; all else untouched; the count of decommitted pages stays exact if and only if commits are not sloppy or one block was enough; clean means zero afterwards, and the part that was the run's first block is zero |
| GCHeap.GCHeap.AllocCommittedBlock | src/MMgc/GCHeap.cpp:1457-1496 | Exactly the size asked for at the first aligned page; the slop and the rest are free again; clean still means zero unless the slop's dirt could be forgotten; the caller is told to clear the block if and only if it may not be zero |
| HeapAlloc.AlignmentSlop | src/MMgc/GCHeap.cpp:1283-1286 | The smallest number of pages after which the address is aligned |
| HeapAlloc.FirstFitIsBest | src/MMgc/GCHeap.cpp:1385-1404 | The first fit in search order is a smallest committed block that fits, because of how lists are ordered |
| HeapAlloc.NothingSuffices | src/MMgc/GCHeap.cpp:1385-1404 | If the search passes every list, no committed block in the heap fits |
| GCHeap.GCHeap.FindRunStart | src/MMgc/GCHeap.cpp:1406-1425 | The run is extended towards lower addresses only while it is too short; so either the first aligned page lies in its first block, or nothing free stands before it, and it is too short only if nothing free is left before it |
| HeapAlloc.SlopInFirst | src/MMgc/GCHeap.cpp:1406-1425 | If a run was too short without its first block, and is not with it, its first aligned page lies in that block |
| GCHeap.GCHeap.FindRun | src/MMgc/GCHeap.cpp:1406-1444 | A run is found if and only if the free blocks around the block make up enough pages; it begins a contiguous run that is long enough; if none is found, the maximal run around the block is too short |
| GCHeap.GCHeap.SearchList | src/MMgc/GCHeap.cpp:1385-1455 | One list: the first committed block that suffices, the best one for alignment 1, or a run found on the way, or proof that the list has neither |
| GCHeap.GCHeap.Search | src/MMgc/GCHeap.cpp:1385-1455 | A committed block is found if and only if one suffices, the best one for alignment 1; failing that, a run if and only if a decommitted block in the lists searched lies in one |
| HeapWitnesses.RunMissed | src/MMgc/GCHeap.cpp:1385-1404 | A sound heap with a run of free pages long enough that the search does not find, because the run's decommitted block is filed below the list of the request |
| HeapWitnesses.FragmentedByUse | src/MMgc/GCHeap.cpp:1574-1594 | That heap comes about by allocating 38 pages from a decommitted block of 40 and freeing them |
| GCHeap.GCHeap.AllocBlock | src/MMgc/GCHeap.cpp:1385-1455 | Fails exactly if no committed block suffices and no decommitted block in the lists searched lies in a run that does, and then changes nothing; otherwise a committed aligned block of the exact size, all other users' blocks as they were, best fit for alignment 1, and clean means zero afterwards whatever the alignment; no page is committed if a committed block suffices, and no more than the request and its slop, or 32 pages, otherwise |
| GCHeap.GCHeap.AllocPages | src/MMgc/GCHeap.cpp:606-638 | A block that no client had, at an aligned address, exactly if there is one at hand; regions and records are as they were, and the account is short by just its pages |
| GCHeap.GCHeap.LargeAlloc | src/MMgc/GCHeap.cpp:1330-1370 | A region of its own for the client, aligned, apart from all others, unless, exactly, the system refuses something; no page of it is left for the next expansion if and only if the region is committed to its end |
| GCHeap.GCHeap.LargeAllocSize | src/MMgc/GCHeap-inlines.h:348-355 | The size is that of the allocation, although it is read off the region |
| GCHeap.GCHeap.LargeFree | src/MMgc/GCHeap.cpp:1372-1383 | The client's pages are gone together with the region and its record is there to be used again; all others keep what they have |
| GCHeap.GCHeap.Alloc | src/MMgc/GCHeap.cpp:508-604 | Everything AllocHelper promises; besides, all accounts are exact again, all pages are zero when zeros were asked for, those of large allocations included and also where clearing is skipped, and clean free pages hold zeros whatever the alignment |
| GCHeap.GCHeap.AllocHelper | src/MMgc/GCHeap.cpp:606-638 | Whatever the route, from the heap's own blocks, a region of its own (exactly for large requests that the heap cannot serve as it is), or a retry after growing: one client more, at an address nobody had; without growing whenever that is possible; it fails only if it must not grow, if the system refuses or if growing was not enough; growing makes the retry succeed, unless a page for region records had to be carved out of a request that was a multiple of 32 pages; the heap stays sound unless an expansion has taken what a large allocation had left over |
| GCHeap.GCHeap.FreeInternal | src/MMgc/GCHeap.cpp:676-719 | Whoever holds an allocation of any kind gives it back by its address alone; everyone else's stay, accounts are exact, clean still means zero |
| GCHeap.GCHeap.FreeBlock | src/MMgc/GCHeap.cpp:1827-1838 | The block's pages are free, those of others stay, and dirt is not forgotten |
| GCHeap.GCHeap.Write | src/MMgc/GCHeap.cpp:676-719 | Whatever an owner writes before giving its block back, clean free pages still hold only zeros |
| GCHeap.GCHeap.AllocThenFree | src/MMgc/GCHeap.cpp:508-719 | In between the client had its pages, and nobody else's; freeing undoes allocating: everybody holds what was held before, and no page stays counted |
| GCHeap.GCHeap.ServeAllocation | src/MMgc/GCHeap.cpp:508-604 | A client's allocation is answered as it has to be, unless an expansion takes what a large allocation had left over |
| GCHeap.GCHeap.Serve | src/MMgc/GCHeap.cpp:508-911 | One request of a client, answered as it has to be: an allocation gives pages at an aligned address that nobody had, all zero if asked for, cut from a smallest committed block that fits if one does, and fails only if the heap has none at hand, and must fail then if the heap may not grow; a release takes exactly what it names; a decommit gives back what was asked for or all there is; nobody else's pages change |
| GCHeap.GCHeap.Run | src/MMgc/GCHeap.cpp:508-911 | Over every run of allocations, releases, writes and decommits, with any answers of the system and with all the expansions, region records and removals of regions on the way: each request is answered as it has to be, in order; the heap is sound, its accounts are exact, each allocation stays where it is until it is released, and clean pages are zero; only an expansion that takes what a large allocation had left over ends this, and without aligned large requests there is none |
| GCHeap.GCHeap.EnsureFreeRegion | src/MMgc/GCHeap.cpp:3027-3044 | A page for region records is taken exactly if there are none and a page is at hand; from then on the account of pages in use is one short for each such page; failing that the heap grows, and brings a page of its own |
| GCHeap.GCHeap.NewRegion | src/MMgc/GCHeap.cpp:3044-3056 | A record that was given back is used before a new one |
| GCHeap.GCHeap.DecommitBlock | src/MMgc/GCHeap.cpp:795-895 | Gives back the block or as much as is wanted of it: as a whole region exactly if it covers one and regions may go, else decommitted, joined with decommitted neighbours and filed at the back; clients and accounts are as they were |
| GCHeap.GCHeap.ReleaseBlock | src/MMgc/GCHeap.cpp:895-908 | Without virtual memory: a free block that fills a region leaves the heap with it, and all clients keep their blocks |
| GCHeap.GCHeap.RemoveRegion | src/MMgc/GCHeap.cpp:806-829 | A free block that covers a region, and the region, leave the heap: clients, accounts and what is known of zero pages survive the compaction |
| GCHeap.GCHeap.DecommitPass | src/MMgc/GCHeap.cpp:775-911 | One pass over the lists, largest first: what has been decommitted or has left the heap is what is wanted no more; if the pass ends with something wanted, nothing is left to give; it starts over only after a region has gone |
| GCHeap.GCHeap.GiveBack | src/MMgc/GCHeap.cpp:771-916 | As many pages as asked for are decommitted or leave the heap with their regions, or no committed free block is left; without virtual memory no free block that fills a region is left; it terminates although each removal starts the search over; clients, accounts and zero pages are kept |
| GCHeap.GCHeap.Decommit | src/MMgc/GCHeap.cpp:721-916 | With exact accounts and sizes that do not wrap: nothing changes if at most a quarter of the heap is free and no limit is exceeded; otherwise what is over a quarter, or what takes the heap below the limit, is given back, 32 pages at least if so many are free, or all there is to give; unless regions may be released the heap keeps its initial size.  In any case: what the policy asks for is given back |
| HeapPolicy.InitialSizeIsKept | src/MMgc/GCHeap.cpp:721-766 | What is asked for is free and leaves the heap its initial size if and only if the heap has its initial size; otherwise the unsigned subtraction wraps and more is asked for than there is |
| HeapPolicy.EnoughIsGivenBack | src/MMgc/GCHeap.cpp:721-766 | Unless the initial size stops it, at most a quarter of the old heap stays free, or the heap gets below the limit it was above |
| HeapPolicy.AskedForIsDue | src/MMgc/GCHeap.cpp:721-766 | For sizes that do not wrap, the unsigned arithmetic comes to what is due: what is over a quarter, or over the limit, 32 pages at least if so many are free, and none of the initial size |
| HeapDecommit.ReleaseDone | src/MMgc/GCHeap.cpp:826-890 | Splitting off, absorbing neighbours on both sides and filing add up to n pages changing state and nothing else |
| HeapDecommit.DecommitAll | src/MMgc/GCHeap.cpp:775-911 | When every list has been worked through, no free block of any size is left that should have been given back |
| GCHeap.GCHeap.AddrToRegion | src/MMgc/GCHeap.cpp:1212-1225 | The region that reserves an address, or none exactly if there is none |
| GCHeap.GCHeap.BaseAddrToBlock | src/MMgc/GCHeap.cpp:1227-1239 | For a committed page of a region, the descriptor cell that stands for it; none exactly for large allocations and addresses outside the heap's regions |
| GCHeap.GCHeap.InteriorAddrToBlock | src/MMgc/GCHeap.cpp:1241-1263 | The block that contains an address, found by stepping back; none exactly for addresses outside the heap's regions |
| HeapRegions.CompactedLayout | src/MMgc/GCHeap.cpp:1055-1159 | Sliding the descriptors down keeps the tiling in all sentinel cases: one added, one removed, neither |
| HeapRegions.CompactedHeapOk | src/MMgc/GCHeap.cpp:1055-1159 | Compaction keeps the whole heap invariant: tiling, free lists with every free block on exactly one, and coalescing |
| HeapRegions.MovedPage | src/MMgc/GCHeap.cpp:1144-1153 | Every page of a surviving region is found through its adjusted block id where its descriptor has gone |
| HeapRegions.RegionsStayOk | src/MMgc/GCHeap.cpp:1144-1153 | All remaining regions still map every page to its own cell, and stay apart |
| HeapRegions.CompactedPages | src/MMgc/GCHeap.cpp:1055-1159 | Page counts of every kind drop by exactly the removed block |
| GCHeap.GCHeap.SlideLists | src/MMgc/GCHeap.cpp:1123-1142 | Every list keeps its order, with each entry at its new index |
| GCHeap.GCHeap.SlideRegions | src/MMgc/GCHeap.cpp:1144-1153 | Block ids behind the gap move with the descriptors |
| GCHeap.GCHeap.SlideDown | src/MMgc/GCHeap.cpp:1055-1159 | Descriptors, list links and block ids together: the compaction is exactly the function that the lemmas speak of, and page counts of every kind drop by the removed block |
| GCHeap.GCHeap.RemoveBlock | src/MMgc/GCHeap.cpp:1055-1159 | The heap stays sound: surviving clients keep address and size, lists keep their order, regions still lead to their pages, and what is known of zero pages moves with the descriptors |
| HeapUsers.RemovedSound | src/MMgc/GCHeap.cpp:1055-1159 | Removing a block together with its region keeps everything that blocks, lists, regions, large allocations and the heap's own records have to do with each other |
| HeapExpansion.SizeExpansion | src/MMgc/GCHeap.cpp:1900-1931 | The mutually dependent loop ends, with room for the request, the descriptors and the extra blocks, or without a need to move the descriptors |
| HeapExpansion.RestSuffices | src/MMgc/GCHeap.cpp:2155-2174 | What is left after carving serves the request if and only if the descriptors moved, or a region record was at hand, or the request was rounded up |
| HeapExpansion.OnePageShort | src/MMgc/GCHeap.cpp:1900-1931 | A request of 32 pages at a heap of 96 pages, whose 97 descriptors are in a block of two: the sizing loop leaves the descriptors where they are, and 31 pages are left |
| HeapExpansion.GrownHeapOk | src/MMgc/GCHeap.cpp:2098-2193 | The new block, its interior and the new sentinel extend the heap soundly, contiguous or not |
| HeapExpansion.GrownPages | src/MMgc/GCHeap.cpp:2098-2193 | Exactly the new pages are added |
| HeapGrowth.TopRegion | src/MMgc/GCHeap.cpp:1948-1960 | What the newest region has left adjoins the last block, because its descriptors are the last ones |
| HeapGrowth.WithMemoryLeads | src/MMgc/GCHeap.cpp:2203-2225 | After a growth into the newest region, a new one, or both, every region still leads to its own pages, and regions are apart |
| HeapGrowth.WithMemoryCovers | src/MMgc/GCHeap.cpp:2203-2225 | And every page of the heap has a region that leads to its descriptor, if no page was taken from a large allocation's region |
| HeapGrowth.TailLeadsNowhere | src/MMgc/GCHeap.cpp:1948-1960 | If one was, no region leads to the descriptors of the new pages |
| HeapWitnesses.TailCanBeTaken | src/MMgc/GCHeap.cpp:1330-1370 | It can happen: a heap of 32 pages makes an aligned large allocation and is sound; the next expansion may be granted the pages left over, and no cutting of the new memory makes the regions lead to it |
| HeapUsers.ExpandedSound | src/MMgc/GCHeap.cpp:1881-2225 | A growth keeps everything that blocks, lists, regions, large allocations and the heap's own records have to do with each other, and every client its pages |
| GCHeap.GCHeap.GetMemory | src/MMgc/GCHeap.cpp:1935-2095 | Pages come from what the newest region has left, from that and a new region next to it, or from a new region elsewhere, and nobody has them yet; it fails exactly if the system's last answer was no; less address space than usual is used only where that has been refused |
| GCHeap.GCHeap.CarveOff | src/MMgc/GCHeap.cpp:2155-2174 | Descriptor and region pages come out of the new block and are counted as in use |
| GCHeap.GCHeap.SetUpBlocks | src/MMgc/GCHeap.cpp:2098-2193 | The rest of the new memory is in hand, no old block has moved, and nothing the heap could serve is lost |
| GCHeap.GCHeap.AddMemory | src/MMgc/GCHeap.cpp:2098-2193 | The new memory is linked in and filed, the old descriptors' block is freed if they moved, and the request can be served from what is left |
| GCHeap.GCHeap.RegisterMemory | src/MMgc/GCHeap.cpp:2195-2225 | The new region record and its block id, the extended commitTop, the moved descriptors and the page of region records |
| GCHeap.GCHeap.GotMemory | src/MMgc/GCHeap.cpp:2098-2225 | The heap with the new memory is sound if and only if no page was taken from what a large allocation had left; clients and accounts are as they were |
| GCHeap.GCHeap.ExpandHeapInternal | src/MMgc/GCHeap.cpp:1881-2225 | Nothing changes if the system refuses, and it fails only then; otherwise the heap is sound again exactly under that condition, can serve what is left of the new memory, and that is the request or more exactly if the descriptors moved, a region record was at hand or the request was rounded up |
| AllocPool.FreeCount | src/MMgc/GCAlloc.cpp:1220-1232 | If the free bits of a block are exactly those of its list, the items in use and the list make up the block |
| AllocSteps.PopKeeps | src/MMgc/GCAlloc.cpp:412-460 | Taking an item off the quick list keeps the partition of items |
| AllocSteps.FillKeeps | src/MMgc/GCAlloc.cpp:527-545 | Moving a block's whole list to the quick list keeps it |
| AllocSteps.PushKeeps | src/MMgc/GCAlloc.cpp:548-626 | Freeing onto the quick list keeps it |
| AllocSteps.ReturnKeeps | src/MMgc/GCAlloc.cpp:698-745 | Returning a quick item to its block keeps it, and puts the block on the free list if it was full |
| AllocSteps.DropKeeps | src/MMgc/GCAlloc.cpp:314-362 | Giving back an empty block keeps it |
| AllocSteps.ChunkKeeps | src/MMgc/GCAlloc.cpp:189-312 | A new block, all free, keeps it |
| AllocSteps.SweepKeeps | src/MMgc/GCAlloc.cpp:990-1011 | A swept block that is neither empty nor full goes onto the free list, and the partition is kept |
| GCAlloc.GCAlloc.constructor | src/MMgc/GCAlloc.cpp:127-168 | No blocks, and a budget of one block's worth |
| GCAlloc.GCAlloc.CreateChunk | src/MMgc/GCAlloc.cpp:189-312 | A new block, and it is the first of the free list; accounts and live items are unchanged |
| GCAlloc.GCAlloc.UnlinkChunk | src/MMgc/GCAlloc.cpp:314-342 | The block leaves chain and free list, and the account loses what it held |
| GCAlloc.GCAlloc.SweepGuts | src/MMgc/GCAlloc.cpp:945-971 | Marked and queued items survive with clear bits, all others are on the block's list |
| GCAlloc.GCAlloc.Sweep | src/MMgc/GCAlloc.cpp:990-1011 | No live item is lost, no dead one kept, the account follows; the block leaves exactly if nothing in it was marked or queued, and heads the free list if something else was free |
| GCAlloc.GCAlloc.SweepNeedsSweeping | src/MMgc/GCAlloc.cpp:1013-1022 | Nothing awaits sweeping, and the live items are the same |
| GCAlloc.GCAlloc.ReturnQuickItems | src/MMgc/GCAlloc.cpp:709-732 | The quick list is empty, every item is on its block's list |
| GCAlloc.GCAlloc.FreeEmptyBlocks | src/MMgc/GCAlloc.cpp:733-745 | An empty block stays if and only if it stands in the chain before the first block of the free list |
| GCAlloc.GCAlloc.CoalesceQuickList | src/MMgc/GCAlloc.cpp:698-745 | One block's worth of budget is kept, the rest returned to the byte, and the items are partitioned as before; of the chain from the first block with a free item on, exactly the blocks leave in which nothing is in use |
| GCAlloc.GCAlloc.QuickListBudgetExhausted | src/MMgc/GCAlloc.cpp:747-752 | One more block's worth, also if the request flushed this very quick list |
| GCAlloc.GCAlloc.AllocFromQuickList | src/MMgc/GCAlloc.cpp:412-460 | The head of the quick list becomes live, and was not before |
| GCAlloc.GCAlloc.FillQuickList | src/MMgc/GCAlloc.cpp:527-545 | The budget never runs short: what is obtained stays the same and what is left is not negative |
| GCAlloc.GCAlloc.FindFreeBlock | src/MMgc/GCAlloc.cpp:463-525 | A block with free items; it never fails. If there is one, nothing happens; otherwise pending blocks are swept in their order until one has free items, and a block is made only if none is left to sweep or a collection is under way |
| GCAlloc.GCAlloc.AllocSlow | src/MMgc/GCAlloc.cpp:463-525 | An item that was not live; a block is made only if none has free items and none is left to sweep, or a collection is under way; none is swept as long as there are free items; the rest of the block's list stays on the quick list, except that during a collection the quick list is empty again, and an item in a block not yet finalized is marked |
| GCAlloc.GCAlloc.Alloc | src/MMgc/GCAlloc.cpp:365-409 | An item that was not live becomes live, and it is the only change; the quick list's head if there is one; no block is made while anything can be reclaimed or is free, and none swept while anything is free; bits as the phase demands |
| GCAlloc.GCAlloc.Free | src/MMgc/GCAlloc.cpp:548-626 | Refused exactly for queued items and while reclaiming, changing nothing; otherwise the item is dead, wherever it goes; as long as the budget lasts it goes onto the quick list and nothing else happens |
| GCAlloc.GCAlloc.FreeSlow | src/MMgc/GCAlloc.cpp:628-664 | Exactly the freed item dies, although its block awaits sweeping and is swept on the way; the quick list is as before |
| GCAlloc.GCAlloc.ClearBlockMarks | src/MMgc/GCAlloc.cpp:1024-1047 | All bits off, and both on for the items of the block's list |
| GCAlloc.GCAlloc.FinalizeBlock | src/MMgc/GCAlloc.cpp:774-882 | Of this block's items exactly the marked ones stay live, on each of the three outcomes; the block leaves exactly if none is marked, and is to be swept exactly if one is in use without a mark; other blocks are untouched |
| GCAlloc.GCAlloc.FinalizationPass | src/MMgc/GCAlloc.cpp:774-882 | Live afterwards is exactly what was live and marked; exactly the blocks without marked items have left, and exactly those with unmarked ones besides are to be swept |
| GCAlloc.GCAlloc.LazySweepPass | src/MMgc/GCAlloc.cpp:888-941 | For allocators without finalizers, too: live afterwards is exactly what was live and marked; exactly the blocks without marked items have left, and all others are to be swept |
| GCAlloc.GCAlloc.Finalize | src/MMgc/GCAlloc.cpp:765-772 | Whichever pass runs, live afterwards is exactly what was live and marked, the blocks without marked items have left, and every block counts as finalized |
| GCAlloc.GCAlloc.SetMark | src/MMgc/GC-inlines.h:380-412 | Bits of one live item change; the partition of items does not |
| GCAlloc.GCAlloc.GetAllocStats | src/MMgc/GCAlloc.cpp:1220-1232 | The counters give exactly the items in use, and totalAllocatedBytes their size, quick list and pending sweeps notwithstanding |
| GCAlloc.GCAlloc.EndFinalize | src/MMgc/GC.cpp:1057-1083 | Flipping the finalized value makes every block one still to be finalized |
| GCAlloc.GCAlloc.Serve | src/MMgc/GCAlloc.cpp:365-664 | One request, answered so; a sweep that happens on the way changes nothing about which items are live |
| GCAlloc.GCAlloc.Mutate | src/MMgc/GCAlloc.cpp:365-664 | Every request is answered as it has to be, in order: an allocation by an item that was not live, a release by that item's death exactly if it was live; nothing else changes which items are live, sweeps least of all |
| GCAlloc.GCAlloc.Cycle | src/MMgc/GC.cpp:1057-1100 | Lazy sweeping refines eager sweeping: from one Finalize to the next cycle's start, whoever sweeps what when, the live items are the marked ones as changed by the requests in their order, all with clear bits |
| AllocFinalize.StatsExact | src/MMgc/GCAlloc.cpp:1220-1232 | Block counters less the quick list give the items in use |
| QuickListBudget.RoundProgress | src/MMgc/GC.cpp:958-979 | Each round gives budget back or comes nearer to a victim that can |
| QuickListBudget.NeverSettles | src/MMgc/GC.cpp:958-979 | If flushing every rotated quick list would not free enough, the loop never ends |
| QuickListBudget.BibopAllocatorsTakeAll | src/MMgc/GC.cpp:958-979 | Whatever a block is worth for each allocator, a bibop allocator that keeps asking for its own gets so much that its next request loops forever |
| QuickListBudget.BlocksSuffice | src/MMgc/GC.cpp:216-226 | It ends as long as the bibop allocators' budget and the request stay below 280 blocks |
| QuickListBudget.QuickBytesBounded | src/MMgc/GCAlloc.cpp:83-89 | All quick lists together hold less than the initial budget |
| QuickListBudget.QuickLists.constructor | src/MMgc/GC.cpp:216-226 | With at most a block's worth per allocator, two of them the bibop allocators, the initial budget covers them all, and something is left |
| QuickListBudget.QuickLists.Coalesce | src/MMgc/GC.cpp:981-984 | Budget is conserved |
| QuickListBudget.QuickLists.MakeRoom | src/MMgc/GC.cpp:958-979 | Terminates with enough budget if, and by NeverSettles only if, flushing everything would free enough; victims take turns from where the last call stopped, and the first round that is not called for is not made: nothing is flushed while the budget suffices |
| QuickListBudget.QuickLists.ObtainQuickListBudget | src/MMgc/GC.cpp:958-979 | The requester's share grows by the request, from what it had or from one block's worth; remaining plus obtained is constant; nobody else's share changes unless it is flushed, which none is while the budget suffices |
| QuickListBudget.QuickLists.ObtainBibopBudget | src/MMgc/GC.cpp:958-979 | A bibop allocator's share grows by the request; remaining plus obtained is constant |
| BlockIndexing.ComputeMultiplyShift | src/MMgc/GCAlloc.cpp:1127-1139 | The loop ends with the reciprocal that the next theorem needs |
| BlockIndexing.MultiplyShiftDivides | src/MMgc/GCAlloc-inlines.h:115-123 | For every item size and every offset in a block, multiply-and-shift is division |
| BlockIndexing.NoOverflow | src/MMgc/GCAlloc.cpp:1127-1139 | Neither the loop's shift nor the product leaves 32 bits for 16-bit sizes |
| BlockIndexing.BeginningIsItem | src/MMgc/GCAlloc-inlines.h:41-46 | FindBeginning yields the beginning of the item that the address is in |
| BlockIndexing.Log2 | src/MMgc/GCAlloc.cpp:111-119 | The logarithm, rounded down: the power of two it names is at most n, and the next one is more |
| BlockIndexing.BitsIndexInRange | src/MMgc/GCAlloc-inlines.h:128-135 | The bits index of any address in the block is below the size of the bitmap |
| BlockIndexing.BitsIndexInjective | src/MMgc/GCAlloc.h:239-245 | No two items of a block share a byte of the bitmap, for every item size and shift: the proof the comment says is missing |

## Left out

- Marking.GC.Sweep: frees every unmarked item at once; that lazy sweeping comes to the same is proved per allocator in `GCAlloc.GCAlloc.Cycle`. Finalizers and large objects in `GC::Sweep` are not part of the marker's model, nor is allocation by callbacks and finalizers, whose items start out marked (for these see `GCAlloc.GCAlloc.Alloc`).
- Marking.GC.ReadWeakRef: the sampler's callback, which pushes in the same way, is not modelled.
- Marking.GC.Alloc: the address is a parameter: any that is new, or any free slot of the right kind; not while sweeping.
- Marking.GC.FinishIncrementalMark: without a scan of the native stack nothing is promised unless that stack holds no pointers; the stack is exact, and pointers into objects are to their beginning. What is saved is reachable by pointers that do not dangle.
- GCHeap.GCHeap.GiveBack: the branch that cuts a block off before its region begins cannot be taken and is left out; losing memory to another thread on the way (`RemoveLostBlock`, on one platform) is not modelled.
- GCHeap.GCHeap.Decommit: the initial size is promised only as long as no region is released, because sentinels that go with a region count as pages; `GCHeap.GCHeap.Run` asks for any number of pages and not for the policy's.
- GCHeap.GCHeap.ExpandHeapInternal: what the operating system grants is nondeterministic, and its answers are handed back as ghost results; the hard limit is left out; 48 bytes is the size of a descriptor.
- GCHeap.GCHeap.AllocHelper: one attempt; the retry after signalling clients to free memory is not modelled.
- GCHeap.GCHeap.BaseAddrToBlock: page numbers, so that addresses inside a page are not distinguished.
- GCHeap.GCHeap.CoalesceRun: `sizePrevious` of the block after a run is kept right at each merge and not once after the loop.
- GCAlloc.GCAlloc.QuickListBudgetExhausted: which quick lists the collector flushes is nondeterministic here; `QuickListBudget` has the round-robin.
- GCAlloc.GCAlloc.FinalizeBlock: finalizers do nothing, so that they neither allocate nor free; the bits for finalizers and weak references of single items are left out.
- QuickListBudget.QuickLists.ObtainQuickListBudget: requires that coalescing everything frees enough; `QuickListBudget.NeverSettles` shows that otherwise it does not end.
- WeakRefs.WeakRefTable.MarkOrClearWeakRefs: that an object is a weak reference object itself is not modelled; for such keys the outcome depends on the order of the slots.
- Free lists and sweep lists are sequences of indices, not doubly linked descriptors: unlinking in constant time is not captured.
- Operating-system memory calls, memory limits, status callbacks, out-of-memory notification, `Abort`, locks and threads: their effects are nondeterministic or absent.
- Conservative tracing, interior pointers, the splitting of large objects and roots, and recursion of the marker: an object's pointers are a known sequence.
- `GCMarkStack`'s segments: a stack that may refuse a push; only the number of objects in a segment is modelled, and items of several words are not.
- Reference counting, the ZCT, the policy manager, the page map, locked objects and `allocaPush`.
- Hash tables with string keys, whose `remove` compares pointers, and wrap-around of table sizes at 32 bits.
- The deferred list of small empty blocks and `GCAllocIterator`: the rescan walks marked objects in a fixed order instead.
- `FixedAlloc`, `FixedMalloc`, `BasicList`, profilers, hooks and poisoning: more of the same patterns, or no logic of their own.
