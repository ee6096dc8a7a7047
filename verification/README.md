# LaTTe in Dafny: collector, monitors, dispatch, register cache, frame analysis

LaTTe is a Java virtual machine written in C. This project models five of its parts and
proves what they promise, for every input, run or reachable state. `dafny verify
dfyconfig.toml` checks all of it.

**The garbage-collected heap** (`src/runtime/gc.c`). Memory is a map from byte addresses to
words, and a header sits four bytes in front of each object.

- `header` holds the status bits. `mark_phase` is the marker, which works as a queue, then as
  a stack, and rescans the heap when the stack overflows; `queue_runs` says what its queue can
  hold. `sort_objects` is the radix sort.
- `free_space` says what a sweep has to free, from the live objects alone. `chunk_index`,
  `sweep_steps`, `small_sweep` and `sweep_area` are the two sweepers, both proved against it.
- `heap_walk` gives the tiles a header walk meets. `small_area` states the invariant of the
  small object area over them, `after_sweep` and `collected_area` show that a collection
  restores it, `conservation` that it leaves no byte behind, and `small_alloc` is the allocator.
- `size_classes`, `free_lists`, `lumps` and `lump_heap` are the boundary-tag allocator.
  `pointers` recognises object addresses, `large_sweep` sweeps the large objects, and
  `full_collection` puts one whole collection together, from the roots to the free lists.

**Monitors** (`src/runtime/locks.c`): `monitor` is a state machine over the steps that
cooperative threads take between suspension points, and the operations on the packed lock word.
It follows sections 17.13 and 17.14 of the Java Language Specification, first edition.

**Dispatch and interface tables** (`src/runtime/classMethod.c`): `dispatch`, `interfaces` and
`fixup`, with the search by name of `src/runtime/lookup.c` as the specification (section
15.11.4.4 of the Java Language Specification, first edition).

**The register cache of the JIT compiler** (`src/kaffejit/registers.c`, `machine.c`):
`registers`, specified by a plain frame without a cache.

**Bytecode frame analysis** (`src/kaffejit/code-analyse.c`, `code-analyse.h`): `frames` is the
analysis of basic blocks, `frame_runs` says when its rerun loop ends and with what,
`bytecode` derives the blocks from instructions and an exception table and says what the
result means for every instruction, and `spinning` is a method on which the loop hangs.

Where the code falls short of what it asserts or documents, the model follows the code and the
condition is stated exactly:

- The assertion after the COLLECT loop (gc.c:2820) holds for every heap of n objects, at any heap
  size from 128 bytes on, if and only if the mark stack has n slots, or fewer than three:
  `QueueRuns.AssertionExact`.
- The mark stack has room to sort every collected set if and only if 2*(heap size/128)+6 slots
  are there, or 4 for a heap of less than 128 bytes: `QueueRuns.SortRoomExact`. The comment on
  `sort_objects` speaks of radix 8192; the code uses 2048.
- `walk_finals` (gc.c:2444) looks at the mark bit of the list node instead of the object, so no
  object is ever handed to its finalizer: `MarkPhase.Marker.SortFinals`, `MarkPhase.FinalsExact`.
- `size_class` reaches its last class, against its assertion (gc.c:564), from 1025*2^15 on:
  `SizeClasses.AssertedBelowLast`.
- The retry after `mem_expand` (gc.c:874-876) works if and only if the rounded region leaves
  four bytes, or twelve under the translator: `LumpHeap.RetryExact`.
- When expanding fails, `slow_small_allocate` has already taken the slack off `small_alloc`
  although the free area stays current. `SmallAlloc.SmallHeap.MallocSmall` says exactly which
  calls do that, and `SmallAlloc.DebtRun` is a run that gets there.
- `_waitCond`, `_signalCond` and `_broadcastCond` let a thread through that released the lock
  last but is not inside: `Monitor.OwnerCheckExact`. Mutual exclusion survives that
  (`Monitor.SafeRun`), wakeups do not (`Monitor.SignalSafe`, `Monitor.BroadcastSafe`,
  `Monitor.StaleOwnerLosesWakeup`), and such a wait fails the assertion at locks.c:355 if a
  thread is queued, and returns outside the monitor if none is (`Monitor.RestoreExact`,
  `Monitor.StaleWait`, `Monitor.StaleWaitFails`).
- `mergeFrame` raises its flag for cells that are unstable already, so the rerun loop need not
  end. It ends if and only if no blocks flag each other in a circle that way:
  `FrameRuns.EndsExactly`, with `Spinning.NeverEnds` for an example.
- Handlers are attached to the block chain once per entry of the exception table
  (code-analyse.c:208). Two entries that share a handler break the chain: the loop over it may
  not end, or may skip blocks. `Bytecode.ChainListsAll`, `Bytecode.ChainEnds`,
  `Bytecode.SharedHandlerHangs` and `Bytecode.ChainSkips` say when, and
  `Bytecode.VerifyMethod` what the analysis then yields.
- A class that leaves an interface method undefined reaches `assert(0)` at classMethod.c:860:
  `Interfaces.LinkInterfaces`, `Interfaces.UndefinedMethod`.
- A sub-interface does not look at the last method of the interfaces it extends
  (classMethod.c:1098-1099); the numbering stays sound: `Interfaces.NumberKeeps`.

Assumptions about the surroundings are preconditions: the system hands out regions that overlap
no others; walkers report references to objects or NULL; only the thread inside a monitor
unlocks it, and nesting stays below 2^15; no class declares a method twice, a method is static
exactly if the one it would override is, and a search for an interface method does not find a
static one; bytecode stays inside its frame, and stack depths agree where blocks meet.

## Model

| member | source | states |
|---|---|---|
| Header.MarkBitOnly | src/runtime/gc.c:106-110 | setting or clearing the mark bit changes no other part of a header, and clearing undoes setting |
| Header.PrevBitOnly | src/runtime/gc.c:106-110 | setting or clearing PREV_BIT leaves size and mark bit alone |
| MarkPhase.MarkOneGrows | src/runtime/gc.c:2687-2720 | marking one reference keeps the mark stack sound, through the switch from COLLECT to NORMAL and into OVERFLOW; it marks that object and no other |
| MarkPhase.WalkStep | src/runtime/gc.c:2686-2720 | walking an object keeps the tricolour invariant: a marked object is walked, on the stack, still to be rescanned, or the state is OVERFLOW |
| MarkPhase.QueueStep | src/runtime/gc.c:2807-2814 | one turn of the COLLECT loop, which may leave COLLECT half way through a walk, keeps that invariant |
| MarkPhase.SlideStep | src/runtime/gc.c:2823-2828 | dropping the entries before the saved cursor loses no unwalked object |
| MarkPhase.PopStep | src/runtime/gc.c:2833-2839 | popping and walking the top of the stack keeps the invariant |
| MarkPhase.RescanStep | src/runtime/gc.c:2752-2770 | walking one marked object of the heap during overflow handling keeps the invariant and takes that object off the grey set |
| MarkPhase.MarkedIsReachable | src/runtime/gc.c:2804-2854 | with nothing grey and no overflow the marked objects are exactly those with a path from the roots |
| MarkPhase.CollectedIsLive | src/runtime/gc.c:2807-2818 | in COLLECT the mark stack lists the live set without repetition, within its bound |
| MarkPhase.QueueAssertion | src/runtime/gc.c:2816-2821 | at any point of the COLLECT loop the state is OVERFLOW if and only if more objects are marked than the stack has slots |
| QueueRuns.MeetsWithRoom | src/runtime/gc.c:2816-2821 | the assertion after the COLLECT loop holds whenever the stack has a slot for every reachable object |
| QueueRuns.AssertionExact | src/runtime/gc.c:2807-2821 | at every heap size in bytes, it holds for every heap of n objects if and only if the stack has n slots, or the stack has fewer than three or the heap less than 128 bytes, so that the loop never starts with a root |
| QueueRuns.StarOverflows | src/runtime/gc.c:2807-2821 | with more objects than slots, all children of one root, the loop started by mark_phase ends in OVERFLOW, at every heap size from 128 bytes on |
| QueueRuns.LoopEnds | src/runtime/gc.c:2807-2814 | from every state the COLLECT loop ends, and an overflow is never undone |
| QueueRuns.SortRoomExact | src/runtime/gc.c:2741-2750 | over all mark phases that end in COLLECT, the collected set and its two sentinels fit twice into the stack if and only if there are 2*(heap size/128)+6 slots, or 4 when the heap size is below 128 |
| QueueRuns.StarNeedsRoom | src/runtime/gc.c:2741-2750 | otherwise some mark phase ends in COLLECT with bound+1 entries, which do not fit |
| MarkPhase.FinalsExact | src/runtime/gc.c:2437-2453 | walk_finals keeps the documented list if and only if every object with a finalizer is live: it looks at the mark bit of the node, which is always set |
| MarkPhase.StampMarked | src/runtime/gc.c:2687-2694 | in memory the mark bit is set for the live objects and the fixed ones, and for no others |
| MarkPhase.Marker.Mark | src/runtime/gc.c:2687-2720 | mark() on the real stack, cursors and memory does what MarkOne says |
| MarkPhase.Marker.WalkQueue | src/runtime/gc.c:2807-2814 | the COLLECT loop terminates with the cursor behind the top and the invariant kept, does what its turns say one after the other, and is still in COLLECT if and only if no more objects are marked than the bound allows |
| MarkPhase.Marker.Rescan | src/runtime/gc.c:2752-2770 | the overflow rescan walks every marked object of the heap once, in whatever order the heap is listed |
| MarkPhase.Marker.WalkStack | src/runtime/gc.c:2831-2853 | the NORMAL loop with any number of overflow rounds terminates and leaves exactly the reachable objects marked |
| MarkPhase.Marker.WalkMarkStack | src/runtime/gc.c:2804-2854 | walk_mark_stack: for every graph, root set and stack size, marked is the same as reachable; started in COLLECT it stays there if and only if the live set fits below the bound |
| MarkPhase.Marker.SortFinals | src/runtime/gc.c:2437-2453 | the partition loop of walk_finals leaves every node on the list it was on |
| MarkPhase.Marker.WalkFinals | src/runtime/gc.c:2455-2469 | the objects about to be finalized become roots: marked is the same as reachable from both |
| MarkPhase.Marker.MarkPhase | src/runtime/gc.c:2859-2889 | mark_phase after walk_roots: memory differs from before only in the mark bits of the objects reachable from the roots and the objects about to be finalized; in COLLECT the stack lists them, and the phase ends in COLLECT if and only if the roots are no more than the bound and the live set no more than the bound plus one |
| SortObjects.PassPermutes | src/runtime/gc.c:1467-1502 | a counting pass loses and duplicates nothing |
| SortObjects.BucketsSorted | src/runtime/gc.c:1467-1502 | a counting pass is stable and orders by its digit, so a sequence sorted by the lower bits stays so |
| SortObjects.ThreePassesSort | src/runtime/gc.c:1467-1502 | three 11-bit passes sort every sequence of 32-bit addresses |
| SortObjects.Sort | src/runtime/gc.c:1450-1514 | sort_objects with twice the space returns a sorted permutation |
| Conservation.AfterConserved | src/runtime/gc.c:1716-1969 | after a collection every byte of the area is in an object, or exactly once on the free chunk list or the free blocks list, and a block without an object is on the free blocks list |
| Conservation.FreedOnce | src/runtime/gc.c:1716-1969 | so each byte of an object that did not survive is on the free lists exactly once |
| Conservation.AfterInside | src/runtime/gc.c:1601-1691 | a sweep writes new words only inside the regions of the area |
| FreeSpace.SpacePartition | src/runtime/gc.c:1716-1969 | each usable byte of the swept blocks is in exactly one live object, one free chunk or one run of free blocks |
| ChunkIndex.MergedCounts | src/runtime/gc.c:1534-1592 | merging the free chunk index loses and duplicates no chunk |
| ChunkIndex.MergedDecreases | src/runtime/gc.c:1564-1592 | the merged list goes from the largest chunks to the smallest |
| ChunkIndex.MergedOrder | src/runtime/gc.c:1541-1592 | chunks of the same size are in the order in which the sweep found them |
| ChunkIndex.MergeFreeindex | src/runtime/gc.c:1563-1592 | merge_freeindex strings the slots together from the top down |
| SmallSweep.SplitRange | src/runtime/gc.c:1601-1691 | insert_freemem cuts any range into a chunk of its first block, the whole blocks, and a chunk of its last block |
| SmallSweep.Sweeper.InsertFreemem | src/runtime/gc.c:1601-1691 | those pieces join the chunk index and the free blocks list, and their headers are written |
| SmallSweep.Sweeper.SweepRegionSelective | src/runtime/gc.c:1738-1835 | one region of the selective sweep adds exactly the gaps between its live objects |
| SmallSweep.Sweeper.SweepBlock | src/runtime/gc.c:1879-1936 | the header walk of one block adds exactly its gaps, or reports that the whole block is free |
| SmallSweep.Sweeper.SweepRegionNormal | src/runtime/gc.c:1857-1966 | one region of the traditional sweep adds the same chunks and blocks |
| SweepArea.SweepNormal | src/runtime/gc.c:1842-1969 | the traditional sweep of the area has the outcome that depends only on the marked heap |
| SweepArea.SweepSelective | src/runtime/gc.c:1716-1837 | the selective sweep has the same outcome: the same chunk list, block list and memory |
| HeapWalk.TilesApart | src/runtime/gc.c:1891-1918 | no two tiles of a block overlap |
| HeapWalk.TilesCover | src/runtime/gc.c:1891-1918 | every byte of a block is in a tile |
| HeapWalk.CutTile | src/runtime/gc.c:1079-1089 | cutting an object off a free tile leaves the other tiles of the block as they are |
| SmallArea.EveryByteOnce | src/runtime/gc.c:945-958 | each byte of a block in use, from offset 4 to 4092, is in exactly one tile, an object or free memory |
| SmallArea.ObjectsApart | src/runtime/gc.c:1066-1094 | allocated objects never overlap, and none straddles a block |
| SmallArea.PlaceKeeps | src/runtime/gc.c:1066-1094 | placing an object at the start of a free tile keeps the invariant of the area |
| SmallArea.PlaceGrew | src/runtime/gc.c:1066-1094 | the objects afterwards are the old ones, word for word, and the new one, zeroed; it was none of them |
| SmallArea.RetireKeeps | src/runtime/gc.c:1272-1278 | giving the current free area its header keeps the invariant |
| SmallArea.ChunkRoom | src/runtime/gc.c:1231-1240 | the first free chunk can serve as the next free area |
| SmallArea.OpenRoom | src/runtime/gc.c:1188-1214 | so can the first free block |
| SmallArea.StoreKeeps | src/runtime/gc.c:1066-1094 | stores into the payload of an object keep the invariant and every object's place and size |
| AfterSweep.FreedBlocksOf | src/runtime/gc.c:1857-1966 | a block is freed as a whole, exactly once, if and only if it holds no marked object |
| AfterSweep.FreedChunksOf | src/runtime/gc.c:1857-1966 | the chunks freed are exactly the gaps of the blocks that keep a marked object, each once |
| AfterSweep.StampWalk | src/runtime/gc.c:1891-1918 | a header walk over marked memory meets the live objects, and no others, as marked |
| CollectedArea.AfterTiles | src/runtime/gc.c:1842-1969 | after a sweep a used block is tiled exactly by its live objects and its free chunks |
| CollectedArea.AfterObject | src/runtime/gc.c:1842-1969 | exactly the live objects are left |
| CollectedArea.AfterBytes | src/runtime/gc.c:1842-1969 | every word of a live object, header and payload, is as before the collection |
| CollectedArea.AfterValid | src/runtime/gc.c:1842-1969 | the invariant of the area holds again, with no object marked and the size of each run of free blocks in its first word |
| SmallAlloc.InsertRegion | src/runtime/gc.c:1136-1166 | a new region is inserted in address order |
| SmallAlloc.UsedBlocks | src/runtime/gc.c:1362-1393 | the block usage table holds exactly the blocks of the area that are not on the free blocks list |
| SmallAlloc.SmallHeap.GetSmallChunk | src/runtime/gc.c:1223-1256 | get_small_chunk fails if and only if no chunk is large enough and no block is free; otherwise the memory is that of the first chunk, if it is large enough, or of the first free block, whose size word tells what is left of its run |
| SmallAlloc.SmallHeap.ExpandSmallArea | src/runtime/gc.c:1102-1178 | expanding keeps the invariant and all objects |
| SmallAlloc.SmallHeap.SlowSmallAllocate | src/runtime/gc.c:1264-1337 | which path the slow allocator takes, as an if and only if on its inputs: it collects exactly if nothing fits, a region would exceed the limit and the collector is enabled; it fails exactly if there is still nothing that fits and the system provides no region; where the memory comes from, and what happens to the statistics |
| SmallAlloc.SmallHeap.MallocSmall | src/runtime/gc.c:1066-1094 | gc_malloc_small keeps the invariant and returns one new zeroed object that overlaps none; when it collects, when it fails and where the memory comes from, as for the slow path; small_alloc, plus the slack that failed calls took off, equals the bytes handed out and the unused tail; and a call takes off slack for good if and only if the free area is too small but not empty, nothing fits, and no region is to be had within the limit |
| SmallAlloc.NoBlockLeft | src/runtime/gc.c:1302-1330 | if a collection was of no use to a call, every block of the area holds a live object |
| SmallAlloc.DebtRun | src/runtime/gc.c:1264-1337 | a run from the empty heap after which small_alloc is 24 bytes short |
| SmallAlloc.SmallHeap.Collect | src/runtime/gc.c:3013-3053 | a collection leaves exactly the live small objects, every other byte of the area once on the free lists, and resets the statistics |
| Pointers.RegionTable.RegionFind | src/runtime/gc.c:349-375 | the binary search finds the region that holds an address, or there is none |
| Pointers.RegionTable.Insert | src/runtime/gc.c:418-437 | inserting an entry keeps the table sorted and disjoint and shifts the rest |
| Pointers.IsSmallObject | src/runtime/gc.c:1400-1438 | the usage table and the header walk accept exactly the addresses of allocated small objects, whatever has been marked |
| Pointers.LargeSet.Exists | src/runtime/gc.c:2091-2106 | the chain search finds exactly the objects of the table |
| Pointers.LargeSet.Add | src/runtime/gc.c:2113-2131 | adding an object adds that one to the set |
| Pointers.KindDecides | src/runtime/gc.c:2663-2679 | an address is a small object only inside a small region, and a large one only inside a large region |
| Pointers.StampShows | src/runtime/gc.c:1400-1438 | setting mark bits changes no size and no free bit, so the walk meets the same tiles |
| Pointers.IsObject | src/runtime/gc.c:2663-2679 | at any point of a mark phase is_object accepts a word if and only if it is the address of an allocated small or large object |
| SizeClasses.ComputeSizeClass | src/runtime/gc.c:542-567 | size_class, with its result inside the table |
| SizeClasses.AssertedBelowLast | src/runtime/gc.c:552-565 | the assertion that a class found by halving is below the last one holds if and only if the size is below 1025*2^15 |
| SizeClasses.AssertionFails | src/runtime/gc.c:552-565 | it fails for 1024*2^16 |
| SizeClasses.ClassMonotone | src/runtime/gc.c:542-567 | a larger size is never in a smaller class |
| SizeClasses.ClassExact | src/runtime/gc.c:542-567 | up to 1024 bytes a class holds one multiple of 16; above, up to 1024*2^16, class 64+k holds exactly the sizes from 1025*2^(k-1) up to 1025*2^k; the last class holds all larger ones |
| FreeLists.FindFreelump | src/runtime/gc.c:576-604 | find_freelump returns a smallest adequate lump of the whole heap, and none if and only if there is none |
| FreeLists.InsertFreelump | src/runtime/gc.c:611-640 | the lists hold the new lump too, once, in order of size |
| FreeLists.RemoveFreelump | src/runtime/gc.c:646-660 | the lists hold all but the removed lump |
| Lumps.TakeValid | src/runtime/gc.c:720-725 | taking a whole free lump keeps all boundary tags |
| Lumps.CarveValid | src/runtime/gc.c:705-725 | splitting a free lump keeps all boundary tags |
| Lumps.JoinValid | src/runtime/gc.c:775-784 | absorbing the preceding free lump keeps all boundary tags |
| Lumps.ReleaseValid | src/runtime/gc.c:786-797 | freeing a lump, with the free one after it, keeps them: PREV_BIT tells whether the preceding lump is in use, footers equal sizes, no two free lumps are adjacent |
| Lumps.ExpandValid | src/runtime/gc.c:805-839 | so does a new region with its two dummy headers |
| Lumps.NextFree | src/runtime/gc.c:786 | the bit read two lumps ahead tells whether the next lump is free, also at the end of a region |
| Lumps.PrevFree | src/runtime/gc.c:775-780 | the footer read in front of a lump leads to the free lump before it |
| Lumps.OneOwner | src/runtime/gc.c:611-840 | every byte of a region belongs to exactly one lump |
| LumpHeap.RetryExact | src/runtime/gc.c:812-822 | the lump of a new region is large enough if and only if the rounding leaves over the header and the padding |
| LumpHeap.RetryCanFail | src/runtime/gc.c:872-876 | the assertion after expanding fails for a request of 2 MB less 48 bytes |
| LumpHeap.Heap.MemAllocate | src/runtime/gc.c:682-731 | mem_allocate: a best fit, cut to size and cleared; other lumps keep their contents; fails only if none fits |
| LumpHeap.Heap.MemFree | src/runtime/gc.c:766-800 | mem_free: the lump is free, all others keep their contents |
| LumpHeap.Heap.MemResize | src/runtime/gc.c:736-761 | mem_resize finds a best fit if and only if there is one; the contents move to the new lump as far as both reach and the rest of it is zero; on failure nothing changes; and the statistics |
| LumpHeap.Heap.MemExpand | src/runtime/gc.c:805-840 | mem_expand: one more region, one more free lump |
| LumpHeap.SpanInRegion | src/runtime/gc.c:805-840 | the lumps of a new region lie inside it, aligned, and hold the request, with less than one region unit to spare |
| LumpHeap.Heap.MallocFixed | src/runtime/gc.c:856-884 | gc_malloc_fixed expands if and only if no free lump fits and the system provides a region; it succeeds if and only if a free lump fits or a region is provided and the retry condition holds; the lump is a best fit, or the first of the new region, cleared and marked |
| LargeSweep.SweepLarge | src/runtime/gc.c:2198-2232 | sweep_large frees exactly the unmarked objects, once, and clears the marks of the others, whose contents stay |
| FullCollection.SortedSet | src/runtime/gc.c:1727-1731 | with its sentinels the collected set is sorted strictly |
| FullCollection.RegionCovers | src/runtime/gc.c:1738-1746 | in that array the entries of a region are its live small objects, and none is at its end |
| FullCollection.AlwaysFits | src/runtime/gc.c:2741-2750 | with 2*(heap size/128)+6 slots the set to be sorted always fits |
| FullCollection.WalkRoots | src/runtime/gc.c:2777-2800 | walk_roots: exact roots are marked, potential ones exactly if they are addresses of objects, tested by is_object on memory in which objects are marked |
| FullCollection.SurvivedSmall | src/runtime/gc.c:3015-3025 | small objects that are not reachable are free again, byte by byte and once |
| FullCollection.Collect | src/runtime/gc.c:3015-3029 | a full collection keeps exactly the reachable objects, with address, size and contents, returns every byte of the other small objects to the free lists once, clears all mark bits, and leaves both areas valid |
| FullCollection.CanRestart | src/runtime/gc.c:3013-3049 | what a collection needs to start holds again when it is done, for the objects that are left |
| FullCollection.CollectTwice | src/runtime/gc.c:3013-3049 | a second collection with the same roots takes nothing away |
| Monitor.Unpack | src/runtime/locks.c:101-117 | the three fields of a lock word can be read back |
| Monitor.LockKeeps | src/runtime/locks.c:118-148 | an attempt to lock keeps both invariants: it takes the lock if and only if that is free or the thread's own, and then the thread is one deeper and the semaphore is its depth; otherwise the thread is first in the waiter queue; no other depth changes |
| Monitor.UnlockKeeps | src/runtime/locks.c:155-191 | an unlock by the thread inside keeps them: it is one less deep, no other depth changes, and if it leaves, the first waiter leaves the queue and tries again |
| Monitor.WaitKeeps | src/runtime/locks.c:298-329 | the start of a wait by a caller that passes the check keeps mutual exclusion and depths, and the rest if and only if the caller is inside; the lock is free, the caller is first of those waiting and the first waiter tries again |
| Monitor.ResumeKeeps | src/runtime/locks.c:330-361 | a thread that comes back from a wait has its old depth, and is inside if and only if that is positive, or queues again; both invariants are kept with or without the assertion at line 355 |
| Monitor.RestoreExact | src/runtime/locks.c:353-358 | the assertion on the restored semaphore (line 355) holds if and only if the thread was inside when it called wait, or nobody is queued |
| Monitor.RunAsserted | src/runtime/locks.c:353-358 | it never fails on a run in which only threads inside wait and signal |
| Monitor.SignalKeeps | src/runtime/locks.c:417-446 | a signal, whoever sends it, moves one thread from one queue to the other and keeps mutual exclusion and depths |
| Monitor.BroadcastKeeps | src/runtime/locks.c:465-500 | a broadcast moves all of them, in order, and keeps the same |
| Monitor.SafeRun | src/runtime/locks.c:118-520 | over every interleaving of what the code itself lets through: mutual exclusion, exact depth, each blocked thread on exactly one queue, the has-waiters bit set exactly if the waiter queue is not empty |
| Monitor.MutualExclusion | src/runtime/locks.c:118-191 | at most one thread is inside, and the semaphore is its nesting depth |
| Monitor.RunKeeps | src/runtime/locks.c:118-520 | over every interleaving in which only threads inside wait and signal, no wakeup is lost either |
| Monitor.RunDepth | src/runtime/locks.c:118-191 | on every run the depth of a thread is the number of its locks that got the lock less the number of its unlocks; unless it waits it is inside if and only if that is positive, and then the semaphore is that number |
| Monitor.WaitStable | src/runtime/locks.c:280-361 | no step changes the depth of a waiting thread |
| Monitor.WaitReturnsDepth | src/runtime/locks.c:280-361 | however long a wait takes, it returns at the depth it started with, so inside the monitor if and only if it was inside |
| Monitor.OwnerCheckExact | src/runtime/locks.c:298-300 | the owner check tells whether the caller is inside if and only if the lock is not free with the caller as its last owner |
| Monitor.StaleOwnerLosesWakeup | src/runtime/locks.c:426-446 | a run in which the check lets an outsider signal, and a wakeup is lost |
| Monitor.SignalSafe | src/runtime/locks.c:417-446 | a signal keeps the invariant if and only if someone is inside, someone is about to retry, or nobody waits |
| Monitor.BroadcastSafe | src/runtime/locks.c:465-520 | the same condition for a broadcast |
| Monitor.StaleWait | src/runtime/locks.c:298-361 | a caller of wait that passes the check without being inside saves semaphore 0; when it finds the lock free it fails the assertion at line 355 if and only if a thread is queued, and otherwise returns with the monitor free and nobody inside |
| Monitor.StaleWaitRun | src/runtime/locks.c:298-361 | a run in which it returns outside |
| Monitor.StaleWaitFails | src/runtime/locks.c:298-361 | a run in which it fails the assertion |
| Monitor.StepExists | src/runtime/locks.c:118-520 | every step the rules allow can be taken |
| Monitor.JLock.LockMutex | src/runtime/locks.c:118-231 | _lockMutex and wait_in_queue on the packed word do what the step says, so a nested lock counts |
| Monitor.JLock.UnlockMutex | src/runtime/locks.c:155-191 | _unlockMutex on the packed word |
| Monitor.JLock.WakeupWaiter | src/runtime/locks.c:238-278 | wakeup_waiter: the first waiter leaves the queue; the last one clears the word |
| Monitor.JLock.WaitCond | src/runtime/locks.c:280-329 | _waitCond up to its suspension, for every caller: the exception path, and what the check lets through |
| Monitor.JLock.WaitAgain | src/runtime/locks.c:330-361 | the loop of _waitCond and its return, and whether the assertion at line 355 holds on the way |
| Monitor.JLock.SignalCond | src/runtime/locks.c:417-462 | _signalCond for every caller, with the exception path |
| Monitor.JLock.BroadcastCond | src/runtime/locks.c:465-520 | _broadcastCond for every caller, with the exception path |
| Dispatch.FindMethodLocal | src/runtime/lookup.c:369-386 | findMethodLocal |
| Dispatch.FindIndex | src/runtime/classMethod.c:1159-1176 | the superclass search for an index finds what findMethod finds |
| Dispatch.AssignIndices | src/runtime/classMethod.c:1137-1181 | each method gets the index of what it overrides, or a new one |
| Dispatch.BuildDispatchTable | src/runtime/classMethod.c:1065-1325 | the table is the superclass's with the class's own methods installed |
| Dispatch.LinkKeeps | src/runtime/classMethod.c:1137-1252 | once linked, the table agrees with the search by name, and every entry is a visible virtual method with that index |
| Dispatch.SameIndexSameKey | src/runtime/classMethod.c:1159-1180 | visible methods share an index if and only if they have the same name and signature |
| Dispatch.LinkAll | src/runtime/classMethod.c:1065-1325 | linking a hierarchy class by class makes every table agree with the search by name |
| Dispatch.DispatchIsFind | src/runtime/lookup.c:391-412 | the entry at a method's index is what findMethod finds |
| Interfaces.NumberInterface | src/runtime/classMethod.c:1085-1123 | numbering an interface, which compares all methods but the last of each interface it extends: a method gets the number of the last match, or the next new one if there is none, and the table is as large as the largest number or the largest inherited table |
| Interfaces.FindNumber | src/runtime/classMethod.c:1092-1113 | a number is taken over if and only if some method that is not the last of an interface named has the name and signature, and then from the last such method |
| Interfaces.NumberKeeps | src/runtime/classMethod.c:1085-1123 | methods share a number only if they share name and signature, in spite of that |
| Interfaces.NumberFits | src/runtime/classMethod.c:1085-1132 | every number a class has to provide lies in its table |
| Interfaces.ClassFillable | src/runtime/classMethod.c:829-868 | so _findmethod writes inside the table |
| Interfaces.FindMethods | src/runtime/classMethod.c:829-868 | _findmethod sets the entries of all methods of an interface and of those it extends; it reaches its assertion (line 860) if and only if some of them is not found |
| Interfaces.BuildInterfaceTable | src/runtime/classMethod.c:870-904 | in a table of ITsize words the entry at the number of every interface method is what findMethod finds, and the assertion holds if and only if the class implements all methods of its interfaces |
| Interfaces.LinkInterfaces | src/runtime/classMethod.c:170-204 | for every hierarchy, built in order from nothing: all numbers, sizes and tables are right, and it gets through if and only if every class implements its interfaces |
| Interfaces.UndefinedMethod | src/runtime/classMethod.c:829-868 | a program that the loader accepts and that reaches the assertion |
| Fixup.HeldByDeclarer | src/runtime/classMethod.c:1345-1358 | a table that holds a method belongs to a class below the one that declares it |
| Fixup.HeldBetween | src/runtime/classMethod.c:1336-1341 | between a holder and the declaring class there are only holders, so pruning loses none |
| Fixup.CodeTables.FixupTable | src/runtime/classMethod.c:1329-1342 | the recursion patches exactly the holders at or below a class |
| Fixup.CodeTables.FixupDispatchTable | src/runtime/classMethod.c:1345-1358 | the new code goes into exactly the tables that hold the method; nothing else changes |
| Registers.EvictKeeps | src/kaffejit/registers.c:176-191 | freeing a register changes no slot's value |
| Registers.SlowKeeps | src/kaffejit/registers.c:152-236 | giving a slot a register keeps the maps inverse and all values; a read finds the value |
| Registers.FastKeeps | src/kaffejit/registers.c:241-265 | so does an access to a slot that is in a register |
| Registers.RegisterCache.ChooseRegister | src/kaffejit/registers.c:160-174 | the least recently used register of the right kind, the first of several |
| Registers.RegisterCache.SlotRegister | src/kaffejit/registers.h:68-78 | the register returned can hold the kind: the one the slot is in, if that can, and otherwise the least recently used of those that can and are not reserved, the first of several |
| Registers.RegisterCache.Read | src/kaffejit/registers.c:152-236 | a read through the cache returns what the plain frame holds |
| Registers.RegisterCache.Write | src/kaffejit/registers.c:152-236 | a write through the cache is a write to the plain frame |
| Registers.RegisterCache.ClobberRegister | src/kaffejit/registers.c:273-291 | clobbering changes no value |
| Registers.RegisterCache.ForceRegister | src/kaffejit/registers.c:298-322 | the slot takes the register's contents; the slot that was there is saved |
| Registers.RegisterCache.NoWriteback | src/kaffejit/machine.c:532-535 | marking a slot changes no value |
| Registers.RegisterCache.EndBlock | src/kaffejit/machine.c:579-623 | live slots are in the frame and clean, unless marked not to be written back; the frame of a marked slot and of one that is not live is unchanged |
| Registers.RegisterCache.NextBlock | src/kaffejit/machine.c:541-623 | live slots without that mark survive endBlock and startBlock; the others fall back to the frame |
| Registers.RegisterCache.Call | src/kaffejit/machine.c:556-662 | live slots survive a call that destroys all registers, and the others fall back to the frame |
| Frames.MergeCellLub | src/kaffejit/code-analyse.c:1882-1892 | merging a cell is the least upper bound in the order unassigned, concrete, unstable |
| Frames.MergeFrame | src/kaffejit/code-analyse.c:1873-1907 | mergeFrame computes that on the locals and the live stack, and raises NEEDVERIFY if and only if some cell differs |
| Frames.RaisedInVain | src/kaffejit/code-analyse.c:1884-1891 | the flag is raised without a change if and only if all cells that differ are unstable already |
| Frames.AtMerge | src/kaffejit/code-analyse.h:128-140 | a merge contains the active frame in its target, and flags the target if its frame changes or it is not done |
| Frames.AtEnd | src/kaffejit/code-analyse.c:314-1868 | processing a block keeps the invariant: a block that is done and not flagged is contained in all its targets |
| Frames.Analyser.VerifyBasicBlock | src/kaffejit/code-analyse.c:314-1868 | processing the events of a block does to frames and flags what its merges say, and keeps the invariant |
| Frames.Analyser.Pass | src/kaffejit/code-analyse.c:287-302 | one pass over the block chain; one that finds nothing to do has a post-fixpoint |
| Frames.Analyser.VerifyMethod | src/kaffejit/code-analyse.c:287-302 | the rerun loop stops in the first pass that finds no block flagged, and then the frames are a post-fixpoint |
| FrameRuns.PassesUnder | src/kaffejit/code-analyse.c:287-302 | whatever the number of passes, the frames stay below every solution of the flow equations |
| FrameRuns.LeastExists | src/kaffejit/code-analyse.c:287-302 | the flow equations of every method have a least solution |
| FrameRuns.ComesQuiet | src/kaffejit/code-analyse.c:287-302 | after finitely many passes no frame changes any more: each earlier pass lowers a measure on cells and done flags |
| FrameRuns.CycleNeverEnds | src/kaffejit/code-analyse.c:287-302 | if blocks flag each other in a circle for cells that are unstable already, the loop does not end, after any number of passes |
| FrameRuns.EndsExactly | src/kaffejit/code-analyse.c:287-302 | the rerun loop ends if and only if there is no such circle in the least solution |
| FrameRuns.RestIsLeast | src/kaffejit/code-analyse.c:287-302 | when it ends, exactly the reached blocks are done and their frames are the least solution |
| FrameRuns.AllProcessed | src/kaffejit/code-analyse.c:304-307 | the assertion that every block has been processed holds if and only if all blocks of the chain are reached |
| Spinning.LoopWellFormed | src/kaffejit/code-analyse.c:381-391 | iconst_0, istore_0, goto 0 with an object as argument is a method the analysis accepts |
| Spinning.NeverEnds | src/kaffejit/code-analyse.c:287-302 | for it the loop does not end, for every number of passes from its real starting state |
| Spinning.SpinForever | src/kaffejit/code-analyse.c:287-302 | so verifyMethod does not come to an end, however many passes it is allowed |
| Bytecode.ChainExact | src/kaffejit/code-analyse.h:116-120 | linking blocks one after the other gives a chain of all of them in order if and only if none is attached twice |
| Bytecode.ChainEnds | src/kaffejit/code-analyse.h:116-120 | the loop over the chain ends if and only if the last block attached was not attached before |
| Bytecode.ChainListsAll | src/kaffejit/code-analyse.c:94-210 | the block chain meets every block exactly once if and only if no two entries of the exception table share a handler that is not a branch target |
| Bytecode.SharedHandlerHangs | src/kaffejit/code-analyse.c:199-210 | if the last entry shares its handler with another one, the loop over the chain does not end |
| Bytecode.WholeChain | src/kaffejit/code-analyse.c:94-210 | without such a pair the chain is the list of all blocks |
| Bytecode.ChainSkips | src/kaffejit/code-analyse.c:199-210 | with it the chain may end and leave out a block |
| Bytecode.FindBlocks | src/kaffejit/code-analyse.c:94-210 | the scan marks exactly the branch targets and links the blocks in the order in which it meets them |
| Bytecode.CoveringEvents | src/kaffejit/code-analyse.c:349-358 | at an instruction the locals are merged into the handlers of exactly the entries that cover it |
| Bytecode.BlockEvents | src/kaffejit/code-analyse.c:344-1862 | the do loop over a block, with the merge into the next block where control flows on |
| Bytecode.WalkArrives | src/kaffejit/code-analyse.c:344-1862 | if every merge of a block is contained, so is what each of its instructions passes on |
| Bytecode.PostFixpointSound | src/kaffejit/code-analyse.c:344-1862 | for every processed block and every instruction in it: its locals are below the frame of each handler that covers it, the frame at each jump is below the target, and the frame at the end is below the next block; each of these has been processed if and only if it is on the chain |
| Bytecode.WholeSound | src/kaffejit/code-analyse.c:344-1862 | all of them have been processed if no two table entries share a handler that is no branch target |
| Bytecode.InitialIs | src/kaffejit/code-analyse.c:199-302 | frames contain the starting frames if and only if they have the arguments in the first block and an object on top of the stack of each handler in the exception table |
| Bytecode.SolvesFlow | src/kaffejit/code-analyse.c:344-1862 | frames that meet what the method begins with and what each instruction passes on contain every merge |
| Bytecode.RestSolves | src/kaffejit/code-analyse.c:287-310 | the frames of an idle pass meet those conditions and are below all that do |
| Bytecode.VerifyMethod | src/kaffejit/code-analyse.c:60-310 | verifyMethod on any bytecode: it ends if and only if the block chain does and some pass finds no block flagged; then arguments are in the first frame and an object on the stack of each handler, what arrives at a block is contained in its frame, and the frames and processed blocks are the least like that |

## Left out

- Link words inside free chunks, free blocks, free lumps, large objects and thread queues: lists are sequences, so the model does not show that the embedded links are intact.
- Block usage tables as bits: the set of used blocks stands for them. The statistics small_freed, small_marked and fixed_alloc are not modelled.
- Registering and running finalizers (gc.c:2262-2424) and `expand_heap`; of finalization only `walk_finals` is modelled.
- `gc_malloc_large` and `gc_realloc_fixed`: they combine `mem_allocate`, `mem_resize`, `mem_expand` and the hash table, which are modelled.
- sbrk, signals, timing, thread switching and generated walkers: regions and child lists are parameters.
- 32-bit wrap-around of sizes, counters and statistics: integers are unbounded, and addresses are bounded only where the sort and the lock word need it.
- LumpHeap.Heap.MemResize: copies whole words; a trailing part of a word is not described.
- Frames.Analyser.VerifyMethod: takes the number of passes as a bound, since the loop need not end.
- Bytecode.BlockEvents: instructions are sequences of the macros that change the active frame, and program counters count instructions; the decoding of bytecodes and the type checks that only set `failed` are not modelled.
- Bytecode.VerifyMethod: the stack pointer at the start of a block is a parameter, the same on every way to the block as the Java Virtual Machine Specification demands (section 4.8.2); the code would take the last one it saw.
- MarkPhase.Marker.Rescan: takes the objects of the heap as a list in any order, instead of following the hash chains and the headers.
- Pointers.RegionTable.RegionFind: assumes at least one region, as the code does.
- Timed waits, Thread.stop, suspendThread and preemption by the timer inside a monitor operation; the ready queues of the scheduler.
- `_fixup_interface_table` and the placeholder methods of `getMethodSignatureClass`.
- Read-once registers, registers saved over calls, two-slot values, the types that select spill instructions, `syncRegisters` and `slowSlotOffset`.
- Trampolines and native code in the tables, except for what `_fixupDispatchTable` writes.
- The translator, the interpreter, class loading, string interning, exception handling and I/O.
