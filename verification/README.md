# Verification model of the Boehm-Demers-Weiser conservative collector

A Dafny model of the parts of the collector that everything else relies on: that marking finds every reachable
object whatever overflows or is written meanwhile, that memory is handed out once at a time and reclaimed only when
nothing leads to it, and that the protocols between threads neither lose work nor get stuck. All main results are for
every memory, every run or every interleaving. The configuration is a 64-bit one: words of 8 bytes, granules of 16,
blocks of 4096, `MANUAL_VDB` dirty bits, signals to stop threads, and for the two protocol models `PARALLEL_MARK`.

What the source changes in place is a class here, with its fields and its loops; each method is proved against a
function or relation on a snapshot of the state (`View`, `State`, `Heap`), and the lemmas are about those. The
protocols between threads are state machines whose actions are the steps between two lock operations, atomic
operations or shared accesses.

| file | source | subject |
|---|---|---|
| `HeapGraph.dfy`, `MarkInvariant.dfy` | `gc/include/private/gc_pmark.h`, `gc/mark.c` | memory as a graph, reachability, Invariant I of the mark phase with all its exceptions, and what each step does to it |
| `Marker.dfy`, `Draining.dfy` | `gc/mark.c` | the mark state machine of `GC_mark_some`, the drain loop, overflow and recovery; draining as a function |
| `Collector.dfy` | `gc/alloc.c` | the loops that drive the marker, and a full collection followed by finalization |
| `Mutator.dfy` | `gc/os_dep.c`, `gc/malloc.c`, `gc/new_hblk.c` | the client and the allocator between marking steps: stores, new objects, free lists, freed blocks, roots, dirty bits |
| `Runs.dfy` | `gc/mark.c`, `gc/alloc.c` | every interleaving of the client, the allocator and the marker, with what each event changes |
| `Finalize.dfy`, `OverflowExample.dfy` | `gc/finalize.c` | the table of finalizable objects, which of them get queued, and the ordering rule |
| `ParallelMark.dfy`, `ActiveCount.dfy`, `ParallelPhase.dfy` | `gc/mark.c`, `gc/pthread_support.c` | marking by several helpers, its end, and its place in `GC_mark_some` |
| `StopWorld.dfy` | `gc/pthread_stop_world.c` | the signal handshake that stops and restarts threads |
| `LazySweep.dfy` | `gc/reclaim.c`, `gc/malloc.c`, `gc/alloc.c` | marks, free lists and blocks waiting to be swept, from one collection to the next |
| `HeaderMap.dfy`, `HeapTiling.dfy` | `gc/headers.c`, `gc/misc.c` | the two-level header table, forwarding counts, walks over the heap, `GC_base`; the heap as a tiling by blocks |
| `FreeLists.dfy`, `HeapAccounts.dfy`, `HeapBlocks.dfy` | `gc/allchblk.c`, `gc/alloc.c` | lists of free blocks, byte counters, allocation, splitting, coalescing |
| `BlackList.dfy` | `gc/blacklst.c` | the page hash tables and the search for a clean run of blocks |
| `Exclusions.dfy` | `gc/mark_rts.c` | the table of address ranges excluded from the roots |
| `SizeMap.dfy` | `gc/misc.c` | the table from sizes to size classes |
| `RangeScan.dfy` | `gc/mark.c` | which addresses the scan of a range examines, for any alignment |
| `Config.dfy`, `Sets.dfy` | `gc/include/private/gc_priv.h` | constants; a fact about finite sets |

## Taken from the private headers

- `PUSH_OBJ` and `PUSH_CONTENTS_HDR` (`gc/include/private/gc_pmark.h:117-129` and `:227-283`): the mark bit is set
  and counted before the object is pushed; a push that finds the stack full makes the state invalid and discards 512
  entries (`INITIAL_MARK_STACK_SIZE / 8`); an object that holds no pointers is marked and not pushed.
- `GC_MARK_FO` (`:415-421`), Invariant I and the mark states (`:435-465`).
- The sizes in `Config.dfy`, `N_HBLK_FLS`, `MAX_JUMP` and the layout of the header table (`gc_priv.h`, `gc_hdrs.h`).
- A plausible word that is not the address of an object in a used block leads nowhere; which words are plausible is
  a parameter.

## Findings

- **A finalizer can be held back after a mark-stack overflow.** Finalizers are meant to run for the unreachable
  registered objects to which no other such object leads. When marking from an object overflows the mark stack,
  `GC_MARK_FO` sets the mark bit of the object itself so that the rescan starts from it
  (`gc/include/private/gc_pmark.h:418-419`), and `GC_finalize` then takes it for reachable (`gc/finalize.c:587`).
  `Finalize.RuleKeptIff` gives the exact condition: the rule is kept if and only if no object whose finalizer ought to
  run overflows the mark stack in its turn, where the overflow is `Draining.Overflows`, a function of memory, marks,
  stack size and object that can be computed before the call. `Finalize.NoOverflowIff` says when there is no
  overflow at all, from the size of the stack at the start alone. `OverflowExample.FirstIsHeldBack` is a heap of 4159
  objects in which it happens with the initial stack. Since the stack may be enlarged afterwards, the same object can
  be queued by a later collection. The comment at `:412` asks why the test of the mark state is needed:
  it is what detects the overflow.
- **The count of active markers can rise again.** The comment at `gc/mark.c:909-914` says that `GC_active_count` stays
  zero once it has returned to zero. `ParallelMark.ActiveCountRises` is a run in which it does not;
  `ActiveCount.StaysZeroIff` says exactly from which reachable states it does. The results about the phase do not
  depend on the comment.
- **One slot behind the exclusion table is written when the table is full.** The shift at `gc/mark_rts.c:434-436` comes
  before the test at `:440`. `Exclusions.ExclusionTable.ExcludeInner` returns whether that slot was written, with the
  exact condition; `Exclusions.BelowFullTable` is an input for a table of any size, and `Exclusions.FillAndExclude` the
  calls that lead there with 512 slots.
- **Slots on free lists are outside Invariant I.** It says that a marked object is dirty or points to marked objects.
  `GC_free` stores the link of the free list into a small object and neither records its page as dirty nor clears its
  mark (`gc/malloc.c:486-494`), so a marked slot on clean pages can lead to an unmarked one; and `GC_clear_fl_marks`
  (`gc/alloc.c:764-804`) clears marks to which others may still point. `Mutator.FreeKeepsAllCleanIff` and
  `Mutator.UnmarkKeepsAllCleanIff` say exactly when, `Mutator.FreeLinksToUnmarked` is a heap. What does hold is stated
  with the history variable `lapsed`: the words that hold a link of a free list, or a pointer that was stored before
  its slot was put on one. For all other words the invariant holds in every run (`Runs.Run`). A partial collection
  need not follow lapsed words and a full one does, so a full one is always exact (`Collector.Collector.StoppedMark`).
- **Comments that the code does not follow.** `gc/allchblk.c:363` says that lists of free blocks are sorted by
  address; blocks are added in front (`:382`, `FreeLists.FreeListTable.AddTo`). `gc/allchblk.c:69-72` describes
  `GC_enough_large_bytes_left` with "greater than"; the code compares with "at least"
  (`HeapBlocks.HeapManager.EnoughLargeBytesLeft`).

## Model

| member | source | states |
|---|---|---|
| HeapGraph.ClosedHoldsReachable | gc/include/private/gc_pmark.h:435-439 | a set that no pointer leaves and that holds the seeds holds everything reachable from them: the link between the local Invariant I and reachability |
| HeapGraph.ReachSetClosed | gc/include/private/gc_pmark.h:435-439 | the set of reachable objects is itself such a set: no pointer leaves it, and it holds the seeds |
| MarkInvariant.MarksKeepInv | gc/include/private/gc_pmark.h:435-465 | marking objects keeps Invariant I with all its exceptions, wherever the heap scan is and whatever is in hand, also when the mark stack overflows and drops entries |
| MarkInvariant.MarkOne | gc/include/private/gc_pmark.h:227-283 | setting one mark bit and pushing the object keeps counts and bounds; nothing on the stack is lost unless the state becomes invalid, and that happens only when the stack was full |
| MarkInvariant.PushKeeps | gc/include/private/gc_pmark.h:117-129 | a push leaves the stack within its size, keeps every entry while there is room, and makes the phase invalid exactly when there is none |
| MarkInvariant.ZeroCountIffEmpty | gc/mark.c:1771-1783 | a block with a zero mark count has no marked object, so skipping it is safe; while counts are exact the converse holds too |
| MarkInvariant.TakeTop | gc/mark.c:644-702 | taking a piece of at most 127 words off the top range leaves the piece in hand, loses no word, and shortens the stack |
| MarkInvariant.Deferred | gc/mark.c:823-899 | after the backward scan only the words below the deferred one and the deferred one itself have still to be examined |
| MarkInvariant.PassBlock | gc/mark.c:1842-1853 | a block whose marked objects have been followed, or hold nothing pending, may be passed: the invariant holds for the rest of the heap, which is smaller |
| MarkInvariant.NoBlockLeft | gc/mark.c:1842-1853 | when no block is left above the scan pointer, nothing is pending any more |
| MarkInvariant.ScanIsProgress | gc/mark.c:399-425 | a scan step that has not come to the end marks something or has fewer blocks before it |
| MarkInvariant.NearerTheEnd | gc/mark.c:316-425 | every step of a mark phase decreases the tuple (unmarked objects, phase, blocks left to scan, words on the stack) |
| MarkInvariant.Initiated | gc/mark.c:241-260 | after GC_initiate_gc the objects written since the last collection are on grungy pages that the scan will visit |
| MarkInvariant.Cleared | gc/mark.c:227-239 | after GC_clear_marks a full mark may start, whatever had been marked or lost before |
| MarkInvariant.CleanPageLeadsToMarked | gc/mark.c:1857-1885 | at the end of a mark phase a pointer from a marked object none of whose pages is dirty leads to a marked object, unless the pointer has lapsed: it is a link of a free list, or it was there before its slot was put on one |
| MarkInvariant.RootLeadsToMarked | gc/mark.c:316-339 | ... and so does every root that has not lapsed, if no root was written since the roots were pushed |
| MarkInvariant.MarkIsComplete | gc/mark.c:312-430 | if nothing was written during the phase, everything is marked that is reachable from the roots and from what was marked before without lapsed words, and nothing that is not reachable |
| MarkInvariant.NothingLapsed | gc/mark.c:312-430 | if no word has lapsed these two bounds are the same set |
| MarkInvariant.SettledIff | gc/finalize.c:563-566 | after a mark phase the marks are closed under pointers if and only if all lapsed words of roots and marked objects lead to marked objects |
| MarkInvariant.OverflowNeeds | gc/include/private/gc_pmark.h:411-421 | while marking from one object, the stack overflows only if at least as many unmarked objects as it has entries are reachable from it |
| MarkInvariant.EndFO | gc/include/private/gc_pmark.h:411-421 | without an overflow, GC_MARK_FO adds exactly what is reachable by one or more pointers |
| MarkInvariant.PiecesCover | gc/mark.c:1333-1373 | ranges that follow each other without a gap hold each word of the segment |
| Draining.OverflowsIff | gc/mark.c:618-702 | whether marking from an object overflows a stack of a given size is a function of the memory, the marks and the size: the state after the stack was emptied tells it |
| Draining.MarkIsPush | gc/include/private/gc_pmark.h:117-129 | the effect of setting a bit and pushing the object on the marker is one step of that function |
| Draining.Implausible | gc/mark.c:823-880 | scanning a piece backwards first and deferring one word has the effect of scanning it forwards |
| Draining.StoresUnnoticed | gc/include/private/gc_pmark.h:404-411 | marking from an unmarked object takes the same course whatever other threads store, between any two turns, into roots and into objects that were marked before |
| Marker.Marker.constructor | gc/mark.c:1290-1293 | the initial state, without blocks or roots, satisfies the invariant |
| Marker.Marker.PushObj | gc/include/private/gc_pmark.h:117-129 | the new stack: the entry on top, after 512 entries were discarded if it was full |
| Marker.Marker.PushContents | gc/include/private/gc_pmark.h:135-145 | a pointer to an unmarked object marks and pushes it; everything else changes nothing |
| Marker.Marker.Prefetch | gc/mark.c:823-852 | the found word is plausible and every word after it in the piece is not |
| Marker.Marker.ScanPiece | gc/mark.c:820-899 | all words of the piece are followed in order, and the invariant holds with nothing in hand |
| Marker.Marker.MarkTop | gc/mark.c:636-702 | one turn of the drain loop: the function Draining.Turn, the invariant, and progress |
| Marker.Marker.MarkFrom | gc/mark.c:618-902 | some number of such turns; the loop ends by its credit |
| Marker.Marker.PushMarked | gc/mark.c:1771-1820 | afterwards every marked object of the block has been followed, unless the phase is invalid |
| Marker.Marker.PushNextMarked | gc/mark.c:1842-1853 | the invariant from the next scan position on; zero exactly when nothing was left, and then nothing changed |
| Marker.Marker.BlockIsDirty | gc/mark.c:1823-1840 | true exactly if some page of the block is grungy |
| Marker.Marker.NextDirty | gc/mark.c:1857-1885 | the blocks passed over hold nothing pending; the block found is dirty |
| Marker.Marker.NextUncollectable | gc/mark.c:1890-1907 | likewise for marked objects of uncollectable blocks |
| Marker.Marker.PushSelected | gc/mark.c:1333-1373 | a segment is pushed in contiguous parts that make it up; the program is aborted only if the stack would need more than its size, although single pages are no longer pushed when it is three quarters full |
| Marker.Marker.PushRoots | gc/mark.c:1375-1390 | all roots are followed, unless the phase is invalid; the program is aborted only if the entries needed for the roots do not fit |
| Marker.Marker.AllocMarkStack | gc/mark.c:1235-1288 | an empty stack of the old or of the new size |
| Marker.Marker.MarkSome | gc/mark.c:312-430 | one call of GC_mark_some: the invariant, progress unless no phase is under way, TRUE exactly when the roots have been pushed and the stack is empty, and abort only for too many roots or without dirty bits |
| Marker.Marker.ClearMarks | gc/mark.c:227-239 | exactly the marks of uncollectable objects stay, and the state is one to start from |
| Marker.Marker.InitiateGc | gc/mark.c:241-260 | when it aborts, what state it leads to, and that dirty pages become grungy |
| Marker.Marker.InvalidateMarkState | gc/mark.c:579-583 | the stack is empty, the state invalid, and marking can be started again |
| Marker.Marker.SetMarkBit | gc/mark.c:178-188 | the object is marked, and the count of its block stays zero only if none of its objects is marked, and exact if it was |
| Marker.Marker.MarkFO | gc/include/private/gc_pmark.h:411-421 | exactly what is reachable from the object by one or more pointers gets marked, and the object itself exactly if the mark stack overflows, which is decided by Draining.Overflows |
| Marker.Marker.RunToEnd | gc/include/private/gc_pmark.h:415-421 | calling GC_mark_some until it returns TRUE ends, with everything marked |
| Collector.Collector.StoppedMark | gc/alloc.c:580-629 | when it succeeds, everything reachable from the roots and from earlier marks without lapsed words is marked, and nothing that is not reachable; a full mark, or one without lapsed words, marks exactly what is reachable; the loop ends unless the stop function ends it; abort only for the stated reasons |
| Collector.Collector.FullCollection | gc/alloc.c:458-485 | a full mark despite any number of overflows: the marked set is the least one that holds what roots lead to and the uncollectable objects that were marked, and that every pointer in a block of kind NORMAL or UNCOLLECTABLE stays in |
| Collector.ReachIsLeast | gc/mark.c:53-61 | with the kinds named: the reachable set is closed under the pointers of objects with a descriptor and holds roots and marked objects of both uncollectable kinds, and no smaller set does |
| Collector.Collector.CollectALittle | gc/alloc.c:501-543 | each call brings the phase nearer its end or completes it, with everything marked that was reachable at the start without lapsed words; the end of a phase is abandoned at most MAX_PRIOR_ATTEMPTS times and never if the stop function never stops |
| Collector.Collector.CollectAndFinalize | gc/alloc.c:458-485 | a full collection followed by GC_finalize: which finalizers are queued, in terms of what is reachable |
| Mutator.MutationKeepsInvariant | gc/os_dep.c:2861-2887 | every change of memory that is recorded as the client and the allocator must record it keeps the invariant in every state of the mark phase |
| Mutator.Store | gc/os_dep.c:2883-2887 | a store into an object and GC_dirty keep the invariant; the page of the object becomes dirty; the pointer counts as lapsed exactly if its object is on a free list |
| Mutator.StoreRoot | gc/mark.c:316-339 | a write to a root keeps it, without any dirty bit |
| Mutator.AddRoot | gc/mark_rts.c:225-236 | so does a new root segment |
| Mutator.ReuseSlot | gc/malloc.c:103-126 | so does handing out a slot, marked or not; one of an uncollectable kind is marked afterwards, and pointers stored from then on count |
| Mutator.FreeSlot | gc/malloc.c:482-496 | so does GC_free for a small object, although it stores a link without recording the page as dirty and leaves the mark bit: exactly the link and the pointers to the slot lapse |
| Mutator.SweepSlot | gc/reclaim.c:141-212 | so does putting an unmarked slot on a free list in a sweep; one of an uncollectable kind gets marked |
| Mutator.ClearFlMark | gc/alloc.c:764-804 | so does clearing the mark of a slot on a free list; with parallel marking the count is not decremented to zero, and zero still means that nothing is marked |
| Mutator.FreeKeepsAllCleanIff | gc/malloc.c:486-494 | GC_free makes a pointer from a marked object on clean pages lead to an unmarked one if and only if it links a marked slot on clean pages to an unmarked slot |
| Mutator.UnmarkKeepsAllCleanIff | gc/alloc.c:764-804 | clearing the mark of a free slot does so if and only if another marked object on clean pages has a pointer to it |
| Mutator.FreeLinksToUnmarked | gc/malloc.c:486-494 | a heap in which GC_free does it |
| Mutator.NewBlock | gc/new_hblk.c:171-192 | so does a new block; its slots are marked exactly if its kind is uncollectable |
| Mutator.FreeBlock | gc/malloc.c:496-505 | so does giving a block back in any state of the mark phase, even while its objects are on the mark stack |
| Mutator.Overwrite | gc/malloc.c:496-505 | ... and any later use of the memory that stale mark stack entries still refer to |
| Runs.Run | gc/mark.c:312-430 | over every run that interleaves these actions with marking steps, a trace of all states in between: each event has exactly its effect on words, marks, dirty bits and the mark state, or none if its guard is false; whenever a phase ends, every pointer that has not lapsed, from a marked object on clean pages, leads to a marked object; and in every state each pointer to a slot on a free list has lapsed |
| Runs.RunFromStart | gc/mark.c:1290-1293 | the same from the initial state on |
| Finalize.Finalizer.GrowTable | gc/finalize.c:99-134 | the same entries in a table twice the size, each on the chain it hashes to; nothing changes without memory |
| Finalize.Finalizer.Register | gc/finalize.c:302-423 | the entry of the object is replaced, added or removed and no other changes; the old one is reported; it fails only without memory |
| Finalize.Finalizer.MarkFromAll | gc/finalize.c:563-578 | after the first loop, the turns of all registered objects have been taken in table order |
| Finalize.ThroughIs | gc/finalize.c:563-578 | these turns mark exactly what unmarked registered objects lead to, and the objects that overflowed the stack |
| Finalize.Finalizer.QueueUnmarked | gc/finalize.c:579-616 | exactly the entries of unmarked objects leave the table for the queue, once each, and the byte and entry counts agree |
| Finalize.Finalizer.Finalize | gc/finalize.c:525-616 | an object is queued exactly if it was registered and unmarked, no unmarked registered object leads to it, and it did not overflow the mark stack; what is marked afterwards is closed under pointers |
| Finalize.RuleKeptIff | gc/finalize.c:563-616 | the ordering rule is kept if and only if no object whose finalizer ought to run overflows the mark stack in its turn |
| Finalize.NoOverflowIff | gc/finalize.c:563-578 | whether any turn overflows can be computed beforehand from the size that the stack has at the start |
| Finalize.FirstOverflowBreaks | gc/finalize.c:563-616 | if the first overflow is that of an object whose finalizer ought to run, the rule is broken whatever memory can be had later |
| Finalize.RuleKeptIfSmall | gc/finalize.c:563-616 | the rule is kept if fewer than 4096 unmarked objects are reachable from each unmarked registered one |
| Finalize.OrderIndependent | gc/finalize.c:563-616 | without overflow the queued set does not depend on the order of the table |
| OverflowExample.FirstOverflows | gc/include/private/gc_pmark.h:411-421 | in a concrete heap of 4159 objects, marking from the first overflows a stack of the initial 4096 entries |
| OverflowExample.FirstIsHeldBack | gc/finalize.c:563-616 | GC_finalize in that heap does not queue the object although nothing leads to it |
| ParallelMark.StepKeepsInv | gc/mark.c:947-1229 | every step of every helper, of the starting thread and of threads joining or leaving keeps the invariant of the protocol |
| ParallelMark.ClearStep | gc/mark.c:947-975 | clearing a stolen descriptor keeps the invariant of the protocol: no work is lost, even if two helpers got the entry |
| ParallelMark.ReturnStep | gc/mark.c:980-1008 | giving entries back to the global stack keeps the invariant: they are there for others to find, or the state is invalid |
| ParallelMark.SetMarkStep | gc/include/private/gc_pmark.h:227-283 | marking an object and pushing it on the local stack of a helper keeps the invariant, also when that stack overflows and when a second helper marks the same object |
| ParallelMark.HalveKeeps | gc/mark.c:665-685 | halving a range leaves the same words on the stack |
| ParallelMark.TakeKeeps | gc/mark.c:686-702 | taking a piece off a range loses no word and adds none |
| ParallelMark.NothingIsLost | gc/mark.c:947-1229 | in every interleaving of any number of helpers, each word of a marked object or root that leads to an unmarked object, unless it had lapsed before, is in a global entry at or above GC_first_nonempty, or in the local work of an active helper, or the state is invalid |
| ParallelMark.LeavesWhenDone | gc/mark.c:1108-1134 | a helper leaves only when the global stack and all local stacks are empty |
| ParallelMark.PhaseIsComplete | gc/mark.c:1170-1201 | when the phase ends and no work was dropped, everything reachable without lapsed words is marked and nothing beyond the given bound |
| ParallelMark.NotStuck | gc/mark.c:1067-1134 | until a phase has ended some participating thread has a step, and no wake-up is lost of a helper that waits in GC_mark_local; the threads that wait in GC_do_parallel_mark and GC_help_marker are taken to notice when they can go on |
| ParallelMark.ActiveCountRises | gc/mark.c:909-914 | a run in which GC_active_count returns to zero, the last active helper leaves and releases the mark lock, and then the count rises again, contrary to the comment |
| ActiveCount.StaysZeroIff | gc/mark.c:909-914 | from a reachable state with a zero count, the count stays zero for the phase if and only if nobody is joining, nobody can still join, and nobody inside will see a nonempty global stack |
| ActiveCount.Rises | gc/mark.c:1067-1134 | in every other such state some run makes it rise |
| ParallelPhase.MarkSomeMayStart | gc/mark.c:373-377 | GC_mark_some hands over to the helpers in a state that they can start from |
| ParallelPhase.ParallelMarkSome | gc/mark.c:373-386 | what GC_mark_some has afterwards, although helpers may have counted marks wrongly as long as zero means none: TRUE with everything marked that is reachable without lapsed words and nothing beyond the bound, or the invalid state with an empty stack from which marking can be completed |
| StopWorld.StepKeepsInv | gc/pthread_stop_world.c:193-275 | every step of every thread, handler and stopper keeps the invariant of the handshake |
| StopWorld.PostStep | gc/pthread_stop_world.c:193-250 | an acknowledgement is for the current stop and the first one of that thread |
| StopWorld.WorldIsStopped | gc/pthread_stop_world.c:538-608 | in every run, when GC_stop_world has returned, each other thread that is neither finished nor blocked has saved its stack pointer, is in the handler, has acknowledged this stop exactly once, and can do no work of its own; the semaphore is zero |
| StopWorld.StaysStopped | gc/pthread_stop_world.c:432-490 | it stays so, with the same stack pointer, until GC_start_world clears the flag, whatever signals wake it |
| StopWorld.AcksOnce | gc/pthread_stop_world.c:193-275 | no thread acknowledges the same stop twice |
| StopWorld.RestartNotLost | gc/pthread_stop_world.c:193-275 | a thread whose stop has ended gets out of the handler by at most six steps of its own |
| StopWorld.ReleasedStays | gc/pthread_stop_world.c:193-275 | no step of any thread takes that away or leads it further from the exit |
| StopWorld.OutInTime | gc/pthread_stop_world.c:193-275 | however threads are interleaved, after that many own steps it has been out |
| StopWorld.StartReleasesAll | gc/pthread_stop_world.c:746-802 | when GC_start_world has returned, every thread is so released |
| BlackList.SameWord | gc/blacklst.c:238-252 | blocks whose buckets share a table word have consecutive bits up to the end of the word |
| BlackList.BlackLists.IsBlackListed | gc/blacklst.c:228-257 | zero exactly if the block-by-block definition finds the run clean; otherwise every start below the result is black-listed for that length |
| BlackList.BlackLists.FindCleanStart | gc/allchblk.c:690-708 | the lowest clean start in the free block, or past the last usable one when there is none |
| BlackList.BlackLists.AddStack | gc/blacklst.c:200-218 | exactly the bucket of the hit is added, under exactly the stated condition |
| BlackList.BlackLists.AddNormal | gc/blacklst.c:176-198 | the same for hits from the heap, with the test of the offset |
| BlackList.BlackLists.Promote | gc/blacklst.c:130-161 | the incomplete list becomes the old one, and the new incomplete lists are clear, so that black-listing expires |
| BlackList.BlackLists.Unpromote | gc/blacklst.c:163-171 | the incomplete list becomes a copy of the old one |
| Exclusions.SortedCoversOnce | gc/mark_rts.c:389-404 | no address is in two ranges of a sorted table |
| Exclusions.ExclusionTable.NextExclusion | gc/mark_rts.c:389-404 | the binary search finds the first range that ends above its argument |
| Exclusions.ExclusionTable.ExcludeInner | gc/mark_rts.c:410-444 | the table stays sorted and excludes exactly the new range in addition; overlap is reported exactly when there is one, a full table likewise; and memory behind the table is written exactly if the table is full, nothing overlaps or touches, and some range ends above the start |
| Exclusions.BelowFullTable | gc/mark_rts.c:434-440 | for a full table of any size, an input for which the slot behind the table is written |
| Exclusions.FillAndExclude | gc/mark_rts.c:410-444 | 512 calls that fill a table of the size that the source has, and one more that writes behind it |
| Exclusions.ExclusionTable.ExcludeStaticRoots | gc/mark_rts.c:446-459 | the same for the client entry point, with the end rounded down: overlap, full table, the slot behind the table, and an empty range that changes nothing |
| Exclusions.Rounded | gc/mark_rts.c:451 | the last word boundary at or below the end |
| Exclusions.ExclusionTable.PushWithExclusions | gc/mark_rts.c:462-477 | the pushed ranges are disjoint, ascending, and make up exactly the given range without the exclusions |
| SizeMap.RoundedUpGranules | gc/include/private/gc_priv.h:688 | the smallest number of granules that holds the request and the extra byte |
| SizeMap.Widen | gc/misc.c:214-235 | the widened size is the largest even one of which the block holds as many, and at most the maximum |
| SizeMap.FilledOk | gc/misc.c:236-251 | filling a run of entries keeps every entry big enough |
| SizeMap.SizeTable.Extend | gc/misc.c:206-251 | the requested entry is filled, filled entries stay filled and big enough, both search loops stop in bounds; the size wastes little: a block holds at least as many objects as of nine eighths of the needed size and one granule; and exactly which entries may change |
| SizeMap.SizeTable.SizeClass | gc/malloc.c:103-126 | the size class is big enough, and the lookup is retried at most once, exactly if the entry was unfilled |
| RangeScan.Backward | gc/mark.c:823-852 | the positions loaded are exactly those at or above the deferred one, each once |
| RangeScan.HalvingCovers | gc/mark.c:665-685 | every aligned position of the range is in one of the halves |
| RangeScan.ScanRange | gc/mark.c:636-899 | for every range and word size: without helpers every aligned position is loaded exactly once and the plausible ones pushed exactly once; with halving, exactly the positions of the range are examined |
| HeaderMap.HeaderTable.GetIndex | gc/headers.c:204-251 | there is a bottom index for the block, and no other is added or lost |
| HeaderMap.HeaderTable.InstallCounts | gc/headers.c:274-288 | exactly the blocks after the first get counts |
| HeaderMap.HeaderTable.RemoveCounts | gc/headers.c:300-307 | exactly these counts are removed |
| HeaderMap.HeaderTable.PrevBlock | gc/headers.c:374-403 | the highest start of a block at or below h |
| HeaderMap.HeaderTable.NextUsedBlock | gc/headers.c:338-367 | the lowest start of a used block at or above h |
| HeaderMap.HeaderTable.FreeBlockEndingAt | gc/allchblk.c:334-359 | the free block that ends at h, if there is one |
| HeaderMap.HeaderTable.Base | gc/misc.c:379-416 | the start of the slot that contains the address, or 0 exactly if no slot of a used block does |
| HeaderMap.JumpsBack | gc/headers.c:388-396 | a count, capped or not, never skips the start of a block |
| HeapTiling.ReleasedExact | gc/allchblk.c:835-851 | freeing a block keeps the tiling and the exactness of headers and counts |
| HeapTiling.MergedExact | gc/allchblk.c:866-888 | so does merging two free neighbours |
| HeapTiling.MergedPrev | gc/allchblk.c:877-888 | after both merges no two free blocks are adjacent |
| HeapTiling.CutExact | gc/allchblk.c:501-527 | so does cutting a free block in two |
| HeapTiling.CutAdjacent | gc/allchblk.c:542-571 | the only free neighbours are then the part about to be taken and the other one |
| HeapTiling.TakenExact | gc/allchblk.c:798-826 | so does putting a free block to use |
| HeapTiling.AddedExact | gc/alloc.c:1042-1077 | so does adding memory to the heap |
| FreeLists.FlIndexOrders | gc/allchblk.c:98-105 | larger blocks are never on earlier lists, and lists below the threshold hold one size |
| FreeLists.Unlinked | gc/allchblk.c:293-329 | unlinking keeps all lists doubly linked through their headers |
| FreeLists.Pushed | gc/allchblk.c:365-392 | so does linking at the front |
| FreeLists.Relinked | gc/allchblk.c:542-571 | so does replacing one block by another |
| FreeLists.FreeListTable.RemoveFrom | gc/allchblk.c:293-329 | the list without the block, the other lists as they were, the byte count less its size |
| FreeLists.FreeListTable.AddTo | gc/allchblk.c:365-392 | the list for the size with the block in front |
| FreeLists.FreeListTable.Replace | gc/allchblk.c:542-562 | the second part in the place of the first |
| HeapAccounts.AddedOnLists | gc/allchblk.c:363-392 | a free block put on the list for its size: each counter is the sum of its list |
| HeapAccounts.SplitCounters | gc/allchblk.c:542-571 | while the second part of a block sits on a list that is wrong for its size, each counter is still the sum of its list |
| HeapAccounts.UsedBytesChange | gc/checksums.c:160-175 | the bytes of used blocks change by those of the one block that changed |
| HeapBlocks.HeapManager.Freehblk | gc/allchblk.c:835-896 | the block becomes free and is merged with its free neighbours; the heap is tiled, lists and counters are exact, no two free blocks are adjacent |
| HeapBlocks.HeapManager.AddToHeap | gc/alloc.c:1042-1077 | the same for heap growth; the heap size grows by what was added |
| HeapBlocks.HeapManager.WorthTaking | gc/allchblk.c:666-689 | a block is passed over for the next one only if that one would do and is not black-listed |
| HeapBlocks.HeapManager.Place | gc/allchblk.c:690-745 | the chosen start is the lowest that is not black-listed, or the first of a long block if all are and much is asked for; the block is given up exactly if there is no such place, and dropped only for a single block |
| HeapBlocks.HeapManager.Drop | gc/allchblk.c:731-778 | a dropped block becomes used single blocks, and no other free or used block changes |
| HeapBlocks.HeapManager.AllochblkNth | gc/allchblk.c:652-826 | the free block that is chosen, where in it the request is met, what is still in use, and the conserved bytes; failure means that every block of the list that is large enough has only black-listed starts |
| HeapBlocks.NextDoes | gc/allchblk.c:666-689 | a block is passed over for the next one only if that one would do |
| HeapBlocks.HeapManager.EnoughLargeBytesLeft | gc/allchblk.c:73-85 | the highest list from which on large blocks, free or in use, make up at least the most there ever were; 0 if there is none |
| HeapBlocks.HeapManager.ChooseLimit | gc/allchblk.c:605-632 | the last list whose blocks may be split, from what finalizers have freed and what is left for large objects |
| HeapBlocks.HeapManager.Allochblk | gc/allchblk.c:587-640 | exact fits are preferred, then blocks on earlier lists, none beyond the limit for splitting; it fails only if each exact fit, and each large enough block up to the limit, has only black-listed starts, whatever is black-listed |
| HeapBlocks.NoBlockFits | gc/allchblk.c:587-640 | the exact-fit pass and the lists from the next on up to the limit cover every block that might be taken |
| HeapBlocks.SplitChoice | gc/allchblk.c:602-640 | what is taken on a later list is taken only when no exact fit and no block on an earlier list has a place |
| HeapBlocks.HeapManager.AllocLarge | gc/malloc.c:42-80 | the bytes of multi-block objects and their maximum are counted; the choice and the meaning of failure as for Allochblk |
| HeapBlocks.HeapManager.FreeBlock | gc/malloc.c:496-505 | a used block is freed, no other is touched, and the counters follow |
| HeapBlocks.HeapManager.PromoteBlack | gc/blacklst.c:130-161 | what was seen since the last collection counts now, the lists for the next start empty, and the spacing is the heap size over its black-listed part within the bounds; the heap is as it was |
| HeapBlocks.HeapManager.Sweep | gc/headers.c:310-334 | the walk calls its callback exactly once on every block used at its start and on no other, although the callback frees blocks and merges them with their neighbours |
| HeapBlocks.HeapManager.Run | gc/allchblk.c:652-896 | over every sequence of heap growth, allocation, freeing and sweeping, with blocks black-listed and the lists promoted in between, a trace of all states: each operation has exactly its effect, or none if it is not possible, and every state has the tiling, the lists and the counters, with heap size equal to used plus free bytes |
| HeapBlocks.EachPageOnce | gc/allchblk.c:652-896 | every page of the heap belongs to exactly one block, and no other page to any |
| HeapBlocks.OnItsList | gc/allchblk.c:365-392 | a block is on a list exactly if it is free and the list is the one for its size |
| HeapBlocks.AllocatedWasFree | gc/allchblk.c:652-826 | every page that is allocated was in a free block before |
| LazySweep.SweepKeeps | gc/reclaim.c:262-280 | sweeping a waiting block puts exactly its unmarked slots on the free list; none of them was there or in use |
| LazySweep.FreeKeeps | gc/malloc.c:470-495 | giving back an object keeps the invariant although its mark bit stays: the sweep does not put it on the list a second time |
| LazySweep.ClearKeeps | gc/alloc.c:366-377 | clearing the marks is safe when no block waits to be swept |
| LazySweep.ReclaimDone | gc/reclaim.c:501-548 | when every block has been freed, queued or left alone, the invariant of the sweep holds again |
| LazySweep.Finished | gc/alloc.c:813-910 | after a collection exactly the blocks with a marked slot off the free lists remain, and exactly those not nearly full wait |
| LazySweep.NotReclaimedAgain | gc/reclaim.c:501-629 | over every interleaving of allocation, freeing, sweeping, marking and the clearing of marks when a mark phase starts, an object that was handed out and not given back is on no free list and is not reclaimed until the next mark phase ends |
| LazySweep.FoundNone | gc/reclaim.c:556-576 | while the free list stays empty, the blocks swept so far had no unmarked slot |
| LazySweep.SlotsFit | gc/include/private/gc_priv.h:888 | the slots of a class fit in a block and one more would not |
| LazySweep.Sweeper.ReclaimGeneric | gc/reclaim.c:141-212 | the list that is built: the unmarked slots in front of the old list, cleared if the kind asks for it |
| LazySweep.Sweeper.ContinueReclaim | gc/reclaim.c:556-576 | afterwards the free list is not empty or no block of the class waits; exactly the unmarked slots of the swept blocks are added, and only the last of these blocks had any |
| LazySweep.Sweeper.ReclaimAll | gc/reclaim.c:583-629 | afterwards no block waits, unless the stop function ended it; exactly the unmarked slots of the blocks that are due are added to free lists |
| LazySweep.Sweeper.Alloc | gc/malloc.c:103-126 | the slot handed out was in use by nobody, is on no free list, is clear if the kind asks for it, and will not be swept; it is the first of the free list, blocks are swept only if that is empty, and a new block is taken only if no swept block had an unmarked slot |
| LazySweep.Sweeper.FreeObject | gc/malloc.c:470-495 | exactly this slot goes back on its list |
| LazySweep.Sweeper.ClearFlMarks | gc/alloc.c:764-804 | exactly the marks of the slots on the free list are cleared |
| LazySweep.Sweeper.StartReclaim | gc/reclaim.c:501-548 | all free lists are empty and every block has been dealt with as its marks say |
| LazySweep.Sweeper.FinishCollection | gc/alloc.c:813-910 | the client keeps exactly what it can reach and what is uncollectable, the free lists are empty, exactly the marks of free slots are gone, and which blocks remain and which wait |
| LazySweep.Sweeper.StartFull | gc/alloc.c:366-377 | blocks swept lately are swept and older ones given up before the marks of collectable objects are cleared |
| LazySweep.Sweeper.TryToCollect | gc/alloc.c:437-485 | a completed collection reclaims everything that is neither reachable nor uncollectable: what stays in use, is marked and which blocks are kept is exact; no block is swept with cleared or partial marks, even where sweeping is skipped because the collection is sure to be completed; one that is stopped takes nothing from the client |
| LazySweep.MarkedSurvive | gc/alloc.c:437-469 | when the sweep of waiting blocks, the clearing of marks and marking are over, what is marked and on no free list is what the collection is to keep |
| LazySweep.Sweeper.Run | gc/alloc.c:366-485 | over every sequence of operations, from allocation to whole collections, a trace of all states: each operation has exactly its effect, or none if it is not possible; an object stays with the client, on no free list, until it is given back or a completed collection ends in which it is not reachable, and then it is gone; and no slot is handed out a second time before that |
| LazySweep.Sweeper.RunFromStart | gc/alloc.c:366-485 | the same from the initial state on |

## Left out

Contracts that say less than the source does:

- Marker.Marker.AllocMarkStack: whether memory for a larger mark stack can be had is left open; both outcomes are covered wherever it is called.
- Marker.Marker.BlockIsDirty: only pages with a header are asked about; root pages have none and always count as dirty (gc/os_dep.c:2872-2876), so every root segment is pushed by PushSelected.
- Marker.Marker.MarkFrom: the number of turns until the credit is used up is returned as a ghost value and not computed from the costs.
- Mutator.FreeBlock: the words of the objects are kept apart for stale mark stack entries, and Overwrite says that they may be replaced by anything that leads to existing objects; which later allocation replaces them is not said.
- Mutator.Overwrite: as FreeBlock.
- Mutator.ReuseSlot: the slot is any slot; that it is the head of its free list is in LazySweep.
- Mutator.FreeSlot: any slot may be put on a free list with any link; which slots are, and in which order, is in LazySweep.
- Mutator.SweepSlot: as FreeSlot, for any unmarked slot.
- Runs.Run: one call of GC_mark_some is a single step, as if no other thread stored meanwhile. Parallel phases are in ParallelMark.
- Runs.RunFromStart: as Run.
- HeapBlocks.HeapManager.Allochblk: the conditions on collectability are one parameter; which of several suitable blocks on the same list is taken is not said, except that none is passed over unless the next one would do.
- HeapBlocks.HeapManager.AllocLarge: as Allochblk; the retries of GC_collect_or_expand after a failure are not part of this model.
- LazySweep.Sweeper.StartReclaim: the order in which blocks are met is left open; HeapBlocks.HeapManager.Sweep has that order.
- LazySweep.Sweeper.ReclaimAll: the order of the size classes is left open.
- LazySweep.Sweeper.ReclaimGeneric: the contents of objects are modelled only as zero beyond the first word or not.
- LazySweep.Sweeper.Run: what the client can reach and what the marker finds at the end of a collection are parameters of the operations, and the second must cover the first; Collector and Mutator have that.
- LazySweep.Sweeper.RunFromStart: as Run.
- LazySweep.Sweeper.TryToCollect: what the marker finds is a parameter, and a collection that is already in progress is not finished first as at gc/alloc.c:419-429; in Run that is the operations DoSetMark and DoFinish before DoCollect.
- Collector.Collector.CollectALittle: assumes that memory does not change within the call. Other threads do store meanwhile, without the allocation lock; between two calls of GC_mark_some that is Runs.Run.
- Collector.Collector.CollectAndFinalize: as Finalize, after a full collection.
- Finalize.Finalizer.Finalize: assumes that memory does not change within the call. Other threads do run meanwhile; the design relies on their reaching only marked objects. Draining.StoresUnnoticed is that argument for marking from one object without overflow; with overflow, and across objects, it is an assumption. It also assumes marks that are closed under pointers, which after a partial collection holds exactly when MarkInvariant.SettledIff says.
- Finalize.Finalizer.MarkFromAll: as Finalize.
- Marker.Marker.MarkFO: as Finalize.
- ParallelMark.NotStuck: some step of a participating thread is always possible; which one the scheduler takes is not modelled, nor are the sleep and the wake-up of the threads that wait in GC_do_parallel_mark and GC_help_marker.
- ParallelMark.ActiveCountRises: LookAgain, TestWait and Decide are separate steps although a helper that does not wait holds the mark lock throughout; the run respects the lock.
- ParallelPhase.ParallelMarkSome: how helpers count marks is not modelled, only that zero means none; afterwards counts are not taken to be exact.
- ParallelMark.ClearStep: the order in which the words in hand are examined is left open, and whether a helper shares or returns early, which only affects speed, is a choice.
- StopWorld.WorldIsStopped: signals are delivered once sent; resending after a timeout and the failures of pthread_kill are not part of this model.
- Finalize.Finalizer.GrowTable: chains are sequences, and the hash of an address is a function of it and the size.

Not modelled at all:

- `munmap` of free blocks, where the memory for heap growth comes from, and the abort when there are too many heap sections.
- Addresses in the upper half of the address space: the branches for wrap-around and for overflowing sizes never apply.
- Failure to allocate a header or a block of object map (assumed to succeed).
- The header cache, and black-listing as a side effect of marking.
- Bitmap, per-object and procedure descriptors, typed objects and client mark procedures; an object is scanned as a range or not at all. Pointers in the marker are word-aligned; `RangeScan.dfy` has other alignments.
- Java-mode finalization, unreachable-only and null mark procedures, disappearing links, finalizer notification and the running of finalizers.
- Dirty bits by page protection, `/proc`, or the operating system, and `GC_page_was_ever_dirty`; recovery from a fault while marking (`WRAP_MARK_SOME`).
- Removal and merging of root segments, registers and thread stacks as such (they are root segments pushed eagerly).
- Inexact mark counts in the sweep: `LazySweep.dfy` has exact ones, so blocks are kept back as nearly full by their true number of marks.
- The heuristics that decide when to collect, grow the heap or give up a small collection, and their counters.
- Leak detection, debugging headers, `GC_malloc_many` and the parallel building of free lists, thread-local free lists.
- Growth of the mark stack between parallel phases, and `GC_mark_thread` reading `GC_mark_no` twice when it falls behind; it is read once.
- Representation: hash chains, the mark stack, free lists and the header table are `seq` and `map` fields and headers are values, so aliasing between them is not captured; `prev` and `next` links of free blocks are. The words of the black lists are sequences of bits.
