# Forkscan, modelled and proved

Forkscan reclaims the memory of concurrent programs. A thread *retires* a block instead of freeing it;
retired pointers collect in a ring buffer per thread. When a buffer is full, one thread becomes the
reclaimer, drains all ring buffers and hands the pointers to the GC thread. The GC thread stops every
thread with a signal, forks, and the forked children scan the snapshot and mark every retired block
that is still referenced. Afterwards the threads themselves free the unmarked blocks, and the marked
ones are carried over to the next round.

This project models that machinery in Dafny 4.11 and proves properties of it. `dafny verify dfyconfig.toml`
checks everything.

## How the model is laid out

State machines, over every run and every interleaving:

| file | what a run consists of |
|---|---|
| `Lifecycle.dfy` | allocation, loads, stores and retirement by mutators; drain, gather, snapshot, scan, publish, carry-over and free |
| `ParallelScan.dfy` | racing children that claim ranges, batch root words, test and write marks in separate steps, and report; with either target of the recursion |
| `AsWritten.dfy`, `CompleteScan.dfy` | the same with the recursion as `child.c:170` is written: what it marks, and on which graphs that is all |
| `UnsafeRun.dfy` | runs of `Lifecycle` with line 170 as written |
| `Reclaim.dfy` | what the collector can do by itself from any state of `Lifecycle`: end the round, begin another, free what is unreachable |
| `Mutators.dfy` | what threads can get hold of, and that garbage stays garbage |
| `Retirees.dfy` | threads and the GC thread on the reference-counted retiree list and on the entries of its buffers |
| `SecondRead.dfy` | the same with one thread, and with more: when the double read of free_idx does harm |
| `Releases.dfy` | how the freeing threads can finish, and when they cannot |
| `Barrier.dfy` | signals, the handler, the deferral flags, acknowledgements and the counter |
| `CollectionQueue.dfy` | two mutexes, two condition variables and the throttling counter between reclaimers and the GC thread |
| `TimestampLock.dfy` | the reclaimer lock and the helping flags |
| `QueueRuns.dfy` | one writer and one reader of a ring buffer, slot by slot |
| `ScanEnds.dfy`, `BarrierEnds.dfy`, `QueueEnds.dfy`, `LockEnds.dfy` | that a scan, the handshake, the calls and the lock can always be brought to their end, or exactly when |
| `Paths.dfy` | steps joined to paths, for these |

Code, as classes, methods with loops, and functions:

| file | source |
|---|---|
| `Search.dfy`, `Scanner.dfy` | `child.c`: the searches, marking, the lookaside batch, the root scan |
| `AllocList.dfy` | `alloc.c` and the carving loop of `child.c` |
| `RootScan.dfy` | what the carved ranges and the words scanned in them have to do with the snapshot of `Lifecycle` |
| `RingBuffer.dfy`, `Bits.dfy` | `queue.c`, the drain of `frontend.c`, the rounding in `env.c` |
| `RetireeList.dfy` | the pointers of the retiree list in `buffer.c` |
| `AvlTree.dfy`, `AvlNodes.dfy`, `Sorting.dfy` | `avl.c` as values and as nodes; the sorts of `util.c` |

`Lifecycle` contains the machines of `Retirees` and `ParallelScan` and runs them step by step; its
snapshot step is the instant that `Barrier.WorldIsStopped` describes. `RootScan` shows that what
`AllocList` carves and `Scanner` scans is such a snapshot, and that one child marks what `ParallelScan` says.
`RetireeList` implements the list steps of `Retirees`; `AvlNodes` implements `AvlTree`.

The proofs assume sequentially consistent memory, condition variables without spurious wakeups, a
fixed set of threads, no pointer retired twice, and an allocator whose blocks are disjoint, 8-aligned
and made of whole words, and which reports no usable words at the null address.

## What the code turned out to do

* `child.c:170` recurses on the block that is being scanned, not on the block just marked.
  `Scanner.Scan.RecursiveMarkAsWritten` states what one call does and `Scanner.Scan.AsWrittenSufficesIff`
  when that is enough; `CompleteScan.CompleteIff` states on which graphs a whole scan marks everything
  reachable, and `AsWritten.AsWrittenMissesReachable` is a run that does not. The safety theorem of
  `Lifecycle` is about runs on whose snapshots the marking is complete, by the recursion on the
  block just marked or by the graph. `UnsafeRun.IncompleteIsUnsafe` shows that the condition is needed: any
  run that comes to a snapshot which a reachable block keeps from being complete can go on so that this
  block waits to be freed; `UnsafeRun.AsWrittenFreesReachable` is a whole run in which a reachable block is
  about to be freed.
* `util.c:250` and `util.c:257` read `free_idx` twice. A thread whose second read finds the index at the
  end wins its compare-and-swap all the same and takes an entry behind the last one:
  `Retirees.SecondReadDecides` says exactly when. It happens in no run of one thread and, for any larger
  number of threads, in some run (`SecondRead.FaultlessIff`). In the machines such a thread stops there, so
  what `Lifecycle` proves is about runs without such a read, in particular about programs with one thread
  (`Lifecycle.FreedByOneThread`).
* `child.c:80` and `child.c:82` read the first entry twice. If a sibling marks it in between while it is
  searched for, the search returns -1, on every array (`Search.SearchCanReturnMinusOne`), and only then:
  `Search.AddrFind` says which two loads decide. The word that is then read is the last of the buffer's own
  page, which is zero and no reference, and `find_roots` goes on as it should (`Scanner.Scan.StartPool`); a
  build with assertions stops at `child.c:70` when the search was for a reference.
* A thread that tries to acquire the reclaimer lock while its own helping flag is up waits for all flags to be
  up to date, its own among them, which it cannot change: then nobody ever becomes the reclaimer again.
  `LockEnds.CanReclaimIff` gives the exact states. Nothing in the repository raises a flag, and then no state
  is like that (`LockEnds.NeverStuck`).
* A sibling that found no range left also notifies the parent when it reports after the others
  (`ParallelScan.TwoNotifications`); `ParallelScan.NotificationCount` gives the exact number.
* The AVL sort leaves old values behind the distinct ones when the input has duplicates. The lookaside
  lookup is complete all the same (`Scanner.Scan.LookupLookaside`).
* The question at `buffer.c:176` has a positive answer: the buffer that is removed is always at the
  front (`Retirees.RetireeListStaysFifo`).
* The rounding in `env_init` overflows for configured values above 2^20. Up to 2^21 the rounded number is
  negative and the result is the minimum, not the maximum; above that the product wraps around, and the
  result is that of the value modulo 2^22 (`Bits.PtrsPerThread`).
* `metadata_remove` would leave the head on the node it removes if that were the only one
  (`AllocList.RemoveOnlyKeepsHead`); a page of nodes is always on the list, so it never is.
* `aggregate_addrs` relies on an assertion for not being called without any address (`forkscan.c:135`);
  the model's gather step needs at least one, too.

## Model

| member | source | states |
|---|---|---|
| Lifecycle.FreedBlocksAreUnreachable | forkscan-changed/forkscan.c:163-247 | In every run on whose snapshots the recursion of the scan is adequate (it goes to the block just marked, or the graph is complete) and in which every second read of free_idx finds entries left, a block a thread is about to free and every unmarked entry waiting in a retiree buffer is retired, still allocated, and unreachable from stacks and from memory that is not retired; and no thread leaves the entries of a buffer. The scanner may meet words that only look like references. |
| Lifecycle.FreedByOneThread | forkscan-changed/util.c:239-277 | For a program with one thread the same holds without the condition on the second reads. |
| Lifecycle.EveryRetiredBlockHasOnePlace | forkscan-changed/forkscan.c:116-161 | With either recursion, in every reachable state a block retired and not freed is in exactly one of: a thread's queue, the reclaimer's buffer, the pending buffers, the carried-over or working buffer, an entry of a retiree buffer, a thread's hand; and once. Any other block is in none. If every second read of free_idx has found entries left, no thread has left the entries of a buffer. (How blocks move on is RoundTakesAll and UnreachableCanBeFreed.) |
| Lifecycle.BooksChangeByRetireAndFree | forkscan-changed/util.c:266-277 | Only retirement puts a block on the books and only the free of a thread takes it off, and exactly that step takes the block, and no other, out of the allocated ones; so no step frees twice or forgets a block. |
| Lifecycle.RoundTakesAll | forkscan-changed/forkscan.c:116-171 | When the GC thread begins a round, in any run, every block that is pending or was carried over from the last one becomes part of the working set. |
| Reclaim.UnreachableCanBeFreed | forkscan-changed/forkscan.c:163-247 | From every state of every run in which no thread is bound to go behind the entries of a buffer, with either recursion and whatever is under way, the collector can go on by itself (finish the freeing, the scan and the round, drain, gather, scan, publish, carry over, free) so that a given retired block that is not reachable is freed. |
| Reclaim.FreeableIff | forkscan-changed/frontend.c:186-191 | With the recursion on the block just marked, from any such state the collector can free a retired block by itself if and only if the block is not reachable. |
| Mutators.UnreachableStays | forkscan-changed/frontend.c:186-191 | In every run, an allocated block that is not reachable stays so, whatever threads load, compute, store, allocate and retire and whatever the collector does. |
| Mutators.ReachableCanBeHeld | forkscan-changed/frontend.c:186-191 | A thread can get hold, by loads and computations of its own, of every word that refers to a block to which references lead from a word it holds. |
| Lifecycle.AdequateIff | forkscan-changed/forkscan.c:231-246 | For every run, the bookkeeping of adequate snapshots is right: the flag holds in a state exactly if every snapshot so far was adequate. |
| Lifecycle.HitsAreFaultless | forkscan-changed/util.c:250-271 | In a run in which every second read of free_idx has found entries left no thread has gone, or is about to go, behind the last entry of a buffer. |
| UnsafeRun.AsWrittenFreesReachable | forkscan-changed/child.c:170-170 | A whole run with line 170 as written at whose end a thread is about to free a block that it can still reach. |
| UnsafeRun.IncompleteIsUnsafe | forkscan-changed/child.c:147-173 | The converse of the safety theorem for line 170 as written: from the end of any run that is about to take a snapshot which a reachable block keeps from being complete, the run can go on so that this block waits to be freed and is still reachable. |
| Lifecycle.StepInv | forkscan-changed/forkscan.c:231-246 | Every step of mutators, reclaimer, GC thread, children and freeing threads keeps ownership and, while the snapshots are adequate, the isolation of condemned blocks. |
| Lifecycle.SnapIsolated | forkscan-changed/forkscan.c:184-197 | What a completed scan of the snapshot will leave unmarked is, from the snapshot on, not referred to by any stack or any block outside the condemned ones. |
| Lifecycle.MetIsMarked | forkscan-changed/child.c:147-323 | A working block referred to by a stack or by a block that is not condemned is in the least mark set, though blocks waiting to be freed are skipped as dead. |
| Lifecycle.PublishDoomed | forkscan-changed/forkscan.c:231-232 | Publishing a scanned buffer condemns exactly the blocks that the snapshot condemned. |
| ParallelScan.NotifiedMarksAreLeast | forkscan-changed/child.c:147-230 | With the recursion on the marked block: once the parent is told, the marks are the least set with the tracked roots that is closed under tracked references, and stay so; for every number of siblings, division of ranges and interleaving. |
| ParallelScan.CompletionProtocol | forkscan-changed/child.c:484-523 | A notification is sent only when every range is claimed and scanned and every batch flushed; when all have reported one has been sent; among siblings with a positive count exactly one sends it. |
| ScanEnds.EveryScanCanEnd | forkscan-changed/child.c:483-523 | From every state of every run, with either recursion, the siblings can go on until all have reported and the parent has been told. |
| ParallelScan.NotificationCount | forkscan-changed/child.c:503-517 | When all siblings have reported, the parent has been notified once, and once more for each sibling without a completed range that reported after the last one with; so exactly once if and only if there is none such. |
| ParallelScan.TwoNotifications | forkscan-changed/child.c:503-517 | A run of two siblings on one range with two notifications. |
| ParallelScan.StepInv | forkscan-changed/child.c:447-523 | Every step keeps the invariant of the siblings, in particular that no two scan the same range and that a root word is scanned, batched, or marked. |
| ParallelScan.LeastMarksIsClosed | forkscan-changed/child.c:147-173 | The reference definition of the mark set is itself closed under roots and references. |
| AsWritten.AsWrittenMarks | forkscan-changed/child.c:147-173 | As line 170 is written, a scan marks every tracked root, and nothing beyond the roots and the blocks they refer to directly. |
| CompleteScan.CompleteIff | forkscan-changed/child.c:147-173 | The exact condition for line 170 as written: every completed scan, for every number of siblings, division of the roots into ranges and interleaving, marks exactly the reachable blocks if and only if each block beyond the roots that a root or a direct referent of one refers to is held by a root r and by every root that refers to r. |
| CompleteScan.IncompleteMisses | forkscan-changed/child.c:483-505 | For every block that keeps a graph from being complete there is a division of the roots and a completed run that leaves this reachable block unmarked; in it every batch is one root and is emptied when no range is left. |
| AsWritten.SettledLeast | forkscan-changed/child.c:147-230 | At the notification the marks are the least closed set, for the recursion on the marked block always and for line 170 as written on complete graphs. |
| AsWritten.AsWrittenMissesReachable | forkscan-changed/child.c:170-170 | A completed run of line 170 as written that leaves a reachable block unmarked. |
| Retirees.RetireeListStaysFifo | forkscan-changed/buffer.c:166-203 | In every run the last pointer is the true last element, a step leaves the list alone, appends, or takes the front off, and a buffer in use is the front or off the list. |
| Retirees.ReleaseIsFinal | forkscan-changed/buffer.c:218-227 | A buffer is released only when unlisted and held by nobody, with every unmarked entry freed; and once per push: if it is in use later, a push lies in between. (That it can be released is AllCanBeReleasedIff.) |
| Retirees.PopTakesFront | forkscan-changed/buffer.c:184-203 | A pop removes the front or finds nothing. |
| Retirees.EntriesAreOnlyTaken | forkscan-changed/util.c:248-277 | While a buffer is in use an entry changes only from unmarked to consumed, by the thread that claimed it; marked entries never change. |
| Retirees.ClaimsAreRanges | forkscan-changed/util.c:257-262 | free_idx only moves from the first unclaimed entry over 1024 entries or what is left, and then one thread has just these claimed. |
| Releases.AllCanBeReleasedIff | forkscan-changed/util.c:232-279 | From any state of any run the threads can go on by themselves until every buffer is exhausted, unlinked and released, but for one that the GC thread holds, if and only if no thread has gone or is bound to go behind the last entry. |
| Releases.CanLeave | forkscan-changed/util.c:232-279 | A thread that is not bound to go there can leave free_ptrs by itself without touching any buffer but its own. |
| Retirees.OccupiedKept | forkscan-changed/util.c:239-277 | No step but taking an address to free it, carrying a marked one and publishing changes what the entries account for; releasing a buffer loses nothing. |
| Retirees.StepInv | forkscan-changed/util.c:232-279 | Every step keeps reference counts equal to holders, claims disjoint, taken entries dealt with and untaken ones intact. |
| Retirees.SecondReadDecides | forkscan-changed/util.c:250-259 | A second read that finds the end leads to an access behind the entries; a smaller one never does. |
| Retirees.InRangeRunIsFaultless | forkscan-changed/util.c:257-271 | A run in which every second read finds entries left never leaves the entries. |
| SecondRead.FaultlessIff | forkscan-changed/util.c:250-266 | Every run with n freeing threads stays inside the entries of the buffers if and only if n is at most 1. |
| SecondRead.SecondReadCanFault | forkscan-changed/util.c:250-266 | For every number of threads above 1, a run in which the access behind the last entry happens. |
| RetireeList.List.PushBack | forkscan-changed/buffer.c:166-182 | Whatever the last pointer is, the pointers lead through the buffers that the machine's push computes. |
| RetireeList.List.Pop | forkscan-changed/buffer.c:184-203 | The buffer is spliced out of the chain wherever it is, the others stay in order, and the last pointer is cleared exactly when the chain gets empty. |
| RetireeList.List.DeadReferences | forkscan-changed/buffer.c:234-273 | The result is the unmarked, unconsumed entries of the listed buffers in order, cut off at the capacity. |
| RetireeList.DeadAreEntries | forkscan-changed/buffer.c:260-263 | A value is collected from a buffer if and only if it is an entry with both low bits clear. |
| Barrier.WorldIsStopped | forkscan-changed/forkscan.c:180-209 | When the GC thread reads the dead references and forks, every thread has acknowledged this round, is parked, is outside every allocator and free section, and can take no step. |
| Barrier.SnapshotIsStill | forkscan-changed/buffer.c:255-270 | The only step out of that state is the GC thread's own, and the threads are as before after it; so the unlocked walk sees a stable list. |
| Barrier.EverySignalIsAnsweredOnce | forkscan-changed/frontend.c:111-137 | A thread has been sent one signal per round and has acknowledged each exactly once, except one that is pending, deferred or under way; a deferred one cannot be left behind. |
| Barrier.WaitingCanEnd | forkscan-changed/forkscan.c:183-184 | While the GC thread waits, some thread that has not answered can take a step towards its answer. |
| BarrierEnds.SnapshotCanBeReached | forkscan-changed/forkscan.c:180-184 | From every state of every run the round under way, or the next, can come to its snapshot. |
| BarrierEnds.WorldStartsAgain | forkscan-changed/forkscan.c:256-264 | After the snapshot the counter is bumped and every thread, also one whose acknowledgement was deferred by a section, can leave its wait and be back in the program's code with no further round begun. |
| BarrierEnds.SectionCanBeEntered | forkscan-changed/frontend.c:169-184 | From every state of every run a given thread can come to enter a section of the allocator. |
| Barrier.ThreadStepInv | forkscan-changed/forkscan.c:256-264 | Every step of a thread keeps its account, and the number of stopped threads grows exactly with an acknowledgement. |
| Barrier.StepInv | forkscan-changed/proc.c:240-262 | Every step keeps the count of received signals equal to the number of threads stopped in this round. |
| CollectionQueue.EveryBufferIsReclaimedOnce | forkscan-changed/forkscan.c:269-332 | The buffers ever linked are those on the list, in the GC thread's hand, and handed to reclaim_iteration, with multiplicity; the GC thread never drains an empty list. |
| CollectionQueue.DrainedIsReclaimed | forkscan-changed/forkscan.c:316-328 | What an iteration reclaims is exactly the whole list as it was at the latest drain before it. |
| CollectionQueue.HandIsDrained | forkscan-changed/forkscan.c:316-328 | What the GC thread has in hand is the whole list as it was at the latest drain. |
| CollectionQueue.GcSleepsOnlyWithoutWork | forkscan-changed/forkscan.c:274-314 | When the GC thread sleeps and nobody is inside the mutex, no counted buffer waits: no wakeup is lost. |
| CollectionQueue.ClientSleepsOnlyWhileFull | forkscan-changed/forkscan.c:283-324 | A throttled client sleeps only while the count is at or above the limit or a broadcast is about to come. |
| QueueEnds.ReturnsBelowLimit | forkscan-changed/forkscan.c:283-297 | In every run, a call that is to be throttled returns only from a test that finds the count below the limit, made after the buffer was linked. |
| QueueEnds.ManualCallsReturn | forkscan-changed/forkscan.c:281-297 | A call that is not to be throttled returns as soon as its buffer is linked. |
| QueueEnds.ClientCanSleep | forkscan-changed/forkscan.c:288-295 | A client that finds the count at the limit comes to sleep by steps of its own. |
| QueueEnds.AllCallsCanReturn | forkscan-changed/forkscan.c:269-332 | From every state of every run, with a positive limit, all calls can return and the GC thread can finish its work and sleep. |
| QueueEnds.CallCanBeReclaimed | forkscan-changed/forkscan.c:269-332 | From every state of every run any client can make a call that counts, after which every buffer ever linked, its own the last of them, is reclaimed and every call has returned. |
| CollectionQueue.NeverAllAsleep | forkscan-changed/env.c:115-124 | With the limit of at least 1 that env_init sets, a client and the GC thread never sleep for each other. |
| CollectionQueue.LocksAreReleased | forkscan-changed/forkscan.c:288-326 | Whoever holds one of the two locks can go on, or waits for a lock whose holder can. |
| TimestampLock.AtMostOneReclaimer | forkscan-changed/thread.c:184-207 | In every run at most one thread holds the lock, and the global timestamp is active exactly while one does. |
| TimestampLock.StampCountsAcquisitions | forkscan-changed/thread.c:186-193 | The stamp never decreases and is one more than the number of acquisitions. |
| TimestampLock.AcquisitionIsExclusive | forkscan-changed/thread.c:189-193 | An acquisition happens only when nobody holds the lock; after it exactly one thread does, and the timestamp is active with the next stamp. |
| LockEnds.LockCanBeAcquired | forkscan-changed/thread.c:184-193 | While the timestamp is not active an idle thread gets the lock by steps of its own, with the next stamp. |
| LockEnds.ReclaimsAlone | forkscan-changed/thread.c:184-199 | If moreover no flag is up, it becomes the reclaimer by itself. |
| LockEnds.AttemptFailsForAReason | forkscan-changed/thread.c:186-193 | An attempt that found the timestamp not active comes to nothing only if another thread has changed it since. |
| LockEnds.FlagCanBeRaised | forkscan-changed/thread.c:141-179 | An idle thread can raise its flag, with the stamp of the round, and lower it. |
| LockEnds.CanReclaimIff | forkscan-changed/proc.c:268-286 | A given thread can become the reclaimer, if the others go on, from exactly those states in which no holder waits for its own flag and, when the lock is free, some thread can take it without doing so. |
| LockEnds.NeverStuck | forkscan-changed/thread.c:184-199 | In a run in which no thread tries with its flag up, no state is of the other kind. |
| TimestampLock.ReclaimerHasNoOldHelpers | forkscan-changed/proc.c:268-286 | From the return of try_acquire to the release, every raised flag has the current stamp or belongs to a thread still raising it, which will adopt the current stamp. |
| TimestampLock.StepPair | forkscan-changed/thread.c:141-207 | Every step of a thread keeps, for every two threads, exclusion and that those the reclaimer has passed are up to date. |
| QueueRuns.QueueIsFifo | forkscan-changed/queue.c:79-186 | In every interleaving of the owner's and the reclaimer's loads and stores the popped values are the oldest pushed ones in order, and the slots from tail to head hold the others. |
| QueueRuns.UnreadSlotsAreKept | forkscan-changed/queue.c:100-176 | No store goes to a slot that has not been popped, and every load gets the value pushed at its index. |
| QueueRuns.PopTakes | forkscan-changed/queue.c:134-186 | In every run a pop with room for len values that finds n ends with the oldest of them popped, len or n, whichever is less. |
| QueueRuns.PushAdds | forkscan-changed/queue.c:79-127 | In every run a push that has begun with some values ends with just these pushed. |
| QueueRuns.PushCanBeDone | forkscan-changed/queue.c:79-127 | With room for them the owner can push values by steps of its own. |
| QueueRuns.PopCanBeDone | forkscan-changed/queue.c:134-186 | The reclaimer can pop by steps of its own what there is, as far as it has room. |
| QueueRuns.StepInv | forkscan-changed/queue.c:79-186 | Every load, store and publication keeps the slots and both histories consistent. |
| RingBuffer.Queue.Push | forkscan-changed/queue.c:79-84 | The value is appended to the contents. |
| RingBuffer.Queue.Pop | forkscan-changed/queue.c:89-94 | The oldest value is taken off the contents. |
| RingBuffer.Queue.PushBulk | forkscan-changed/queue.c:100-127 | The values are appended in order, and slots and head are what as many single stores leave, wrap-around or not. |
| RingBuffer.Queue.PopBulk | forkscan-changed/queue.c:134-186 | The oldest values, as many as fit, go to the target in order and nothing else there changes; the rest stays in the queue. |
| RingBuffer.Queue.IsEmpty | forkscan-changed/queue.c:48-52 | The test of the indices holds exactly when there are no contents. |
| RingBuffer.Queue.IsFull | forkscan-changed/queue.c:57-61 | The test of the indices holds exactly when all slots but one are in use. |
| RingBuffer.Queue.Available | forkscan-changed/queue.c:66-73 | Contents and free slots make up the capacity less one. |
| RingBuffer.WindowIsSlices | forkscan-changed/queue.c:153-175 | The slots between two indices are one slice of the array or, when they wrap, two. |
| RingBuffer.StoredAllAppends | forkscan-changed/queue.c:109-124 | Storing values one after the other behind the head appends them to what the slots hold and overwrites nothing unread. |
| RingBuffer.GenerateWorkingPointersList | forkscan-changed/frontend.c:65-81 | The reclaimer's buffer gets the queues' contents in order up to the maximum, and each queue keeps exactly the rest. |
| RingBuffer.AllTaken | forkscan-changed/frontend.c:151-151 | With room for a full queue per thread every queue is taken whole. |
| Bits.MaskIsSlot | forkscan-changed/queue.c:30-32 | For a capacity that is a power of two the mask is the remainder. |
| Bits.SlotPlus | forkscan-changed/queue.c:107-121 | Moving on by at most the capacity wraps at most once. |
| Bits.PtrsPerThread | forkscan-changed/env.c:72-104 | For every 32-bit value the result is a power of two from 1024 to 2^20 and depends on the low 22 bits of the value alone: the least power not below 1024 times them when they are 1 to 1024, the maximum when they are 1025 to 2^20, and the minimum when they are 0 or above 2^20. |
| Bits.CapacityIsPow2 | forkscan-changed/env.c:42-45 | Such a result is 2^k with k from 10 to 20. |
| Search.IterativeSearch | forkscan-changed/child.c:78-87 | On an array whose marks are being set: the place of the last entry not above the value, or the place before it if the value's own entry is marked by then; for an empty range, its start. It is the place before the range if and only if the load of the first entry after the halvings (line 80) and the next one (line 82) lie on either side of the value; which loads these are depends on the length of the range alone. |
| Search.BinarySearch | forkscan-changed/child.c:89-101 | The same for the whole search, over any range, with the condition on the loads that follow as many halvings as the length of the range takes. |
| Search.AddrFind | forkscan-changed/child.c:107-119 | The same through the minimap: the result is -1 if and only if the load of the first entry that follows the halvings of the first page and the next one lie on either side of the value, whatever the other loads see. |
| Search.SearchRefinesLookup | forkscan-changed/child.c:68-119 | An unmarked address is found at its own place, an untracked one is never taken for a reference, and for a marked one the place is its own or no reference to it. |
| Search.SearchCanReturnMinusOne | forkscan-changed/child.c:78-119 | For every array and starting time, loads of entries that are marked at most once with which the search for the first address returns -1: a sibling marks that address between the two loads. |
| Search.AddrFindHint | forkscan-changed/child.c:125-145 | For a value within the bounds and any hint the result is a place of the array: the hint, the next place not below the value, or what the search finds. |
| Search.GenerateMinimap | forkscan-changed/forkscan.c:101-114 | The minimap holds the first address of every page of addresses. |
| Search.MinimapFits | forkscan-changed/buffer.c:86-139 | The pages reserved hold the addresses and the minimap of as many addresses as fit. |
| Scanner.Scan.RecursiveMarkAsWritten | forkscan-changed/child.c:147-173 | After one call of the code as written the tracked referents of the block are marked, alone or among siblings, and this scanner has marked nothing else. |
| Scanner.Scan.RecursiveMarkOnTarget | forkscan-changed/child.c:147-173 | With the recursion on the marked block, among siblings too: after one call the block's tracked referents are marked, and so are those of everything that this scanner has marked, which lies in the least set that can be reached that way; alone, the marks are that least set. It ends because the unmarked entries get fewer. |
| Scanner.Scan.AsWrittenSufficesIff | forkscan-changed/child.c:170-170 | The two agree if and only if no newly marked referent of the block refers to a tracked block that is not marked by then. |
| Scanner.Scan.UpToHolds | forkscan-changed/child.c:151-156 | The referents of a block are the tracked values among its masked words. |
| Scanner.Scan.Lookup | forkscan-changed/child.c:107-119 | While siblings set marks, an address that ends up unmarked is found at its own place. |
| Scanner.Scan.MarkReferent | forkscan-changed/child.c:156-169 | After filter, lookup, test and write the value is marked if it is tracked; this scanner marks it exactly if it finds it unmarked, and marks nothing else. |
| Scanner.Scan.LookupLookaside | forkscan-changed/child.c:175-230 | Every tracked address of the batch ends up marked despite duplicates, the stale tail and the carried hint. What this scanner marks, alone or among siblings, comes from those by one reference (as written) or any number (on the marked block), and has been followed as far. |
| Scanner.Scan.SortBatch | forkscan-changed/child.c:187-196 | The batch begins with its distinct values in increasing order; what follows holds nothing new, and no neighbours are equal. |
| Scanner.Scan.FindRoots | forkscan-changed/child.c:238-323 | Exactly the words of the range outside every tracked and dead block are visited, once and in order; each tracked value they hold is marked or batched, the batch never overflows, and this scanner marks only what comes from them and follows it, with either recursion. |
| Scanner.Scan.ScanRanges | forkscan-changed/child.c:485-501 | One child that claims all ranges, with either recursion: the words seen are exactly those of the ranges outside every tracked and dead block, every tracked address they hold is marked, and the batch is empty. As written, everything this child marks is a tracked address they hold whose referents are all marked, or a referent of such a one; with the recursion on the marked block the referents of all it marks are marked, and alone it marks the least set. |
| Scanner.Prepare | forkscan-changed/forkscan.c:190-194 | The working array, sorted, and its minimap make a scanner of the same addresses with no mark set. |
| RootScan.ScanIsSnapshot | forkscan-changed/child.c:238-323 | With the blocks and stacks of a reachable state in memory, ranges carved from the writable regions, dead references collected and the threads stopped, the tracked blocks and the words that find_roots visits are a snapshot that the machine can take next: no reference from a stack or from a block that is neither tracked nor dead is missed. |
| RootScan.CollectedCovers | forkscan-changed/child.c:406-423 | Every address of a writable region that Forkscan does not own, and every stack address, is in one of the ranges. |
| RootScan.CollectedFit | forkscan-changed/child.c:406-423 | The ranges consist of whole words within memory, as the scanner needs them. |
| RootScan.ScanAlone | forkscan-changed/child.c:485-501 | One child alone, with the recursion on the marked block, marks in its array exactly the blocks reachable in the snapshot that it scans, which is the set of ParallelScan.NotifiedMarksAreLeast. |
| Scanner.Scan.StartPool | forkscan-changed/child.c:263-273 | A start inside a tracked block is moved to its end and the next tracked block is found, while marks are being set, also when the search returns -1 and the word before the entries is read. |
| Scanner.Scan.StartDead | forkscan-changed/child.c:275-285 | The same for dead blocks, keeping the place in the tracked ones. |
| Scanner.Scan.StepScanned | forkscan-changed/child.c:287-322 | Each turn of the loop moves low forward, over free words or over exactly one block. |
| AllocList.List.DoInsert | forkscan-changed/alloc.c:96-118 | The node gets the place of its address in the circle, everything else keeps its order, the head stays the lowest, and the walk ends. |
| AllocList.List.Remove | forkscan-changed/alloc.c:137-158 | The node is taken out of the circle, which stays linked, sorted and not empty. |
| AllocList.List.New | forkscan-changed/alloc.c:163-193 | A node on neither list is delivered, and the others stay free; when none was free, a page has been recorded first, and its 101 further nodes become free. |
| AllocList.List.AllocMmap | forkscan-changed/alloc.c:245-260 | The blocks on record gain the new block, and a page of nodes if none was free, in order; one node fewer is free. |
| AllocList.List.AllocMunmap | forkscan-changed/alloc.c:290-302 | The blocks on record lose exactly that block, and its node becomes free. |
| AllocList.LinkedIn | forkscan-changed/alloc.c:103-117 | Four assignments link a node into the circle at any place. |
| AllocList.LinkedOut | forkscan-changed/alloc.c:149-150 | Two assignments take a node out of a circle of at least two. |
| AllocList.RemoveOnlyKeepsHead | forkscan-changed/alloc.c:149-151 | Taking out the only node leaves the head on it, so the list would not be the empty one. |
| AllocList.List.BreakRange | forkscan-changed/alloc.c:209-243 | The chunk is free of recorded blocks and ends at one or at the end of the range, what precedes it in the range is recorded, and the rest is strictly smaller. |
| AllocList.SplitChunk | forkscan-changed/child.c:412-418 | Cutting a chunk into pieces of at most 8 MB keeps coverage, byte total and word alignment. |
| AllocList.CollectRange | forkscan-changed/child.c:406-423 | The pieces are ascending, disjoint, at most 8 MB, together exactly the part of the range gone through minus every recorded block, made of whole words if the range and the blocks are, and their sizes add up to the byte total; that part is the whole range unless the table of ranges is full after a chunk, which is fatal. |
| AvlTree.TreeRefinesMap | forkscan-changed/avl.c:158-187 | After every sequence of insertions and markings the tree is a balanced search tree with exact heights and stands for the map of keys to marks that the operations build. |
| AvlTree.InsertAddsKey | forkscan-changed/avl.c:64-97 | Insertion adds the key unmarked, keeps the search order and every other key and mark. |
| AvlTree.InsertKeepsBalance | forkscan-changed/avl.c:64-97 | Insertion keeps heights exact and balances within one, and adds at most one to the height. |
| AvlTree.MarkSetsMark | forkscan-changed/avl.c:114-126 | Marking sets the mark of a present key and changes nothing else. |
| AvlTree.ContainsIsPresence | forkscan-changed/avl.c:100-109 | The lookup succeeds exactly for the keys of the tree. |
| AvlTree.SizeAtLeastFib | forkscan-changed/avl.c:57-62 | A balanced tree of height h has at least Fib(h+2) - 1 nodes. |
| AvlTree.InorderLists | forkscan-changed/avl.c:138-146 | The traversal meets exactly the keys, as many as there are nodes. |
| AvlTree.InorderIncreases | forkscan-changed/avl.c:138-146 | It meets them in increasing order. |
| AvlNodes.RightRotate | forkscan-changed/avl.c:29-41 | The relinked nodes are the rotated tree. |
| AvlNodes.LeftRotate | forkscan-changed/avl.c:43-55 | The relinked nodes are the rotated tree. |
| AvlNodes.Rebalance | forkscan-changed/avl.c:78-96 | The update of the height and the four rotation cases on nodes compute the rebalanced tree, on the same nodes. |
| AvlNodes.InsertNode | forkscan-changed/avl.c:64-97 | Insertion on nodes computes insertion on trees, adds only fresh nodes, and reports whether the key was new. |
| AvlNodes.MarkNode | forkscan-changed/avl.c:114-126 | Marking on nodes computes marking on trees and reports whether the key was there. |
| Sorting.BuildFromArray | forkscan-changed/avl.c:181-187 | The nodes form the tree of the array's keys. |
| Sorting.WriteInorder | forkscan-changed/util.c:63-66 | The keys go to consecutive places in order, and nothing else changes. |
| Sorting.AvlSort | forkscan-changed/util.c:379-387 | The distinct values in increasing order fill a prefix; the rest of the array is as before. |
| Sorting.SortsAgree | forkscan-changed/util.c:374-387 | On an array without duplicates the AVL sort leaves what any correct sort leaves. |
| Sorting.Partition | forkscan-changed/util.c:326-342 | The range is rearranged around the pivot's final place. |
| Sorting.InsertionSort | forkscan-changed/util.c:344-352 | The range is sorted and rearranged and nothing outside is touched, although the inner loop is bounded by 0. |
| Sorting.Quicksort | forkscan-changed/util.c:359-368 | The range is sorted and rearranged, given that nothing below it is larger. |
| Sorting.Sort | forkscan-changed/util.c:374-377 | The array becomes its sorted permutation. |
| Sorting.Compact | forkscan-changed/util.c:406-422 | The array without repeated neighbours fills the prefix of the returned length. |
| Sorting.CompactedMembers | forkscan-changed/util.c:406-422 | Compaction keeps the members and leaves no equal neighbours. |
| Sorting.CompactedPrefix | forkscan-changed/util.c:406-422 | An increasing prefix survives compaction. |

## Left out

- Lifecycle.FreedBlocksAreUnreachable: says nothing of runs in which a second read of free_idx finds the end: a thread that then goes behind the last entry stops in the model, where the code takes, overwrites and frees what it finds there.
- Lifecycle.EveryRetiredBlockHasOnePlace: holds for the model in such runs, too, but not for the code; takes the buffers of all reclaimers together and does not track which buffer an address is in; thread exit, which leaks pointers on purpose, is not a step.
- Retirees.SecondReadDecides: what the access behind the last entry reads is not modelled; a thread that makes it stops.
- CompleteScan.CompleteIff: takes as many siblings as there are ranges, where the number of children is a configured one; and empties batches in any order and at any time, where the code sorts a batch and empties it when it is full or no range is left. The runs it needs for the converse keep to the code's order and time.
- CompleteScan.IncompleteMisses: the run takes one sibling for each root.
- UnsafeRun.IncompleteIsUnsafe: the run goes on to where the block waits to be freed, not to its free.
- RootScan.ScanIsSnapshot: that the writable regions and the stack ranges hold the program's memory is a premise; registers are words of the stacks, where the signal handler leaves them.
- Search.AddrFindHint: the loads of entries while marks change are given by an arbitrary function in which an entry goes from unmarked to marked at most once.
- AllocList.List.New: the order in which free nodes are taken is left open; the operations on the list, which the code runs under one lock, are modelled one after the other.
- AllocList.CollectRange: the pieces of one chunk are all stored before the table is tested; what a store behind the table overwrites is not modelled.
- TimestampLock.StampCountsAcquisitions: the stamp is unbounded, where the code has 63 bits.
- RingBuffer.Queue.Push: indices are unbounded, where the code has 64 bits.
- Bits.PtrsPerThread: signed overflow and the right shift of negative numbers, which C leaves open, are taken as two's complement.
- Fairness: where a theorem says that something can be done, it gives one way to go on from the state; that every fair schedule comes to it is not stated.
- Reclaim.FreeableIff: the same for line 170 as written is split between UnreachableCanBeFreed and IncompleteIsUnsafe, which are not exact together.
- Interior pointers: only words that hold a block's own address, low bits aside, count as references, as in the code.
- Parsing of /proc/self/maps, the path and region filters of collect_ranges, and add_stack_ranges: the writable regions and stacks are given.
- mmap, munmap, fork, pipes, pthread_kill, dlsym and the allocator: nondeterministic steps or uninterpreted functions.
- forkscan_free called by the user on a block that is not retired, and the zeroing of a block before it is freed.
- The pools of released buffers and of stacks, and the free_list_list stack: simple free lists.
- The choice between the old aggregate buffer and a new one in aggregate_addrs: both hold the same addresses.
- Thread creation and exit, statistics, timing, diagnostics, sleep.c and forkscan_util_randomize.
