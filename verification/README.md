# Verification of psiserve's core

A Dafny model of the parts of psiserve that carry its invariants, with proofs.
`dafny verify dfyconfig.toml` checks the whole project. The program itself is
not executed by any of this.

What is modelled, by component:

- **psiber**, the fiber runtime: the strand arena (`StrandArena.dfy`), the task
  ring (`SendRing.dfy`), the three fiber locks (`FiberMutex.dfy` under every
  interleaving of its compare-and-swap and queue-lock steps, `TxMutex.dfy` over
  any number of wound-wait locks, `SharedMutex.dfy` call by call,
  `SharedSteps.dfy` under every interleaving of its loads, stores and additions,
  `SharedWakes.dfy` on who wakes its waiters, `SharedOrder.dfy` on the order they
  are served in), and the scheduler with its strands (`Scheduling.dfy` states the
  steps and what every run keeps, `ReadyOrder.dfy` the order in which ready
  fibers run, `StrandOrder.dfy` the order in which the fibers of a strand run,
  `WakeOrder.dfy` what becomes of woken fibers, `Scheduler.dfy` is the class
  whose methods are proved equal to those steps). `Fifo.dfy` is the argument
  about queues that these share.
- **pfs**, the file store: dag-pb blocks and CIDs (`Unixfs.dfy`; `DagPb.dfy` is a
  reader of the schemas and `UnixfsReads.dfy` what it reads in them), CID strings
  (`Base32.dfy`), the content store over its blocks (`Cas.dfy`), files, sharing
  and quotas over it (`Store.dfy`), keys (`Keys.dfy`) and directory listing
  (`DirCursor.dfy`).
- **psi-sdk and source-to-pzam**: the WebSocket parser and builder
  (`WebSocket.dfy` is the byte-at-a-time automaton, `WebSocketParser.dfy` the
  batching code proved against it), base64 (`Base64.dfy`), and the streaming
  front ends of SHA-1 and SHA-256 (`ShaStreaming.dfy`).
- **psizam**: LEB128 (`Leb128.dfy`) and the WIT blob promotion of
  `pzam wit embed` (`PzamWit.dfy`).

Code that updates state in place is a class or a method with loops, proved
against a specification; a ghost field records history where a property speaks
of whole runs (outstanding pins, what operations left behind, tasks ever
placed, octets ever hashed).

## Where the code does not do what it promises

Each of these is stated with the exact condition under which the promise holds.

- `fiber_tx_mutex` promises that no deadlock is possible. It is possible: a
  fiber already parked does not see its wound (`TxMutex.WoundedYetDeadlocked`);
  `TxMutex.DeadlockFreeIff` says exactly when a run is free of deadlock, and
  `TxMutex.DeadlockContains` what every deadlock contains.
- `fiber_shared_mutex` promises exclusive writers. Between its atomics a writer
  can come in beside another writer (`SharedSteps.TwoWriters`), among readers
  (`SharedSteps.WriterAmongReaders`) and with a reader beside it
  (`SharedSteps.ReaderBesideWriter`); `SharedSteps.ExclusionIff` says exactly
  when a run keeps the promise.
- It also promises to wake its waiters. They can be left parked at a free lock
  (`SharedWakes.ParkedForGood`); `SharedWakes.StrandedIff` says exactly when a run
  comes to that, and `SharedWakes.StuckForGood` and `SharedWakes.TryLockFrees` what
  can still free them.
- The task ring writes no sentinel when fewer than 48 bytes are wasted at its
  end, so a later reclaim finds no header there
  (`SendRing.ReachSkippedSentinel`); `SendRing.WrapsAround` gives the exact
  condition.
- The task ring promises back pressure when it is full. It can refuse when it is
  empty, and `hasSpace` then says otherwise (`SendRing.EmptyRingRefuses`);
  `SendRing.GrantIff` and `SendRing.EmptyRefuses` say exactly when.
- The arena's and the ring's 32-bit sums can wrap (`StrandArena.WrappedRequest`);
  `StrandArena.StrandArena.Alloc` and `SendRing.SendQueue.Alloc` say exactly when
  their layout survives.
- Refcounts are 32 bits and block ids 56 bits; `Cas.ContentStore.Put` says
  exactly when the content store survives another put.
- With more than one root a block is written to the root of its content and
  looked for in the root of its id. `Cas.ContentStore.PutThenGet` says exactly
  when a content can be read back: always with one root (`Cas.OneRootFinds`), and
  not always with the default of 256 (`Cas.FirstPutIsLost`).
- A refused write or share, a rewrite of the same content, and a `mkdir` or
  `share` over a file leave a pin or a charge behind for good
  (`Store.RewriteThenRemove`); `Store.FileStore.RunIsExact` says that nothing
  else does.
- The WebSocket parser runs where lengths have 32 bits: a frame of 2^32 octets or
  more is misread (`WebSocket.LengthWraps`, `WebSocket.FeedFrame`), and the
  builder is undefined above 0xFFFF octets (`WebSocketParser.BuildFrame`).
- `pzam wit embed` promises to take only the blobs out of the data section. It
  also drops every segment from the first on whose offset is not one `i32.const`
  (`PzamWit.SecondSegmentDropped`); `PzamWit.PromoteBlobs` gives the exact
  condition.
- A tenant's use is a 64-bit number changed without an overflow test
  (`Store.ShareWraps`); `Store.FileStore.Write` and `Share` say exactly when it
  still covers the files.
- `remove` is refused by the quota test exactly when the limit was lowered below
  what the tenant uses without the file (`Store.FileStore.Remove`,
  `Store.RemoveRefused`).
- Different strings parse to the same CID, and different base64 texts to the
  same octets; `Base32.Canonical` and `Base64.Canonical` say exactly which of
  them are written.

## Modelling decisions

- The WebSocket code is built for wasm32 only, so `size_t` is 32 bits wide there;
  everything else is taken with 64-bit `size_t`.
- Offset expressions of data segments are the constant expressions of type i32:
  constants, globals, and the operators of the extended constant expressions.
- The signed sum in `update_quota` is taken modulo 2^64.
- Two different contents with the same CID would be taken for one. `Cas.Put`
  makes no assumption about this: the store keeps what was put first. The file
  layer assumes it does not happen (`Storable`).
- The clock, the digest, the block functions of SHA-1 and SHA-256, the polled
  events and the sorted snapshot a database cursor walks are parameters.
- The parser's `offset` field is the number of body octets already passed while
  in a body; between frames it is stale until the next frame starts and is not
  part of the parser state compared here.
- `std::sort` in `excise_blobs` is the function `ByOffset`: blobs of a segment
  have different offsets, so the order it yields is the only one.

## Model

| member | source | states |
|---|---|---|
| `StrandArena.StrandArena.constructor` | libraries/psiber/src/strand.cpp:12-18 | a fresh arena holds no block and nothing is live |
| `StrandArena.StrandArena.Alloc` | libraries/psiber/src/strand.cpp:33-120 | fails exactly when no run of adjacent free or returned blocks is long enough and the 32-bit bump test fails, and then changes nothing a caller holds; if a run is long enough the block granted is the whole of the lowest such run, and otherwise the one at the bump pointer; that block is large enough and live, free and returned blocks still tile [0, bump) if and only if no 32-bit sum wrapped; the free list ends address-ordered with a gap between any two blocks |
| `StrandArena.StrandArena.TakeFree` | libraries/psiber/src/strand.cpp:98-108 | unlinking the fitting block keeps the tiling and the order; the block holds the request exactly when the size sum did not wrap |
| `StrandArena.StrandArena.Carve` | libraries/psiber/src/strand.cpp:110-119 | carving at the bump pointer keeps the tiling exactly when neither 32-bit sum wraps |
| `StrandArena.StrandArena.Coalesce` | libraries/psiber/src/strand.cpp:42-94 | the returned stack and the free list, sorted and merged, still tile the arena with the live blocks, and each merged block is a run of adjacent free ones |
| `StrandArena.StrandArena.Free` | libraries/psiber/src/strand.cpp:122-136 | a freed block moves from the live ones to the returned stack and the tiling is kept; a null pointer changes nothing |
| `StrandArena.SortFreeList` | libraries/psiber/src/strand.cpp:58-78 | the insertion sort yields the same blocks in strict address order |
| `StrandArena.MergeFreeList` | libraries/psiber/src/strand.cpp:80-94 | the merge leaves no two adjacent blocks, keeps the tiling and joins exactly the adjacent runs |
| `StrandArena.FirstFit` | libraries/psiber/src/strand.cpp:98-108 | finds the first block large enough, or none is |
| `StrandArena.FitIffRun` | libraries/psiber/src/strand.cpp:80-108 | first fit on the merged list succeeds if and only if some run of adjacent free blocks is long enough |
| `StrandArena.FirstIsLowest` | libraries/psiber/src/strand.cpp:98-108 | the first block of the merged list that fits is a run of free blocks, and no run that fits starts below it |
| `StrandArena.WholeRun` | libraries/psiber/src/strand.cpp:80-94 | no free block goes on where a block of the merged list ends |
| `StrandArena.LargeEnough` | libraries/psiber/src/strand.cpp:33-41 | a block of the computed size holds the request if and only if the 32-bit size computation did not wrap |
| `StrandArena.CarveAtEnd` | libraries/psiber/src/strand.cpp:110-119 | moving the bump pointer keeps the partition when the sum stays below 2^32 and breaks it when it wraps |
| `StrandArena.WrappedRequest` | libraries/psiber/src/strand.cpp:33-41 | a request for 2^32 - 26 bytes in a fresh arena of 4096 is granted a block of 0 bytes |
| `SendRing.SendQueue.constructor` | libraries/psiber/src/send_queue.cpp:9-18 | a fresh ring is rounded up to 16 and entirely free |
| `SendRing.SendQueue.Alloc` | libraries/psiber/src/send_queue.cpp:40-87 | refuses exactly when the free bytes do not cover the slot, or the slot and the wasted end, and then changes nothing; a granted slot is contiguous and newest, and the ring stays consistent (sizes plus free bytes make the ring, extents tile the used region, each has its header) if and only if the size did not wrap and the wasted end has room for its sentinel |
| `SendRing.SendQueue.Emplace` | libraries/psiber/include/psiber/detail/send_queue.hpp:89-112 | reclaims the consumed extents at the front, all of them and nothing else, and is refused exactly when what is left refuses the slot; a placed task queues behind every task not yet destroyed; the ring stays consistent exactly when the allocation was sound |
| `SendRing.SendQueue.Consume` | libraries/psiber/src/send_queue.cpp:89-109 | marking a slot consumed changes nothing else |
| `SendRing.SendQueue.Reclaim` | libraries/psiber/src/send_queue.cpp:89-109 | retires exactly the consumed extents at the front, oldest first, destroys their tasks in order and frees exactly their bytes; when every task has been run the ring is left entirely free, wasted ends included |
| `SendRing.SendQueue.RetireTail` | libraries/psiber/src/send_queue.cpp:91-108 | one turn retires the extent at the tail and lands on the next boundary |
| `SendRing.SendQueue.Destroy` | libraries/psiber/src/send_queue.cpp:20-38 | afterwards every task ever placed has been destroyed once, in order |
| `SendRing.ExtentsDisjoint` | libraries/psiber/src/send_queue.cpp:40-87 | no two unreclaimed extents of a consistent ring overlap |
| `SendRing.WalkOffset` | libraries/psiber/src/send_queue.cpp:89-109 | each extent starts where the sizes before it, counted cyclically from the tail, say |
| `SendRing.FitsAtHead` | libraries/psiber/src/send_queue.cpp:49-60 | a slot that fits before the end keeps the ring consistent exactly when its size did not wrap |
| `SendRing.WrapsAround` | libraries/psiber/src/send_queue.cpp:62-86 | a slot that wraps keeps the ring consistent if and only if the wasted end has room for a sentinel header and no 32-bit sum wraps |
| `SendRing.GrantIff` | libraries/psiber/src/send_queue.cpp:40-87 | a slot is granted exactly when the bytes it would take at head are unused and within the ring, or it does not fit before the end and the bytes at 0 are unused and below head |
| `SendRing.EmptyRefuses` | libraries/psiber/src/send_queue.cpp:40-87 | an empty ring refuses a slot no larger than itself exactly when it fits neither before nor after head |
| `SendRing.EmptyRingRefuses` | libraries/psiber/include/psiber/detail/send_queue.hpp:51-62 | one task placed, run and reclaimed in a ring of 144 bytes: then the ring is empty, hasSpace says that 48 octets fit, and emplace refuses them |
| `SendRing.SendQueue.HasSpace` | libraries/psiber/src/send_queue.cpp:111-115 | answers whether the free bytes cover the slot; if it does and the slot is refused all the same, the slot does not fit before the end of the ring |
| `SendRing.ReachSkippedSentinel` | libraries/psiber/src/send_queue.cpp:62-86 | two tasks of one octet placed in a ring of 144 bytes, the first consumed and reclaimed, and a third slot: the calls are all granted, the 16 bytes wasted at the end get no sentinel, and the ring is inconsistent afterwards |
| `FiberMutex.StepKeepsInv` | libraries/psiber/src/fiber_mutex.cpp:12-75 | every atomic instruction, call, suspension, resumption and drain keeps the joint invariant of owner, queue, queue lock and pending wakes |
| `FiberMutex.RunKeepsInv` | libraries/psiber/src/fiber_mutex.cpp:12-75 | every state of every interleaving satisfies the invariant |
| `FiberMutex.MutualExclusion` | libraries/psiber/src/fiber_mutex.cpp:12-75 | in every state of every interleaving at most one fiber is the owner, and a non-empty queue implies an owner |
| `FiberMutex.NoBarging` | libraries/psiber/src/fiber_mutex.cpp:44-75 | every change of owner is a take of a free mutex with nobody queued, a hand-over to the fiber queued longest, or a release with nobody queued; fibers leave the queue in the order they entered it |
| `FiberMutex.NoLostWake` | libraries/psiber/src/scheduler.cpp:508-521 | a fiber that was handed the mutex while parking or parked has its wake listed or some running unlocker still about to push it, and a listed fiber is parked when its scheduler is idle to drain it |
| `FiberMutex.DrainFindsParked` | libraries/psiber/src/scheduler.cpp:582-643 | the drain never finds a woken fiber in another state, so it drops none |
| `FiberMutex.OwnerChange` | libraries/psiber/src/fiber_mutex.cpp:12-75 | the only three ways the owner changes in one step |
| `FiberMutex.SwapDecides` | libraries/psiber/src/fiber_mutex.cpp:12-75 | the compare-and-swap of try_lock decides it at once, and that of lock gets a free mutex; neither touches the queue |
| `FiberMutex.NoOvertaking` | libraries/psiber/src/fiber_mutex.cpp:12-68 | in every interleaving, whoever neither has the mutex nor is queued before a fiber is given it only after that fiber has held it |
| `TxMutex.StepKeepsInv` | libraries/psiber/src/fiber_mutex.cpp:79-163 | every call and every return from a park keeps the invariant over any number of locks |
| `TxMutex.RunKeepsInv` | libraries/psiber/src/fiber_mutex.cpp:79-163 | in every run a non-empty queue implies an owner, queues hold exactly the parked fibers once, and recorded timestamps are the owners' |
| `TxMutex.WoundedByOlder` | libraries/psiber/src/fiber_mutex.cpp:96-112 | a wound is only ever set on a holder by a strictly older transaction that has just queued, so the oldest live transaction is never wounded |
| `TxMutex.ThrowReleases` | libraries/psiber/src/fiber_mutex.cpp:112-123 | a lock() that throws leaves the thrower not owning the lock, which is free or handed to the fiber queued longest; one that returns leaves it owner |
| `TxMutex.FreeIsTaken` | libraries/psiber/src/fiber_mutex.cpp:86-94 | lock() and try_lock() on a free lock make the caller its owner; lock() clears the caller's wound and nobody else's |
| `TxMutex.HeldIsAwaited` | libraries/psiber/src/fiber_mutex.cpp:96-163 | on a held lock try_lock() changes nothing; lock() queues the caller last and wounds the owner exactly when the caller is older |
| `TxMutex.ReturnsUnwounded` | libraries/psiber/src/fiber_mutex.cpp:79-123 | in every run a lock() that returns leaves its caller owner of the lock and not wounded |
| `TxMutex.HandedIsWoken` | libraries/psiber/src/fiber_mutex.cpp:125-149 | a lock handed on goes, with its new owner's timestamp, to the fiber queued longest, which has yet to check its wound |
| `TxMutex.OwnTransaction` | libraries/psiber/include/psiber/fiber_tx_mutex.hpp:41-49 | a fiber sets its own timestamp and clears its own wound, and nothing else |
| `TxMutex.LockTurn` | libraries/psiber/src/fiber_mutex.cpp:79-163 | a lock changes hands only by a step of its owner; its queue is otherwise only added to at the end |
| `TxMutex.NoOvertaking` | libraries/psiber/src/fiber_mutex.cpp:96-149 | in every run, whoever neither owns a lock nor is queued on it before a fiber owns it only after that fiber has |
| `TxMutex.DeadlockStep` | libraries/psiber/src/fiber_mutex.cpp:79-163 | a step creates a deadlock exactly when it is a lock() on a chain of waiting owners that leads back to the caller |
| `TxMutex.DeadlockFreeIff` | libraries/psiber/include/psiber/fiber_tx_mutex.hpp:23-24 | the promise that no deadlock is possible holds of a run if and only if no lock() in it was called on a chain leading back to its caller |
| `TxMutex.DeadlockContains` | libraries/psiber/src/fiber_mutex.cpp:96-149 | on every cycle of every run some fiber waits for one not older than itself, which either held the lock when that fiber queued, and was wounded then if it was younger, or was handed the lock ahead of it; the timestamps of both are unchanged since |
| `TxMutex.EdgeOrigin` | libraries/psiber/src/fiber_mutex.cpp:96-149 | every wait in every run began with a call on a held lock or with a hand-over to a fiber queued ahead |
| `TxMutex.WoundedYetDeadlocked` | libraries/psiber/include/psiber/fiber_tx_mutex.hpp:23-24 | a concrete run of two fibers and two locks that ends deadlocked although the younger is wounded: it was already parked |
| `SharedMutex.SharedMutex.Lock` | libraries/psiber/src/fiber_mutex.cpp:167-191 | granted exactly when nobody holds the lock, otherwise queued last; never a writer with readers, and whoever is queued waits for a holder |
| `SharedMutex.SharedMutex.Unlock` | libraries/psiber/src/fiber_mutex.cpp:193-234 | admits every queued reader as one batch, or else the writer queued first, or leaves the lock free; the writer queued first is overtaken by at most one batch |
| `SharedMutex.SharedMutex.LockShared` | libraries/psiber/src/fiber_mutex.cpp:236-270 | admits a reader exactly when no writer holds or is queued |
| `SharedMutex.SharedMutex.UnlockShared` | libraries/psiber/src/fiber_mutex.cpp:272-297 | the last reader out hands the lock to the writer queued first |
| `SharedMutex.SharedMutex.TryLock` | libraries/psiber/src/fiber_mutex.cpp:299-311 | succeeds exactly when nobody holds the lock, and then nobody was queued |
| `SharedMutex.SharedMutex.TryLockShared` | libraries/psiber/src/fiber_mutex.cpp:313-323 | succeeds exactly when no writer holds the lock |
| `SharedSteps.RunKeepsBase` | libraries/psiber/src/fiber_mutex.cpp:167-323 | in every interleaving of the loads, stores and additions: queued fibers are parked, each waiter is for one waker, and a fiber that saw the flag clear under the queue lock still sees it clear |
| `SharedSteps.RunKeepsCount` | libraries/psiber/src/fiber_mutex.cpp:236-297 | in every interleaving the reader count is the number of readers inside and of fibers that have added themselves and are not yet sure |
| `SharedSteps.StepKeepsSafe` | libraries/psiber/src/fiber_mutex.cpp:167-323 | the double-checked fast path, the path under the queue lock and every other step keep a writer alone in any interleaving, apart from the four steps called clashes |
| `SharedSteps.ExclusionIff` | libraries/psiber/include/psiber/fiber_shared_mutex.hpp:14-17 | the promise of exclusive writers holds in every state of a run if and only if no store that makes a writer, and no addition of a woken reader, is done while somebody is inside whom its look did not see |
| `SharedSteps.LookBeforeStore` | libraries/psiber/src/fiber_mutex.cpp:171-178 | a writer about to set the flag saw no reader inside at its look, so a reader it clashes with came in between look and store |
| `SharedSteps.ClearBeforeStore` | libraries/psiber/src/fiber_mutex.cpp:195-229 | an unlocker about to make a queued writer the holder was alone when it cleared the flag, so a reader it clashes with came in between clearing and store |
| `SharedSteps.TakeBeforeWake` | libraries/psiber/src/fiber_mutex.cpp:198-213 | no writer was inside when an unlocker took the queued readers, so a writer they clash with came in after it released the queue lock |
| `SharedSteps.LookBeforeHand` | libraries/psiber/src/fiber_mutex.cpp:279-288 | a last reader about to make a queued writer the holder saw no reader inside at its look, so a reader it clashes with came in between look and store |
| `SharedSteps.WaitBeforeHand` | libraries/psiber/src/fiber_mutex.cpp:274-288 | no writer was inside when a last reader took itself off, and none comes in once it has the queue lock, so a writer it clashes with came in while it waited for that lock |
| `SharedSteps.TwoWriters` | libraries/psiber/src/fiber_mutex.cpp:272-290 | a run that ends with two writers inside: the last reader, held up before it takes the queue lock, wakes a queued writer beside one that came in meanwhile |
| `SharedSteps.WriterAmongReaders` | libraries/psiber/src/fiber_mutex.cpp:193-214 | a run in which a writer comes in between the release of the queue lock in unlock and the addition of the reader it took |
| `SharedSteps.ReaderBesideWriter` | libraries/psiber/src/fiber_mutex.cpp:171-178 | a run in which a reader goes through its fast path between a writer's look and its store |
| `SharedWakes.RunKeepsFollowed` | libraries/psiber/src/fiber_mutex.cpp:167-323 | in every interleaving the flag is set only with a writer inside, readers are queued only behind a queued writer or one who will take them, and a reader that adds itself under the queue lock has no writer queued |
| `SharedWakes.StrandedIff` | libraries/psiber/include/psiber/fiber_shared_mutex.hpp:24-30 | some state of a run has fibers queued with nobody counted, inside or on the way to the queues if and only if some step of it is an undo by the last one counted, or an append of a writer with nobody counted, while nobody is on the way to the queues |
| `SharedWakes.UndoAtBottom` | libraries/psiber/src/fiber_mutex.cpp:244-247 | every such run contains the undo of a fast path that takes the count to zero and looks at no queue |
| `SharedWakes.StuckForGood` | libraries/psiber/src/fiber_mutex.cpp:167-270 | once fibers are so stranded with nobody past the looks at the writer queue, then whatever else is called but try_lock and try_lock_shared, they stay queued and the queues only grow |
| `SharedWakes.TryLockFrees` | libraries/psiber/src/fiber_mutex.cpp:299-311 | from there a try_lock and its unlock take the queued readers, or else the writer queued first |
| `SharedWakes.TryLockSharedFrees` | libraries/psiber/src/fiber_mutex.cpp:313-323 | from there a try_lock_shared and its unlock take the writer queued first |
| `SharedWakes.ParkedForGood` | libraries/psiber/src/fiber_mutex.cpp:239-250 | a run that ends so stranded, with the lock free, a writer and a reader parked, and no fiber with a step left |
| `SharedOrder.StepTurns` | libraries/psiber/src/fiber_mutex.cpp:167-323 | every step leaves the writer queue alone, adds its own fiber at the end, or takes the first off to hand it the lock; the reader queue likewise, but taken whole |
| `SharedOrder.WritersInOrder` | libraries/psiber/src/fiber_mutex.cpp:180-297 | in every interleaving, of two queued writers the one queued first is handed the lock first |
| `SharedOrder.TakenIsServed` | libraries/psiber/src/fiber_mutex.cpp:199-228 | whoever took a writer off the queue makes it the holder next; whoever took the readers admits them in order |
| `SharedOrder.RunDefers` | libraries/psiber/src/fiber_mutex.cpp:250-257 | in every interleaving a reader that comes in from the slow path passes no writer, inside or queued |
| `SharedOrder.TryReturns` | libraries/psiber/src/fiber_mutex.cpp:299-311 | in every interleaving a try_lock never waits in a queue and is refused only if a writer or a counted reader was seen |
| `SharedOrder.TrySharedReturns` | libraries/psiber/src/fiber_mutex.cpp:313-323 | in every interleaving a try_lock_shared never waits in a queue and is refused only if a writer was seen |
| `Scheduling.StepKeepsInv` | libraries/psiber/src/scheduler.cpp:105-198 | every scheduler step keeps the invariant that ties fiber states, the LIFO slot, the ready queues and the strands together |
| `Scheduling.RunKeepsInv` | libraries/psiber/src/scheduler.cpp:105-198 | every state of every run satisfies it |
| `Scheduling.OnePlace` | libraries/psiber/src/scheduler.cpp:437-497 | in every run a fiber sits in at most one of the running slot, the LIFO slot, the ready queues and the strand queues, and in a runnable place exactly when it is runnable |
| `Scheduling.OneRunnablePerStrand` | libraries/psiber/src/strand.cpp:140-247 | in every run at most one fiber bound to a strand is runnable, and it is the strand's active fiber |
| `Scheduling.IdleStrandsAreEmpty` | libraries/psiber/src/strand.cpp:184-217 | in every run, when nothing is runnable no strand has an active or a queued fiber |
| `Scheduling.ScheduleKeeps` | libraries/psiber/src/scheduler.cpp:118-165 | picking and resuming keeps the invariant and finds nothing only when no fiber is runnable |
| `Scheduling.SuspendKeeps` | libraries/psiber/src/scheduler.cpp:170-198 | suspending or finishing, with the strand release after it, keeps the invariant |
| `Scheduling.ReleaseKeeps` | libraries/psiber/src/strand.cpp:184-217 | releasing a vacated strand activates and readies its first live waiter and restores the invariant |
| `Scheduling.EnterKeeps` | libraries/psiber/src/strand.cpp:219-247 | entering a strand makes the fiber active or parks it in the queue, keeping the invariant |
| `Scheduling.LeaveKeeps` | libraries/psiber/include/psiber/strand.hpp:240-260 | leaving a strand in sync hands it on and keeps the invariant |
| `Scheduling.YieldKeeps` | libraries/psiber/src/scheduler.cpp:437-497 | a yield, strand-bound or not, keeps the invariant |
| `Scheduling.DrainKeeps` | libraries/psiber/src/scheduler.cpp:582-643 | draining the wake list routes every woken fiber and keeps the invariant |
| `Scheduling.UnblockKeeps` | libraries/psiber/src/scheduler.cpp:553-577 | resuming a blocked or sleeping fiber routes it through its strand and keeps the invariant |
| `Scheduling.SpawnKeeps` | libraries/psiber/include/psiber/scheduler.hpp:404-425 | a spawned or reused fiber enters exactly one ready queue |
| `Scheduling.WokenIsParked` | libraries/psiber/src/scheduler.cpp:594-630 | a fiber on the wake list is still parked when it is drained, so the state test never drops one |
| `Scheduling.MakeReadyFacts` | libraries/psiber/src/scheduler.cpp:538-544 | promoting a strand's waiter makes it ready, gives it one runnable place more, and changes no other fiber, strand or place |
| `Scheduling.RouteKeeps` | libraries/psiber/src/strand.cpp:140-182 | enqueueing a fiber that comes back, active at once or queued and parked, restores the invariant |
| `ReadyOrder.RunKeepsClassed` | libraries/psiber/src/scheduler.cpp:901-905 | in every run each ready queue holds only fibers of its priority class, and the LIFO slot has won at most three picks in a row |
| `ReadyOrder.SpawnQueues` | libraries/psiber/include/psiber/scheduler.hpp:404-425 | a spawned fiber has the priority asked for, is unbound, and is last in the queue of its class |
| `ReadyOrder.PickTakes` | libraries/psiber/src/scheduler.cpp:118-165 | a pick takes the LIFO fiber, or the first of the best non-empty queue once the LIFO fiber has gone behind its own |
| `ReadyOrder.MostUrgent` | libraries/psiber/src/scheduler.cpp:886-898 | unless it comes from the LIFO slot, no fiber left waiting is more urgent than the one picked |
| `ReadyOrder.RunsInOrder` | libraries/psiber/src/scheduler.cpp:886-905 | in every run, of two fibers in one ready queue the one queued first runs first |
| `ReadyOrder.StaysQueued` | libraries/psiber/src/scheduler.cpp:886-905 | until it runs, a queued fiber stays in its queue and only moves up |
| `ReadyOrder.UrgentRuns` | libraries/psiber/src/scheduler.cpp:111-165 | in every run of the loop a fiber with i others before it in the most urgent queue runs within 4(i + 1) picks, whatever goes through the LIFO slot |
| `ReadyOrder.LifoAtMostThree` | libraries/psiber/src/scheduler.cpp:118-165 | in every run of the loop the LIFO slot wins at most three picks in a row, and the counter is their number |
| `StrandOrder.EnterLast` | libraries/psiber/src/strand.cpp:219-247 | a fiber that enters a strand becomes active if the strand was free and goes to the end of its queue otherwise; no other strand changes |
| `StrandOrder.ReleaseHandsOn` | libraries/psiber/src/strand.cpp:184-217 | a release hands the strand to the fiber queued longest |
| `StrandOrder.YieldTurns` | libraries/psiber/src/scheduler.cpp:444-474 | a bound fiber that yields goes behind everyone queued on its strand, and the first of them becomes active |
| `StrandOrder.SuspendFibers` | libraries/psiber/src/scheduler.cpp:170-198 | a fiber that suspends is as it asked to be, the one that takes its place in its strand is ready, and no other changes |
| `StrandOrder.StepTurns` | libraries/psiber/src/strand.cpp:140-247 | every step, on every strand: the active fiber goes only by a step of its own, the first queued takes its place, and fibers are only added at the end |
| `StrandOrder.ActiveRuns` | libraries/psiber/src/scheduler.cpp:161-194 | in every run an active fiber stays active in its strand until it has run |
| `StrandOrder.NoOvertaking` | libraries/psiber/src/strand.cpp:140-247 | in every run, whoever is neither active in a strand nor queued there before a fiber becomes active only after that fiber has run |
| `StrandOrder.StrandInOrder` | libraries/psiber/src/strand.cpp:140-247 | in every run, of two fibers in the queue of a strand the one queued first has run before the other becomes active |
| `StrandOrder.TurnComes` | libraries/psiber/src/strand.cpp:184-217 | in every run a fiber with i others before it in a strand's queue is active by the time the active fiber has changed i + 1 times |
| `WakeOrder.PollSettles` | libraries/psiber/src/scheduler.cpp:803-883 | after a poll no due fiber is blocked or sleeping: each is ready or parked in its strand's queue; no other fiber has changed |
| `WakeOrder.DrainSettles` | libraries/psiber/src/scheduler.cpp:582-643 | after a drain every woken fiber is ready or parked in its strand's queue; no other fiber has changed |
| `WakeOrder.DrainInOrder` | libraries/psiber/src/scheduler.cpp:591-642 | of two fibers on the wake list that go to the same ready queue or strand, the one woken first gets there first |
| `WakeOrder.WokenInOrder` | libraries/psiber/src/scheduler.cpp:507-643 | in every run, of two fibers woken before the same drain that go to the same ready queue or strand, the one woken first gets there first |
| `WakeOrder.RegisteredCanPark` | libraries/psiber/src/scheduler.cpp:507-521 | a fiber that hands out the right to wake it can park, and can be woken before or after it has |
| `WakeOrder.LoneWakeRunsNext` | libraries/psiber/src/scheduler.cpp:623-634 | a fiber woken alone and unbound takes a free LIFO slot, ahead of the ready queues, and runs next unless the slot has won three picks |
| `WakeOrder.DrainKeepsLifo` | libraries/psiber/src/scheduler.cpp:623-634 | any other drain leaves the LIFO slot alone |
| `Scheduler.Scheduler.ReleaseStrand` | libraries/psiber/src/strand.cpp:184-217 | skips finished waiters and activates the first live one, as the step says |
| `Scheduler.Scheduler.ResumeBlockedFiber` | libraries/psiber/src/scheduler.cpp:553-577 | equals the unblock step |
| `Scheduler.Scheduler.PollAndUnblock` | libraries/psiber/src/scheduler.cpp:803-883 | unblocks each due fiber in turn and keeps the invariant; afterwards none of them is blocked or sleeping, and no other fiber has changed |
| `Scheduler.Scheduler.ReverseList` | libraries/psiber/include/psiber/detail/mpsc_stack.hpp:85-96 | reverses the drained stack into push order |
| `Scheduler.Scheduler.DrainWakeList` | libraries/psiber/src/scheduler.cpp:582-643 | equals the drain step, LIFO-slot shortcut included, keeps the invariant, and leaves no woken fiber waiting for its wake |
| `Scheduler.Scheduler.RunNext` | libraries/psiber/src/scheduler.cpp:118-165 | equals the scheduling step, keeps the invariant, and reports nothing to run only when no fiber is runnable |
| `Scheduler.Scheduler.SuspendCurrent` | libraries/psiber/src/scheduler.cpp:170-198 | equals the suspension step and keeps the invariant |
| `Scheduler.Scheduler.EnterStrand` | libraries/psiber/src/strand.cpp:219-247 | equals the entering step and keeps the invariant; the fiber is active if the strand was free and last in its queue otherwise |
| `Scheduler.Scheduler.LeaveStrand` | libraries/psiber/include/psiber/strand.hpp:251-260 | equals the leaving step and keeps the invariant |
| `Scheduler.Scheduler.YieldCurrent` | libraries/psiber/src/scheduler.cpp:437-497 | equals the yield step and keeps the invariant; a bound fiber goes behind everyone queued on its strand |
| `WebSocket.UnmaskAnyPieces` | libraries/psi-sdk/src/ws_parser_vendor.c:172-188 | unmasking the pieces with the carried offset equals unmasking the whole body |
| `WebSocket.UnmaskTwice` | libraries/psi-sdk/src/ws_parser_vendor.c:181-188 | unmasking twice restores the data |
| `WebSocket.XorBit` | libraries/psi-sdk/src/ws_parser_vendor.c:172-188 | the mask is combined bit by bit: each bit of the result is the sum of the two bits modulo 2 |
| `WebSocket.HelloReceived` | libraries/psi-sdk/src/ws_parser_vendor.c:52-188 | the eleven octets of the masked "Hello" of section 5.7 of RFC 6455 are parsed as a final text frame and decoded to "Hello" |
| `WebSocket.OtherExamples` | libraries/psi-sdk/src/ws_parser_vendor.c:206-248 | the other frames of section 5.7 of RFC 6455: two fragments, a ping, and the headers of 256 and 65536 octets |
| `WebSocket.FeedFrames` | libraries/psi-sdk/src/ws_parser_vendor.c:52-170 | parsing any concatenation of frames yields each one's header, payload octets and end, in order, if and only if every payload is below 2^32 octets |
| `WebSocket.FeedFrame` | libraries/psi-sdk/src/ws_parser_vendor.c:52-170 | parsing one frame yields its opcode, FIN, mask bit, length, payload octets and end if and only if the payload is below 2^32 octets, and then the parser starts over |
| `WebSocket.LengthWraps` | libraries/psi-sdk/src/ws_parser_vendor.c:99-122 | a header that announces 2^32 octets is parsed as an empty frame |
| `WebSocket.ReceiveFrames` | libraries/psi-sdk/src/ws_parser_vendor.c:52-188 | a consumer that unmasks the body octets of the parser's events ends up with the payloads |
| `WebSocket.SeenUnmasks` | libraries/psi-sdk/src/ws_parser_vendor.c:172-188 | the octets the parser reports for a masked frame unmask to its payload |
| `WebSocket.SizeIsCalculated` | libraries/psi-sdk/src/ws_parser_vendor.c:190-204 | a frame has the calculated size if and only if its size is below 2^32 |
| `WebSocketParser.WsParser.Execute` | libraries/psi-sdk/src/ws_parser_vendor.c:52-170 | the batched loop reports the events and leaves the state of the byte-at-a-time automaton, and its body callbacks, which unmask each slice as it comes, leave the message that a consumer of those events would have |
| `WebSocketParser.WsParser.ReceiveStream` | libraries/psi-sdk/src/ws_parser_vendor.c:52-188 | whatever packets a stream comes in, the parser ends in the state, with the callbacks and with the messages of one run on the whole stream; and if the stream is frames of less than 2^32 octets the messages are their payloads, unmasked |
| `WebSocketParser.WsParser.Decode` | libraries/psi-sdk/src/ws_parser_vendor.c:172-179 | unmasks with the parser's running offset |
| `WebSocketParser.WsParser.TakeLength` | libraries/psi-sdk/src/ws_parser_vendor.c:99-122 | the length phase consumes what the automaton would, the length kept modulo 2^32 |
| `WebSocketParser.WsParser.TakeMask` | libraries/psi-sdk/src/ws_parser_vendor.c:123-141 | the mask phase consumes what the automaton would |
| `WebSocketParser.WsParser.TakeBody` | libraries/psi-sdk/src/ws_parser_vendor.c:142-163 | the body phase reports a batch for what the automaton reports octet by octet |
| `WebSocketParser.DecodeInto` | libraries/psi-sdk/src/ws_parser_vendor.c:181-188 | writes the octets unmasked from any offset and nothing else, and returns the offset for what follows |
| `WebSocketParser.BuildHeader` | libraries/psi-sdk/src/ws_parser_vendor.c:206-235 | defined exactly up to 0xFFFF octets, beyond which it shifts by the width of its 32-bit length; there it writes the fixed and length fields and nothing else |
| `WebSocketParser.BuildFrame` | libraries/psi-sdk/src/ws_parser_vendor.c:206-248 | defined exactly up to 0xFFFF octets; there the buffer holds the octets of the frame, its size is the calculated one, and the rest of the buffer is untouched |
| `WebSocketParser.SendFrame` | libraries/psi-sdk/src/websocket.c:158-208 | the single-buffer and the split-header paths write the octets of the built frame |
| `Unixfs.CollisionExhibited` | libraries/pfs/src/cid.cpp:112-143 | two different byte strings with the same CID exhibit two different dag-pb blocks of theirs with the same digest, single-leaf, multi-chunk and mixed |
| `Unixfs.VarintUnique` | libraries/pfs/src/unixfs.cpp:22-30 | two readings of the same octets as a varint and a rest agree |
| `Unixfs.LeafBlockUnique` | libraries/pfs/src/unixfs.cpp:93-104 | a leaf block determines its data |
| `Unixfs.RootLinksUnique` | libraries/pfs/src/unixfs.cpp:106-135 | a root block determines its links |
| `Unixfs.RootIsNotLeaf` | libraries/pfs/src/unixfs.cpp:93-135 | a root block is never a leaf block |
| `Unixfs.ChunksJoin` | libraries/pfs/src/cid.cpp:124-127 | the chunks put together are the data |
| `Unixfs.WriteVarint` | libraries/pfs/src/unixfs.cpp:22-30 | appends the varint |
| `Unixfs.EncodeFileBlock` | libraries/pfs/src/unixfs.cpp:93-104 | builds the leaf block, which `UnixfsReads.LeafReads` reads back |
| `Unixfs.EncodeFileRoot` | libraries/pfs/src/unixfs.cpp:106-135 | builds the root block over any links and sizes, which `UnixfsReads.RootReads` reads back |
| `Unixfs.ComputeCidOf` | libraries/pfs/src/cid.cpp:112-143 | the chunk loop computes the CID of the block that `UnixfsReads.CidNames` and `UnixfsReads.TopReads` read |
| `UnixfsReads.LeafReads` | libraries/pfs/src/unixfs.cpp:55-104 | to a reader of the dag-pb and UnixFS schemas, a leaf block is a node without links whose data says type File, the octets and their number |
| `UnixfsReads.RootReads` | libraries/pfs/src/unixfs.cpp:73-135 | to the same reader a root block is a node with the links in order, each with its CID and size, whose data says type File, the size of the whole and those of the chunks |
| `UnixfsReads.LinksBeforeData` | libraries/pfs/src/unixfs.cpp:113-132 | the links come before the data |
| `UnixfsReads.TopReads` | libraries/pfs/src/cid.cpp:112-143 | the block of a content of more than a chunk says its size and, for each stretch of 262144 octets in order, the size, the CID of its leaf and the size of that leaf |
| `UnixfsReads.CidNames` | libraries/pfs/src/cid.cpp:112-122 | the CID of a content up to a chunk is the four octets of version 1, dag-pb, sha2-256 and 32, and the digest of a block that reads as that content |
| `UnixfsReads.HelloBlock` | libraries/pfs/src/unixfs.cpp:55-104 | the block of "hello", octet by octet |
| `UnixfsReads.VarintReads` | libraries/pfs/src/unixfs.cpp:22-30 | a varint is read back, and what follows it is not touched |
| `UnixfsReads.VarintShortest` | libraries/pfs/src/unixfs.cpp:22-30 | a varint has no octet more than it needs |
| `Base32.Encode` | libraries/pfs/src/cid.cpp:33-54 | the digits, all from the lower-case alphabet, spell the octets' number followed by fewer than five zero bits, although the accumulator wraps modulo 2^64 |
| `Base32.Decode` | libraries/pfs/src/cid.cpp:67-88 | fails exactly on a character outside the alphabet; otherwise yields the whole octets the digits spell |
| `Base32.RoundTrip` | libraries/pfs/src/cid.cpp:33-88 | decoding what encodes an octet string yields that string |
| `Base32.EncodingUnique` | libraries/pfs/src/cid.cpp:33-54 | each octet string has one encoding |
| `Base32.DecodingUnique` | libraries/pfs/src/cid.cpp:67-88 | each digit string decodes to one octet string |
| `Base32.CharValue` | libraries/pfs/src/cid.cpp:56-65 | inverts the alphabet |
| `Base32.FoobarEncoded` | libraries/pfs/src/cid.cpp:31-54 | "mzxw6ytboi" encodes "foobar", as section 10 of RFC 4648 says |
| `Base32.ToString` | libraries/pfs/src/cid.cpp:91-94 | writes a CID as a 59-character string |
| `Base32.FromString` | libraries/pfs/src/cid.cpp:96-110 | accepts or fails with the error of the first test that applies |
| `Base32.StringRoundTrip` | libraries/pfs/src/cid.cpp:91-110 | a written CID, in any mixture of letter cases, parses back to it |
| `Base32.Canonical` | libraries/pfs/src/cid.cpp:91-110 | a parsed string is the one its CID is written as if and only if it is lower case, 59 characters long and ends in a digit with two low zero bits |
| `Base64.Encode` | libraries/psi-sdk/src/base64_vendor.c:137-165 | the buffer holds the encoded text and a NUL, the rest untouched |
| `Base64.Decode` | libraries/psi-sdk/src/base64_vendor.c:56-90 | accepts exactly the texts whose blocks are well-formed up to their end; writes the decoded octets and nothing beyond them, also when source and destination are one buffer |
| `Base64.DecodeBlock` | libraries/psi-sdk/src/base64_vendor.c:59-87 | one turn of the loop writes what its four characters hold and leaves the unread text alone |
| `Base64.DecodeInPlace` | libraries/psi-sdk/src/base64_vendor.h:56-58 | a buffer that holds the text of any data comes to hold the data |
| `Base64.RoundTrip` | libraries/psi-sdk/src/base64_vendor.c:56-165 | decoding undoes encoding for every byte string, whatever non-digit follows the text |
| `Base64.Canonical` | libraries/psi-sdk/src/base64_vendor.c:56-165 | an accepted text starts with the encoding of what it decodes to if and only if the spare bits of its last digit are clear |
| `Base64.DecodedShrinks` | libraries/psi-sdk/src/base64_vendor.c:56-90 | decoding never writes more than it reads |
| `Base64.Digit` | libraries/psi-sdk/src/base64_vendor.c:93-96 | the digit table is inverted by the value table |
| `Base64.Alphabet` | libraries/psi-sdk/src/base64_vendor.c:93-96 | the digits are A to Z, a to z, 0 to 9, + and / |
| `Base64.FoEncoded` | libraries/psi-sdk/src/base64_vendor.c:137-165 | "f" and "fo" are encoded as section 10 of RFC 4648 says |
| `Base64.FoobarEncoded` | libraries/psi-sdk/src/base64_vendor.c:137-165 | "foobar" is encoded as section 10 of RFC 4648 says |
| `ShaStreaming.Sha1.constructor` | libraries/psi-sdk/src/sha1_vendor.c:77-90 | the initial state has absorbed nothing |
| `ShaStreaming.Sha1.Update` | libraries/psi-sdk/src/sha1_vendor.c:92-105 | after any updates the state is the fold over the whole blocks of everything passed so far, the rest is buffered, and the bit count is kept modulo 2^64 |
| `ShaStreaming.Sha1.Final` | libraries/psi-sdk/src/sha1_vendor.c:107-148 | yields the digest of the fold over the padded message, for every residue |
| `ShaStreaming.Sha1.Mark` | libraries/psi-sdk/src/sha1_vendor.c:113-122 | writes the marker and the zeros up to the limit |
| `ShaStreaming.Sha1.PutLength` | libraries/psi-sdk/src/sha1_vendor.c:127-136 | writes the bit count big-endian |
| `ShaStreaming.WriteDigest` | libraries/psi-sdk/src/sha1_vendor.c:139-147 | writes the state words big-endian |
| `ShaStreaming.Sha256.constructor` | programs/source-to-pzam/source_to_pzam.cpp:142-147 | the initial state has absorbed nothing |
| `ShaStreaming.Sha256.Update` | programs/source-to-pzam/source_to_pzam.cpp:182-190 | copying as much as fits absorbs everything passed, however cut |
| `ShaStreaming.Sha256.Finish` | programs/source-to-pzam/source_to_pzam.cpp:192-206 | feeds itself exactly the padding of section 5.1.1 of FIPS 180-4 and yields the digest of the padded message in hexadecimal |
| `ShaStreaming.Sha256File` | programs/source-to-pzam/source_to_pzam.cpp:209-220 | hashing a file read in any pieces hashes the concatenation |
| `ShaStreaming.FoldSplit` | programs/source-to-pzam/source_to_pzam.cpp:182-190 | folding whole blocks first and the rest after is folding everything |
| `ShaStreaming.FoldPaddedOne` | libraries/psi-sdk/src/sha1_vendor.c:113-118 | with fewer than 56 octets left the padding is one block |
| `ShaStreaming.FoldPaddedTwo` | libraries/psi-sdk/src/sha1_vendor.c:119-125 | with 56 or more it is two |
| `ShaStreaming.PaddingReads` | libraries/psi-sdk/src/sha1_vendor.c:107-136 | the padding is the marker, the fewest zeros that fill a block, and the length in bits modulo 2^64, most significant octet first |
| `ShaStreaming.DigestReads` | libraries/psi-sdk/src/sha1_vendor.c:139-147 | each four octets of a SHA-1 digest spell their state word |
| `ShaStreaming.TextReads` | programs/source-to-pzam/source_to_pzam.cpp:192-206 | each eight digits of a SHA-256 digest read as their state word |
| `ShaStreaming.Sha1Start` | libraries/psi-sdk/src/sha1_vendor.c:77-90 | the initial state of SHA-1, octet by octet: 01 23 to ef, fe dc to 10, f0 e1 d2 c3 |
| `ShaStreaming.Sha256Start` | programs/source-to-pzam/source_to_pzam.cpp:142-147 | the initial state of SHA-256: the first 32 bits of the fractions of the square roots of the first eight primes |
| `Cas.ContentStore.constructor` | libraries/pfs/include/pfs/block_store.hpp:48 | an empty store of any number of roots, block numbers from 1, contents and blocks assigned to roots by the hash of their key |
| `Cas.ContentStore.Put` | libraries/pfs/src/cas.cpp:18-74 | one more pin of the content's CID, stored once; the invariant (refcounts are the outstanding pins, entries hold what was put, the roots hold exactly the disjoint union of the chunk lists, each block in the root of its content) is kept if and only if the refcount has room or the block ids taken are unused |
| `Cas.ContentStore.AddInline` | libraries/pfs/src/cas.cpp:40-49 | content up to a chunk is kept inline |
| `Cas.ContentStore.AddChunked` | libraries/pfs/src/cas.cpp:50-68 | larger content is kept in blocks; no block leaks or is shared if and only if the ids were unused |
| `Cas.ContentStore.StoreChunks` | libraries/pfs/src/cas.cpp:52-67 | cuts the data into full chunks and a last one, under consecutive ids, all in the root of the content |
| `Cas.ContentStore.Pin` | libraries/pfs/src/cas.cpp:76-94 | fails exactly on an unknown CID; otherwise one more pin |
| `Cas.ContentStore.Unpin` | libraries/pfs/src/cas.cpp:96-125 | one pin fewer; the last one removes the entry and exactly its blocks; an unknown CID changes nothing |
| `Cas.ContentStore.FreeBlocks` | libraries/pfs/src/block_store.cpp:31-35 | removes exactly the blocks of the list |
| `Cas.ContentStore.Get` | libraries/pfs/src/cas.cpp:142-163 | returns exactly what was put if every block is looked for in the root it was written to, and an error otherwise |
| `Cas.ContentStore.GetRange` | libraries/pfs/src/cas.cpp:165-204 | for any 64-bit offset and length: exactly the slice of what was put when every block of the range is found, or the error that applies; when the sum wraps, undefined inline, a refused length where a chunk holds both ends, and nothing otherwise |
| `Cas.ContentStore.Read` | libraries/pfs/src/cas.cpp:206-244 | the callback pieces put together are the slice of what was put, with the same cases |
| `Cas.ContentStore.PutThenGet` | libraries/pfs/src/block_store.cpp:14-50 | putting new data and getting it back returns it if and only if it fits one chunk or each of its blocks has the root of its content |
| `Cas.OneRootFinds` | libraries/pfs/include/pfs/keys.hpp:67-86 | with one root every content can be read back |
| `Cas.ManyRootsMiss` | libraries/pfs/src/block_store.cpp:19-41 | with the default of 256 roots the first block of a new store is looked for where it was written exactly for the contents of root 130 |
| `Cas.FirstPutIsLost` | libraries/pfs/src/block_store.cpp:14-50 | in a new store of 256 roots, putting any data of more than a chunk whose content is not of root 130 and getting it back fails |
| `Cas.PlacedAt` | libraries/pfs/src/block_store.cpp:37-50 | a block is found in a root exactly when that is the root of its content, and is then what was written |
| `Cas.StoredIsOwned` | libraries/pfs/src/cas.cpp:50-68 | what lies in the roots is the blocks the entries name, each in the root of its content, and nothing else |
| `Cas.OwnedDisjoint` | libraries/pfs/src/cas.cpp:50-68 | no two positions of chunk lists share a block |
| `Cas.SharedIsNotOwned` | libraries/pfs/src/block_store.cpp:19-22 | an id taken twice breaks the union, whatever else holds |
| `Cas.SequentialIsFresh` | libraries/pfs/src/block_store.cpp:19-22 | until 2^56 blocks have been numbered the next ids are unused |
| `Store.FileStore.constructor` | libraries/pfs/src/store.cpp:31-34 | an empty store of any number of roots, nothing pinned or charged |
| `Store.FileStore.Write` | libraries/pfs/src/store.cpp:92-149 | names the content at the path and charges the change of size, or is refused exactly when the limit is passed and then changes no file; a refused write and a rewrite of the same content leave one pin of the content behind, and any other leaves nothing; with what operations left behind, pins are exactly names and callers' pins, and charges exactly sizes, if and only if the charge stays below 2^64 |
| `Store.FileStore.Remove` | libraries/pfs/src/store.cpp:151-179 | removes the file, gives its charge back without underflow and its pin back, leaving nothing behind; refused exactly when the tenant without the file is still above its limit |
| `Store.FileStore.Mkdir` | libraries/pfs/src/store.cpp:181-206 | adds a directory entry under a path ending in a slash; the pin and the charge of a file it replaces are left behind |
| `Store.FileStore.SetQuota` | libraries/pfs/src/store.cpp:391-409 | sets the limit and keeps the use |
| `Store.FileStore.Share` | libraries/pfs/src/store.cpp:428-459 | the destination names the source's content with one more pin and charge, or the error that applies; a refused share leaves its pin behind, and one over a file the pin and the charge of that file; the invariant is kept if and only if the charge stays below 2^64 |
| `Store.FileStore.Put` | libraries/pfs/src/store.cpp:80-83 | the caller holds one more pin |
| `Store.FileStore.Unpin` | libraries/pfs/src/store.cpp:85-88 | a caller that holds a pin gives it back and every named content stays |
| `Store.FileStore.ReadFile` | libraries/pfs/src/store.cpp:13-27 | a listed file reads as what was written to it if every block is looked for where it was written, and fails otherwise |
| `Store.FileStore.RunIsExact` | libraries/pfs/src/store.cpp:92-206 | after any run pins are exactly names and callers' pins, and charges exactly sizes, if and only if no operation left anything behind |
| `Store.RewriteThenRemove` | libraries/pfs/src/store.cpp:144-147 | writing the same data over itself and removing the file leaves the content in the store, pinned and without a name |
| `Store.RemoveRefused` | libraries/pfs/src/store.cpp:151-179 | a file shared within its tenant under a limit set below its size cannot be removed |
| `Store.ShareWraps` | libraries/pfs/src/store.cpp:57-76 | a file of 2^63 octets shared within its tenant leaves the tenant charged nothing |
| `Store.HeldFiled` | libraries/pfs/src/store.cpp:101-146 | a pin moves from the operation to the entry and the replaced entry's pin back, content by content |
| `Store.ChargedSet` | libraries/pfs/src/store.cpp:57-76 | the charge after replacing an entry is the sizes of the tenant's files and what was charged for none, if and only if it did not pass 2^64 |
| `Store.ChargedRemove` | libraries/pfs/src/store.cpp:171-172 | the charge after removing a file is that of the rest and did not underflow |
| `Store.NamedIsPinned` | libraries/pfs/src/store.cpp:92-149 | a content that a file names is in the content store |
| `Keys.UnderDirectory` | libraries/pfs/include/pfs/keys.hpp:37-64 | a file key is under a directory prefix exactly when tenant and path are |
| `Keys.FsKeyUnique` | libraries/pfs/include/pfs/keys.hpp:37-45 | different files have different keys |
| `Keys.OtherKeys` | libraries/pfs/include/pfs/keys.hpp:20-35 | block and content keys are never under a directory prefix |
| `Keys.Letters` | libraries/pfs/include/pfs/keys.hpp:20-64 | keys of blocks, contents and files start with B, C and F |
| `Keys.KeysRead` | libraries/pfs/include/pfs/keys.hpp:14-45 | the eight octets after the letter spell the block id and the tenant |
| `Keys.WordReads` | libraries/pfs/include/pfs/keys.hpp:81-86 | the word taken from a digest is the number its octets spell from the last to the first |
| `Keys.CasShardReads` | libraries/pfs/include/pfs/keys.hpp:81-86 | a content's root is the hash of the first eight octets of its digest |
| `Keys.Normalized` | libraries/pfs/src/store.cpp:36-43 | one leading slash of a path is dropped, and nothing else |
| `Keys.DirectoryPath` | libraries/pfs/src/store.cpp:186-189 | a directory's path ends in a slash: one is added where there is none, and only there |
| `DirCursor.ChildrenExact` | libraries/pfs/src/store.cpp:295-323 | a listing is exactly the direct children, once each, in key order |
| `DirCursor.NamesInOrder` | libraries/pfs/src/store.cpp:295-323 | children are listed in the order of their names |
| `DirCursor.LessIff` | libraries/pfs/src/store.cpp:264-271 | keys are ordered by the first octet in which they differ, a prefix first |
| `DirCursor.ChildOfDirectory` | libraries/pfs/include/pfs/keys.hpp:37-64 | among file keys the direct children are the tenant's paths one name below the directory |
| `DirCursor.NoMoreChildren` | libraries/pfs/src/store.cpp:299-302 | stopping at the first key past the prefix misses no child |
| `DirCursor.Cursor.constructor` | libraries/pfs/src/store.cpp:264-271 | a new cursor has every direct child of the prefix ahead of it |
| `DirCursor.Cursor.SkipForward` | libraries/pfs/src/store.cpp:295-323 | finds the next child if there is one and skips none |
| `DirCursor.Cursor.SkipBackward` | libraries/pfs/src/store.cpp:295-323 | finds the nearest child before if there is one |
| `DirCursor.Cursor.Next` | libraries/pfs/src/store.cpp:277-284 | drops exactly the current child from those ahead |
| `DirCursor.Cursor.Prev` | libraries/pfs/src/store.cpp:286-293 | moves to the nearest child before, or becomes invalid exactly when there is none |
| `DirCursor.Ls` | libraries/pfs/src/store.cpp:340-371 | the cursor has ahead of it all children, or those after the given name |
| `DirCursor.ResumeAfter` | libraries/pfs/src/store.cpp:353-371 | resuming after a child's name goes on with the next child |
| `DirCursor.TakePage` | libraries/pfs/src/store.cpp:273-284 | a page is the next names, as many as asked for |
| `DirCursor.ListInPages` | libraries/pfs/src/store.cpp:353-371 | pages of any sizes, each resumed after the last name before it, make up the full listing |
| `Leb128.WriteLeb` | libraries/psizam/tools/pzam_wit.cpp:24-33 | writes the unsigned form |
| `Leb128.WriteSLeb` | libraries/psizam/tools/pzam_wit.cpp:60-72 | writes the signed form |
| `Leb128.ReadLeb128` | libraries/psizam/tools/pzam_wit.cpp:35-45 | reads the number modulo 2^32 and stops right after it |
| `Leb128.ReadSLeb128` | libraries/psizam/tools/pzam_wit.cpp:47-58 | reads the two's complement number, sign-filled or truncated as its length requires |
| `Leb128.ReadLeb` | libraries/psizam/tools/pzam_wit.cpp:24-45 | reading a written unsigned number returns it and what follows |
| `Leb128.ReadSLeb` | libraries/psizam/tools/pzam_wit.cpp:47-72 | reading a written signed number returns it and what follows |
| `Leb128.WrapIs` | libraries/psizam/tools/pzam_wit.cpp:47-59 | a number of 32 bits is unchanged by the wrap, and numbers 2^32 apart are the same |
| `Leb128.Examples` | libraries/psizam/tools/pzam_wit.cpp:24-71 | 624485, -123456 and the numbers around the sign bit of one group, octet by octet |
| `PzamWit.EncodeDataSection` | libraries/psizam/tools/pzam_wit.cpp:145-163 | writes the section of the segments |
| `PzamWit.ParseDataSegments` | libraries/psizam/tools/pzam_wit.cpp:118-142 | reads the segments of a section, stopping at the first offset expression that is not one i32.const |
| `PzamWit.SectionRoundTrip` | libraries/psizam/tools/pzam_wit.cpp:118-163 | re-parsing an encoded section returns its segments |
| `PzamWit.FindBlobs` | libraries/psizam/tools/pzam_wit.cpp:198-234 | every blob found is spelled where it is found: the magic, the length of its text in four octets, least significant first, and the text, which names its interface; every blob spelled starts within a blob found; the blobs are in order and do not overlap |
| `PzamWit.BlobIff` | libraries/psizam/tools/pzam_wit.cpp:206-230 | a blob is found at a place, with a name and a text, exactly when it is spelled there with that name and that text |
| `PzamWit.NameIff` | libraries/psizam/tools/pzam_wit.cpp:217-224 | the name of an interface is what stands between the first "interface " of the text and the next space or brace |
| `PzamWit.Operators` | libraries/psizam/tools/pzam_wit.cpp:126-135 | constant expressions may add, subtract and multiply, by the grammar of the specification |
| `PzamWit.MagicText` | libraries/psizam/tools/pzam_wit.cpp:76-77 | the magic is "PSIO1_WIT" and a 1, the word is "interface " |
| `PzamWit.SplitSegment` | libraries/psizam/tools/pzam_wit.cpp:260-282 | the pieces of a segment store, in order, exactly what it stores outside its blobs |
| `PzamWit.GroupBlobs` | libraries/psizam/tools/pzam_wit.cpp:241-244 | the blobs of each segment in the order given |
| `PzamWit.Excise` | libraries/psizam/tools/pzam_wit.cpp:237-292 | for disjoint blobs in any order: the stores of the result are the original ones with exactly the blobs' octets left out, no piece is empty, and a segment without blobs is found, whatever its kind, at the number of pieces of those before it |
| `PzamWit.IndexKept` | libraries/psizam/tools/pzam_wit.cpp:237-292 | a segment keeps its index exactly when as many segments before it vanish, being empty or all blob, as pieces are gained by cutting; all keep theirs exactly when each of those before becomes one piece |
| `PzamWit.RemoveEmpty` | libraries/psizam/tools/pzam_wit.cpp:285-289 | dropping empty segments changes no store |
| `PzamWit.PromoteBlobs` | libraries/psizam/tools/pzam_wit.cpp:363-377 | for a section of active segments on memory 0, with any constant offset expressions, the rewritten section has the effect of the original less exactly the blobs' octets if and only if no blob was found or there is nothing in the segments from the first on whose offset is not one i32.const |
| `PzamWit.ParseStopsAt` | libraries/psizam/tools/pzam_wit.cpp:118-142 | the segments read are those declared before the first whose offset is not one i32.const; all are read exactly when there is no such segment |
| `PzamWit.EncodedDeclares` | libraries/psizam/tools/pzam_wit.cpp:145-163 | a written section declares its segments, by the grammar of the specification |
| `PzamWit.RewriteEffect` | libraries/psizam/tools/pzam_wit.cpp:363-377 | rewriting the segments read loses only the blobs exactly when the segments not read are empty |
| `PzamWit.SecondSegmentDropped` | libraries/psizam/tools/pzam_wit.cpp:126-135 | a section with a blob in its first segment and a global as the offset of its second: promoting the blob drops the second segment |

## Left out

- Sockets, TLS, epoll and kqueue, DNS, signals and the host API: plumbing over foreign calls.
- The LLVM compilers, the wasm runtime and the tools that load and run modules: they depend on code outside this model.
- Scheduler shutdown, daemon fibers, destructors and the reactor pool: they bypass the strand invariant by design.
- The pool-wait list and the task and work lists of the scheduler: their producers are in other threads; draining them adds no new invariant.
- Weak memory: the interleaving models are sequentially consistent.
- SharedMutex.SharedMutex.Lock: one call is one step; `SharedSteps` takes the interleavings inside calls.
- SharedMutex.SharedMutex.Unlock: one call is one step, as above.
- SharedMutex.SharedMutex.LockShared: one call is one step, as above.
- SharedMutex.SharedMutex.UnlockShared: one call is one step, as above.
- SharedMutex.SharedMutex.TryLockShared: one call is one step, as above.
- SharedSteps.ExclusionIff: a fiber holds the lock once at a time, and parking is one step with the release of the queue lock; `FiberMutex` takes that race apart.
- Scheduler.Scheduler.PollAndUnblock: which fibers are due is a parameter; timers and descriptors are not modelled.
- TxMutex.StepKeepsInv: the spin lock around each call makes it one step; spinning is not modelled.
- SendRing.SendQueue.Consume: may be called on any header, as the receiver's run-once discipline is not modelled.
- WebSocketParser.WsParser.Execute: callbacks are taken to return 0, so the early exits on a non-zero result are not modelled, and the sum of a pointer and a length is taken not to pass the end of the address space.
- WebSocketParser.SendFrame: short writes and errors of the host's write call are not modelled.
- `psi_ws_recv` and the HTTP handshake: they depend on short reads of the host.
- The rounds of SHA-1 and SHA-256: the block function is a parameter.
- Cas.ContentStore.constructor: block numbers start at 1 again in a new process over an old database; the model follows one process.
- Cas.ContentStore.GetRange: an allocation of less than 2^63 octets is taken to succeed.
- Store.FileStore.Write: the path `$meta`, whose key is that of the quota record, is not modelled; requires room to count and number the content, beyond which `Cas.ContentStore.Put` says what happens.
- Store.FileStore.Remove: the path `$meta` is not modelled.
- Store.FileStore.Share: the path `$meta` is not modelled; requires room in the refcount.
- `chmod` and `quota`: they would only add easy members.
- DirCursor.Ls: at a tenant's top directory the quota record counts as a child named `$meta`, as in the source; what decoding it as a file entry yields is not modelled.
- Leb128.ReadLeb128: numbers of more than five octets, where the source shifts by more than the width, yield nothing.
- Leb128.ReadSLeb128: numbers of more than five octets, as above.
- ShaStreaming.Sha256File: a file that cannot be opened is not modelled; the 64 KiB reads are any list of pieces.
- PzamWit.ParseDataSegments: reading past the section yields nothing; the source does not test for it.
- PzamWit.PromoteBlobs: the effect is stated of active segments on memory 0. A segment that names a memory is misread, its memory index and offset expression taken for its size; a passive one is cut too, and what code that names it then copies is not stated; `IndexKept` says when the segments after it keep the indices by which code names them.
- Section splitting, `rebuild` and `update_datacount` of `pzam wit`: copying around the data section, and a rewrite that only handles counts of the same size.
- `module_store`, `token`, the DNS helpers, `ntp` and the web-ide file system: easier members than the ones modelled.
