# Concurrent queues and a timer, verified

The repository is a small C++ collection of concurrent data structures. This project models its
queues and its timer as machines that take one shared access per step, and proves what every
interleaving of every number of threads keeps.

* **`LockFreeQueueCpp11`**, the multi-producer/multi-consumer ring of tickets and stamps.
  `TicketRing` is the ring on unbounded tickets and its invariant, `TicketGuarantees` what follows
  from it; `WordRing` is the same ring on 64-bit words; `WrapAround` says exactly when the two
  agree step by step; `WordOrder` proves first in, first out on words for many more runs, in which
  only the compare-and-swaps must not be too late, and `CasBound` says exactly how late they may
  be; `TicketProgress` bounds the retries and `TicketCalls` says what the answers mean;
  `LockFreeQueue` is the object, with its constructor, `push`, `pop` and destructor in loop form,
  other threads moving between any two of its accesses.
* **`ypipe_t` over `yqueue_t`**, the single-producer/single-consumer pipe. `PipePositions` is the
  pipe on queue positions; `ChunkPipe` is the pipe on pointers into allocated, freed and recycled
  chunks, which `ChunkGuarantees` shows to refine it; `YPipe` is the object, on `PipeCalls` and
  `PipeTrace`.
* **`LockFreeArrayQueue`**, the ring whose threads claim a ticket first and spin afterwards.
  `TurnRing` is its compare-and-swap mode and its invariant, `TurnGuarantees` what follows from it;
  `TurnSizes` decides for which sizes it keeps its elements apart and its order, `TurnProgress` for
  which its spinning is free of deadlock, `TurnFairness` for which it ends under fair scheduling;
  `TurnCalls` says what the answers mean; `LockMode` is its lock mode and the relation of both modes
  to a bounded queue; `ArrayQueue` is the object.
* **`ThreadSafeQueue`**, the linked queue with a mutex at each end. `TwoLockQueue` is the machine
  of its lock, pointer and node accesses with its invariant, `TwoLockGuarantees` what follows from
  it, `TwoLockCalls` what its calls answer, `ThreadSafeQueue` the object on nodes in memory.
* **`Timer`**, the ordered set of deadlines with its drain loop. `TimerRuns` holds whole runs of
  adds, deletes, checks and callbacks, which may add themselves again for ever; `TimerDrain` says
  when draining ends; `Timers` is the object.

`Bits`, `Slots`, `Claims`, `Interference` and `Wrappers` hold what they share. `dafny verify dfyconfig.toml` checks
everything.

## How the machines are built

A state holds the shared fields, one phase per thread (a program counter with the locals of the
C++ function) and histories that decide nothing: what was pushed, who claimed which ticket, what was
returned. `Step` is one access of one thread, `Run` takes a schedule, an arbitrary sequence of
threads and actions. A theorem about `Run(Init(..), schedule)` is a theorem about every
interleaving. Weak compare-and-swaps may fail for no reason (`FailSpuriously`). Accesses are
sequentially consistent.

The objects update their fields in place. Their methods take the moves of the other threads as a
parameter (`gaps`, arbitrary) and run them between their own accesses; each access is tied to the
step of the machine, and each operation promises its effect under all such interference. It
also promises that it was a run of the machine in which the other threads made all the moves of the
gaps it came to; the two rings keep the trace of every access since the beginning for that.

## What the code does not do

The properties below are false of some inputs. For each the project gives a failing run and
proves exactly when the property holds.

* `LockFreeArrayQueue` masks tickets with `size - 1`, so unless the size is a power of two some slot
  serves two tickets of one lap. Exactly for powers of two, in all runs of all numbers of threads:
  * no two threads work on one element (`TurnSizes.ExclusiveIffPow2`);
  * every pop returns the item pushed under its ticket (`TurnSizes.FirstInFirstOutIffPow2`);
  * the spin waits are free of deadlock (`TurnProgress.DeadlockFreeIffPow2`), and fair scheduling
    finishes every claimed ticket (`TurnFairness.FairRunsFinishIffPow2`);
  * calls that do not overlap answer like a bounded queue, in compare-and-swap mode
    (`LockMode.AloneIsFifoIffPow2`) and in lock mode (`LockMode.LockModeIsFifoIffPow2`).
* The default size is 65535, annotated as 2^16 in the source, and no power of two. With it there is a
  run, by one thread alone, whose second push waits for ever (`TurnProgress.DefaultSizeHangs`), and
  a run of two threads in which an accepted item is lost and another is popped in its place
  (`TurnSizes.DefaultSizeLosesItem`).
* The wrapping counters of `LockFreeQueueCpp11` act like unbounded ones, step by step, exactly while
  no thread moves with a copy of a counter so old that its lag plus the capacity exceeds 2^64
  (`WrapAround.LagBoundIsExact`; `WrapAround.TooOld` is a run one ticket beyond, in which a stale push
  passes its stamp test). Beyond that bound the queue still keeps its order as long as every
  compare-and-swap is less than 2^64 tickets late (`WordOrder.WordsKeepOrder`), and with one that
  is as late as that a pop reads raw memory (`CasBound.CasBoundIsExact`).
* Timers fire in order of deadline and id exactly when no delay is negative
  (`TimerRuns.FiresInOrderIffPatient`).
* The loop `while(timer->checkTimer())` ends, whatever the callbacks do, exactly when delays are
  positive and the clock does not run on for ever (`TimerDrain.DrainEndsIff`).

## Model

| member | source | states |
|---|---|---|
| `LockFreeQueue.RoundUp` | DataStructures/LockFreeQueue.h:11-14 | the smearing loop finds the least power of two not below the capacity, for every 64-bit capacity; it overflows to 0 exactly for 0 and above 2^63 |
| `Slots.MaskIsSlot` | DataStructures/LockFreeQueue.h:49 | masking by capacity - 1 finds the remainder by the capacity, for every ticket and every power of two |
| `Slots.SlotApart` | DataStructures/LockFreeQueue.h:49 | two tickets of one slot are at least a lap apart |
| `TicketGuarantees.StepInv` | DataStructures/LockFreeQueue.h:43-76 | every access of every thread, spurious failures included, keeps the invariant that the two stamps of a slot say in whose hands its ticket is |
| `TicketGuarantees.RunInv` | DataStructures/LockFreeQueue.h:43-76 | so does every interleaving of any number of pushers and poppers |
| `TicketGuarantees.FirstInFirstOut` | DataStructures/LockFreeQueue.h:43-76 | in every run the pop of ticket k returns the item of the push of ticket k; 0 <= tail - head <= capacity; a claimed push is published, a claimed pop has returned, if and only if the one thread that claimed it no longer holds the ticket |
| `TicketGuarantees.ClaimedPop` | DataStructures/LockFreeQueue.h:66-75 | a claimed pop has returned if and only if its claimer no longer holds the ticket |
| `TicketGuarantees.ClaimedPush` | DataStructures/LockFreeQueue.h:52-57 | the stamp for poppers has reached a claimed push if and only if its claimer no longer holds the ticket |
| `TicketGuarantees.HistoryGrows` | DataStructures/LockFreeQueue.h:43-76 | pushed items, claims and returned values are never revised by later steps |
| `TicketGuarantees.WinnersHoldStamps` | DataStructures/LockFreeQueue.h:49-70 | however stale the stamp test was, in every run a compare-and-swap wins only while the stamp still holds: a push then finds room and raw memory, a pop the item pushed under its ticket |
| `TicketGuarantees.SlotsAreExclusive` | DataStructures/LockFreeQueue.h:52-74 | the same over every run: from its claim to its release a thread is alone on its slot |
| `TicketGuarantees.ObjectLifetimes` | DataStructures/LockFreeQueue.h:55-73 | no object is constructed or destroyed twice or destroyed unconstructed; construction finds raw memory, copying and destruction find an object |
| `TicketGuarantees.PushRefusal` | DataStructures/LockFreeQueue.h:50-51 | a push answers false if and only if its ticket has been pushed and popped already, or the pop one lap earlier has not been released |
| `TicketGuarantees.PopRefusal` | DataStructures/LockFreeQueue.h:67-68 | a pop answers false if and only if the push of its ticket is not over (never claimed, or under way), or the push one lap later is |
| `TicketGuarantees.SettledContents` | DataStructures/LockFreeQueue.h:43-76 | with no operation under way the cells hold exactly the items pushed and not popped, each at its slot |
| `TicketGuarantees.SettledRefusal` | DataStructures/LockFreeQueue.h:50-68 | then, with a current copy of the counter, false means exactly full for push and exactly empty for pop |
| `TicketGuarantees.TeardownBalances` | DataStructures/LockFreeQueue.h:29-30 | destroying the tickets from head to tail leaves every constructed object destroyed exactly once |
| `WordRing.TestsAgree` | DataStructures/LockFreeQueue.h:49-70 | stamp tests and compare-and-swaps on 64-bit words give the answers of unbounded tickets while lag plus capacity is at most 2^64 |
| `WordRing.StepAgrees` | DataStructures/LockFreeQueue.h:43-76 | one access on words is one access on tickets seen modulo 2^64 |
| `WordRing.RunAgrees` | DataStructures/LockFreeQueue.h:16-76 | whole runs on words, started with the -1 head stamps, simulate runs on tickets under that bound |
| `WrapAround.TooOld` | DataStructures/LockFreeQueue.h:49-53 | for every capacity, a run one ticket beyond the bound in which a stale push is refused on unbounded tickets and passes its stamp test on words |
| `WrapAround.LagBoundIsExact` | DataStructures/LockFreeQueue.h:43-76 | wrapped and unbounded ring agree step by step on all runs whose movers lag at most `bound` if and only if bound plus capacity is at most 2^64 |
| `WordOrder.LooseOnlyWhenStale` | DataStructures/LockFreeQueue.h:49-70 | stamp tests made on words change a step only by letting an operation pass whose counter has already moved on, so that its compare-and-swap fails |
| `WordOrder.LooseRunAgrees` | DataStructures/LockFreeQueue.h:16-76 | the ring on 64-bit words is, in every run whose compare-and-swaps are less than 2^64 tickets late, the ring on tickets with its stamp tests made on words; the invariant holds throughout |
| `WordOrder.WordsKeepOrder` | DataStructures/LockFreeQueue.h:16-76 | so in all those runs, however stale the stamp tests, pops return the items of their tickets, each claimed push or pop is over or in the hands of its claimer, at most `capacity` tickets are out and no slot has two owners |
| `CasBound.LateCas` | DataStructures/LockFreeQueue.h:66-72 | for every capacity, a run in which the compare-and-swap of a pop, 2^64 tickets late, wins on an empty queue and the pop is about to copy an object that is not there |
| `CasBound.CasBoundIsExact` | DataStructures/LockFreeQueue.h:43-76 | in all runs on words whose compare-and-swaps are at most `bound` tickets late every construction finds raw memory and every copy and destruction an object, if and only if bound < 2^64 |
| `TicketProgress.PushRetryMeansClaim` | DataStructures/LockFreeQueue.h:46-53 | unless it fails for no reason, the compare-and-swap of a push fails if and only if tickets were claimed since its counter was read, all of them by other threads |
| `TicketProgress.PopRetryMeansClaim` | DataStructures/LockFreeQueue.h:63-70 | the same for pop |
| `TicketProgress.StepsArePaid` | DataStructures/LockFreeQueue.h:43-76 | the steps of any run, on tickets or with stamp tests made on words, are at most the work its operations had left, 7 for each call, 2 for each spurious failure and 2 a thread for each ticket claimed: nothing else makes a retry |
| `TicketProgress.PathIsRun` | DataStructures/LockFreeQueue.h:43-76 | the runs so bounded are those of the ring on tickets, and those of the ring whose tests are made on words, which `WordOrder.LooseRunAgrees` ties to the 64-bit ring |
| `TicketProgress.SomeoneClaims` | DataStructures/LockFreeQueue.h:43-76 | lock freedom: any 7n + 1 steps of operations of n threads, none of them a spurious failure, claim a ticket |
| `TicketProgress.RetriesAreBounded` | DataStructures/LockFreeQueue.h:43-76 | however they are scheduled, n threads that make m calls in all take at most (2n + 7) m steps, and 2 more for each spurious failure |
| `TicketCalls.RefusedPush` | DataStructures/LockFreeQueue.h:46-51 | in every run a push answers false only from a stamp test of its own, on a counter read since its call, that finds another stamp: the ticket is popped, or the one a lap earlier is not |
| `TicketCalls.RefusedPop` | DataStructures/LockFreeQueue.h:63-68 | likewise a pop: the push of its ticket is not over, or the one a lap later is |
| `TicketCalls.PushAlone` | DataStructures/LockFreeQueue.h:43-58 | with no other thread between claim and release, a push alone is accepted if and only if there is room, however often its compare-and-swap fails for no reason |
| `TicketCalls.PopAlone` | DataStructures/LockFreeQueue.h:60-76 | likewise a pop finds an item if and only if there is one |
| `LockFreeQueue.LockFreeQueueCpp11.constructor` | DataStructures/LockFreeQueue.h:9-25 | for every capacity asked for: from 1 to 2^63 the object starts as the wrapped image of the initial ring, with the least power of two as capacity; for 0 and above 2^63 with no cells and mask 2^64 - 1 |
| `LockFreeQueue.LockFreeQueueCpp11.CasTailCounter` | DataStructures/LockFreeQueue.h:52 | the weak compare-and-swap on 64-bit words wins exactly when the counter still reads the ticket and it does not fail spuriously; winning claims one ticket for the item |
| `LockFreeQueue.LockFreeQueueCpp11.CasHeadCounter` | DataStructures/LockFreeQueue.h:69 | the same for pop |
| `LockFreeQueue.LockFreeQueueCpp11.CopyItem` | DataStructures/LockFreeQueue.h:72 | the copy finds a constructed object, and is the step of the machine |
| `LockFreeQueue.LockFreeQueueCpp11.ReleaseTailStamp` | DataStructures/LockFreeQueue.h:74 | the release completes the pop with the item pushed under the same ticket |
| `LockFreeQueue.LockFreeQueueCpp11.Push` | DataStructures/LockFreeQueue.h:43-58 | the retry loop ends; true means exactly one ticket claimed, holding the item; false means none, and that during the call a stamp test, on a counter read during the call, found the ticket popped or the one a lap earlier not; alone and at rest, true if and only if there is room; under all interference in which no compare-and-swap is 2^64 tickets late |
| `LockFreeQueue.LockFreeQueueCpp11.Pop` | DataStructures/LockFreeQueue.h:60-76 | a result means exactly one ticket claimed and the item of the push of that ticket; none means none claimed, and that during the call a stamp test, on a counter read during the call, found the push of the ticket not over or the one a lap later over; alone and at rest, a result if and only if there is an item; under the same interference |
| `LockFreeQueue.LockFreeQueueCpp11.Teardown` | DataStructures/LockFreeQueue.h:27-33 | the destructor's loop over wrapping counters destroys each remaining object once and leaves every cell empty |
| `PipePositions.StepInv` | other/ypipe.hpp:68-176 | every access of either thread keeps front <= c or w <= f <= back, the handshake on c, and c, r, w, f on message boundaries |
| `PipePositions.RunInv` | other/ypipe.hpp:68-176 | so does every interleaving of writer and reader |
| `PipePositions.DeliveredIsPrefix` | other/ypipe.hpp:68-176 | what the reader has read is always a prefix, in write order, of the completed and published items |
| `PipePositions.StepKeepsCompleted` | other/ypipe.hpp:92-99 | no step, unwrite included, takes back or changes a completed item or a delivery |
| `PipePositions.RunKeepsCompleted` | other/ypipe.hpp:68-176 | neither does any run, so no item taken back was ever delivered |
| `PipePositions.NothingMeansDrained` | other/ypipe.hpp:141-160 | a check that looks at c reports nothing if and only if at that compare-and-swap every published item had been read, and then leaves c NULL; otherwise it leaves c alone and prefetches all that is published |
| `PipePositions.Handshake` | other/ypipe.hpp:107-161 | swaps of c to NULL equal false-path publications plus one if c is NULL now; flush's compare-and-swap fails if and only if the reader sleeps, nothing happens to c before the plain store, and the answer is false if and only if that store was used |
| `PipePositions.NoLostWakeUp` | other/ypipe.hpp:107-161 | once the reader has found nothing, nothing is published to it but by a flush that answers false, whatever the writer does |
| `PipePositions.PrefetchedMeans` | other/ypipe.hpp:141-142 | the first test passes if and only if an item is prefetched; a check then answers true at once |
| `PipePositions.CheckedMeansReadable` | other/ypipe.hpp:138-161 | in every run, after a check that answered true there is a published item to read, and it is in the queue |
| `PipePositions.WholeMessagesReadable` | other/ypipe.hpp:68-84 | once the first part of a multi-part message is readable, all parts to its end are prefetched |
| `PipePositions.ReaderKeepsWriterSide` | other/ypipe.hpp:194-211 | the reader changes none of the writer's fields |
| `PipePositions.WriterKeepsReaderSide` | other/ypipe.hpp:194-211 | the writer changes none of the reader's fields, and published items only grow |
| `ChunkPipe.ComparePositions` | other/ypipe.hpp:94-141 | two pointers into the chain are equal if and only if their positions are, for every chunk size |
| `ChunkPipe.StepCorresponds` | other/yqueue.hpp:94-170 | each access on pointers and chunks is an access on positions or invisible there; links, recycling and freeing keep the correspondence and never use dead memory |
| `ChunkGuarantees.RunCorresponds` | other/yqueue.hpp:94-170 | so is every run |
| `ChunkGuarantees.PointersRefinePositions` | other/ypipe.hpp:92-161 | although chunks are freed, reallocated and recycled, every pointer comparison of unwrite, flush and check_read is the comparison of positions |
| `ChunkGuarantees.ChunksAccountedFor` | other/yqueue.hpp:46-170 | in every run each allocated chunk is in exactly one of chain, spare, one thread's hand; none is used or freed when not allocated |
| `ChunkGuarantees.CorrespondsApart` | other/yqueue.hpp:128-170 | the links unpush follows are present and not those pop clears |
| `ChunkGuarantees.ThreadsStayApart` | other/yqueue.hpp:94-170 | in every run, for every chunk size, the two threads never meet on an element or on a `next` or `prev` link one of them writes |
| `ChunkGuarantees.UnpushFreesEnd` | other/yqueue.hpp:128-152 | stepping back across a chunk border frees exactly the chunk the end was in, which is still allocated, whatever the reader does meanwhile |
| `YPipe.YPipe.constructor` | other/ypipe.hpp:38-47 | the object starts as the empty pipe with all pointers on one element, awake, also when one element fills a chunk |
| `YPipe.YPipe.Push` | other/yqueue.hpp:94-118 | adding a chunk, with the reader moving between its accesses, changes nothing visible on positions; alone it takes the spare if there is one and else a new chunk |
| `YPipe.YPipe.Unpush` | other/yqueue.hpp:128-152 | stepping back, across a chunk border too, takes exactly the last item off and changes nothing else the writer sees, with the reader moving between its accesses |
| `YPipe.YPipe.Pop` | other/yqueue.hpp:155-170 | retiring a used-up chunk leaves the reader's side and all completed items as they were; alone, the chunk becomes the spare and the spare before it is freed |
| `YPipe.YPipe.Write` | other/ypipe.hpp:68-84 | one more item at the end of the log; flushable up to here only if complete |
| `YPipe.YPipe.Unwrite` | other/ypipe.hpp:92-99 | nothing if and only if every item is complete; otherwise the last item comes back and the log is one shorter |
| `YPipe.YPipe.WriteThenUnwrite` | other/ypipe.hpp:68-99 | writing an incomplete value and taking it back returns it and restores all writer positions, whatever the reader did meanwhile |
| `YPipe.YPipe.Flush` | other/ypipe.hpp:107-134 | everything completed is published; false if and only if this flush used the plain store |
| `YPipe.YPipe.CheckRead` | other/ypipe.hpp:138-161 | finding something means that a published item lies before r; finding nothing means everything published before the call has been read |
| `YPipe.YPipe.Check` | other/ypipe.hpp:138-161 | the whole call: true means there is an item to read, false that everything published before the call has been read |
| `YPipe.YPipe.Read` | other/ypipe.hpp:165-176 | the next item in write order, or nothing when everything published before the call has been read |
| `YPipe.YPipe.Destroy` | other/yqueue.hpp:58-74 | the destructor frees every chunk once and leaves no memory behind |
| `TurnGuarantees.StepInv` | other/LockFreeArrayQueue.h:117-261 | in a ring whose size is a power of two every access of every thread keeps the invariant that the tag of a slot tells which of its tickets are over |
| `TurnGuarantees.RunInv` | other/LockFreeArrayQueue.h:117-261 | so does every interleaving, with tickets of many laps waiting on one slot |
| `TurnGuarantees.InsideAlone` | other/LockFreeArrayQueue.h:165-172 | two threads past their waits on one slot are one thread |
| `TurnGuarantees.FirstInFirstOut` | other/LockFreeArrayQueue.h:117-261 | the pop of ticket k returns the item of the push of ticket k; claims stay within one lap; a claimed push or pop is over if and only if the one thread that claimed it no longer holds the ticket (powers of two; no other size: `TurnSizes.FirstInFirstOutIffPow2`) |
| `TurnGuarantees.ElementsAreExclusive` | other/LockFreeArrayQueue.h:165-258 | in every run at most one thread at a time is between the end of its wait and its tag store on a slot (powers of two; no other size: `TurnSizes.ExclusiveIffPow2`) |
| `TurnGuarantees.TagsTakeTurns` | other/LockFreeArrayQueue.h:159-258 | a tag only ever moves 0, i+1, -(i+1), i+max+1, ..., and only by the thread whose turn it announced |
| `TurnGuarantees.HistoryGrows` | other/LockFreeArrayQueue.h:117-261 | pushed items, claims, indices and returned values are never revised |
| `TurnGuarantees.IndicesWithinOneLap` | other/LockFreeArrayQueue.h:117-261 | for every size, in every run 0 <= writeIndex - readIndex <= max, and each index counts the tickets claimed |
| `TurnGuarantees.PushRefusal` | other/LockFreeArrayQueue.h:123-130 | for every size, Push_CAS answers false if and only if, when it loads the read index, the queue holds max tickets and none was added since its first load |
| `TurnGuarantees.PopRefusal` | other/LockFreeArrayQueue.h:214-221 | for every size, Pop_CAS answers false if and only if every ticket issued at its first load is claimed at its second |
| `TurnCalls.RefusedPush` | other/LockFreeArrayQueue.h:117-148 | for every size, in every run a push answers false only from a moment of its own call at which the queue held max tickets |
| `TurnCalls.RefusedPop` | other/LockFreeArrayQueue.h:208-240 | likewise a pop, from a moment at which every ticket it knew of was claimed |
| `TurnCalls.PushAlone` | other/LockFreeArrayQueue.h:117-148 | for every size, alone a push is refused if and only if max tickets are out |
| `TurnCalls.PopAlone` | other/LockFreeArrayQueue.h:208-240 | likewise a pop if and only if none is |
| `TurnGuarantees.PopTakeInv` | other/LockFreeArrayQueue.h:257 | the element taken is there and is the item pushed under the ticket |
| `TurnSizes.Collide` | other/LockFreeArrayQueue.h:159-172 | for every other size of at least 2, a run in which tickets 0 and the lowest zero bit of the mask, of one lap, are both past their waits on slot 0 |
| `TurnSizes.LoseItem` | other/LockFreeArrayQueue.h:117-261 | for every other size, a run in which the item of an accepted push is overwritten and its pop returns another |
| `TurnSizes.ExclusiveIffPow2` | other/LockFreeArrayQueue.h:117-319 | in all runs of all numbers of threads no two threads are past their waits on one element, if and only if the size is a power of two |
| `TurnSizes.FirstInFirstOutIffPow2` | other/LockFreeArrayQueue.h:117-319 | in all runs every pop returns the item pushed under its ticket, if and only if the size is a power of two |
| `TurnSizes.DefaultSizeLosesItem` | other/LockFreeArrayQueue.h:18 | with the default size there is a run of two threads in which ticket 0 was pushed with one item and popped with another |
| `TurnProgress.PushWaitsForPop` | other/LockFreeArrayQueue.h:159-169 | a push whose tag is not in place waits for the claimed, unfinished pop one lap earlier |
| `TurnProgress.PopWaitsForPush` | other/LockFreeArrayQueue.h:249-255 | a pop whose tag is not in place waits for the unfinished push of its ticket |
| `TurnProgress.SomePusherMoves` | other/LockFreeArrayQueue.h:157-172 | behind every unfinished push, down the order push k, pop k, push k + max, stands a thread that can move, with a ticket no later than k |
| `TurnProgress.SomePopperMoves` | other/LockFreeArrayQueue.h:247-258 | likewise behind every unfinished pop |
| `TurnProgress.TicketsCanFinish` | other/LockFreeArrayQueue.h:157-258 | from every reachable state a schedule of ticket holders' steps only, no more than they owe, finishes every claimed ticket and claims none |
| `TurnProgress.HungForEver` | other/LockFreeArrayQueue.h:160-169 | a first-lap push that finds a tag in its slot waits for ever, whatever any thread does |
| `TurnProgress.OtherSizesHang` | other/LockFreeArrayQueue.h:316-319 | for every size of at least 2 that is no power of two there is a run, every step of it by thread 0, after which that thread's push waits for ever |
| `TurnProgress.DeadlockFreeIffPow2` | other/LockFreeArrayQueue.h:117-319 | in all runs of all numbers of threads some ticket holder can move, if and only if the size is a power of two |
| `TurnProgress.DefaultSizeHangs` | other/LockFreeArrayQueue.h:18 | with the default size there is a run, every step of it by thread 0, whose second push waits for ever |
| `TurnFairness.FairRoundsFinish` | other/LockFreeArrayQueue.h:157-258 | once every thread has moved in as many rounds as steps were owed, every ticket claimed at the start is over, its pop with its item, whatever order the rounds take and whatever new calls are made |
| `TurnFairness.FairRunsFinishIffPow2` | other/LockFreeArrayQueue.h:117-319 | fair rounds finish every claimed ticket in all runs of all numbers of threads if and only if the size is a power of two |
| `TurnProgress.SoloPush` | other/LockFreeArrayQueue.h:117-175 | a push that finds room and its tag in place takes seven steps and never spins |
| `TurnProgress.SoloPop` | other/LockFreeArrayQueue.h:208-261 | likewise a pop |
| `LockMode.LockCallIsFifo` | other/LockFreeArrayQueue.h:177-279 | a call under the mutex answers and changes the queue as a bounded queue does (powers of two; no other size: `LockModeIsFifoIffPow2`) |
| `LockMode.LockModeIsFifoIffPow2` | other/LockFreeArrayQueue.h:177-319 | lock mode answers every sequence of calls like a bounded queue if and only if the size is a power of two |
| `LockMode.LockCallCounts` | other/LockFreeArrayQueue.h:177-279 | for every size, in lock mode a push is accepted if and only if fewer than max items are in and changes its slot alone; a pop answers with the slot of the next ticket and empties that alone |
| `LockMode.SettledTags` | other/LockFreeArrayQueue.h:159-255 | with every ticket finished both ends' tags are those the next push and pop wait for |
| `LockMode.AloneAgrees` | other/LockFreeArrayQueue.h:104-279 | from any state with every ticket finished, a compare-and-swap call run alone answers and changes the queue exactly as the locked one |
| `LockMode.AloneIsFifoIffPow2` | other/LockFreeArrayQueue.h:104-319 | calls that do not overlap, by whatever threads, each answer within their own seven steps and like a bounded queue, if and only if the size is a power of two |
| `ArrayQueue.LockFreeArrayQueue.constructor` | other/LockFreeArrayQueue.h:34-66 | for every size and either mode: 0 and 1 get the code -2 and indices -1; otherwise a new queue is empty with tags zero, and for powers of two keeps the invariant |
| `ArrayQueue.LockFreeArrayQueue.PushLocked` | other/LockFreeArrayQueue.h:177-193 | for every size the machine's locked push; for powers of two accepted if and only if fewer than max items, and then the item is last |
| `ArrayQueue.LockFreeArrayQueue.PopLocked` | other/LockFreeArrayQueue.h:263-279 | for every size the machine's locked pop; for powers of two the first item, removed, and nothing if and only if empty |
| `ArrayQueue.LockFreeArrayQueue.CasWriteIndex` | other/LockFreeArrayQueue.h:137 | for every size: wins exactly when the index is unchanged, and then claims one ticket for the item |
| `ArrayQueue.LockFreeArrayQueue.CasReadIndex` | other/LockFreeArrayQueue.h:228 | for every size: wins exactly when the index is unchanged, and then claims one ticket |
| `ArrayQueue.LockFreeArrayQueue.TestTagToPush` | other/LockFreeArrayQueue.h:159-169 | for every size: passes exactly when the awaited tag is there; for powers of two it is there when no other thread holds a ticket |
| `ArrayQueue.LockFreeArrayQueue.TestTagToPop` | other/LockFreeArrayQueue.h:249-255 | likewise for pop |
| `ArrayQueue.LockFreeArrayQueue.PushByCas` | other/LockFreeArrayQueue.h:117-175 | for every size: completed, one ticket claimed, holding the item; rejected, none, and at a moment of the call max tickets were out; still waiting, one, its tag not in place when the whole interference is over; alone, rejected if and only if max tickets are out; for powers of two never waiting alone |
| `ArrayQueue.LockFreeArrayQueue.PopByCas` | other/LockFreeArrayQueue.h:208-261 | for every size: completed, one ticket claimed and a value returned under it; rejected, none, and at a moment of the call all tickets it knew of were claimed; still waiting, one, its tag not in place when the whole interference is over; alone, rejected if and only if no ticket is out; for powers of two the value is the item of the push of that ticket, its element is never found moved out, and a lone call never waits |
| `TwoLockGuarantees.StepInv` | DataStructures/ThreadSafeQueue.h:48-151 | every lock, node and pointer access of every thread keeps chain, locks, private nodes and tickets in order |
| `TwoLockGuarantees.RunInv` | DataStructures/ThreadSafeQueue.h:48-151 | so does every interleaving of pushers, trying and waiting poppers and emptiness tests |
| `TwoLockGuarantees.NothingLost` | DataStructures/ThreadSafeQueue.h:48-146 | items pushed are those taken, in order, followed by what walking the links finds; the k-th node unlinked gave its taker the k-th item, or is still in its hands; no freed node is used |
| `TwoLockGuarantees.ThreadsNeverMeet` | DataStructures/ThreadSafeQueue.h:52-109 | a node one thread is about to use is allocated and no other thread is about to use it, pusher and popper alike |
| `TwoLockGuarantees.EmptyAtGetTail` | DataStructures/ThreadSafeQueue.h:78-115 | "empty" is answered if and only if the queue was empty when the tail was read under its mutex, however many pushes complete before the comparison |
| `TwoLockGuarantees.NothingLeaks` | DataStructures/ThreadSafeQueue.h:154-156 | after any run, with no operation under way, destroying the head frees every node ever allocated |
| `TwoLockGuarantees.SomeoneMoves` | DataStructures/ThreadSafeQueue.h:53-113 | the two mutexes never deadlock: some thread in an operation can always take its next step |
| `TwoLockCalls.TryPopAnswers` | DataStructures/ThreadSafeQueue.h:77-102 | in every run `try_pop` answers nothing if and only if the queue was empty when it read the tail under its mutex, and then took nothing; otherwise it took exactly one item, in its turn, and answers that item |
| `TwoLockCalls.WaitAndPopAnswers` | DataStructures/ThreadSafeQueue.h:117-146 | `wait_and_pop` answers, if it does, with the one item it took and never with nothing |
| `TwoLockCalls.EmptyAnswers` | DataStructures/ThreadSafeQueue.h:149-152 | `empty` answers what was so when it read the tail under its mutex, and takes nothing |
| `TwoLockCalls.PushAnswers` | DataStructures/ThreadSafeQueue.h:48-74 | `push` returns after a step at which its item became the last |
| `TwoLockCalls.CallEnds` | DataStructures/ThreadSafeQueue.h:48-152 | however the others move, a call under way ends as what it has seen so far says |
| `ThreadSafeQueue.ThreadSafeQueue.constructor` | DataStructures/ThreadSafeQueue.h:45 | a new queue is one empty node |
| `ThreadSafeQueue.ThreadSafeQueue.Push` | DataStructures/ThreadSafeQueue.h:48-59 | the item becomes the last, in the node that was empty; one new empty node follows |
| `ThreadSafeQueue.ThreadSafeQueue.PopHead` | DataStructures/ThreadSafeQueue.h:105-109 | the first node leaves the chain, holding its item and owning nothing |
| `ThreadSafeQueue.ThreadSafeQueue.TryPop` | DataStructures/ThreadSafeQueue.h:93-96 | the first item, removed; nothing if and only if empty |
| `ThreadSafeQueue.ThreadSafeQueue.TryPopInto` | DataStructures/ThreadSafeQueue.h:84-102 | likewise, leaving the caller's value alone when empty |
| `ThreadSafeQueue.ThreadSafeQueue.Empty` | DataStructures/ThreadSafeQueue.h:149-152 | true if and only if the queue holds no item |
| `TimerRuns.InsertSorted` | DataStructures/timer.cpp:26-46 | inserting a node with a new id keeps the set in strict order and adds that node alone |
| `TimerRuns.EraseSorted` | DataStructures/timer.cpp:50-56 | erasing removes that node alone |
| `TimerRuns.CallbackAccounted` | DataStructures/timer.cpp:62 | whatever a callback adds and deletes, itself again included, the running node stays in the set until it is erased |
| `TimerRuns.CallbackExact` | DataStructures/timer.cpp:43-62 | after a callback exactly those timers are pending that were before or that it added, with the deadline from the clock as it then read, and that no later command of it deleted; those it deleted are deleted; it faults if and only if it deletes its own node |
| `TimerRuns.CheckExact` | DataStructures/timer.cpp:59-67 | a check fires the earliest timer if it is due and no other; it alone leaves the set, beside what its callback deletes; otherwise nothing changes |
| `TimerRuns.CallsAreExact` | DataStructures/timer.cpp:43-57 | an addition makes one new timer with its deadline, a deletion removes the one timer it names |
| `TimerRuns.DeletedNeverFires` | DataStructures/timer.cpp:43-67 | in every run a timer deleted by a call or by a callback never fires afterwards |
| `TimerRuns.RunContinues` | DataStructures/timer.cpp:43-67 | nothing fired or deleted is ever revised, and no pending timer is lost |
| `TimerRuns.EveryTimerAccounted` | DataStructures/timer.cpp:43-67 | for every clock, delay and callback: each timer ever added is in exactly one of pending, fired, deleted; none fires twice or before its deadline |
| `TimerRuns.FiresInOrderIffPatient` | DataStructures/timer.cpp:26-67 | with a clock that never goes back, timers fire in strictly increasing (deadline, id) in all runs, whatever the callbacks, with delays at least d if and only if d >= 0 |
| `TimerRuns.CheckInOrder` | DataStructures/timer.cpp:59-67 | a check, its callback included, keeps everything pending after the last timer fired |
| `TimerRuns.DrainedLeavesFuture` | DataStructures/timer.cpp:59-67 | a check answers true if and only if some timer is due; answering false it leaves only timers that expire later |
| `TimerDrain.CheckTotal` | DataStructures/timer.cpp:98 | a timer that fires takes away more than its callback adds, when each callback can be given a cost above that of the timers it adds |
| `TimerDrain.AffordedDrains` | DataStructures/timer.cpp:98 | then the drain loop ends, whatever the clock does |
| `TimerDrain.DrainEndsIff` | DataStructures/timer.cpp:59-98 | for every clock that never goes back and every d: the drain loop ends after all runs, whatever the callbacks do and add again, with delays at least d if and only if d > 0 and the clock is bounded |
| `TimerRuns.SleepIsExact` | DataStructures/timer.cpp:69-75 | -1 if nothing is pending; otherwise at least 0, a timer is due after that time and none before, and 0 if and only if one is due now |
| `Timers.Timer.AddTimer` | DataStructures/timer.cpp:43-48 | the returned deadline and id name a node now pending whose id was never used before |
| `Timers.Timer.DelTimer` | DataStructures/timer.cpp:50-57 | true if and only if the node was pending; then it is neither pending nor fired |
| `Timers.Timer.RunCallback` | DataStructures/timer.cpp:62 | the commands of the callback run one by one with the running node still in the set; afterwards exactly those timers are pending that it did not delete, its own additions included |
| `Timers.Timer.CheckTimer` | DataStructures/timer.cpp:59-67 | the object's check is the specified one: it fires the first timer and leaves exactly what its callback keeps |
| `Timers.Timer.Drain` | DataStructures/timer.cpp:98 | where the drain loop ends it stops after the check that answered false, with no timer left that was due at the last tick read; order of firing is kept |
| `Timers.Timer.TimeToSleep` | DataStructures/timer.cpp:69-75 | with timers pending at least 0, waiting the answer makes a timer due and no shorter wait does; 0 if and only if one is due; -1 if none is pending |

## Left out

- Weak memory: relaxed, acquire and release orders, the plain `long long` tags and the inline assembly are taken as sequentially consistent single accesses; `xchg` and `cas` (other/atomic_ptr.hpp:83-131) are single steps.
- Spurious refusals of `LockFreeQueueCpp11` and of `Pop_CAS` are stated as they are: "false" is tied to full or empty only where the rows above say so.
- LockFreeQueue.LockFreeQueueCpp11.Push: asks that the threads' lags plus the length of the interference stay below 2^64, so that no compare-and-swap takes a counter for one 2^64 tickets later; it also asks for the capacity of 1 to 2^63 that the constructor makes usable.
- LockFreeQueue.LockFreeQueueCpp11.Pop: asks the same as `Push`.
- LockFreeQueue.LockFreeQueueCpp11.CasTailCounter: asks that the copy of the counter is less than 2^64 tickets old; what one that old does is `CasBound.CasBoundIsExact`.
- LockFreeQueue.LockFreeQueueCpp11.CasHeadCounter: asks the same, and `CasBound.LateCas` is the run in which it is not so.
- TurnGuarantees.FirstInFirstOut: asks for a power of two, outside of which `TurnSizes.FirstInFirstOutIffPow2` shows it false; signed 64-bit overflow of the two indices is not modelled, and the strong compare-and-swap selected at other/LockFreeArrayQueue.h:13 is the one modelled.
- TurnGuarantees.ElementsAreExclusive: asks for a power of two, outside of which `TurnSizes.ExclusiveIffPow2` shows it false.
- LockMode.LockCallIsFifo: asks for a power of two, outside of which `LockMode.LockModeIsFifoIffPow2` shows it false.
- ArrayQueue.LockFreeArrayQueue.PushByCas: the object is followed for as long as the given interference lasts; that the spin loop ends under fair scheduling is `TurnFairness.FairRunsFinishIffPow2` on the machine.
- LockMode.LockCallCounts: in sizes that are no power of two a pop may find the element of its ticket moved out; it then answers `Popped(None)`, where the program returns true with the moved-from value.
- ArrayQueue.LockFreeArrayQueue.PopByCas: in sizes that are no power of two a pop may find its element moved out by another; it stops there (`MovedOut`), where the program returns the moved-from value.
- ThreadSafeQueue.ThreadSafeQueue.Push: the object runs each operation to the end; overlapping operations are the subject of `TwoLockGuarantees`.
- TwoLockGuarantees.SomeoneMoves: waiting on the condition variable is modelled as trying again; the notification at DataStructures/ThreadSafeQueue.h:58 is not tied to the mutex under which the waiter tests, and whether a wake-up can be missed is not part of this model.
- Timers.Timer.Drain: asks that the loop ends, which `TimerDrain.DrainEndsIff` decides.
- TimerRuns.EveryTimerAccounted: a callback that deletes its own node makes the program erase a dead iterator, which has no meaning; a run stops there (`fault`), before the second erase. A callback that itself calls `checkTimer` is not modelled.
- `ypipe_t::probe` calls a user function on the front element; its `check_read` is modelled, the call is not.
- Allocation failure, `Clear`, `Size`, `GetCASFunction`, moving and copying of the C++ objects, and `int64` overflow of timer ids.
- DataStructures/LockFreePipe.h and DataStructures/DataChunkQueue.h rework `ypipe_t` and `yqueue_t`; the versions under other/ are modelled.
- DataStructures/BlockQueue.h and ThreadPool.h (one mutex around a container), ThreadSafeShared_ptr.h (a reference count), LockFreeStack.h (commented out), ThreadSafeHashmap.cpp (empty), the test programs, epoll and printing.
- `MultipleLock` and the lock-free mode type are declared in headers that are not part of this model; the lock is taken as a plain mutex.
