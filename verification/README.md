# A verified model of TAMPI's delegation engine

Task-Aware MPI lets the tasks of a program call MPI without holding a CPU. A user task
turns its call into an *operation*, pushes it to a pre-queue and either blocks or binds an
event. One polling task takes operations from the pre-queues, issues them as non-blocking
MPI calls, keeps the pending requests in parallel arrays, tests them, stores their statuses
and releases the user tasks, itself or through a completion task.

This project models that engine in Dafny and proves what it promises over every input, every
interleaving and every run: each operation is issued once, released once and given back once;
the status a task sees is the one MPI reported for its own request, and it is there before
the task is released; the arrays stay compact and in bounds; the queues, the lock and the
allocator lose nothing; the polling terminates and finds what has finished.

`dafny verify dfyconfig.toml` checks everything.

## How it is organised

| file | what it models |
|---|---|
| `TicketManager.dfy` | the `TicketManager` class: the poll, the sweep over the pre-queues, runs of polls |
| `PreQueues.dfy` | the pre-queues as the manager sees them, and the trace of arrivals and effects |
| `Refinement.dfy` | the ticket manager as the polling task of the protocol, woven with all other tasks |
| `Transfer.dfy` | the phases of `transferOperations` |
| `Checking.dfy` | the slices of `internalCheckRequests` |
| `Completion.dfy` | storing a status, then releasing or handing over |
| `World.dfy` | the record of all effects, and the invariant that ties it to the arrays |
| `Internals.dfy` | the parallel arrays and the "smart replacement" |
| `Testing.dfy`, `Mpi.dfy` | the three ways of testing, over MPI as an oracle |
| `MultiQueue.dfy`, `Ring.dfy`, `Sums.dfy` | the per-CPU rings: fair pops while producers push, and micro-steps |
| `BoostQueue.dfy` | the collective pre-queue and its two ways to push |
| `SpinLock.dfy` | the ticket-array spinlock, as micro-steps of any number of threads |
| `Allocator.dfy` | the object allocator and its per-CPU stacks |
| `Protocol.dfy` | user tasks, polling task and completion task as interleaved steps |
| `Release.dfy` | over all runs of the protocol: whom a release releases, and that nothing is stranded |
| `CapacityCtrl.dfy`, `SlowStart.dfy` | the two controllers, over whole runs |
| `PollingLifecycle.dfy` | registering, stopping and deleting a polling instance |
| `Basics.dfy`, `Arith.dfy` | shared definitions and arithmetic |

Sequential algorithms are classes and methods over arrays with loops. Concurrent ones are
step relations over a state, with the invariants proved for every run.

In the ticket manager every effect (an MPI call, a status written to user memory, a ticket
copied to a slot, a release or its hand-over, an object given back) is appended to a log.
`World.Inv` says when a log is right and where every operation is; it holds at every point
of the code, with the operations that the running call has in its hands as a parameter. Each
method of the manager extends the log and keeps `World.Inv`. The manager's trace is the log with
the arrivals of operations in between. `Refinement` weaves this trace with steps of user tasks
and of the completion task, in any interleaving: an issue in the trace is a pop and an issue of
`Protocol`, a release is a completion and a signal, and giving back objects is `FreeBatch`. Every
weave is a run of `Protocol` with the issues and releases of the log, in order, and the polling
task can always make the steps of the next event. So the two levels speak about the same runs,
also when a task released in a poll goes on and pushes an operation that the same poll issues.

## Assumptions

- Memory is sequentially consistent; the micro-steps of `SpinLock`, `Ring`, `Protocol` and
  `PollingLifecycle` are the atomic accesses of the source.
- One task runs per logical CPU and there is no scheduling point between reading the CPU
  number and using the structure of that CPU.
- Counters and tickets do not wrap around.
- `ErrorHandler::fail` ends the run.
- `MPI_Testsome` returns its indices in ascending order. Section 3.7.5 of MPI 3.0 does not
  say so, and the compaction relies on it. For `MPI_Test` and `MPI_Testany` the order is
  proved (`Testing.TestEach`, `Testing.TestAnyAll`).
- In `TicketManager` a pre-queue gives up as many operations as wanted or all that have arrived,
  those of one ring in the order of their arrival; any operations may arrive before each pop.
  That the multi-queue does this while producers push is proved in `MultiQueue`. In `Refinement`
  a user task may push at any moment, also within a transfer; its operation arrives at a later
  pop. An operation counts as popped there when it is issued.
- A hand-over to a full completion queue ends the run (src/common/CompletionManager.hpp:44-49).
- MPI decides which issues it answers with the null request (`nullRequest` in the catalogue
  of operations) and which requests have finished (`finished`, a set that a poll is given).

## What the proofs found

- **Null requests lose the status.** When issuing an operation returns the null request, its
  task is released and no status is ever stored, although the interface promises it
  (src/common/OperationManager.hpp:44-46). `TicketManager.NullRequestLosesStatus` runs the
  manager on such an operation, and `World.StatusIffRequested` is the exact condition.
- **A minimum capacity of 0 never issues anything.** Doubling 0 gives 0, so queued operations
  are issued in the end if and only if the capacity is positive
  (`CapacityCtrl.SettlesIffPositive`, `CapacityCtrl.CanGrowIffPositive`).
- **A maximum polling period below 10 breaks the controller's assertions.** They hold in
  every run if and only if the maximum is at least `MinBase`
  (`SlowStart.AssertionsHoldIffMaxAtLeastBase`).
- **MPI_Testany may pass over finished requests** (`Testing.AnyPassesOver`), so a single test
  call does not find all of them; the loop of `checkRequests` does, because it goes on until
  nothing completes.
- **A pending operation's object is given back before its release.** The objects of a
  batch are freed while its pending operations wait; this is safe because their tickets were
  copied to the arrays first (`World.LifeInOrder`).

## Model

| member | source | states |
|---|---|---|
| `TicketManager.Manager.CheckRequests` | src/common/TicketManager.hpp:125-149 | A poll terminates by the measure (queued, pending) even while operations are being pushed. It ends with the requests at the capacity or both pre-queues found empty, and no request that MPI had finished is left pending; with capacity 0 nothing is popped. The returned count is exactly the number of operations released in the poll that had got a slot before, and the others released are exactly those that never had one, which without immediate testing are those with the null request; the capacity is then evaluated once, with that count. |
| `TicketManager.Manager.PollAll` | src/common/TicketManager.hpp:125-149 | A run of polls at any times: issues and releases add up, the returned counts add up to the releases of operations that had a slot, no operation is lost, and as long as nothing completes and nothing more is pushed it is the run over which the capacity theorems speak. |
| `TicketManager.Manager.PollUntilIssued` | src/common/TicketManager.hpp:132-146 | With a positive capacity, two lapses of the timeout per doubling are enough, with any number of polls in between: if nothing completes, every queued operation is issued or the maximum is full. |
| `TicketManager.Manager.Round` | src/common/TicketManager.hpp:132-142 | One iteration inserts 128 operations, or as many as there is room for, or finds the queues empty; if nothing completed, no pending request has finished. |
| `TicketManager.Manager.InternalCheckRequests` | src/common/TicketManager.hpp:238-311 | Keeps the manager's invariant; pending drops by exactly the number of releases, all of them of operations that had a slot; a call that completes nothing leaves no finished request. |
| `TicketManager.Manager.InternalCheckOperationQueues` | src/common/TicketManager.hpp:314-342 | Never exceeds the capacity; ends with the allowance used up or both queues empty. |
| `TicketManager.Manager.constructor` | src/common/TicketManager.hpp:93-102 | The manager starts in its invariant: nothing pending, nothing recorded, nothing waiting, capacity as configured. |
| `TicketManager.CheckOperationQueues` | src/common/TicketManager.hpp:314-342 | With the allowance fixed once, every transfer stays within the capacity of the moment; popped operations are the issued ones, and none is lost. |
| `TicketManager.TransferBatch` | src/common/TicketManager.hpp:348-349 | What the method asserts, at most 64 operations and pending + count within the current capacity, is its precondition and holds at every call. |
| `TicketManager.NullRequestLosesStatus` | src/common/TicketManager.hpp:377-383 | The input on which the promise of a status fails: one operation that is added, wants a status and gets the null request is released by a poll, and no status is stored. |
| `TicketManager.TransferKind` | src/common/TicketManager.hpp:325-338 | What one pop gives, at most 64 operations of the kind, is issued in order; fewer than wanted means the queue was found empty. |
| `TicketManager.TransferBoth` | src/common/TicketManager.hpp:324-339 | One round issues a batch of point-to-point operations and then one of collectives, each of at most 64, and releases only operations that never had a slot. |
| `TicketManager.Manager.Rounds` | src/common/TicketManager.hpp:132-141 | The loop of a poll: the measure falls in every iteration that goes on; the count is that of the releases of operations that had a slot; at the end no finished request is left and nothing more fits or waits. |
| `TicketManager.Manager.AddOperation` | src/common/TicketManager.hpp:151-164 | The operation goes behind the others of its ring, and the manager's invariant and trace account for it. |
| `PreQueues.Pop` | src/common/util/MultiLockFreeQueue.hpp:162-174 | A pre-queue gives as many operations as wanted or all that have arrived; from every ring a prefix, in order, and the rest of the ring stays. |
| `PreQueues.ArriveSome` | src/common/TicketManager.hpp:151-164 | Any operations of one kind arrive in any order before a pop; none is lost, and the trace records them. |
| `PreQueues.TransferTraced` | src/common/TicketManager.hpp:325-338 | A transfer that issues the popped batch in order keeps the account of the trace: in every ring, at every moment, what was issued and then what waits is what arrived, in order. |
| `PreQueues.IssuedInOrderOfArrival` | src/common/TicketManager.hpp:314-342 | Of two operations that arrived in one ring, the second has been issued at some moment of a run only if the first has. |
| `TicketManager.PollFillsRoom` | src/common/TicketManager.hpp:132-146 | If nothing completes and nothing more is pushed, a poll is exactly one step of the run over which `CapacityCtrl.IssuedOrAtMaximum` proves progress; `PollAll` composes them. |
| `Transfer.TransferOperations` | src/common/TicketManager.hpp:346-437 | The operations of the batch are issued once each, in the order of the batch, and their objects given back once; each is released, or appended once with its own request and a copy of its own ticket; pending grows by the batch minus the releases, which are those with the null request and those found by the test, none of which ever had a slot. No appended request has finished if the test finds everything (MPI_Test, MPI_Testsome) or finds nothing. |
| `Transfer.Transferred` | src/common/TicketManager.hpp:346-437 | The phases together: issues, releases and known operations of the whole transfer. |
| `Transfer.IssueAll` | src/common/TicketManager.hpp:368-384 | Every entry is noted exactly once, with its request or, if that is null, as completed; all issued requests are active and different. |
| `Transfer.TestBatch` | src/common/TicketManager.hpp:386-389 | Only active requests are tested; the completed ones are set to null and reported. |
| `Transfer.FilterCompleted` | src/common/TicketManager.hpp:391-402 | The status stored for a ticket is the one reported for its own request, through both index arrays; the entry moves from the requests to the completed. |
| `Transfer.ReleaseCompleted` | src/common/TicketManager.hpp:404-421 | Every completed ticket is released exactly once, directly or by hand-over, after its status. |
| `Transfer.AppendPending` | src/common/TicketManager.hpp:423-433 | The entries that are left, and only they, get the next slots in order. |
| `Transfer.FreeAll` | src/common/TicketManager.hpp:435-436 | Every object of the batch is given back once, after its operation has left the batch. |
| `Transfer.SplitMoved` | src/common/TicketManager.hpp:400-401 | Moving an entry between the index arrays keeps the one-to-one correspondence between entries and places. |
| `Transfer.CompletingDistinct` | src/common/TicketManager.hpp:391-414 | No entry is completed twice. |
| `Transfer.MovingStarts` | src/common/TicketManager.hpp:391-426 | After the releases the entries left in `req2entry` are exactly the unreleased operations, each with its own still active request. |
| `Transfer.ClearedCount` | src/common/TicketManager.hpp:391-427 | As many entries are appended as there were requests minus completions. |
| `Checking.CheckRequests` | src/common/TicketManager.hpp:238-311 | All slices, the processing and the compaction together keep the invariant; completed requests are released once and all others stay pending. |
| `Checking.CheckSlices` | src/common/TicketManager.hpp:251-285 | Slices of 64 cover [0, pending); the accumulated indices are ascending and are exactly the slots that completed. |
| `Checking.TestSlice` | src/common/TicketManager.hpp:253-258 | Every request of the slice is active, so no test call sees only inactive ones; the rest of the arrays is untouched. |
| `Checking.ProcessEntry` | src/common/TicketManager.hpp:260-279 | With the offset of the slice, the status reported for the request at an index reaches the ticket mapped at that slot, before the release. |
| `Checking.ProcessSlice` | src/common/TicketManager.hpp:260-282 | All completions of a slice are stored and released once, in both modes. |
| `Checking.SliceProcessing` | src/common/TicketManager.hpp:256-269 | What a slice test reports belongs to the operations of those slots. |
| `Checking.CompactKeeps` | src/common/TicketManager.hpp:287-308 | Compaction restores the state between calls. |
| `Completion.StoreStatus` | src/common/Ticket.hpp:95-113 | The status goes to the place the user gave, unless it is ignored. |
| `Completion.TransferContexts` | src/common/CompletionManager.hpp:44-49 | Every context of a batch is handed over once, in order. |
| `Completion.StoreNext` | src/common/TicketManager.hpp:268-269 | Storing the status of a completed operation makes its task releasable and disturbs no other operation. |
| `Completion.SignalNext` | src/common/TicketManager.hpp:271-278 | Releasing a releasable task keeps the record right and takes the operation out of the call's hands. |
| `World.LifeInOrder` | src/common/TicketManager.hpp:346-437 | Everything about an operation comes after its issue; no status after the release; only a pending operation gets a slot; the object is given back after the release or after the ticket was copied, and only then can something follow. |
| `World.NothingLostNothingTwice` | src/common/TicketManager.hpp:344-437 | Between calls each operation was issued once and given back once, and it was released once if and only if it is in no slot; it is never in two. |
| `World.StatusBeforeRelease` | src/common/TicketManager.hpp:386-421 | For every release of an operation with a request and a wanted status, the status that MPI reported for that request was stored earlier, at the user's place. |
| `World.StatusIffRequested` | src/common/TicketManager.hpp:375-402 | A released operation that wants a status has got one if and only if MPI does not answer its issue with the null request. |
| `World.NullIsReleased` | src/common/TicketManager.hpp:377-421 | Between calls an operation with the null request has been released. |
| `World.FinishedAreReleased` | src/common/TicketManager.hpp:112-124 | After a poll every operation whose request had finished has been released. |
| `World.ReleasesItsTask` | src/common/Ticket.hpp:50-60 | Every release is that of the task which made the operation, and in its mode: unblocking for a blocking operation, an event less for the others; it is handed to the completion task if and only if there is one. |
| `World.StoredWhereWanted` | src/common/Ticket.hpp:50-60 | A status is stored only for a point-to-point operation whose user wants one, at the place the user gave; never for a collective. |
| `World.ReleasedAtOnce` | src/common/TicketManager.hpp:404-421 | What a transfer releases never had a slot. |
| `World.ReleasedLater` | src/common/TicketManager.hpp:238-311 | What a check of the requests releases had a slot. |
| `World.LiveRequests` | src/common/TicketManager.hpp:256-258 | In every reachable state the requests of slots in use are active and different. |
| `World.IssueKeeps` | src/common/TicketManager.hpp:376-383 | Issuing keeps the invariant. |
| `World.StoreKeeps` | src/common/Ticket.hpp:105-113 | Storing the reported status keeps the invariant. |
| `World.SignalKeeps` | src/common/Ticket.hpp:71-74 | A release keeps the invariant. |
| `World.FreeKeeps` | src/common/TicketManager.hpp:435-436 | Giving an object back keeps the invariant. |
| `World.ReportKeeps` | src/common/Interface.hpp:164-216 | A report about requests in the call's hands disturbs no slot. |
| `World.DetachPlaced` | src/common/TicketManager.hpp:256-269 | Completed slots leave the arrays' charge and all others stay. |
| `World.AppendKeeps` | src/common/TicketManager.hpp:429-432 | Copying a pending operation to a slot keeps the invariant. |
| `World.AppendPlaced` | src/common/TicketManager.hpp:429-432 | An appended operation is in exactly one slot. |
| `World.CompactPlaced` | src/common/TicketManager.hpp:287-308 | Compaction keeps every pending operation in exactly one slot. |
| `Internals.Arrays.Compact` | src/common/TicketManager.hpp:287-308 | For any ascending set of completed indices the first pending - completed slots hold exactly the surviving rows, each once. |
| `Internals.LoopEnds` | src/common/TicketManager.hpp:287-308 | Survivors below the new length stay where they are, holes are filled from above, and nothing survives twice or is lost. |
| `Internals.ReverseInRange` | src/common/TicketManager.hpp:295-298 | The index that runs backwards over the holes never underflows when it is read. |
| `Internals.FillHole` | src/common/TicketManager.hpp:304-307 | Every move goes from a survivor that has not moved to a hole. |
| `Internals.SkipHole` | src/common/TicketManager.hpp:297-302 | Skipping a hole at the end keeps the counters of the loop right. |
| `Internals.Arrays.FindReplacement` | src/common/TicketManager.hpp:294-302 | The inner loop finds the highest survivor above the hole, or there is none. |
| `Internals.Arrays.MoveRequest` | src/common/TicketManagerInternals.hpp:207-217 | A ticket that lives in the source slot moves along and the mapping of the destination points to the copy; otherwise the mapping is shared. |
| `Internals.Arrays.MoveRow` | src/common/TicketManagerInternals.hpp:207-217 | Moving a slot keeps every slot mapped to the ticket in itself. |
| `Internals.Arrays.Append` | src/common/TicketManager.hpp:429-432 | A ticket copy and its request become the next row. |
| `Internals.Arrays.AllocateTicket` | src/common/TicketManagerInternals.hpp:183-188 | The slot holds the copy and its address is returned. |
| `Internals.Arrays.AssociateRequest` | src/common/TicketManagerInternals.hpp:196-201 | Request and mapping of one slot are set and no other. |
| `Checking.GetTicket` | src/common/TicketManagerInternals.hpp:160-175 | The mapping of a slot leads to the ticket and position of its row. |
| `Testing.TestRequests` | src/common/TicketManager.hpp:172-197 | Whatever the approach: ascending indices of active requests, each with the status reported for it, nulled handles, nothing else changed; the "Unexpected output" aborts are unreachable; if nothing completes, nothing had finished. |
| `Testing.TestEach` | src/common/TicketManager.hpp:190-194 | The same for MPI_Test one by one, which finds every finished request. |
| `Testing.AnyPassesOver` | src/common/TicketManager.hpp:179-189 | A call and a loop that leave a finished request unreported. |
| `Testing.TestAnyAll` | src/common/TicketManager.hpp:179-189 | The same for repeated MPI_Testany, with the running offset. |
| `Mpi.Testsome` | src/common/Interface.hpp:203-216 | Oracle: any ascending choice of active requests that contains the finished ones; it aborts if and only if all are inactive. |
| `Mpi.Testany` | src/common/Interface.hpp:187-200 | Oracle: one active request or none; it aborts if and only if all are inactive. |
| `Mpi.Test` | src/common/Interface.hpp:165-173 | Oracle: completes the request or leaves it. |
| `Mpi.ReportedAt` | src/common/TicketManager.hpp:172-197 | Reports add exactly the chosen requests with their statuses and change no earlier report. |
| `Mpi.StillActive` | src/common/TicketManager.hpp:172-197 | Requests that were not chosen are still active and still different. |
| `MultiQueue.Queue.CyclicRoundRobinPop` | src/common/util/MultiLockFreeQueue.hpp:162-212 | While producers push, returns exactly min(n, refreshed total), which lies between what waited at the call and what waited when the counters had been read; the shares are a water-filling of the cached counters; each queue loses exactly its share from the front, delivered in order from the current queue on. The counters fall by exactly the shares, and the next pop starts behind the last queue that gave the most. |
| `MultiQueue.Queue.BlockRoundRobinPop` | src/common/util/MultiLockFreeQueue.hpp:214-242 | While producers push, returns the same count as the cyclic pop; drains what is cached of one queue before the next; each queue loses a prefix, in order; terminates by elements missing and queues still to visit. The next pop starts at the last queue that gave something. |
| `MultiQueue.WaterFillingIsFair` | src/common/util/MultiLockFreeQueue.hpp:181-195 | When one queue gives at least two more than another, the other is drained. |
| `MultiQueue.WaterFillingIsUnique` | src/common/util/MultiLockFreeQueue.hpp:181-195 | Counters, starting queue and total determine the shares. |
| `MultiQueue.LastOfMostIsUnique` | src/common/util/MultiLockFreeQueue.hpp:181-194 | The shares fix where the next pop starts. |
| `MultiQueue.RoundEnds` | src/common/util/MultiLockFreeQueue.hpp:184-194 | A round of the plan ends at the queue where it began, or else nothing is missing and the last queue visited gives the most. |
| `MultiQueue.Queue.PlanShares` | src/common/util/MultiLockFreeQueue.hpp:176-195 | The planning loop terminates and plans exactly n elements, no queue beyond its counter. |
| `MultiQueue.Queue.TakeShares` | src/common/util/MultiLockFreeQueue.hpp:199-209 | The second phase pops exactly the planned shares. |
| `MultiQueue.Queue.Refresh` | src/common/util/MultiLockFreeQueue.hpp:164-174 | The counters are read again exactly when they promise too little, and n is cut to what they then promise. |
| `MultiQueue.Queue.UnsafePush` | src/common/util/MultiLockFreeQueue.hpp:117-138 | Appends to one ring across wrap-around and overwrites nothing that waits. |
| `MultiQueue.Queue.PopBlock` | src/common/util/MultiLockFreeQueue.hpp:140-160 | Takes the oldest n elements of one ring across wrap-around. |
| `MultiQueue.Queue.UnsafePop` | src/common/util/MultiLockFreeQueue.hpp:140-160 | The same while producers append: what is taken was there before. |
| `MultiQueue.Queue.UpdateRemaining` | src/common/util/MultiLockFreeQueue.hpp:100-109 | Every counter is between what its queue held at the call and at the end, and the total is their sum. |
| `MultiQueue.Queue.GetRemaining` | src/common/util/MultiLockFreeQueue.hpp:90-98 | The distance from tail to head is the number of waiting elements. |
| `MultiQueue.Queue.Push` | src/common/util/MultiLockFreeQueue.hpp:244-254 | Fails if and only if the ring of the CPU holds capacity - 1 elements; otherwise appends. |
| `MultiQueue.Queue.Empty` | src/common/util/MultiLockFreeQueue.hpp:257-264 | True means that nothing waited at the call, false that something waits. |
| `BoostQueue.BoundedQueue.PushOrFail` | src/common/util/BoostLockFreeQueue.hpp:111-115 | Fails if and only if not everything fits. |
| `BoostQueue.BoundedQueue.PushCont` | src/common/util/BoostLockFreeQueue.hpp:121-133 | The retry loop loses and reorders nothing against any consumer, and does not wait when there is room. |
| `BoostQueue.BoundedQueue.Push` | src/common/util/BoostLockFreeQueue.hpp:58-72 | In either mode a push with room succeeds at once. |
| `BoostQueue.PushCollective` | src/common/util/BoostLockFreeQueue.hpp:58-133 | In every state of every run of the protocol the push of a collective operation neither fails nor spins. |
| `Ring.RefinesFifo` | src/common/util/MultiLockFreeQueue.hpp:90-160 | In every interleaving of producer and consumer accesses the ring is a FIFO of at most capacity - 1 elements. |
| `Ring.CachedCountersAreSafe` | src/common/util/MultiLockFreeQueue.hpp:111-146 | The cached counters never promise more elements or more room than there is. |
| `Ring.RefreshIsExact` | src/common/util/MultiLockFreeQueue.hpp:90-115 | A refreshed counter is exact: all the room there is when the producer loads the tail, and all that waited when the consumer loaded the head. |
| `Ring.ProducerCanGoOn` | src/common/util/MultiLockFreeQueue.hpp:111-138 | In every state of every run the producer can refresh a used-up counter, begin any push that the counter allows and finish what it has begun. |
| `Ring.ConsumerCanGoOn` | src/common/util/MultiLockFreeQueue.hpp:90-160 | In every state of every run the consumer can refresh, begin any pop that the counter allows and finish what it has begun. |
| `Ring.WritesNeverMeetReads` | src/common/util/MultiLockFreeQueue.hpp:117-160 | No slot being written is one that the consumer may read. |
| `Ring.NextInv` | src/common/util/MultiLockFreeQueue.hpp:90-160 | Every atomic step keeps the ring's invariant. |
| `SpinLock.MutualExclusionInTicketOrder` | src/common/util/SpinLock.hpp:39-72 | For any number of threads and slots at most one thread is inside, and tickets enter in order 0, 1, 2, ... |
| `SpinLock.NextTicketCanEnter` | src/common/util/SpinLock.hpp:39-49 | Whenever the lock is free with tickets out, the thread with the next ticket can enter. |
| `SpinLock.ThreadsCanGoOn` | src/common/util/SpinLock.hpp:39-72 | In every state of every run every thread can do its next access; an idle one may lock or try to. |
| `SpinLock.HandOverIsKept` | src/common/util/SpinLock.hpp:39-72 | Once a waiter's slot shows its ticket, it does so through any steps of other threads until the waiter reads it. |
| `SpinLock.TryLockIsExclusive` | src/common/util/SpinLock.hpp:54-65 | In every run a compare-exchange that succeeds finds the lock free, however stale the two reads before it, and its thread is then alone inside. |
| `SpinLock.TryLockSucceedsIffFree` | src/common/util/SpinLock.hpp:54-65 | A try_lock that no other thread disturbs gets the lock if and only if nobody holds it or waits for it. |
| `SpinLock.PublishedSlots` | src/common/util/SpinLock.hpp:68-72 | A slot shows ticket k exactly while k is among the last Size values stored. |
| `SpinLock.NextInv` | src/common/util/SpinLock.hpp:39-72 | Every atomic step of lock, try_lock and unlock keeps the invariant. |
| `Allocator.ObjAllocator.Alloc` | src/common/Allocator.hpp:93-119 | Gives an object that was not in use, the last one of the CPU's own cache or, when that is empty, the first of up to 64 taken from the central queue. It fails if and only if both are empty, and then at least capacity - 63 * (caches - 1) objects are in use. |
| `Allocator.ObjAllocator.Refill` | src/common/Allocator.hpp:100-114 | The refill always fits the cache; it fails if and only if the central queue is empty. |
| `Allocator.ObjAllocator.TakeBatch` | src/common/Allocator.hpp:103-113 | The first objects of the central queue go one to the caller and the others to the cache, in order. |
| `Allocator.ObjAllocator.Free` | src/common/Allocator.hpp:129-137 | The central queue always has room for what is given back. |
| `Allocator.ObjAllocator.constructor` | src/common/Allocator.hpp:67-79 | Every object starts in the central queue. |
| `Allocator.InOnePlace` | src/common/Allocator.hpp:67-137 | Every object is in exactly one of central queue, one cache, in use. |
| `Allocator.ExhaustedMeansInUse` | src/common/Allocator.hpp:100-108 | The bound on hidden objects behind a failing allocation. |
| `Allocator.Refilled` | src/common/Allocator.hpp:103-113 | Moving a batch to a cache and one object into use conserves the objects. |
| `Allocator.GaveBack` | src/common/Allocator.hpp:129-137 | Giving objects back conserves them. |
| `Allocator.FixedSizeStack.Push` | src/common/util/FixedSizeStack.hpp:57-75 | Puts the elements on top in order. |
| `Allocator.FixedSizeStack.Pop` | src/common/util/FixedSizeStack.hpp:82-90 | Takes the last element, or reports that there is none. |
| `Protocol.IssuedOnceReleasedOnce` | src/common/OperationManager.hpp:52-74 | In every interleaving each accepted operation is issued at most once, released at most once and only after its issue, and is always in exactly one place: with its task, in one container, or released. |
| `Protocol.NextIdentified` | src/common/OperationManager.hpp:52-74 | Every step of every task keeps every operation in exactly one place. |
| `Release.ReleasesItsOwner` | src/common/TaskContext.hpp:78-87 | In every interleaving a release is one unblock or one event less for the task that made the operation, and touches no other task; only the polling and the completion task release anything. |
| `Release.NeverStranded` | src/common/OperationManager.hpp:44-46 | In every state of every run an operation that was pushed and not released can still be released, without any step of a user task. |
| `Release.BlockedCanResume` | src/common/ALPI.hpp:171-208 | In every state of every run a blocked task can come to resume without any step of a user task. |
| `Release.UsersCanGoOn` | src/common/OperationManager.hpp:52-74 | In every state of every run a task that is not blocked can start an operation of any kind or do the next step of the one it has started, unless it needs a collective object and all 8000 are in use. |
| `Refinement.WeavesAreRuns` | src/common/TicketManager.hpp:125-149 | Every interleaving of the manager's trace with user tasks and the completion task is a run of the protocol whose issues and releases are exactly those of the record so far, in order, for the recorded task and mode and by the recorded way; so each operation is issued and released once, events count outstanding operations and unblocks match blocks. |
| `Refinement.NeverStuck` | src/common/TicketManager.hpp:346-437 | At every point of every interleaving the protocol's steps for the manager's next event are enabled, provided a hand-over finds room. |
| `Refinement.OnlyPolling` | src/common/TicketManager.hpp:125-149 | What the manager does are steps of the polling task alone: nothing is accepted, no user task moves and nothing is consumed. |
| `Refinement.BetweenPolls` | src/common/TicketManager.hpp:435-436 | Between polls every popped collective object has been given back, the slots in use are in MPI's hands, and what waits is queued. |
| `Refinement.BlockingTaskPushesAgain` | src/common/OperationManager.hpp:52-74 | One interleaving in full: a blocking task's operation is issued and released in a poll, the task goes on and pushes the next one, which the poll issues. |
| `Refinement.PushArrives` | src/common/TicketManager.hpp:151-164 | The push of a user task is what makes an operation able to arrive at the manager. |
| `Refinement.EnvironmentMirrored` | src/common/OperationManager.hpp:52-74 | No step of a user task or of the completion task, a push in the middle of a transfer included, disturbs the correspondence between manager and protocol. |
| `Protocol.LeadsIsRun` | src/common/OperationManager.hpp:52-74 | Steps that lead from an initial state to another one are a run. |
| `Protocol.EventsAreOutstandingOperations` | src/common/TaskContext.hpp:66-87 | In every interleaving a task's events equal its non-blocking operations not yet released. |
| `Protocol.BlocksMatchUnblocks` | src/common/ALPI.hpp:171-208 | Block and unblock calls match one to one and neither is ahead by more than one. |
| `Protocol.ResumesIffReleased` | src/common/TaskContext.hpp:78-98 | A blocked task can go on if and only if its operation has been released. |
| `Protocol.EveryReleaseIsAllowed` | src/common/ALPI.hpp:197-291 | Every release in every run meets ALPI's conditions on unblock and decrease. |
| `Protocol.ReleaseIsAllowed` | src/common/TaskContext.hpp:78-87 | The state of a task when one of its operations is released. |
| `Protocol.NextAccounted` | src/common/OperationManager.hpp:52-74 | Every step of every task keeps the accounts of operations, events, blocks and unblocks. |
| `Protocol.RunInv` | src/common/OperationManager.hpp:52-74 | The accounts and the identities hold in every state of every run. |
| `Protocol.CollectiveQueueNeverFull` | src/common/Allocator.hpp:160-161 | The collective pre-queue holds distinct live objects, so at most 8000 of its 32768 places are taken. |
| `CapacityCtrl.DoublesAtMostLogTimes` | src/common/TicketManagerCapacityCtrl.hpp:92-118 | Over every run the capacity stays within [min, max] and is the first one doubled once per growth and cut at max; at most ceil(log2(max/min)) growths. |
| `CapacityCtrl.NeverShrinks` | src/common/TicketManagerCapacityCtrl.hpp:92-118 | The capacity is monotone. |
| `CapacityCtrl.GrowsOnlyAfterEpoch` | src/common/TicketManagerCapacityCtrl.hpp:98-113 | It grows only after an unbroken epoch longer than the timeout, in which every poll leaves the array full and completes nothing. |
| `CapacityCtrl.GrowsIffDue` | src/common/TicketManagerCapacityCtrl.hpp:92-118 | It grows with a poll if and only if it is positive and below the maximum and that poll is the first to come more than the timeout after the begin of such an epoch. |
| `CapacityCtrl.BusyPollEndsEpoch` | src/common/TicketManagerCapacityCtrl.hpp:102-117 | A poll that completes something or leaves room raises nothing, and whatever grows later has waited a whole timeout from then on. |
| `CapacityCtrl.CanGrowIffPositive` | src/common/TicketManagerCapacityCtrl.hpp:107-111 | Below the maximum some run raises the capacity if and only if it is at least 1. |
| `CapacityCtrl.IssuedOrAtMaximum` | src/common/TicketManagerCapacityCtrl.hpp:98-113 | If nothing completes and the clock never goes back, all queued operations are issued or the maximum is full once the timeout has lapsed twice per doubling, however many polls come in between. |
| `CapacityCtrl.SettlesIffPositive` | src/common/TicketManagerCapacityCtrl.hpp:92-118 | Below the maximum with operations queued, enough lapses issue them or fill the maximum if and only if the capacity is at least 1; with 0 the queue never changes. |
| `CapacityCtrl.ZeroIssuesNothing` | src/common/TicketManagerCapacityCtrl.hpp:107-111 | With capacity 0 no run of polls issues anything. |
| `CapacityCtrl.Controller.Evaluate` | src/common/TicketManagerCapacityCtrl.hpp:92-118 | One evaluation, within the limits and never downwards; if something completed or the array is not full, the capacity stays and the epoch is over. |
| `CapacityCtrl.Configured` | src/common/TicketManagerCapacityCtrl.hpp:46-70 | Configuration fails if and only if min > max; otherwise both limits are clamped to 32768, with defaults 128 and 32768, the capacity is the minimum, and the timeout is the given one or 10; a zero minimum is accepted. |
| `SlowStart.AssertionsHoldIffMaxAtLeastBase` | src/common/polling/SlowStartPollingPeriodCtrl.hpp:57-80 | Factor in [1.5, 2] and period in [min, max] in every run, truncated result included, if and only if max >= 10. |
| `SlowStart.StaysInRange` | src/common/polling/SlowStartPollingPeriodCtrl.hpp:57-80 | The ranges are kept from any state that has them. |
| `SlowStart.HitsDecayGeometrically` | src/common/polling/SlowStartPollingPeriodCtrl.hpp:71-74 | k hits in a row divide the period k times by the factor, down to the minimum, so at most max(min, p / 1.5^k); they leave the factor and forget the misses. |
| `SlowStart.MissesApplyPenalties` | src/common/polling/SlowStartPollingPeriodCtrl.hpp:59-70 | n misses in a row, from any state, apply exactly (misses + n) / 50 penalties. |
| `SlowStart.PenaltiesDouble` | src/common/polling/SlowStartPollingPeriodCtrl.hpp:66-70 | j penalties in a row give exactly the period doubled j times, from 10 on if the first doubling does not come so far, cut at the maximum (10 for a maximum below 10); the factor is then 1.5 + period / (2 * max). |
| `SlowStart.MissesDouble` | src/common/polling/SlowStartPollingPeriodCtrl.hpp:59-70 | n misses in a row, from any state: fewer than it takes to make 50 change nothing but their count; otherwise period and factor are exactly those after (misses + n) / 50 penalties. |
| `SlowStart.StartsAtMaximum` | src/common/polling/SlowStartPollingPeriodCtrl.hpp:45-49 | The controller starts at the maximum, and every hit halves the period down to the minimum. |
| `SlowStart.Controller.Run` | src/common/polling/SlowStartPollingPeriodCtrl.hpp:57-80 | One step and its truncated result; `SlowStart.MissesDouble` and `SlowStart.HitsDecayGeometrically` give its exact period and factor over any misses and any hits. |
| `PollingLifecycle.NothingAfterReturn` | src/common/TaskingModel.hpp:206-220 | Once unregisterPolling has returned, nothing happens for that instance any more. |
| `PollingLifecycle.NeverTouchedAfterDeletion` | src/common/TaskingModel.hpp:315-366 | In both polling modes the function is called at most once after the stop flag is stored, and the deletion is the last step, after one stop and one completion. |
| `PollingLifecycle.CallsAndChecks` | src/common/TaskingModel.hpp:315-366 | In every run, counted in steps: every check is followed by one call except the one that finds the stop flag, every call by one wait, and a suspended task enters its body once per wait. |
| `PollingLifecycle.OneCallBetweenChecks` | src/common/TaskingModel.hpp:322-332 | Between two consecutive checks of the stop flag the polling function is called exactly once. |
| `PollingLifecycle.CallsUnlessStopped` | src/common/TaskingModel.hpp:345-350 | After a check the polling task calls the function if the flag was not set, whatever happens to the flag meanwhile, and otherwise completes. |
| `PollingLifecycle.PollsThenReturns` | src/common/TaskingModel.hpp:179-220 | An instance can be polled any number of times and then be unregistered, in either mode. |
| `PollingLifecycle.StoppingMakesProgress` | src/common/TaskingModel.hpp:206-220 | After the stop flag every step brings the polling task closer to its end, some step is possible, and the waiter then sees it finished. |
| `PollingLifecycle.RunInv` | src/common/TaskingModel.hpp:179-220 | The invariant of both modes in every run. |

## Left out

- The MPI entry points in src/c and the switch over operation codes in src/common/Operation.cpp: they forward arguments.
- Symbol loading, the ALPI and MPI bodies and Boost's `spsc_queue`: foreign code, taken by its contract.
- Memory orders, padding, alignment and the pause instruction: below the level of the model.
- Instrumentation, error texts, the clock and the parsing of environment variables: time and settings are parameters.
- The flags of `Environment`, the Fortran paths, `localFree` and `parseIndices`: unused here or single branches.
- Overflow of the completion queue and of a point-to-point ring: the program aborts there, which ends the run; it is not claimed to be unreachable.
- The lock around `checkRequests`: the poll is modelled as one call; that the lock is exclusive is `SpinLock`.
- PreQueues.Pop: takes any share of each ring, so every share is covered; the fair shares across rings are MultiQueue.Queue.CyclicRoundRobinPop's.
- PreQueues.ArriveSome: the rings do not fill up here; a push to a full one ends the run, as MultiQueue.Queue.Push says.
- Producers between the two loads of one counter, or between the slots of one copy: a step of the consumer in `MultiQueue` is a whole counter read or a whole block copy, and the accesses within it are the subject of `Ring`.
- The flag `_dynamic` of the capacity controller: it is never read.
- A `localPosition` other than 0: the source never stores one.
- Allocator.ObjAllocator.Alloc: calls run one at a time, so the bound on exhaustion is about whole calls.
