# Verified models of the thread pool, the block scheduler and their companions

The project states and proves what the hardest parts of the repository do.

* **Thread pool** (`Pool*.dfy`, `Blocks.dfy`, `ForkJoin.dfy`, `ThreadPool.dfy`).  `BS::thread_pool` with
  `BS_THREAD_POOL_ENABLE_PAUSE` is a labelled transition system: any number of workers, one client that calls
  `detach_*`, `pause`, `unpause`, `purge`, `wait`, `reset` and the destructor in any order, and tasks that submit
  further tasks.  Every region under the mutex is one step; every unlocked read of line 917, every notify and every
  start of a thread is a step of its own, and spurious wakeups are allowed everywhere.  One invariant (`Inv`) is kept
  by every step; all statements about runs follow from it and from a measure that every step of the pool's own code
  decreases.  The class `ThreadPool` has one method per region and carries a ghost state that some run reaches; each
  method is proved to take the step of the thread that runs it, and so has what is proved about runs at its disposal.
* **Block placement** (`PlacementSpec.dfy`, `PlacementPacking.dfy`, `BlockScheduler.dfy`).  The four nested loops of
  `SchedulerMode1`, in both packing modes, are proved to compute a closed form, about which distinctness, capacity and
  numbering are proved; `Packed` states the packing on the placed blocks alone and determines every slot.
* **Command queue** (`QueueSpec.dfy`, `QueueResume.dfy`, `AJQueue.dfy`).  The packet walker that stops at sync packets
  and resumes, against one uninterrupted walk.
* **DMI** (`DmiSpec.dfy`, `Dmi.dfy`).  The initiator with a cached direct memory pointer (section 11.2 of IEEE Std
  1666-2011), which aliases a memory's own array, against one that always uses transport, and both against one flat
  memory.
* **Small algorithms** (`DeduceTree.dfy`, `QuickSort.dfy`, `MergeSort.dfy`, `Duplicates.dfy`, `RingBuffer.dfy`,
  `ReplaceSpace.dfy`), each in place where the source works in place, each with the exact condition under which it
  does what it is for.

Two promises in the source's comments (the first two below) do not hold of the code, and two functions do what they are
for on some inputs only.  The code is modelled as it is, and the exact condition is proved.

* `reset()` (lines 542-593) promises that queued tasks "will then be executed by the new threads".  Line 591 restores
  `paused` without a notify, so new workers that are already asleep stay asleep.  `ResetStrandsIff`: this can happen if
  and only if the pool was not paused and a task was queued or executing when `reset()` was called;
  `WaitAfterResetHangsIff`: exactly then a `wait()` afterwards can block for good.  `ResetFailsForOneTask` is a
  new pool of one worker with one task for which it happens.
* `mergeSort` is commented as stable (line 85).  The strict `<` of line 95 makes it reverse every class of equal keys
  (`MSortReversesClasses`, `ExactResult`, `StableIffPalindromic`); `NotStable` is a case of two records.
* `deduceTree` is exact if and only if no value occurs again in the left subtree below it (`DeduceInverts`), which is
  more than trees with distinct values; `RepeatedLeftIsLost` is a tree of two nodes that is lost.
* `replaceSpace` can be undone if and only if the input has no `%20` of its own (`DecodeUndoesIff`; `NotAlwaysUndone` is
  the smallest other input), and `CollisionsIff` says which inputs share a result.

Run `dafny verify dfyconfig.toml` to check everything.

## Model

| member | source | states |
|---|---|---|
| PoolInvariant.ShapeKept | TestBS/BS_thread_pool.hpp:857-884 | every step keeps the control structure: `workers_running` follows the client, `waiting` is true exactly while the client sleeps or wakes in wait(), no worker exits before the stop, none sleeps after the stop was broadcast |
| PoolInvariant.CounterKept | TestBS/BS_thread_pool.hpp:857-868 | every step keeps `tasks_running` equal to the number of workers initialising, executing, or about to decrement, for a counter with size_t wrap-around |
| PoolInvariant.ReadsSucceed | TestBS/BS_thread_pool.hpp:915-919 | under a sleeping client whose predicate holds, a worker past its decrement fails none of the four unlocked reads, and its notify wakes the client |
| PoolInvariant.WakeupKept | TestBS/BS_thread_pool.hpp:907-924 | every step keeps: a client asleep although its predicate holds has a worker on the way to notify it |
| PoolInvariant.WorkKept | TestBS/BS_thread_pool.hpp:459-466 | every step keeps: no sleeper beside more queued tasks than workers about to recheck plus pending notify_one calls (running, unpaused, no notify_all pending, not muted by reset) |
| PoolSafety.RemainingPurge | TestBS/BS_thread_pool.hpp:444-449 | after a purge, what was dequeued so far is exactly the submissions that were never purged, in order |
| PoolSafety.FifoKept | TestBS/BS_thread_pool.hpp:932-933 | every step keeps: dequeued tasks followed by queued tasks are the unpurged submissions in submission order |
| PoolSafety.PlacesKept | TestBS/BS_thread_pool.hpp:935-937 | every step keeps: each submission is in exactly one of queued, executing, finished, purged |
| PoolSafety.BatchKept | TestBS/BS_thread_pool.hpp:511-517 | every step keeps: the ids of each of the client's detach calls carry the jobs it gave, in order, however the queue is used meanwhile; earlier calls are complete and the latest has still to submit what the client holds |
| PoolSafety.InvKept | TestBS/BS_thread_pool.hpp:907-943 | every step of any thread keeps the whole invariant |
| PoolSafety.InvOnRuns | TestBS/BS_thread_pool.hpp:320-323 | the invariant holds in every state of every run from a newly constructed pool |
| PoolTheorems.CounterIsExact | TestBS/BS_thread_pool.hpp:915-935 | in every reachable state the counter is exact and at most the number of threads, and no decrement finds it at zero |
| PoolTheorems.EachTaskOnce | TestBS/BS_thread_pool.hpp:458-466 | over any run each submitted task is in exactly one place, nothing else is anywhere, and no task is dequeued twice |
| PoolTheorems.FirstInFirstOut | TestBS/BS_thread_pool.hpp:932-933 | without purge the dequeue order followed by the queue is the submission order 0, 1, 2, … |
| PoolTheorems.WaitMeansDone | TestBS/BS_thread_pool.hpp:757-775 | when wait() returns no task is executing; when it returns unpaused the queue is empty and every task submitted before has finished once, or was purged once |
| PoolTheorems.NoLostWakeup | TestBS/BS_thread_pool.hpp:761-775 | in every reachable state, if wait() is blocked and its predicate holds, `waiting` is set and some worker is between its decrement and its notify with all its remaining reads bound to succeed |
| PoolTheorems.WorkIsConserved | TestBS/BS_thread_pool.hpp:919-935 | over every run in which each reset() is made while the pool is paused or has nothing queued or executing: no task is stranded beside a sleeper |
| PoolProgress.QuietDecreases | TestBS/BS_thread_pool.hpp:907-943 | every step of the pool's own code decreases a measure over queue length, worker and client positions |
| PoolProgress.DisturbanceBounded | TestBS/BS_thread_pool.hpp:458-466 | a task's own submission or a spurious wakeup raises that measure by at most 12 |
| PoolProgress.RunsAreBounded | TestBS/BS_thread_pool.hpp:857-884 | between two client calls a run has at most measure + 13 * (submissions and spurious wakeups) steps |
| PoolProgress.StuckIffStranded | TestBS/BS_thread_pool.hpp:919-924 | inside a call the pool's code is stuck if and only if the client waits beside queued tasks with every worker asleep, which only a reset() can bring about |
| PoolProgress.MaximalRunReturns | TestBS/BS_thread_pool.hpp:761-775 | a run that cannot go on has left the call or is stranded by a reset() |
| PoolTheorems.WaitReturns | TestBS/BS_thread_pool.hpp:761-775 | wait() returns: its runs are bounded, and one that cannot continue has given control back to the client |
| PoolTheorems.DestructorReturns | TestBS/BS_thread_pool.hpp:334-338 | the destructor ends: its runs are bounded, and one that cannot continue has joined every worker, all of them exited |
| PoolTheorems.EveryWaitReturns | TestBS/BS_thread_pool.hpp:761-775 | in every run of a new pool whose resets are made while it is paused or has nothing queued or executing, the rest of the run after any call of wait() is bounded, and once no thread of the pool can step, wait() has returned |
| PoolTheorems.EveryDestructorReturns | TestBS/BS_thread_pool.hpp:334-338 | in the same runs, the same for the destructor, which ends with every worker exited and joined |
| PoolTheorems.StoppedMeansDone | TestBS/BS_thread_pool.hpp:331-338 | from the end of the wait() in the destructor or in reset() until new workers are created, no task executes, and each submission has finished or was purged once, unless the pool is paused and it is still queued |
| PoolTheorems.EveryTaskFinishes | TestBS/BS_thread_pool.hpp:907-943 | tasks need no wait() to run: in those runs, once no thread of the pool can step and the client is outside every call, nothing executes, and in an unpaused pool each submission has finished or was purged, once |
| PoolTheorems.WorkersAsRequested | TestBS/BS_thread_pool.hpp:857-868 | a pool has the number of workers it was made with as long as nobody calls reset() |
| PoolTheorems.NotifyWakesOne | TestBS/BS_thread_pool.hpp:465-465 | the notify_one of a submission wakes exactly one sleeper if there is one, and nobody else |
| PoolTheorems.UnpauseWakesAll | TestBS/BS_thread_pool.hpp:745-745 | the notify_all of unpause leaves no sleeper |
| PoolReset.PausedStartsNothing | TestBS/BS_thread_pool.hpp:920-926 | no step of any thread dequeues a task while the pool is paused |
| PoolReset.ResetLeaves | TestBS/BS_thread_pool.hpp:576-593 | when reset(n) has returned there are n running workers, `paused` is what it was and nothing was purged; until line 591 nothing was dequeued and the old queue is still in front |
| PoolReset.HarmlessKept | TestBS/BS_thread_pool.hpp:576-593 | every step but a reset() of an unpaused pool with a task queued or executing keeps: no reset() under way or over leaves sleepers beside queued tasks of an unpaused pool |
| PoolReset.SafeResetEnds | TestBS/BS_thread_pool.hpp:576-593 | a reset() of a paused pool, or of one with nothing queued or executing, never ends with every worker asleep beside queued tasks of an unpaused pool |
| PoolReset.ResetCanStrand | TestBS/BS_thread_pool.hpp:576-593 | from every other idle state some run of reset() ends unpaused with queued tasks and all new workers asleep |
| PoolReset.ResetStrandsIff | TestBS/BS_thread_pool.hpp:542-593 | some run of reset() ends with every new worker asleep beside queued tasks of an unpaused pool if and only if the pool was unpaused and a task was queued or executing when it was called |
| PoolReset.WaitAfterResetHangs | TestBS/BS_thread_pool.hpp:589-592 | from every idle unpaused state with a task queued or executing, reset() followed by wait() has a run that ends blocked in wait() with no step left |
| PoolReset.WaitAfterResetHangsIff | TestBS/BS_thread_pool.hpp:589-592 | some run of reset() and a later wait(), with no other call, ends stuck inside wait() if and only if the pool was unpaused and a task was queued or executing when reset() was called |
| PoolTheorems.ResetFailsForOneTask | TestBS/BS_thread_pool.hpp:542-593 | a reachable state of a new pool with one queued task from which reset() strands it |
| PoolModel.DetermineThreadCount | TestBS/BS_thread_pool.hpp:892-899 | the requested number if positive, else the hardware's if positive, else one |
| LoopBlocks.SplitExact | TestBS/BS_thread_pool.hpp:965-984 | the number of blocks is the request or the range length, whichever is smaller, and blocks times size plus remainder is the length |
| LoopBlocks.BlocksPartition | TestBS/BS_thread_pool.hpp:992-1006 | the blocks are nonempty and contiguous, start and end with the range, and differ in size by at most one |
| LoopBlocks.BlockLength | TestBS/BS_thread_pool.hpp:992-1006 | block k has length / blocks indices, and one more for the first length % blocks of them |
| LoopBlocks.BlockOf | TestBS/BS_thread_pool.hpp:992-1006 | every index between two starts is in exactly one block |
| LoopBlocks.NoOverflow | TestBS/BS_thread_pool.hpp:969-1005 | if the range length fits the index type, every value computed on the way to a block's start (length, block count, offset, remainder share, partial sum, result) lies inside its type, so the machine's start is the exact one |
| LoopBlocks.PlanCoversOnce | TestBS/BS_thread_pool.hpp:506-519 | of the closures that detach_loop submits, exactly one calls a given index of the range, and none calls any other index |
| LoopBlocks.PlanShape | TestBS/BS_thread_pool.hpp:506-519 | detach_loop submits as many tasks as requested, or as there are threads when nothing is requested, but never more than indices, and none for an empty range; they are contiguous loops over the range with lengths as even as possible, the longer first |
| ForkJoin.LoopCallsEachIndexOnce | TestBS/BS_thread_pool.hpp:506-519 | for every detach_loop the client has made, however many calls ago: once a wait() returns unpaused with none of its tasks purged, loop(i) has been called exactly once per index of its range and for no other index, in every run |
| ThreadPools.ThreadPool.constructor | TestBS/BS_thread_pool.hpp:320-323 | a new pool is an initial state of the transition system, with the thread count that was determined |
| ThreadPools.ThreadPool.CreateThreads | TestBS/BS_thread_pool.hpp:859-863 | takes the client's creation step to a reachable state, where the counter equals the number of workers |
| ThreadPools.ThreadPool.ChooseThreadCount | TestBS/BS_thread_pool.hpp:586-586 | the count that create_threads will use is that of the reset() under way |
| ThreadPools.ThreadPool.StopWorkers | TestBS/BS_thread_pool.hpp:875-878 | takes the client's stopping step; it happens with no task executing, and unpaused with none queued |
| ThreadPools.ThreadPool.SetPaused | TestBS/BS_thread_pool.hpp:434-438 | takes the step of pause, unpause or one of the two regions of reset, whichever runs it |
| ThreadPools.ThreadPool.Purge | TestBS/BS_thread_pool.hpp:444-449 | takes the purge step; the popping loop discards exactly what was queued, front first |
| ThreadPools.ThreadPool.DetachTask | TestBS/BS_thread_pool.hpp:461-464 | takes the submission step of the client or of a task; the task gets the next number and goes to the back of the queue |
| ThreadPools.ThreadPool.DecrementRunning | TestBS/BS_thread_pool.hpp:915-915 | takes the worker's decrement step; the counter was positive and is one less, so it does not wrap |
| ThreadPools.ThreadPool.TryTake | TestBS/BS_thread_pool.hpp:920-936 | takes the worker's step to sleep, leave or execute the front task; the counter then rises by one to at most the number of threads, so it does not wrap, and the queue loses just that task |
| ThreadPools.ThreadPool.WaitOnce | TestBS/BS_thread_pool.hpp:767-774 | takes the client's wait step; the call is over exactly when the wait predicate holds, and if it is over unpaused every submission has finished or was purged, once |
| ThreadPools.ThreadPool.DetachLoop | TestBS/BS_thread_pool.hpp:506-519 | a run of the client's push and notify steps that leaves a complete detach call with the plan whose coverage is proved, its tasks in order behind what was queued; their number is the request, or the number of workers, capped by the range length, and they are the even contiguous loops of PlanShape |
| ThreadPools.ThreadPool.NotifyOne | TestBS/BS_thread_pool.hpp:465-465 | takes the notify step with some sleeper if there is one |
| PoolTheorems.ReachableNext | TestBS/BS_thread_pool.hpp:907-943 | every enabled step of a reachable state reaches a reachable state |
| PlacementSpec.CtaidDecodes | Blockscheduler/block_scheduler.h:137-147 | a position is recovered from its coordinates in the grid |
| PlacementSpec.OdometerSteps | Blockscheduler/block_scheduler.h:187-197 | the carry chain takes the k-th coordinates to the (k+1)-th |
| PlacementSpec.CtaidsInGridAndDistinct | Blockscheduler/block_scheduler.h:137-147 | every position below the grid's volume lies inside the grid, and different positions have different coordinates |
| PlacementSpec.PositionDecodes | Blockscheduler/block_scheduler.h:104-204 | a block's number is recovered from its cluster, group and place |
| PlacementSpec.SlotsExist | Blockscheduler/block_scheduler.h:115-172 | every slot handed out exists on the chip, and the slots of a block all lie in its one core |
| PlacementSpec.SlotsDistinct | Blockscheduler/block_scheduler.h:115-172 | no (cluster, core, subcore, warp) is handed out twice, neither to two blocks nor to two warps of a block |
| PlacementSpec.ClusterShare | Blockscheduler/block_scheduler.h:107-108 | a cluster gets one contiguous share of the blocks, at most cta_num of them |
| PlacementSpec.NextPlace | Blockscheduler/block_scheduler.h:120-135 | wherever the loops place a block, it is the one with that cluster, group and place |
| PlacementSpec.GroupDone | Blockscheduler/block_scheduler.h:120-151 | a subcore, or pair, is left only when it is full or the cluster or grid is exhausted |
| BlockSchedulers.BlockScheduler.constructor | Blockscheduler/block_scheduler.h:28-45 | nothing is placed yet, and the number of blocks is the grid's volume modulo 2^32 |
| BlockSchedulers.BlockScheduler.PutWarp | Blockscheduler/block_scheduler.h:126-131 | the slot written was free, and every slot written before still holds its warp |
| BlockSchedulers.BlockScheduler.PutWarps | Blockscheduler/block_scheduler.h:166-171 | a run of warps fills consecutive slots, which are those of the closed form |
| BlockSchedulers.BlockScheduler.FinishBlock | Blockscheduler/block_scheduler.h:132-149 | remaining plus placed blocks is constant, and the odometer is at the next block |
| BlockSchedulers.BlockScheduler.FillSubcore | Blockscheduler/block_scheduler.h:115-152 | one subcore gets as many blocks as fit, up to the limits of cluster and grid |
| BlockSchedulers.BlockScheduler.PutOverSubcores | Blockscheduler/block_scheduler.h:160-183 | a block of more than 16 warps gets all its warps, in two neighbouring subcores of one core |
| BlockSchedulers.BlockScheduler.PlaceInGroup | Blockscheduler/block_scheduler.h:114-200 | in either mode one subcore, or the subcores of one block, reach the closed form's state of the next group |
| BlockSchedulers.BlockScheduler.PlaceInCore | Blockscheduler/block_scheduler.h:110-202 | the loop over subcores, in either mode, reaches the closed form's state after the core |
| BlockSchedulers.BlockScheduler.PlaceInCluster | Blockscheduler/block_scheduler.h:104-204 | the same for a cluster |
| BlockSchedulers.BlockScheduler.PlaceInitial | Blockscheduler/block_scheduler.h:104-204 | exactly min(n_blocks, clusters * share of a cluster) blocks are placed, the k-th with the k-th coordinates, every slot holds the warp of the block it was given to, placed plus remaining is the total, and the placed blocks are safe in the sense of PlacedSafely and packed in the sense of ClosedFormIsPacked |
| PlacementSpec.PlacedSafely | Blockscheduler/block_scheduler.h:104-204 | blocks placed by the closed form have different coordinates inside the grid, each has exactly its warps in existing slots of one core, no two share a slot, and no cluster has more than cta_num of them |
| PlacementPacking.ClosedFormIsPacked | Blockscheduler/block_scheduler.h:104-204 | numbering slots cluster by cluster, core by core, subcore by subcore: the first block starts at slot 0, warps are in consecutive slots, each next block starts at the first place behind the last where a whole block has room (or at the next cluster once cta_num blocks are in this one), and blocks are left over only if the last cluster is full or has no room |
| PlacementPacking.NextStart | Blockscheduler/block_scheduler.h:107-152 | from one block to the next no room for a whole block is passed over unless the cluster has its cta_num blocks |
| PlacementPacking.GroupHasNoRoom | Blockscheduler/block_scheduler.h:119-120 | behind the last block of a subcore, or of the subcores of one block, there is no room before the next |
| PlacementSpec.BlocksInCluster | Blockscheduler/block_scheduler.h:107-108 | a cluster has exactly what is left after the clusters before it, up to its share |
| PlacementSpec.WholeBlocksIff | Blockscheduler/block_scheduler.h:153-183 | for any number and width of subcores: every block that the spanning loop places in a core gets all its warps if and only if the subcores it needs divide the subcores of a core |
| PlacementSpec.HeaderFits | Blockscheduler/block_scheduler.h:153-183 | with the constants of header.h that condition holds for every block of up to 32 warps |
| AJQueues.FieldsOfHeader | cp_model/ajqueue.cpp:91-110 | the four extractors take a header apart into the fields it was put together from |
| AJQueues.PlacesOfFields | cp_model/ajqueue.cpp:91-110 | any header word is the sum of its extracted fields at bits 31, 28, 24 and 6, the unused bits and the low six |
| AJQueues.SyncHeaders | cp_model/ajqueue.cpp:112-146 | a header is a device sync exactly when its bits 24 to 30 are 0x32 |
| AJQueues.BodyBound | cp_model/ajqueue.cpp:91-95 | no packet body is longer than 2^14 - 1 words |
| QueueSpec.WalkIsPrefix | cp_model/ajqueue.cpp:72-85 | the interruptible walk followed by the uninterrupted walk from where it stopped is the uninterrupted walk; it makes progress, and stops early only at a sync packet or when armed |
| QueueSpec.SyncOnlyLast | cp_model/ajqueue.cpp:81-83 | nothing is handled after a sync packet in the same stretch |
| QueueSpec.WalkDecodes | cp_model/ajqueue.cpp:60-90 | walking an encoded packet list anywhere in memory gives back its headers and ends exactly at its end |
| QueueSpec.ParseWalks | cp_model/ajqueue.cpp:72-85 | the loop handles exactly the headers of the interruptible walk, and leaves the queue paused, with one report, exactly when the walk ended at a sync packet |
| QueueResume.ActivationFacts | cp_model/ajqueue.cpp:12-40 | one activation handles one stretch, releases the queue if and only if the offset is then exactly the size, and sends exactly: a sync report if it stopped at a sync packet, a report of status free and sync 0 if it released, and a last report with its own id and status |
| QueueResume.OneStretch | cp_model/ajqueue.cpp:60-90 | an unarmed activation handles the next stretch of the buffer's walk and leaves the queue released exactly at its end, or suspended where the stretch stopped |
| QueueResume.StopsCountsSyncs | cp_model/ajqueue.cpp:60-90 | a buffer takes one activation more than it has sync packets before its last packet |
| QueueResume.Resumes | cp_model/ajqueue.cpp:65-89 | a suspended queue handles the rest of the walk over the further activations and is released once, at the end, if and only if the buffer is consumed exactly |
| QueueResume.SuspendResumeIsOneWalk | cp_model/ajqueue.cpp:60-161 | for messages whose queue_sync is not CP_DEVICE_SYNC, the headers handled over all activations are those of one uninterrupted walk, wherever the sync packets are |
| QueueResume.EncodedStream | cp_model/ajqueue.cpp:60-161 | for an encoded packet list: every header once, in order, then one release |
| QueueResume.OverrunIsForGood | cp_model/ajqueue.cpp:86-88 | a queue suspended beyond the end of its buffer handles nothing more and is never released, whatever it is sent |
| QueueResume.ArmedStopsAtOnce | cp_model/ajqueue.cpp:81-83 | a message that arrives with queue_sync = CP_DEVICE_SYNC handles one packet only, and this agrees with the ordinary walk if and only if that packet is a sync packet or the last one |
| AJQueues.AJQueue.BTransport | cp_model/ajqueue.cpp:29-32 | the message and the three fields copied from it replace the old ones, nothing else changes |
| AJQueues.AJQueue.QueueReportCp | cp_model/ajqueue.cpp:163-190 | one report with the queue's id is sent and kept: free with sync 0 for a release, the current status with CP_DEVICE_SYNC for a sync, otherwise the last message's status and sync |
| AJQueues.AJQueue.CpDeviceSync | cp_model/ajqueue.cpp:155-161 | the queue is paused and armed, and reports its status with CP_DEVICE_SYNC |
| AJQueues.AJQueue.CpQueueRelease | cp_model/ajqueue.cpp:147-153 | the queue is free and rewound, and reports status free with sync 0 and its own id |
| AJQueues.AJQueue.CpCommandHeader | cp_model/ajqueue.cpp:112-146 | only a device sync packet has an effect |
| AJQueues.AJQueue.ParseOne | cp_model/ajqueue.cpp:76-80 | one packet is handled and the offset moves past its body |
| AJQueues.AJQueue.ParseLoop | cp_model/ajqueue.cpp:72-85 | the loop ends and computes the specification's walk |
| AJQueues.AJQueue.CpIndirectBuffer | cp_model/ajqueue.cpp:60-90 | a fresh queue loads its buffer, a paused one resumes, a missing buffer leaves the queue unchanged, and an exactly consumed one is released |
| AJQueues.AJQueue.OnMessage | cp_model/ajqueue.cpp:12-40 | a free queue needs its address in the map and a paused one does not; then message and activation together are the activation that the session theorems are about, with exactly its reports |
| DmiSpec.SystemAddress | SystemC/TLM2.0/test2.cpp:221-226 | target and masked address together are the address modulo 1024 |
| DmiSpec.ComposeDecodes | SystemC/TLM2.0/test2.cpp:221-231 | composing and decoding are inverse |
| DmiSpec.PathsAgreeIffAligned | SystemC/TLM2.0/test2.cpp:40-80 | the direct path and the routed path touch the same bytes if and only if the address is word-aligned |
| DmiSpec.UnalignedPathsDiffer | SystemC/TLM2.0/test2.cpp:40-80 | for every unaligned address there are memories on which the two paths read different data |
| DmiSpec.TransportIsFlat | SystemC/TLM2.0/test2.cpp:175-183 | a routed word access is an access to one flat memory addressed modulo 1024, and touches nothing out of its reach |
| DmiSpec.ResultsAreFlat | SystemC/TLM2.0/test2.cpp:33-108 | over every sequence of word accesses four routed memories give the results and contents of one flat memory |
| Dmi.CopyIn | SystemC/TLM2.0/test2.cpp:288-288 | the bytes copied are in place and no other byte changed |
| Dmi.Memory.BTransport | SystemC/TLM2.0/test2.cpp:258-295 | each error case leaves data and memory alone and gives no hint; otherwise the word is read or written |
| Dmi.Router.BTransport | SystemC/TLM2.0/test2.cpp:175-183 | every routed word access succeeds, with the result and memories of the specification |
| Dmi.Router.GetDirectMemPtr | SystemC/TLM2.0/test2.cpp:186-198 | the window granted is the target's 256 addresses onto the target's own array, both accesses allowed |
| Dmi.Initiator.InvalidateDirectMemPtr | SystemC/TLM2.0/test2.cpp:141-146 | no pointer is valid afterwards, whatever the range |
| Dmi.Initiator.DirectTransfer | SystemC/TLM2.0/test2.cpp:43-57 | the access through the aliasing pointer reads and writes the memory it belongs to, at the address itself |
| Dmi.Initiator.Transfer | SystemC/TLM2.0/test2.cpp:40-107 | one access on either path for any address: direct exactly when the window held covers it, and after it the window of the access's target is held |
| Dmi.Initiator.Run | SystemC/TLM2.0/test2.cpp:33-108 | over every sequence of word accesses with invalidations anywhere, results and memories are those of an initiator that always uses transport; each access goes direct exactly when the operation before it was an access to the window that covers it |
| DeduceTree.DeduceInverts | lc/binaryTree.cpp:21-56 | with anything left after the inorder, the tree is rebuilt from its traversals if and only if no value occurs again in the left subtree under it |
| DeduceTree.RepeatedLeftIsLost | lc/binaryTree.cpp:21-56 | a tree whose value occurs again in its left child is not rebuilt |
| DeduceTree.DeduceSize | lc/binaryTree.cpp:21-56 | on any two vectors the result has at most as many nodes as the preorder has values |
| DeduceTree.DistinctIsLeftFree | lc/binaryTree.cpp:15-20 | trees with distinct values meet that condition |
| DeduceTree.TraversalsDetermineTree | lc/binaryTree.cpp:21-56 | a tree with distinct values is rebuilt, so no other tree has its two traversals |
| DeduceTree.EmptyIffLeaf | lc/binaryTree.cpp:22-22 | there is no tree exactly when one of the vectors is empty |
| DeduceTree.AbsentRoot | lc/binaryTree.cpp:23-51 | on any two nonempty vectors the first preorder value is the root, and if the inorder does not contain it everything goes to the left |
| DeduceTree.FindRoot | lc/binaryTree.cpp:24-28 | the loop finds the first occurrence, or the length |
| DeduceTree.SplitAt | lc/binaryTree.cpp:37-51 | the pushing loops cut a vector into the part up to `mid` and the rest |
| DeduceTree.SplitAtRootOf | lc/binaryTree.cpp:24-51 | the four vectors are those of the recursive specification, with the root left at the end of the left inorder |
| DeduceTree.TreeNode.Link | lc/binaryTree.cpp:53-54 | the subtrees hang under the node, and its footprint is theirs and itself |
| DeduceTree.BuildTree | lc/binaryTree.cpp:21-56 | on any two vectors the new nodes form the specified tree and share nothing with older objects |
| QuickSort.FillRange | lc/bubbleSort.cpp:67-76 | with the key counted in the hole, filling the hole from elsewhere and moving it there keeps the multiset, although the array itself has lost the key |
| QuickSort.FromRight | lc/bubbleSort.cpp:64-66 | the scan stops at the last element below the key, or meets the hole |
| QuickSort.FromLeft | lc/bubbleSort.cpp:70-73 | the mirror image |
| QuickSort.Partition | lc/bubbleSort.cpp:59-80 | the range is a permutation of itself split by the element at the returned position, and nothing outside it changed |
| QuickSort.BothSides | lc/bubbleSort.cpp:81-82 | sorting both sides of a separating element sorts the range and keeps the rest |
| QuickSort.Sort | lc/bubbleSort.cpp:57-83 | terminates with the range a sorted permutation of what it was and nothing outside it changed |
| QuickSort.SortedUnique | lc/bubbleSort.cpp:57-83 | a sorted permutation is unique, so the contract of the sort determines its result |
| MergeSort.MergeClasses | lc/bubbleSort.cpp:94-104 | a merge puts the right run's class of equal keys before the left run's |
| MergeSort.MSortSorts | lc/bubbleSort.cpp:86-115 | the result is sorted |
| MergeSort.MSortPermutes | lc/bubbleSort.cpp:86-115 | the result is a permutation of the input |
| MergeSort.MSortReversesClasses | lc/bubbleSort.cpp:85-96 | every class of equal keys comes out in exactly reverse order |
| MergeSort.StableIffPalindromic | lc/bubbleSort.cpp:85-85 | a class keeps its order, as the comment promises, if and only if it reads the same backwards |
| MergeSort.NotStable | lc/bubbleSort.cpp:85-96 | two records with one key change places |
| MergeSort.ExactResult | lc/bubbleSort.cpp:86-115 | the result is the one sorted sequence in which every class is reversed |
| MergeSort.PickedIsMerge | lc/bubbleSort.cpp:94-104 | the record that the two moving indices pick at each position is that of the merge |
| MergeSort.MergeBoth | lc/bubbleSort.cpp:94-96 | the first loop stops with one run used up and the merge so far in place |
| MergeSort.MergeLeft | lc/bubbleSort.cpp:98-100 | the second loop moves what is left of the left run behind the merge so far |
| MergeSort.MergeRuns | lc/bubbleSort.cpp:93-104 | the three loops put the merge of the two runs in the temporary array |
| MergeSort.MergeBack | lc/bubbleSort.cpp:93-108 | the merged runs replace the runs and the rest of the data is unchanged |
| MergeSort.MergeSortCore | lc/bubbleSort.cpp:86-109 | the given range is sorted as specified and the rest of the data is unchanged |
| MergeSort.Sort | lc/bubbleSort.cpp:111-115 | the whole vector is replaced by the specified result, a sorted permutation |
| Duplicates.FindDuplicates | lc/vectors.cpp:17-31 | the values of all non-first occurrences in order; afterwards the absolute values are the input and slot v-1 is negative exactly for the values v that occur |
| Duplicates.MarkedMore | lc/vectors.cpp:21-24 | flipping the slot of a value records that it was seen, and the sign before tells whether it had been |
| Duplicates.RepeatsCount | lc/vectors.cpp:17-31 | each value is reported once for every occurrence but the first |
| Duplicates.ReportedInOrder | lc/vectors.cpp:19-26 | a position that repeats an earlier value is reported behind exactly the earlier positions that do, and nothing else is reported |
| Duplicates.DistinctIffAtMostTwice | lc/vectors.cpp:14-15 | the reported values are distinct if and only if no value occurs more than twice |
| Duplicates.ReportsExactlyTheTwice | lc/vectors.cpp:14-15 | under the stated input condition exactly the values that occur twice are reported, each once |
| Duplicates.MarkedRecovers | lc/vectors.cpp:21-24 | the input and its set of values can be read off what the caller is left with |
| RingBuffers.SlotAhead | cp_model/ringbuffer.h:20-20 | the slot of a later word lies as many places ahead, modulo the size |
| RingBuffers.HeadMoves | cp_model/ringbuffer.h:20-23 | head and tail meet only in a full ring, and then the head moves on to the oldest word that stays |
| RingBuffers.LiveAt | cp_model/ringbuffer.h:31-31 | the words reached from the head are the last min(k, size - 1) words added, oldest first |
| RingBuffers.LiveIsSuffix | cp_model/ringbuffer.h:18-24 | the live words are the last min(k, size - 1) of the log |
| RingBuffers.RecentInSlot | cp_model/ringbuffer.h:18-20 | none of the last `size` words is overwritten in its slot |
| RingBuffers.EmptyIff | cp_model/ringbuffer.h:27-30 | head equals tail exactly when no word is live |
| RingBuffers.HalvesJoin | cp_model/ringbuffer.h:31-41 | get_addr fits 32 bits, and get_addr * 2^32 + get_count of a word is the word |
| RingBuffers.RingBuffer.constructor | cp_model/ringbuffer.h:14-16 | a new ring holds nothing, for any size |
| RingBuffers.RingBuffer.Add | cp_model/ringbuffer.h:18-24 | the ring then stands for the old log and the new word |
| RingBuffers.RingBuffer.GetCount | cp_model/ringbuffer.h:26-33 | 0 for an empty ring; otherwise the low half of what the slot `index` places after the head holds, which for a live index is the live word |
| RingBuffers.RingBuffer.GetAddr | cp_model/ringbuffer.h:35-42 | 0 for an empty ring; otherwise the high half, within 32 bits, of what the slot `index` places after the head holds, which for a live index is the live word |
| ReplaceSpace.ImageAt | lc/strings.cpp:18-25 | the write position is ahead of the read position by twice the unread spaces, and what is written there is the expansion |
| ReplaceSpace.RestInPlace | lc/strings.cpp:18-18 | when the positions meet, the unread part is already the expansion's beginning |
| ReplaceSpace.CountSpaces | lc/strings.cpp:10-13 | the loop counts the spaces |
| ReplaceSpace.ReplaceOne | lc/strings.cpp:18-25 | one turn extends the finished part and leaves every unread character intact |
| ReplaceSpace.ReplaceSpaces | lc/strings.cpp:7-27 | the result is the input with each space replaced by %20 |
| ReplaceSpace.ExpandConcat | lc/strings.cpp:7-27 | the expansion of a concatenation is the concatenation of the expansions |
| ReplaceSpace.DecodeIgnoresExpand | lc/strings.cpp:7-27 | decoding the expansion gives what decoding the input gives |
| ReplaceSpace.DecodeUndoesIff | lc/strings.cpp:7-27 | decoding gives back the input if and only if the input contains no %20 |
| ReplaceSpace.NotAlwaysUndone | lc/strings.cpp:7-27 | the input %20 stays as it is and decodes to a space |
| ReplaceSpace.CollisionsIff | lc/strings.cpp:7-27 | two inputs have the same result if and only if they decode to the same text |

## Left out

- Thread pool, more than one waiter or timed waits: the one `waiting` flag is cleared by whichever waiter leaves first, so the wakeup properties are for one client.
- Thread pool, `pause()`, `purge()`, `wait()` or `reset()` called by another thread or by a task: they are steps of the client only; tasks can submit.
- Thread pool, an init_task that submits tasks or throws.
- Thread pool, `submit_*`, `detach_sequence`, `detach_blocks` and futures: they differ from `detach_loop` and `detach_task` only in the closure they push.
- Thread pool, priorities, native handles, thread-local information, the wait deadlock check, exceptions, clocks and the C++ memory model beyond sequential consistency (the reads of line 917 are formally races).
- ThreadPools.ThreadPool.DetachLoop: covers submissions that no other thread interrupts, because threads are in the transition system and not in the class; the interrupted case is `PoolSafety.BatchKept` and the fork-join theorem.
- Block scheduler, the refill loop and completion flags (lines 206-226), `do_run` and the warp objects (a block over several subcores passes `do_run` the warp's index within its subcore, not within the block), the thread pool it uses, and the single-warp branch (lines 50-100).
- Block scheduler, KernelParam is not part of this model: the grid is three naturals and `n_blocks` their product modulo 2^32, and constants of header.h are fixed.  What happens to a block over several subcores on other chips is `WholeBlocksIff`.
- AJQueue, sockets, SystemC time and what could arrive during the `wait` between two packets (line 84), `ib_size` near 2^31 where the `int` offset could overflow, the dereference of the map iterator before its end check (line 51), and the command processor's barrier in cp.cpp.
- DMI, latencies, random initial data, printing, the debug transport and the INJECT_ERROR build.
- Ring buffer, a negative index and one that makes head plus index overflow `int`; `IndirectBuffer` of the same file is plain storage.
- Duplicate search, inputs outside 1..n, for which the source indexes out of its vector; printing.
- String expansion, strings whose expansion is longer than an `int` can count.
- lc, the other sorts, the searches and list reversal would only add easy members; vectors longer than an `int` can index.
