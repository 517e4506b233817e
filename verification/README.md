# GaussTwin simulation kernel, modelled and proved in Dafny

This project models the simulation kernel of GaussTwin and the stateful structures around it, and
proves what they promise about whole runs. Check it with `dafny verify dfyconfig.toml`.

- **Thread pool and parallel helpers** (`ThreadPool.dfy`, `Parallel.dfy`). The pool is a transition
  system: any number of submitting threads, a bounded channel, worker loops with a local queue, a
  global receive and a steal, a counter of active tasks, `wait_idle` and `shutdown`. Every atomic
  access is one step, so a run is an arbitrary interleaving. `parallel_map` and `parallel_for` are
  methods whose finish order is a parameter, and a lemma shows that the pool produces only such orders.
- **Step loop** (`EventQueue.dfy`, `Scheduler.dfy`, `PriorityScheduler.dfy`, `EventScheduler.dfy`,
  `Model.dfy`, `Reruns.dfy`). The event queue, the schedulers and the standard model are classes. Time is `real`; the
  random generator is an abstract state with a shuffle function that permutes its argument; whether an
  agent's step succeeds is an arbitrary function of the step number and the agent.
- **Pools** (`ObjectPool.dfy`, `Arena.dfy`). The object pool is a transition system in which counters
  move in separate steps and wrap at 64 bits; the agent arena is a class over an array.
- **Indexes** (`Cells.dfy`, `SpatialGrid.dfy`, `NearestNeighbors.dfy`, `AdaptiveGrid.dfy`,
  `DenseGrid.dfy`), compared with a linear scan, a position map and a function of coordinates.
- **Cached store** (`LruCache.dfy`, `UnifiedStore.dfy`), compared with the two stores without a cache.
- **Ledger and checkpoints** (`Blockchain.dfy`, `Des.dfy`, `DesRuns.dfy`).

`Prelude.dfy` holds the shared vocabulary.

## Where the code does less than it suggests

The model follows the code. These points are proved, with the exact condition where there is one.

- The local queues of the thread pool are never filled, so no task is ever stolen (`NeverSteals`).
  Tasks still queued when the last worker stops are lost, and `wait_idle` then never sees zero
  (`WaitIdleCanReturn` says exactly when it still can). Some run of a pool loses a task exactly when its
  channel has room and somebody submits (`LossIsPossible`).
- `parallel_for` panics exactly on empty data or zero workers (`ParallelFor`).
- Cancelling a core event leaves every delivery as it was: it has the effect of removing the event
  exactly when the event was not live anyway (`CancelledIsStillDelivered`, `PromiseWithout`). An event
  without an execution limit comes back at the same time for ever, cancelled or not (`TakeAtMost`,
  `CancelledUnlimitedKeepsComing`); a comment in the code speaks of one step later.
- Removing a registered agent from the priority scheduler in the middle of a step makes every other
  agent that has already run run again (`RemoveMidStep`). Its `initialize` forgets all priorities, and
  the order of a step is determined exactly when all priorities differ (`OrderDeterminedIff`).
- The step loop over the event scheduler ends exactly when no event lies in the future (`StepLoopEnds`).
- `reset` leaves the random generator where it was. A run after a reset repeats the run before it,
  under every shuffle, exactly when the scheduler is not Random, has at most one agent, or makes no tick
  (`RepeatsIff`, `RunTwice`).
- Pre-warming an object pool beyond its capacity puts the counters off for ever, by exactly the objects
  dropped (`ExactWhenQuiescent`). Between calls, `peak_size` is the largest number ever stored exactly
  when at most one thread uses the pool, but for pools that start out full with 2^64 - 1 objects
  (`PeakIsExactIff`); three threads suffice to bring it to 2^64 - 1 (`PeakCanWrap`).
- The grid of `spatial.rs` rounds positions down without dividing by its cell size, but divides the radius
  of a query by it. The query is complete exactly when that does not lower the rounded-up radius
  (`RadiusCompleteIff`).
- The hash of a block covers neither the actions of its transactions nor the boundaries between their
  fields (`PayloadDetermines`, `BoundariesAreNotHashed`, `DigitsMoveUnnoticed`).
- The discrete event queue pops the greatest time first, and the least urgent priority among equal
  times, so a run moves the clock backwards and processes nothing while one event lies beyond the
  horizon (`Run`). A new checkpoint older than ten retained ones is dropped at once
  (`CreateCheckpoint`). So a run leaves a resume point exactly when fewer than ten of the times retained
  before and of those checkpointed on the way are later than its last one, which can be foreseen from the
  pending events (`RunAndResume`); eleven events at different times with a checkpoint after each leave
  none (`RunOnePerTime`).
- Because runs go backwards, no checkpoint holds a pending event later than its own time. A rollback
  therefore restores only events tied with both the checkpoint and the target; any other successful
  rollback throws the pending events away. As written, rollback holds the queue's lock while it schedules
  events again, so it hangs exactly when there is such a tie (`RollbackToTime`; `RollbackToTie` is a run
  that does). The counters of the queue keep what they counted before.
- With parallel execution one round processes everything that is pending, whatever the event limit unless
  it is zero (`RunParallel`); the order in which tasks finish shows in the state history exactly when two
  state changes at the same time disagree (`FinishOrderIrrelevantIff`).

## Model

| member | source | states |
|---|---|---|
| ThreadPool.NextKeepsInv | crates/gausstwin-core/src/hpc.rs:278-381 | every step of a submitter, a worker or shutdown keeps the pool's invariant: the active count, the fate of every task, the statistics, unique ids, queue order |
| ThreadPool.RunInv | crates/gausstwin-core/src/hpc.rs:278-381 | the invariant holds in every state of every interleaving; in particular the active count is submitters that counted but did not send, plus queued tasks, plus tasks in the hands of workers, plus lost tasks |
| ThreadPool.ZeroMeansDone | crates/gausstwin-core/src/hpc.rs:289-381 | the active count is never negative and is zero exactly when nothing is outstanding anywhere; then the executed tasks are the sent tasks and the completed count is the number of sends |
| ThreadPool.ExactlyOnce | crates/gausstwin-core/src/hpc.rs:289-351 | no task runs twice, only sent tasks run, and before shutdown every sent task has either run once or waits once |
| ThreadPool.WaitIdleWaits | crates/gausstwin-core/src/hpc.rs:423-427 | when the count reads zero, every task whose submit had returned earlier has run exactly once and no worker still holds it |
| ThreadPool.HistoryGrows | crates/gausstwin-core/src/hpc.rs:362-381 | over any run, what submit has returned stays returned and what was lost stays lost |
| ThreadPool.OneWorkerKeepsOrder | crates/gausstwin-core/src/hpc.rs:289-351 | with one worker the tasks executed are always a prefix of the tasks sent, in send order |
| ThreadPool.NeverSteals | crates/gausstwin-core/src/hpc.rs:289-313 | in every reachable state the local queues are empty and the steal counter is zero |
| ThreadPool.WaitIdleCanReturn | crates/gausstwin-core/src/hpc.rs:289-459 | in every state with the invariant, some continuation brings the active count to zero if and only if the pool is not shut down, or nothing is lost and at most as many tasks are queued as workers are already past the flag check |
| ThreadPool.LossIsPossible | crates/gausstwin-core/src/hpc.rs:289-459 | from the initial state some run loses a task if and only if the channel has room and there is a submitting thread |
| ThreadPool.DoomedForever | crates/gausstwin-core/src/hpc.rs:289-459 | once more tasks are queued after shutdown than workers can still take, or one is lost, no continuation reaches zero |
| ThreadPool.DrainAfterShutdown | crates/gausstwin-core/src/hpc.rs:289-381 | otherwise a continuation after shutdown finishes every task, has every late submission refused and reaches zero |
| ThreadPool.WorkIsBounded | crates/gausstwin-core/src/hpc.rs:289-381 | in every run the steps that send, receive, run, refuse or release are bounded by what was outstanding plus six per new submission |
| ThreadPool.CanAlwaysDrain | crates/gausstwin-core/src/hpc.rs:278-381 | from every state with the invariant and before shutdown, some continuation brings the active count to zero: no interleaving leaves the pool stuck |
| ThreadPool.PopLocalMoves | crates/gausstwin-core/src/hpc.rs:289-294 | popping the local queue moves a task to the worker without changing the total or the copies of any task |
| ThreadPool.ReceiveMoves | crates/gausstwin-core/src/hpc.rs:296-300 | receiving from the channel moves a task without changing the total or the copies of any task |
| ThreadPool.StealMoves | crates/gausstwin-core/src/hpc.rs:302-313 | stealing moves a task between queues without changing the total or the copies of any task |
| Parallel.AtMostOneChunkPerWorker | crates/gausstwin-core/src/hpc.rs:535-545 | rounding the chunk size up never yields more chunks than workers |
| Parallel.SortingRestoresOrder | crates/gausstwin-core/src/hpc.rs:557-565 | sorting the messages by chunk number puts chunk k at position k, whatever the order of arrival |
| Parallel.ParallelMap | crates/gausstwin-core/src/hpc.rs:525-570 | for all data, worker counts and finish orders the result is the sequential map of f over the data |
| Parallel.ParallelFor | crates/gausstwin-core/src/hpc.rs:485-520 | it panics exactly on empty data or zero workers; otherwise every index is visited exactly once, for every finish order |
| Parallel.CutIntoChunks | crates/gausstwin-core/src/hpc.rs:539-545 | chunk k is the k-th stretch of the data, numbered k |
| Parallel.Collect | crates/gausstwin-core/src/hpc.rs:557-569 | sorting and concatenating permuted chunk results rebuilds the map over the whole data |
| Parallel.PoolGivesFinishOrder | crates/gausstwin-core/src/hpc.rs:499-517 | in any run of the pool, one message per submitted chunk arrives at most once each; all of them form a finish order, and all have arrived when the pool reads idle |
| Parallel.MapOnPool | crates/gausstwin-core/src/hpc.rs:525-570 | on every run of the pool, one message per chunk yields the sequential map of f over the data |
| Parallel.ForOnPool | crates/gausstwin-core/src/hpc.rs:485-520 | on every run of the pool, one message per chunk means that every index was visited exactly once, whatever else keeps the pool busy |
| EventQueue.EventQueue.Schedule | crates/gausstwin-core/src/event.rs:258-277 | refused exactly at the size limit; otherwise the event is queued with the current time stamp and every counter follows |
| EventQueue.EventQueue.NextEvent | crates/gausstwin-core/src/event.rs:280-313 | one delivery takes exactly one owed execution off the account, leaves future events alone, is outranked by nothing left, and keeps scheduled = processed + expired + queued + cleared |
| EventQueue.EventQueue.Drain | crates/gausstwin-core/src/event.rs:280-313 | with no unlimited event due, draining ends; each due live event is delivered exactly as often as it is owed, in order of time and priority, and exactly the future events stay |
| EventQueue.EventQueue.Reschedule | crates/gausstwin-core/src/event.rs:290-297 | a recurring event goes back under a fresh id and never hits the overflow limit |
| EventQueue.EventQueue.TakeAtMost | crates/gausstwin-core/src/event.rs:280-313 | while an unlimited event is due there is always another delivery; each delivery either uses up one owed execution or is a copy of an unlimited live event |
| EventQueue.EventQueue.Cancel | crates/gausstwin-core/src/event.rs:321-329 | only the lookup table forgets the event; the heap is unchanged |
| EventQueue.CancelledIsStillDelivered | crates/gausstwin-core/src/event.rs:280-329 | for a cancelled queued event the deliveries are those of the queue without it if and only if it is not live; a live one is delivered for each execution it is owed, a future one stays queued |
| EventQueue.PromiseWithout | crates/gausstwin-core/src/event.rs:280-329 | removing an event changes what is promised now if and only if it is live and limited |
| EventQueue.CancelledUnlimitedKeepsComing | crates/gausstwin-core/src/event.rs:280-329 | after cancelling a live event without limit the queue still has another delivery, however often it is asked; if it is the only such event, it is itself delivered once there are more deliveries than the limited events are owed |
| EventQueue.EventQueue.SetCurrentTime | crates/gausstwin-core/src/event.rs:252-255 | afterwards the heap holds exactly the events not expired at the new time |
| EventQueue.EventQueue.RemoveExpired | crates/gausstwin-core/src/event.rs:354-380 | exactly the unexpired events survive and the rest are counted as expired |
| EventQueue.EventQueue.Clear | crates/gausstwin-core/src/event.rs:347-351 | heap and table are emptied, the dropped events stay accounted for |
| EventQueue.PopEffects | crates/gausstwin-core/src/event.rs:280-313 | taking any event out of the heap takes exactly its share out of what is promised and what is for later |
| EventQueue.DeliverAgain | crates/gausstwin-core/src/event.rs:287-301 | delivering and rescheduling costs one owed execution and nothing else |
| EventQueue.DeliverLast | crates/gausstwin-core/src/event.rs:284-303 | the last delivery of an event settles its account |
| EventQueue.PopKeepsLookup | crates/gausstwin-core/src/event.rs:280-287 | removing an event and its table entry keeps the table equal to the uncancelled queued events |
| EventQueue.OwedIgnoresIdentity | crates/gausstwin-core/src/event.rs:290-297 | what an event is owed does not depend on the fresh id and creation time of its copies |
| Scheduler.AtMostOncePerRegistration | crates/gausstwin-core/src/scheduler.rs:115-153 | under any interleaving of batches, additions and removals after a reset, an agent is activated at most once more than it is removed |
| Scheduler.NoneMissed | crates/gausstwin-core/src/scheduler.rs:115-153 | when nothing is left in the step, every agent still registered has been activated |
| Scheduler.ActivatedExactlyOnce | crates/gausstwin-core/src/scheduler.rs:203-240 | a finished step activates an agent that was registered or added and never removed exactly once |
| Scheduler.StaysRegistered | crates/gausstwin-core/src/scheduler.rs:203-220 | an agent never removed is registered at the end exactly when it was registered or added |
| Scheduler.RemovedStays | crates/gausstwin-core/src/scheduler.rs:123-132 | moving the cursor back on removal keeps, for every other agent, whether it has had its turn |
| Scheduler.BatchesInOrder | crates/gausstwin-core/src/scheduler.rs:311-325 | without additions and removals the concatenated batches are a stretch of the list, and all of it after enough batches |
| Scheduler.ParallelEqualsSequential | crates/gausstwin-core/src/scheduler.rs:311-330 | for every batch size a finished Parallel step hands out the Sequential order |
| Scheduler.CursorScheduler.Step | crates/gausstwin-core/src/scheduler.rs:99-153 | the exactly-once, at-most-once and none-missed results on the scheduler object, after a shuffle |
| Scheduler.CursorScheduler.Next | crates/gausstwin-core/src/scheduler.rs:311-321 | a batch is the next stretch of the list, as long as the batch size or what is left |
| PriorityScheduler.PriorityScheduler.Step | crates/gausstwin-core/src/scheduler.rs:440-462 | an undisturbed step runs every registered agent exactly once, by falling priority |
| PriorityScheduler.PriorityScheduler.RemoveMidStep | crates/gausstwin-core/src/scheduler.rs:432-462 | after removing a registered agent all others are queued again; no agent runs twice if and only if the id was not registered or nobody else had run |
| PriorityScheduler.PriorityScheduler.InterruptedStep | crates/gausstwin-core/src/scheduler.rs:420-462 | under any interleaving an agent runs at most once more than there are removals, and once the queue is empty every registered agent has run |
| PriorityScheduler.PriorityScheduler.Next | crates/gausstwin-core/src/scheduler.rs:440-453 | hands out an agent of greatest queued priority; in a valid scheduler the check for removed agents never fires |
| PriorityScheduler.PriorityScheduler.Initialize | crates/gausstwin-core/src/scheduler.rs:410-418 | registers exactly the given agents, all with priority zero, each queued once |
| PriorityScheduler.ServedNext | crates/gausstwin-core/src/scheduler.rs:440-453 | handing out a greatest item keeps the served order falling and unbeaten by what is left |
| PriorityScheduler.OrderDeterminedIff | crates/gausstwin-core/src/scheduler.rs:394-453 | any two orders a step may have are equal if and only if all priorities differ |
| PriorityScheduler.HeapAllows | crates/gausstwin-core/src/scheduler.rs:394-453 | every such order can come out of the heap, popping a greatest item at a time |
| PriorityScheduler.ZeroPriorities | crates/gausstwin-core/src/scheduler.rs:410-418 | after initialization priorities differ only for at most one agent |
| EventScheduler.StepLoopEnds | crates/gausstwin-core/src/scheduler.rs:553-569 | asking for batches while events are left ends if and only if no event lies in the future |
| EventScheduler.TurnsTakeDue | crates/gausstwin-core/src/scheduler.rs:553-569 | k rounds take exactly the first k due events, or all of them |
| EventScheduler.EventScheduler.StepRounds | crates/gausstwin-core/src/model.rs:433-450 | the model's step loop over this scheduler, cut off after a number of rounds, hands out the due agents in order and uses up every round when an event lies in the future |
| EventScheduler.EventScheduler.ScheduleAt | crates/gausstwin-core/src/scheduler.rs:502-522 | the list stays sorted and the new event goes before those of equal time |
| EventScheduler.EventScheduler.Initialize | crates/gausstwin-core/src/scheduler.rs:531-539 | all agents become due at time zero, in reverse order |
| EventScheduler.WithoutSorted | crates/gausstwin-core/src/scheduler.rs:547-551 | removal keeps exactly the events of other agents, still sorted |
| EventScheduler.WholeRun | crates/gausstwin-core/src/scheduler.rs:531-569 | in a run that starts at or after time zero and schedules nothing later, all agents run in the first tick, in reverse order, and none ever again |
| EventScheduler.FirstStepEnds | crates/gausstwin-core/src/scheduler.rs:531-569 | after initialization the first step ends if and only if the run does not start before time zero or there is no agent |
| Model.AscendingUnique | crates/gausstwin-core/src/agent.rs:191-198 | an ascending id list is determined by its set of ids |
| Model.SortedIds | crates/gausstwin-core/src/agent.rs:191-198 | the id list is ascending and holds exactly the ids of the set |
| Model.StepsAreLeast | crates/gausstwin-core/src/time.rs:268-273 | the rounded-up quotient is the least number of time steps that covers an interval |
| Model.RunContinues | crates/gausstwin-core/src/model.rs:482-493 | the closed form for the number of ticks agrees with the loop's stopping conditions at every tick |
| Model.StandardModel.Initialize | crates/gausstwin-core/src/model.rs:360-391 | allowed only once; fills the scheduler from the ascending id list, whatever order the agents were added in |
| Model.StandardModel.Step | crates/gausstwin-core/src/model.rs:393-470 | refused, skipped or executed by state; an executed step delivers all due events, runs every agent exactly once at the current time and advances the clock by one step; a failing agent ends it half-way with the clock unmoved |
| Model.StandardModel.Run | crates/gausstwin-core/src/model.rs:472-497 | the exact number of ticks, end time, final state and trace of a run, with every agent once per tick; an error comes only from an agent that failed in that tick; needed is only that no unlimited event is live at a tick that is reached |
| Model.StandardModel.AddAgent | crates/gausstwin-core/src/model.rs:576-600 | refused exactly at the agent limit, with nothing changed; otherwise the agent is in the set and the scheduler |
| Model.StandardModel.Reset | crates/gausstwin-core/src/model.rs:527-541 | clock, step count, state and events start over; agents and scheduler are untouched |
| Model.RunToEnd | crates/gausstwin-core/src/model.rs:360-497 | from a fresh model with start before end and succeeding agents the run ends Completed after exactly the rounded-up quotient of ticks, at start plus ticks times step, every agent once per tick, for cursor and priority schedulers alike |
| Model.BuildAndRun | crates/gausstwin-core/src/model.rs:281-312 | the whole trace of a fresh model with a cursor scheduler is a function of configuration, seed and set of agents |
| Model.SameSeedSameTrace | crates/gausstwin-core/src/model.rs:281-378 | two fresh models with a cursor scheduler, the same seed and the same set of agents, added in any two orders, have identical traces for runs of any length, failing agents included |
| Reruns.RunTwice | crates/gausstwin-core/src/model.rs:527-541 | the run after a reset is the trace from the generator state the first run left, and the same trace when the order is fixed; events may be queued before |
| Reruns.RepeatsIff | crates/gausstwin-core/src/model.rs:527-541 | for every list of agents, seed, configuration and outcome: the second run equals the first under every permuting shuffle if and only if the scheduler is not Random, or there is at most one agent, or no tick |
| Reruns.SwapAtDiffers | crates/gausstwin-core/src/model.rs:527-541 | for every Random model with two agents and a tick, a legal shuffle under which the runs differ in their first activation |
| Reruns.CursorTraceIgnoresRng | crates/gausstwin-core/src/scheduler.rs:99-330 | traces of Sequential and Parallel schedulers, and of Random ones with at most one agent, do not depend on the generator |
| Model.StopsUnique | crates/gausstwin-core/src/model.rs:433-450 | how far a tick gets is determined by the order and by which agents fail |
| ObjectPool.CurrentSizeTracksStorage | crates/gausstwin-core/src/pool.rs:136-236 | in every interleaving the size counter is the storage length corrected by pops not yet subtracted and pushes not yet added, modulo 2^64, plus what pre-warming counted but dropped |
| ObjectPool.ExactWhenQuiescent | crates/gausstwin-core/src/pool.rs:136-236 | between calls acquired = hits + misses and created - destroyed = stored + acquired - returned + excess; the size counter is exact if and only if the initial filling fitted |
| ObjectPool.PeakNeverDecreases | crates/gausstwin-core/src/pool.rs:239-254 | the peak never goes down, in any interleaving of the compare-and-swap loop |
| ObjectPool.PeakIsExactIff | crates/gausstwin-core/src/pool.rs:173-254 | for every pool without dropped objects: the peak is the largest number ever stored in every quiescent state of every run if and only if at most one thread uses the pool, or it starts full with 2^64 - 1 objects |
| ObjectPool.Overshoot | crates/gausstwin-core/src/pool.rs:173-254 | from any settled non-empty pool with two threads, a run after which the peak is one more than was ever stored |
| ObjectPool.SequentialPeakIsExact | crates/gausstwin-core/src/pool.rs:173-254 | for any number of threads whose calls do not overlap, the peak is the largest number of objects ever stored |
| ObjectPool.PeakCanWrap | crates/gausstwin-core/src/pool.rs:173-254 | every empty pool with at least three threads has a run that ends quiescent with the largest machine word as its peak although one object was stored at most |
| ObjectPool.RunInv | crates/gausstwin-core/src/pool.rs:173-254 | the counting invariant holds in every state of every interleaving |
| Arena.AgentArena.Allocate | crates/gausstwin-core/src/pool.rs:399-416 | fails exactly when every slot is live; otherwise hands out the first free slot, which was not live, and changes no other |
| Arena.AgentArena.Deallocate | crates/gausstwin-core/src/pool.rs:419-434 | frees exactly that slot and puts it first; freeing a free slot does nothing; an out-of-range slot is an error |
| Arena.AgentArena.Clear | crates/gausstwin-core/src/pool.rs:486-494 | empties the arena and queues the freed slots behind the free ones, ascending |
| Arena.AgentArena.CountsAgree | crates/gausstwin-core/src/pool.rs:471-484 | live slots plus free slots make up the capacity, and the count is the number of live slots |
| Arena.FreeThenReuse | crates/gausstwin-core/src/pool.rs:399-434 | freeing any live slots and allocating as many hands the same slots out in reverse order and restores the free list |
| SpatialGrid.NearbyCell | crates/gausstwin-core/src/gpu.rs:539-565 | any point within the radius lies in one of the cells a query visits |
| SpatialGrid.Candidates | crates/gausstwin-core/src/gpu.rs:555-573 | on a built grid a query returns each index at most once, includes everything the linear scan returns, and nothing further than the visited block allows |
| SpatialGrid.AxisSpread | crates/gausstwin-core/src/gpu.rs:539-565 | cells at most k apart hold points less than k + 1 cell sizes apart |
| SpatialGrid.InsertIndexes | crates/gausstwin-core/src/gpu.rs:548-552 | inserting the next index keeps every index in the cell of its position, once |
| SpatialGrid.SearchWithGrid | crates/gausstwin-core/src/gpu.rs:460-505 | building the grid, querying it and filtering by distance finds exactly what the linear scan finds |
| Cells.CollectBox | crates/gausstwin-core/src/gpu.rs:555-573 | the three nested loops gather exactly the items of the cells in the box, each once |
| Cells.StoredUpdate | crates/gausstwin-core/src/spatial.rs:168-170 | changing one cell changes the total by the difference |
| NearestNeighbors.KnnSearchAll | crates/gausstwin-core/src/gpu.rs:402-457 | one answer per query: min(k, n) distinct points with their distances, nearest first and ties in data order, and no point left out is nearer; empty answers without data |
| NearestNeighbors.RootsKeepNearest | crates/gausstwin-core/src/gpu.rs:449-454 | sorting and cutting by squared distance before taking roots keeps order, ties and nearness |
| NearestNeighbors.CutOff | crates/gausstwin-core/src/gpu.rs:448-450 | cutting a sorted list off keeps the nearest |
| AdaptiveGrid.AdaptiveHashGrid.Insert | crates/gausstwin-core/src/spatial.rs:38-51 | the agent joins the cell of its position and the count goes up by one |
| AdaptiveGrid.AdaptiveHashGrid.Remove | crates/gausstwin-core/src/spatial.rs:53-71 | takes out one occurrence if the cell of that position holds the agent, drops the cell when it becomes empty, and says whether it did |
| AdaptiveGrid.InsertTracks | crates/gausstwin-core/src/spatial.rs:38-51 | insertion keeps the grid equal to the position map: each agent in exactly the cell of its position, no empty cell |
| AdaptiveGrid.RemoveTracks | crates/gausstwin-core/src/spatial.rs:53-71 | removal with the true position keeps the grid equal to the position map |
| AdaptiveGrid.RegionAgrees | crates/gausstwin-core/src/spatial.rs:103-125 | a region query returns each agent at most once, every agent inside the box, and only agents in the touched cells |
| AdaptiveGrid.AdaptiveHashGrid.AgentCount | crates/gausstwin-core/src/spatial.rs:168-170 | the count is insertions minus removals since the last clear, and the size of the position map the grid tracks |
| AdaptiveGrid.RadiusAgrees | crates/gausstwin-core/src/spatial.rs:74-100 | a radius query returns each agent at most once, and every agent within the radius if and only if the visited cells cover them |
| AdaptiveGrid.RadiusCompleteIff | crates/gausstwin-core/src/spatial.rs:74-178 | for a radius and cell size the radius query is complete for all positions if and only if the rounded-up radius is not lowered by dividing by the cell size |
| AdaptiveGrid.Replay | crates/gausstwin-core/src/spatial.rs:38-178 | over any history with true old positions the grid agrees with the plain position map |
| DenseGrid.IndexInRange | crates/gausstwin-core/src/spatial.rs:434-436 | coordinates inside the grid index inside the array |
| DenseGrid.IndexInjective | crates/gausstwin-core/src/spatial.rs:434-436 | different coordinates have different indices |
| DenseGrid.CacheOptimizedGrid.Set | crates/gausstwin-core/src/spatial.rs:398-408 | succeeds exactly inside the grid and changes that coordinate and no other |
| DenseGrid.CacheOptimizedGrid.PositionToCoord | crates/gausstwin-core/src/spatial.rs:410-432 | a coordinate is found exactly for positions inside the grid's box, and the position lies in that cell |
| LruCache.LruCache.Get | crates/gausstwin-data/src/cache.rs:127-150 | drops exactly the expired entries, then answers with the stored value or a miss; hits and misses are counted |
| LruCache.LruCache.Put | crates/gausstwin-data/src/cache.rs:152-182 | every entry kept is the new one or an old one unchanged, nothing is evicted while the bound allows it, and evictions are counted |
| LruCache.LruCache.EvictExpired | crates/gausstwin-data/src/cache.rs:86-105 | exactly the expired entries go |
| UnifiedStore.UnifiedStoreImpl.GetHybrid | crates/gausstwin-data/src/store.rs:401-431 | answers what the two stores would assemble and leaves them unchanged, whatever the cache holds |
| UnifiedStore.UnifiedStoreImpl.StoreHybrid | crates/gausstwin-data/src/store.rs:370-399 | writes both stores and keeps the cache coherent |
| UnifiedStore.UnifiedStoreImpl.Delete | crates/gausstwin-data/src/store.rs:516-525 | the key is gone from both stores and the cache stays coherent |
| UnifiedStore.UnifiedStoreImpl.BatchPutAll | crates/gausstwin-data/src/store.rs:573-597 | stops at the first value that does not parse; what came before stays written |
| UnifiedStore.History | crates/gausstwin-data/src/store.rs:370-597 | over every sequential history, with arbitrary evictions, and arbitrary removals and coherent insertions with any time to live by other holders of the cache, answers and contents are those of the stores without a cache; the cache stays within its bound and counts its entries |
| Blockchain.TamperEvidence | crates/gausstwin-core/src/blockchain.rs:105-171 | two accepted chains of equal length and tip hash hash the same bytes in every block after genesis, or two blocks in the same place exhibit a hash collision |
| Blockchain.TamperedFieldsShow | crates/gausstwin-core/src/blockchain.rs:105-171 | then, short of a collision, index, time stamp, nonce (modulo 2^64), links and payload bytes of every such block agree |
| Blockchain.RewriteUnnoticed | crates/gausstwin-core/src/blockchain.rs:105-171 | short of a collision, replacing the transactions of a mined block leaves the chain accepted if and only if the payload bytes are the same |
| Blockchain.PayloadDetermines | crates/gausstwin-core/src/blockchain.rs:163-168 | with equal field lengths, equal payload bytes mean equal transactions except for their actions, and conversely |
| Blockchain.BoundariesAreNotHashed | crates/gausstwin-core/src/blockchain.rs:163-168 | moving text from one transaction's data into the next one's id changes the transactions but not the payload |
| Blockchain.DigitsMoveUnnoticed | crates/gausstwin-core/src/blockchain.rs:163-168 | the same with data that are JSON numbers on both sides: digits of a number move into the next id |
| Blockchain.BigEndianInjective | crates/gausstwin-core/src/blockchain.rs:156-162 | the big-endian encoding of a number in range determines the number |
| Blockchain.SplitHashedBytes | crates/gausstwin-core/src/blockchain.rs:156-171 | equal hashed bytes and equal link lengths give equal header fields and payloads |
| Blockchain.SimulationBlockchain.MineBlock | crates/gausstwin-core/src/blockchain.rs:77-102 | the chain stays valid and gains one block with all pending transactions and the least nonce that meets the difficulty; mined plus pending transactions are always all added ones in order |
| Blockchain.SimulationBlockchain.IsChainValid | crates/gausstwin-core/src/blockchain.rs:105-122 | true if and only if every block after genesis is correctly hashed and linked |
| Blockchain.SimulationBlockchain.GetAgentHistory | crates/gausstwin-core/src/blockchain.rs:125-137 | the agent's mined transactions in the order added; with the pending ones, all it ever added |
| Des.EventQueue.ScheduleEvent | crates/gausstwin-des/src/lib.rs:334-357 | negative times are refused; queue and table stay paired; the counters go up, once too often exactly when the id was already pending |
| Des.EventQueue.PeekNextEvent | crates/gausstwin-des/src/lib.rs:359-364 | looking the queued id up never fails and shows a greatest event |
| Des.EventQueue.PopNextEvent | crates/gausstwin-des/src/lib.rs:366-381 | removes a greatest event from queue and table and moves one from pending to processed without underflow |
| Des.EventQueue.CancelEvent | crates/gausstwin-des/src/lib.rs:383-402 | removes the event from queue, table and counters without underflow, or reports it missing with nothing changed |
| Des.QueueHistory | crates/gausstwin-des/src/lib.rs:334-402 | over every history with fresh ids pending is the queue size, total = processed + pending + cancelled, and the distribution sums to processed + pending |
| Des.CoveredRemove | crates/gausstwin-des/src/lib.rs:383-402 | the distribution entry of a pending event is positive, so that cancelling cannot underflow |
| Des.GreatestStayKept | crates/gausstwin-des/src/lib.rs:653-690 | inserting a time and dropping the least beyond ten keeps exactly the ten greatest distinct times ever checkpointed |
| Des.DiscreteEventSimulator.CreateCheckpoint | crates/gausstwin-des/src/lib.rs:653-693 | the retained times stay the ten greatest; the new checkpoint holds clock, history and pending events, and is missing exactly when ten later ones are retained |
| Des.RestoredExact | crates/gausstwin-des/src/lib.rs:740-748 | a restored queue holds exactly the checkpoint's pending events at or after the target |
| Des.DiscreteEventSimulator.RollbackToTime | crates/gausstwin-des/src/lib.rs:695-756 | fails exactly for future targets or when no retained time is at or before the target; otherwise restores clock, history and due pending events of the greatest such time, and as written hangs exactly when an event is to be restored; on checkpoints made by runs that is exactly a pending event tied with checkpoint and target, and otherwise nothing is restored |
| DesRuns.RollbackToTie | crates/gausstwin-des/src/lib.rs:695-756 | a run of two events at one time with a limit of one, after which rolling back to that time hangs with the lock held and restores the other event with the lock released |
| Des.OnlyTied | crates/gausstwin-des/src/lib.rs:740-748 | of events not later than their checkpoint, exactly those at the time of both checkpoint and target are restored |
| Des.DiscreteEventSimulator.RollbackToCheckpoint | crates/gausstwin-des/src/lib.rs:758-774 | restores exactly the checkpoint of that id, unless it is unknown or lies in the clock's future |
| Des.DiscreteEventSimulator.Run | crates/gausstwin-des/src/lib.rs:523-612 | exact number of events, each pending event at most once, in falling order of time, nothing at all when one lies beyond the horizon; final clock, state history and checkpointed times; with checkpointing, a resume point of the final state is left if and only if fewer than ten of the times retained before and of those marked on the way are later than the last; no checkpoint ever holds an event later than itself |
| Des.DiscreteEventSimulator.RunParallel | crates/gausstwin-des/src/lib.rs:404-439 | a round of parallel execution processes everything pending unless the limit is zero or an event lies beyond the horizon; the clock ends at the greatest time; the history is written in the order in which tasks finish |
| DesRuns.FinishOrderIrrelevantIff | crates/gausstwin-des/src/lib.rs:545-581 | all finish orders give the same state history if and only if state changes at the same time agree on the value |
| DesRuns.SameTimes | crates/gausstwin-des/src/lib.rs:359-381 | any two ways to pop the same number of events, breaking ties differently, go through the same times |
| DesRuns.RunAndResume | crates/gausstwin-des/src/lib.rs:603-609 | whether a run leaves a resume point is decided by the pending events, the retained checkpoints, the limits and the interval before it starts |
| DesRuns.RunOnePerTime | crates/gausstwin-des/src/lib.rs:603-609 | a new simulator that runs n events at different times with a checkpoint after each has a checkpoint of its final state if and only if n is at most ten |
| Des.RetainedIff | crates/gausstwin-des/src/lib.rs:683-690 | a time once checkpointed is retained if and only if fewer than ten later ones were |
| Des.LaterKept | crates/gausstwin-des/src/lib.rs:683-690 | counting later times among the retained ones decides as counting among all ever checkpointed |

## Left out

- ThreadPool: priorities, deadlines, latency and per-worker statistics are not modelled; the channel ignores priorities anyway. Memory accesses are sequentially consistent and closures return. Counters other than the active count are unbounded.
- ThreadPool: `submit_batch` is a loop of submits and adds no behaviour.
- ThreadPool.CanAlwaysDrain: says that the count can always reach zero; with `WorkIsBounded` only idle polling can go on for ever, but fairness of the scheduler is not modelled.
- ObjectPool: only the size and peak counters wrap at 64 bits; the others are unbounded. `PoolGuard` and `AgentPool` are thin wrappers.
- Arena: generations never change in the code and so carry no property; `iter` and mutable access are left out.
- EventQueue: the binary heap is its contract, popping some event that no other outranks; dispatchers, processors and the message dispatcher would only add easy members.
- Scheduler: statistics other than the decision count, and automatic batch sizes, are left out.
- Model: the event-based scheduler is treated on its own in `EventScheduler.dfy`, because the model's loop over it need not end. The scheduler object behind a trait is a datatype over the cursor and the priority scheduler.
- Model: spaces, metrics, snapshots, wall-clock time and agent state are left out; whether an agent's step succeeds is a parameter. The state `Failed` is never entered by the code.
- Model.StandardModel.Run: assumes that no event without an execution limit is live at a tick that is reached; with one the loop of that tick does not end.
- Model.SameSeedSameTrace: covers Random, Sequential and Parallel; for Priority the seed fixes nothing, see `OrderDeterminedIff` and `ZeroPriorities`.
- Model.BuildAndRun: likewise.
- Reruns.RunTwice: likewise.
- SpatialGrid: coordinates are reals, so rounding, NaN and 32-bit saturation are not modelled; cell size must be positive and the radius not negative. The linear scan returns indices; the distances beside them are left out. In `NearestNeighbors` the square root is a parameter.
- AdaptiveGrid: `nearest_neighbors` and per-cell query statistics are left out; so is the placeholder R*-tree.
- LruCache: query frequency and last access time are not read by any decision and are left out.
- UnifiedStore: sequential histories only, since no transaction spans the stores and the cache. JSON encoding is taken to be lossless; `search`, `hybrid_search`, `list`, similarity and the database clients are left out.
- Blockchain: time stamps are whole seconds, as they are hashed; that some nonce meets the difficulty is the proof-of-work assumption and a ghost argument of `MineBlock`; the nonce is unbounded. The hash is a parameter with fixed output length; results on tampering hold up to a collision between blocks at hand. Consensus and leader election are left out.
- Des.DiscreteEventSimulator.RunParallel: tasks do not fail and nothing is scheduled while they run; the bound on concurrent tasks only delays them.
- Des: time warp, rates and averages are left out; whether the checkpoint interval has elapsed is a parameter. State history keys are taken to survive their conversion to text and back.
- Network interfaces, storage clients, bindings, profiling and visualisation are left out.
