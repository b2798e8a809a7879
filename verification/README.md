# Verified model of the CPD firmware

This project models two layers of the firmware and proves properties of the models in
Dafny 4.11: the FreeRTOS V10.4.6 kernel under `src/freertos`, and the parts of the
application whose correctness does not show in any one function. `dafny verify
dfyconfig.toml` checks everything.

Most components come in two files. One holds the state as a value, the operations on it as
functions, one for each critical section, and the lemmas about whole runs. The other holds
an object with the fields that the C code has, whose methods carry the same operations out
in place, loops included; each method's contract equates the new state with the function
applied to the old one.

| file | what it models |
|---|---|
| `Lists.dfy` | the circular list with its end marker and roving index, on values and on pointers |
| `Clock.dfy` | the 32-bit tick count and the two delay lists, against unbounded time |
| `Tasks.dfy`, `Partition.dfy`, `Kernel.dfy` | the task lists, suspension of the scheduler, pended ticks, selection |
| `Places.dfy`, `Wakeups.dfy` | where each task is after each operation; sleeping, waking and taking turns over whole runs |
| `Mutex.dfy`, `MutexFair.dfy`, `MutexInverted.dfy`, `MutexOvertaken.dfy`, `MutexHandover.dfy`, `MutexObject.dfy` | mutexes and priority inheritance |
| `Queue.dfy`, `QueueRing.dfy` | the lock-count protocol between tasks and interrupts, and the byte ring |
| `Deadline.dfy` | time-outs of blocking calls, and fixed intervals |
| `Timer.dfy`, `TimerCommands.dfy`, `TimerDaemon.dfy` | software timers |
| `StreamBuffer.dfy`, `StreamBufferCalls.dfy`, `StreamBufferObject.dfy` | stream and message buffers, byte by byte under interleaving |
| `EventGroup.dfy`, `EventGroupWords.dfy`, `EventGroupObject.dfy` | event groups, on sets of bits and on 32-bit words |
| `BootCrc.dfy`, `Boot.dfy`, `BootObject.dfy` | the boot loader's installation of an image |
| `Para.dfy`, `ParaObject.dfy` | tiered parameter storage |
| `Agent.dfy` | the agent's work queue and its semaphore |
| `SerialFlash.dfy` | writing to a serial flash chip |
| `Proto.dfy` | the packet protocol and its CRC |

## What the proofs found

Some things that one would like to hold do not. The model keeps the code as it is; each time
there is a lemma that says exactly when the property holds, or an input for which it fails.

- Round robin can pass a task over: if the indexed item is removed and an item is inserted
  before the next selection, the new item goes first (`Lists.SkippedWithoutProviso`). The
  only operation that can delay an item is an insertion while the index rests on it
  (`Lists.WaitStep`).
- `xQueueGenericReset` frees every slot and wakes one sender, so that other senders can
  sleep on beside free slots (`Queues.ResetServesSendersIff`, `Queues.SenderLostAfterReset`).
- Overwriting is safe only for items with a size; on a full semaphore it counts past the
  length (`Queues.AddedBoundedIff`, `Queues.SemaphoreOverwritten`).
- Priority inheritance fails in two ways. It does not follow chains: when a task that waits
  for one mutex is raised through another, its place in the wait list stays and the holder
  it waits for inherits nothing (`InvertedRuns.InvertedRun`). And a task that takes a free
  mutex while others wait inherits nothing from them: if the waiter that was woken is
  suspended before it retries, a lower task can take the mutex, and a higher waiter waits
  for it (`OvertakenRuns.OvertakenRun`). `Inversions.ActFairIff` says for every action, by
  the state before it, exactly when no holder is left below any waiter.
- A time-out is misjudged when the tick count has gone round twice between two checks
  (`Deadlines.CheckExactIff`, `Deadlines.TwiceRoundMisjudged`), and `xTaskDelayUntil` when
  it is called a wrap late (`Deadlines.DelayUntilExactIff`, `Deadlines.LateCallMisjudged`).
- `gdf_write_data_by_word` programs whole words, and `calculate_crc32` masks the LOW bytes
  of an incomplete last word, so that it looks at bytes behind the image instead of some
  of the image's own. An image whose size is no multiple of four is therefore judged by the wrong
  bytes: it can be reported as installed with its last bytes missing
  (`BootObjects.LastByteMissing`), or be complete and be rejected, and then it is copied
  again after every reset (`BootObjects.ReportTrueIff`, `BootObjects.RetriesForEver`). The
  exact conditions are those of `BootObjects.FinishedIff` and `BootObjects.CopyExactIff`.
- The loader does not compare the image size with the application region. An image that is
  larger by a word or more is written over its own source (`Boots.FitsIff`), and a reset can
  then leave neither application nor image. One that is larger by one to three bytes is
  written over nothing, but the check of its last word reads the staging area, where the
  application may write. `Boots.LostIff` has both, and shows that the bound in the
  crash-safety theorem is the least there is below 2^31 bytes; from there on both checks
  read no byte at all.
- Marking the header as finished leaves its CRC as it was. That is harmless: either check
  stops the next installation.
- With an intact user area the backup is judged by its CRC fields only
  (`Paras.DamagedBackupStays`).
- After `agent_flush` a post can report failure although its job is queued and will run
  (`Agents.RefusedButQueued`, `Agents.RefusedAfterFlush`).
- A packet without data is rejected when less than two bytes follow it, and it is then lost
  (`Protocol.BuildCheckEmpty`, `Protocol.LastEmptyLost`). The instruction length is kept in
  16 bits; for one data length it is zero, and the processing loop does not move
  (`Protocol.MovesBy`, `Protocol.StuckForEver`), which no buffer of less than 65536 bytes
  can bring about (`Protocol.ShortNeverStuck`).

## Model

| member | source | states |
|---|---|---|
| `Lists.InsertSortedContents` | src/freertos/list.c:117-185 | a sorted insertion adds one entry and loses none |
| `Lists.InsertSortedOrder` | src/freertos/list.c:117-185 | a sorted list stays sorted |
| `Lists.InsertSortedStable` | src/freertos/list.c:117-185 | among entries of one value the new one comes last and the others keep their order |
| `Lists.SelectRotates` | src/freertos/include/list.h:282-292 | taking the owner of the next entry takes the first in line and sends it to the back; the end marker is skipped |
| `Lists.RoundRobin` | src/freertos/include/list.h:282-292 | n selections on an unchanged list of n visit every item exactly once |
| `Lists.RemoveKeepsOrder` | src/freertos/list.c:188-214 | removal of any item, the indexed one included, changes nothing in the order in which the others will be selected |
| `Lists.InsertEndIsLast` | src/freertos/list.c:87-114 | an item inserted at the end is selected after all others but the one the index rests on |
| `Lists.WaitStep` | src/freertos/list.c:87-214 | exactly how each operation changes how long an item still waits to be selected: a selection by one less, a removal by one less if what is removed stood ahead and not at all otherwise, and only an insertion while the index rests on the item itself delays it, by one |
| `Lists.NeverSkipped` | src/freertos/list.c:87-214 | an item is selected after at most as many other selections as it had to wait for at the start, provided nothing is inserted while the index rests on it, whatever else is inserted and removed |
| `Lists.SkippedWithoutProviso` | src/freertos/list.c:87-214 | without that provision the claim fails: a concrete list on which a removal and an insertion let the new item go first |
| `Lists.List.constructor` | src/freertos/list.c:50-72 | a new list is empty and its links and counts are sound |
| `Lists.List.InsertEnd` | src/freertos/list.c:87-114 | pointer surgery has the effect of insertion before the index; links stay mutually inverse, the count is the length |
| `Lists.List.InsertionPoint` | src/freertos/list.c:137-170 | the search loop ends, also for the largest value, at the place where a stable sorted insertion belongs |
| `Lists.List.Insert` | src/freertos/list.c:117-185 | the entries become those of the sorted insertion; the index does not move; links and count stay sound |
| `Lists.List.Remove` | src/freertos/list.c:188-214 | exactly the given item leaves the list; the index steps back if it rested there; returns the number left |
| `Lists.List.OwnerOfNextEntry` | src/freertos/include/list.h:282-292 | moves the index as the rotation says and returns the item chosen |
| `Clocks.DueOrdered` | src/freertos/tasks.c:5314-5424 | the two delay lists, read as true times, form one sorted list that lies within one wrap of the present |
| `Clocks.BlockTimely` | src/freertos/tasks.c:5314-5424 | blocking keeps both lists on the right side of the count, and the cached unblock time not later than the head |
| `Clocks.BlockRefines` | src/freertos/tasks.c:5314-5424 | blocking for k ticks inserts exactly one alarm, k ticks from now in unbounded time, whether or not the wake time wraps |
| `Clocks.DropRefines` | src/freertos/tasks.c:5329-5340 | taking a task off the lists removes its alarm and no other |
| `Clocks.ResetNextTimely` | src/freertos/tasks.c:4010-4028 | recomputing the cached unblock time keeps it not later than the head and changes no alarm |
| `Clocks.EmptyWhenSwitched` | src/freertos/tasks.c:201-213 | the assertion in the list switch cannot fail: the current list is empty when the count wraps |
| `Clocks.WakeRefines` | src/freertos/tasks.c:2774-2832 | the wake loop removes exactly the entries whose time has come and restores the cached time |
| `Clocks.AdvanceRefines` | src/freertos/tasks.c:2755-2763 | counting a tick, with or without a switch of lists, moves true time by one and changes no alarm |
| `Clocks.TickRefines` | src/freertos/tasks.c:2740-2850 | one tick is one step of true time and leaves exactly the alarms that are still to come |
| `Clocks.TicksRefine` | src/freertos/tasks.c:2740-2850 | n ticks are n steps of true time, over any number of wraps |
| `Clocks.SleepsExactly` | src/freertos/tasks.c:5314-5424 | a task that blocks for k ticks is still waiting after n ticks if and only if n < k, and disturbs no other alarm |
| `Partition.DelayConsistent` | src/freertos/tasks.c:5314-5424 | blocking the running task moves it from its ready list to one other list |
| `Partition.PlaceConsistent` | src/freertos/tasks.c:3101-3123 | waiting for an event puts the task on one event list and off the ready list |
| `Partition.EventConsistent` | src/freertos/tasks.c:3187-3252 | an event takes the first waiter off; with the scheduler suspended it goes on the pending list instead |
| `Partition.SuspendConsistent` | src/freertos/tasks.c:1720-1823 | a suspended task is on the suspended list only and on no event list |
| `Partition.ResumeConsistent` | src/freertos/tasks.c:1872-1998 | resuming, by a task or an interrupt, readies a suspended task and no other |
| `Partition.CreateConsistent` | src/freertos/tasks.c:1075-1158 | a new task is counted and goes on the ready list of its priority |
| `Partition.DeleteConsistent` | src/freertos/tasks.c:1161-1258 | a deleted task leaves every list; one that deletes itself goes on the termination list |
| `Partition.CleanUpConsistent` | src/freertos/tasks.c:3702-3727 | the idle task frees a task from the termination list and counts one less |
| `Partition.SwitchConsistent` | src/freertos/tasks.c:3025-3097 | a context switch moves an index and no task |
| `Partition.WakeDueConsistent` | src/freertos/tasks.c:2774-2832 | the wake loop keeps every task on one list and treats the clock as the clock module says |
| `Partition.TickConsistent` | src/freertos/tasks.c:2740-2850 | a counted tick keeps the lists in order and is one tick of the clock |
| `Partition.MovePendingConsistent` | src/freertos/tasks.c:2248-2266 | emptying the pending list readies each held task |
| `Partition.ReplayConsistent` | src/freertos/tasks.c:2279-2307 | the replay loop is as many ticks of the clock as were pended |
| `Partition.ResumeLast` | src/freertos/tasks.c:2224-2333 | resuming to nesting zero leaves nothing pending and no tick lost, and the alarms left are those still to come in real time |
| `Partition.ResumeAllConsistent` | src/freertos/tasks.c:2224-2333 | ending a suspension at any depth keeps the invariant and real time |
| `Partition.StepConsistent` | src/freertos/tasks.c:1075-3252 | every kernel operation keeps every task on exactly one state list and at most one event list, ready tasks by priority |
| `Partition.StepTime` | src/freertos/tasks.c:2740-2850 | real time, counted and pended ticks together, moves by one with each tick interrupt and not otherwise |
| `Partition.FirstTaskConsistent` | src/freertos/tasks.c:1075-1137 | the invariant holds once the first task is created |
| `Partition.RunsConsistent` | src/freertos/tasks.c:1075-3252 | over every run: the lists stay in order, and whenever the scheduler is not suspended the true count equals the number of tick interrupts |
| `Partition.WhereTasksAre` | src/freertos/tasks.c:1075-3252 | what the invariant says of a single task: where it is, and that the number of tasks is the number of control blocks |
| `Partition.SelectsHighest` | src/freertos/tasks.c:136-151 | with the idle task ready the selection loop ends on a ready task of the highest priority there is |
| `Places.DelayPlaces` | src/freertos/tasks.c:5314-5424 | blocking for a number of ticks puts the running task to sleep until that many ticks from now in unbounded time; asked to wait for ever, it is parked instead; no other task is moved |
| `Places.DelayAlarm` | src/freertos/tasks.c:5344-5387 | in terms of alarms: just one is added, at that time, and the task is not on the suspended list; or none, and it is |
| `Places.WaitPlaces` | src/freertos/tasks.c:3101-3123 | waiting for an event does the same and puts the task on that event list and no other |
| `Places.EventPlaces` | src/freertos/tasks.c:3187-3252 | an event takes the first waiter off its list and readies it, or holds it while the scheduler is suspended; no other task is moved |
| `Places.SuspendPlaces` | src/freertos/tasks.c:1720-1823 | a suspended task is parked, on no event list and not held; no other task is moved |
| `Places.ResumePlaces` | src/freertos/tasks.c:1872-1912 | a resume readies its task if and only if that task was really suspended and does not run; no other task is moved |
| `Places.ResumeIsrPlaces` | src/freertos/tasks.c:1926-1998 | an interrupt's resume does so with the scheduler running, and holds the task otherwise |
| `Places.CreatePlaces` | src/freertos/tasks.c:1075-1158 | a new task is ready |
| `Places.DeletePlaces` | src/freertos/tasks.c:1161-1258 | a deleted task is gone, or ended and left to the idle task if it deletes itself |
| `Places.CleanUpPlaces` | src/freertos/tasks.c:3702-3727 | the idle task forgets the first ended task and no other |
| `Places.TickPlaces` | src/freertos/tasks.c:2740-2850 | a counted tick readies exactly the tasks whose time has come, and takes exactly those off the event lists |
| `Places.ResumeLastPlaces` | src/freertos/tasks.c:2224-2333 | the end of a suspension readies exactly the held tasks and those whose time has come meanwhile |
| `Places.StepMoves` | src/freertos/tasks.c:1075-3252 | for every kernel operation and every task: where it is afterwards, on which event list, and whether it is held, as said of the state before |
| `Places.StepCounts` | src/freertos/tasks.c:2185-2850 | for every operation: the time counted, the depth of suspension, and the running task, which only a switch replaces |
| `Wakeups.ReadyInTime` | src/freertos/tasks.c:1350-1390 | over every run: a task that blocks for a number of ticks, alone or for an event that does not come, is ready once that many have been counted and not before, and waits on its event list just until then, through suspensions, pended ticks and resumes; with the scheduler running it is ready if and only if as many tick interrupts have come |
| `Wakeups.EventNotLost` | src/freertos/tasks.c:3187-3252 | over every run: a task that an event has woken is ready whenever the scheduler is not suspended, and held while it is; so no wake-up is lost |
| `Wakeups.OnlyTheEvent` | src/freertos/tasks.c:5344-5360 | over every run: a task that waits for ever is readied by no tick and no resume, although it is on the suspended list |
| `Wakeups.ResumableIs` | src/freertos/tasks.c:1826-1867 | the test for a really suspended task holds exactly for a task that is parked, waits for no event and is not held |
| `Wakeups.RunsQueued` | src/freertos/tasks.c:3101-3123 | over every run each event list stays in the order of its tasks' priorities |
| `Wakeups.EventTakesHighest` | src/freertos/tasks.c:3187-3252 | so an event goes to a waiter of the highest priority |
| `Wakeups.TakesTurns` | src/freertos/tasks.c:136-151 | as many switches as there are ready tasks of the highest priority run each of them once, in order |
| `Wakeups.LinesUpLast` | src/freertos/tasks.c:221-225 | a readied task lines up behind all others of its priority but the one that the index rests on |
| `Kernels.Kernel.ResetNextTaskUnblockTime` | src/freertos/tasks.c:4010-4028 | the cached time becomes the head's wake time, or the maximum |
| `Kernels.Kernel.AddTaskToReadyList` | src/freertos/tasks.c:221-225 | the task goes to the end of the list of its priority, and the recorded top priority covers it |
| `Kernels.Kernel.AddCurrentTaskToDelayedList` | src/freertos/tasks.c:5314-5424 | the running task leaves its list for the suspended, current or overflow list |
| `Kernels.Kernel.PlaceOnEventList` | src/freertos/tasks.c:3101-3123 | sorted insertion in the event list, then blocking |
| `Kernels.Kernel.RemoveFromEventList` | src/freertos/tasks.c:3187-3252 | the first waiter is readied or held; reports whether it is of higher priority |
| `Kernels.Kernel.SwitchDelayedLists` | src/freertos/tasks.c:201-213 | the lists change places, the epoch counts up and the cached time is recomputed |
| `Kernels.Kernel.UnblockDue` | src/freertos/tasks.c:2774-2832 | the wake loop, proved against its recursive specification |
| `Kernels.Kernel.IncrementTick` | src/freertos/tasks.c:2740-2850 | one tick interrupt, counted or pended |
| `Kernels.Kernel.ReadyPending` | src/freertos/tasks.c:2248-2266 | the loop over the pending ready list |
| `Kernels.Kernel.ReplayPendedTicks` | src/freertos/tasks.c:2279-2307 | the loop over the pended ticks |
| `Kernels.Kernel.ResumeAll` | src/freertos/tasks.c:2224-2333 | ends one level of suspension |
| `Kernels.Kernel.SuspendTask` | src/freertos/tasks.c:1720-1823 | suspends a task |
| `Kernels.Kernel.ResumeTask` | src/freertos/tasks.c:1872-1912 | resumes a task that was really suspended |
| `Kernels.Kernel.IsTaskSuspended` | src/freertos/tasks.c:1826-1867 | tells a suspended task from one that blocks without a timeout or has been resumed already |
| `Kernels.Kernel.ResumeFromIsr` | src/freertos/tasks.c:1926-1998 | readies the task, or holds it while the scheduler is suspended |
| `Kernels.Kernel.AddNewTask` | src/freertos/tasks.c:1075-1158 | adds a task |
| `Kernels.Kernel.DeleteTask` | src/freertos/tasks.c:1161-1258 | deletes a task, or leaves it to the idle task |
| `Kernels.Kernel.CheckTasksWaitingTermination` | src/freertos/tasks.c:3702-3727 | the idle task's loop frees every task that waits for it |
| `Kernels.Kernel.SwitchContext` | src/freertos/tasks.c:3025-3097 | the selection loop finds the highest non-empty list |
| `Kernels.Kernel.PriorityInherit` | src/freertos/tasks.c:4078-4160 | raises the holder, in its ready list if it is ready, and reports inheritance |
| `Kernels.Kernel.PriorityDisinherit` | src/freertos/tasks.c:4168-4241 | gives back one mutex; with the last one the holder returns to its own priority |
| `Kernels.Kernel.PriorityDisinheritAfterTimeout` | src/freertos/tasks.c:4248-4347 | lowers the holder of one mutex to the highest remaining waiter |
| `Kernels.Kernel.IncrementMutexHeldCount` | src/freertos/tasks.c:4691-4701 | counts one more mutex for the running task |
| `Mutexes.SetPriorityConsistent` | src/freertos/tasks.c:4108-4130 | a change of an inherited priority keeps every list in order and no task's readiness changes |
| `Mutexes.InheritBooked` | src/freertos/tasks.c:4078-4160 | after inheritance the holder is not below the running task; it is reported if and only if the holder's own priority is lower |
| `Mutexes.DisinheritKernel` | src/freertos/tasks.c:4168-4241 | giving back the last mutex restores the own priority, giving back another changes none |
| `Mutexes.TakeBooked` | src/freertos/queue.c:1529-1575 | taking a free mutex, or a recursive one again, keeps the bookkeeping |
| `Mutexes.BlockBooked` | src/freertos/queue.c:1625-1650 | blocking on a held mutex keeps the bookkeeping |
| `Mutexes.GiveBooked` | src/freertos/queue.c:2160-2187 | giving a mutex back keeps the bookkeeping |
| `Mutexes.TimedOutBooked` | src/freertos/queue.c:1676-1703 | a waiter's timeout keeps the bookkeeping |
| `Mutexes.OtherBooked` | src/freertos/tasks.c:1075-3252 | no other kernel operation disturbs the bookkeeping |
| `Mutexes.ActBooked` | src/freertos/queue.c:1495-1711 | every action keeps it |
| `Inversions.RepricedFairIff` | src/freertos/tasks.c:4078-4347 | a task may be given a new priority without an inversion if and only if its entry stands where that priority belongs in every wait list that holds it and the holder it waits for is not below |
| `Inversions.BlockFairIff` | src/freertos/queue.c:1625-1650 | after a block no holder is below any of its waiters and every list is in order if and only if, in the state before, the holder is as high as the running task already or may be raised to it |
| `Inversions.TimedOutFairIff` | src/freertos/queue.c:1676-1703 | the same for a timeout and the priority that the holder falls back to |
| `Inversions.TakeFairIff` | src/freertos/queue.c:1529-1575 | the same for a take: if and only if the mutex is held already or no waiter, however long it has waited, is above the running task |
| `Inversions.TakeOvertakes` | src/freertos/queue.c:1529-1575 | taking a free mutex past a higher waiter leaves the holder below that waiter, in every state |
| `Inversions.ActFairIff` | src/freertos/queue.c:1495-1711 | the same for every action; blocking, timing out and taking are the only ones that can overtake anybody |
| `Inversions.RunsBookedAndFair` | src/freertos/queue.c:1495-1711 | at the end of every run: count 1 or a holder, held count equal to the mutexes naming the task, priority at least the base and equal when none is held; and a run that begins without inversion, over all waiters of every mutex, has none throughout if and only if none of its actions overtakes anybody, as seen before it |
| `Inversions.TimeoutSettles` | src/freertos/tasks.c:4248-4347 | a timeout on a sole held mutex leaves the holder at the higher of its base and the highest waiter |
| `Inversions.NestedInverts` | src/freertos/tasks.c:4078-4160 | raising a task that itself waits for a mutex leaves that mutex's holder below it |
| `InvertedRuns.InvertedRun` | src/freertos/tasks.c:4078-4160 | a concrete run of three tasks and two mutexes, from a system of one task on, that ends in such an inversion |
| `OvertakenRuns.OvertakenRun` | src/freertos/queue.c:1529-1575 | a concrete run of three tasks and one mutex, from a system of one task on: the waiter that a give has woken is suspended before it retries, the giver takes the mutex again, and the other waiter, which is higher, waits for it |
| `Handovers.BlockPlaces` | src/freertos/queue.c:1625-1650 | a task that blocks on a mutex sleeps for the time it gave, on the wait list of that mutex, with the holder no lower than itself; no other task is moved |
| `Handovers.GivePlaces` | src/freertos/queue.c:2160-2187 | the outermost give frees the mutex, and the first waiter is ready, or held while the scheduler is suspended; no other task is moved |
| `Handovers.TakenAndGiven` | src/freertos/queue.c:638-728 | a take of a mutex that nobody waits for, or another take by the holder of a recursive one, followed by a give, leaves everything as it was |
| `MutexObjects.MutexQueue.TryTake` | src/freertos/queue.c:1529-1575 | takes the mutex if and only if it is free |
| `MutexObjects.MutexQueue.TryTakeRecursive` | src/freertos/queue.c:693-728 | counts a further call by the holder, or takes |
| `MutexObjects.MutexQueue.BlockOn` | src/freertos/queue.c:1625-1650 | inheritance first, then the wait list |
| `MutexObjects.MutexQueue.Give` | src/freertos/queue.c:2160-2187 | disinherits, frees the mutex and wakes the first waiter |
| `MutexObjects.MutexQueue.GiveRecursive` | src/freertos/queue.c:638-688 | only the holder gives, and only the outermost give lets go |
| `MutexObjects.MutexQueue.GetDisinheritPriorityAfterTimeout` | src/freertos/queue.c:2135-2157 | the priority encoded at the head of the wait list, or the idle priority |
| `MutexObjects.MutexQueue.TimedOut` | src/freertos/queue.c:1676-1703 | disinherits only if the waiter had lent its priority |
| `Queues.DrainWakes` | src/freertos/queue.c:2264-2381 | an unlock loop wakes one task per count and stops short only when nobody waits |
| `Queues.DrainTakesFirst` | src/freertos/queue.c:2264-2381 | an unlock loop wakes the first waiters, in order |
| `Queues.ReceiverWaitsIff` | src/freertos/queue.c:1443-1470 | a task that has locked the queue waits for an item if and only if its time has not run out and the queue is empty when it looks again; it waits in the order of priorities |
| `Queues.SenderWaitsIff` | src/freertos/queue.c:969-1000 | the same for space in a full queue |
| `Queues.StepWellFormed` | src/freertos/queue.c:805-2381 | every step keeps counts and lock counts in range and no task both waiting and woken |
| `Queues.StepServesReceivers` | src/freertos/queue.c:805-2381 | every step keeps each stored item covered by a woken receiver or a noted post, while anyone waits |
| `Queues.StepServesSenders` | src/freertos/queue.c:805-2381 | every step but a reset keeps each free slot covered in the same way |
| `Queues.ResetServesSendersIff` | src/freertos/queue.c:266-330 | a reset does so if and only if at most one sender waited or the woken ones are enough |
| `Queues.SenderLostAfterReset` | src/freertos/queue.c:266-330 | a concrete run in which a reset leaves a sender asleep beside a free slot |
| `Queues.NoReceiverWakeupLost` | src/freertos/queue.c:805-2381 | in every reachable unlocked state with a waiting receiver there are no more items than receivers on their way |
| `Queues.NoSenderWakeupLost` | src/freertos/queue.c:805-2381 | the same for senders and free slots, in runs without a reset |
| `Queues.AddedBoundedIff` | src/freertos/queue.c:2160-2239 | overwriting keeps the count within the length if and only if there was room or items have a size |
| `Queues.SemaphoreOverwritten` | src/freertos/queue.c:2160-2239 | a full binary semaphore that is overwritten counts two |
| `QueueRing.WriteBack` | src/freertos/queue.c:2188-2201 | writing the slot behind the last item appends it to the stored sequence |
| `QueueRing.WriteFront` | src/freertos/queue.c:2202-2214 | writing the slot read last and stepping back prepends it |
| `QueueRing.ReadFront` | src/freertos/queue.c:2243-2261 | stepping forward drops the first item |
| `QueueRing.Queue.constructor` | src/freertos/queue.c:464-505 | a new queue is empty, unlocked and nobody waits |
| `QueueRing.Queue.StoreBack` | src/freertos/queue.c:2188-2201 | the write offset wraps to the right slot and the item is appended |
| `QueueRing.Queue.StoreFront` | src/freertos/queue.c:2202-2214 | the read offset wraps backwards and the item is in the slot it left |
| `QueueRing.Queue.CopyDataToQueue` | src/freertos/queue.c:2160-2239 | appends, prepends or, at length one, replaces; the count follows |
| `QueueRing.Queue.CopyDataFromQueue` | src/freertos/queue.c:2243-2261 | yields the first item |
| `QueueRing.Queue.TrySend` | src/freertos/queue.c:834-935 | a send succeeds if and only if there is room or it overwrites, and wakes one receiver |
| `QueueRing.Queue.TryReceive` | src/freertos/queue.c:1381-1412 | a receive pops the first item and wakes one sender |
| `QueueRing.Queue.TryPeek` | src/freertos/queue.c:1744-1781 | a peek changes nothing in the contents and wakes another receiver |
| `QueueRing.Queue.SendFromIsr` | src/freertos/queue.c:1017-1181 | an interrupt's send; while the queue is locked it is noted and nobody is woken |
| `QueueRing.Queue.ReceiveFromIsr` | src/freertos/queue.c:1865-1957 | an interrupt's receive, likewise |
| `QueueRing.Queue.Lock` | src/freertos/queue.c:251-263 | locking starts both counts at zero unless they run already |
| `QueueRing.Queue.UnlockTx` | src/freertos/queue.c:2272-2350 | the first unlock loop |
| `QueueRing.Queue.UnlockRx` | src/freertos/queue.c:2353-2380 | the second unlock loop |
| `QueueRing.Queue.Reset` | src/freertos/queue.c:266-330 | empties the queue; a used queue wakes one sender |
| `Deadlines.CheckExactIff` | src/freertos/tasks.c:3324-3386 | a finite wait is reported over exactly when that much true time has passed, except when the count has gone round twice unseen |
| `Deadlines.TwiceRoundMisjudged` | src/freertos/tasks.c:3324-3386 | a check for which the condition fails |
| `Deadlines.CheckRemaining` | src/freertos/tasks.c:3324-3386 | what is left and the true time in between make up what was left before |
| `Deadlines.WaitsExactly` | src/freertos/tasks.c:3324-3386 | over any number of wake-ups remaining plus elapsed is what was asked for, and the time-out comes at the first check at or after the deadline |
| `Deadlines.NeverTimesOut` | src/freertos/tasks.c:3349-3357 | the largest wait never runs out |
| `Deadlines.DelayUntilExactIff` | src/freertos/tasks.c:1263-1343 | the wake time is the previous one plus the increment in true time; the task sleeps exactly when that is in the future, if and only if it calls within one wrap or looks late anyway |
| `Deadlines.LateCallMisjudged` | src/freertos/tasks.c:1263-1343 | a call for which it fails |
| `Deadlines.SleepsUntilWake` | src/freertos/tasks.c:1316-1323 | it sleeps for just as long as it takes to get there |
| `Deadlines.SleepsToNext` | src/freertos/tasks.c:1263-1343 | in the kernel: a task that calls in time is then asleep until its previous wake time plus the increment, in unbounded time |
| `Deadlines.NoDrift` | src/freertos/tasks.c:1263-1343 | successive wake times form an exact arithmetic progression |
| `Deadlines.TimeOut.SetTimeOutState` | src/freertos/tasks.c:3304-3321 | remembers overflow count and tick count |
| `Deadlines.TimeOut.CheckForTimeOut` | src/freertos/tasks.c:3324-3386 | the check, updating the remembered time and what is left |
| `Deadlines.TaskDelayUntil` | src/freertos/tasks.c:1263-1343 | the call as a whole, with the kernel's delay list |
| `Timers.AlreadyDueIff` | src/freertos/timers.c:711-753 | the four-way test on wrapped times asks whether a period has elapsed since the command |
| `Timers.InsertTrue` | src/freertos/timers.c:711-753 | insertion reports expiry if and only if the true expiry time has passed, and otherwise lists the timer by the true epoch of its expiry |
| `Timers.InsertInv` | src/freertos/timers.c:711-753 | listing a timer keeps every listed value equal to a true due time |
| `Timers.ReloadInv` | src/freertos/timers.c:517-532 | a backlog of expirations is worked off one callback each, and the timer is listed for the first that is still to come |
| `Timers.ExpireInv` | src/freertos/timers.c:536-560 | an expired timer is listed again or goes to rest |
| `Timers.ProcessExpiredInv` | src/freertos/timers.c:536-560 | processing the head of the current list keeps the invariant |
| `Timers.SwitchInv` | src/freertos/timers.c:903-925 | after a wrap, what is left on the current list is processed as of the end of its epoch and the lists move on |
| `Timers.SampleInv` | src/freertos/timers.c:688-708 | looking at the clock once in every wrap keeps the lists in the right epoch |
| `Timers.RoundInv` | src/freertos/timers.c:599-658 | a round of the daemon loop keeps the invariant |
| `Timers.StartInv` | src/freertos/timers.c:816-845 | a start command, however late it is obeyed within a wrap |
| `Timers.StopInv` | src/freertos/timers.c:847-851 | a stopped timer is on no list |
| `Timers.ChangeInv` | src/freertos/timers.c:853-866 | a new period counts from the time it is processed |
| `Timers.DeleteInv` | src/freertos/timers.c:868-892 | a deleted timer is on no list; a static one is only stopped |
| `Timers.ObeyInv` | src/freertos/timers.c:755-900 | every command keeps the invariant |
| `Timers.RunInv` | src/freertos/timers.c:517-925 | over every run of rounds, commands and creations |
| `Timers.FiresExactly` | src/freertos/timers.c:517-925 | once the daemon has finished time N an auto-reload timer has had floor((N - start) / period) callbacks and is due next at the first multiple after N; a one-shot timer has fired if and only if its time has come |
| `Timers.StartedTimerIsExact` | src/freertos/timers.c:517-925 | a timer started at true time C and left alone behaves as an ideal timer started at C, whatever the delays |
| `Timers.BacklogFinishes` | src/freertos/timers.c:599-658 | as many rounds as there are due timers finish any backlog |
| `Timers.StartsInv` | src/freertos/timers.c:928-975 | the daemon starts with nothing to do |
| `TimerCommands.ChangeSets` | src/freertos/timers.c:853-866 | a changed timer has the new period, is active with its reload mode unchanged, and is due one new period after the command was obeyed |
| `TimerCommands.ChangedTimerIsExact` | src/freertos/timers.c:517-925 | left alone from then on it behaves as an ideal timer with the new period started when the command was obeyed |
| `TimerCommands.HaltSets` | src/freertos/timers.c:847-851 | a stopped timer is not active, and nothing else about it changes, its callbacks included |
| `TimerCommands.StoppedIsSilent` | src/freertos/timers.c:517-925 | over every run it has no callback until a command names it again |
| `TimerCommands.RemoveSets` | src/freertos/timers.c:868-892 | a deleted timer of allocated memory is gone, one of static memory is stopped |
| `TimerCommands.RestsOn` | src/freertos/timers.c:517-925 | over every run a timer that is not active is left as it is until a command names it |
| `TimerCommands.NewTimerRests` | src/freertos/timers.c:225-390 | a new timer has the period and mode it was created with and rests until a command names it |
| `TimerDaemons.TimerDaemon.InsertTimerInActiveList` | src/freertos/timers.c:711-753 | the insertion |
| `TimerDaemons.TimerDaemon.ReloadTimer` | src/freertos/timers.c:517-532 | the reload loop |
| `TimerDaemons.TimerDaemon.ProcessExpiredTimer` | src/freertos/timers.c:536-560 | the head of the current list |
| `TimerDaemons.TimerDaemon.SwitchTimerLists` | src/freertos/timers.c:903-925 | the switching loop ends, and the lists change places |
| `TimerDaemons.TimerDaemon.SampleTimeNow` | src/freertos/timers.c:688-708 | switches if and only if the count is below the last one seen |
| `TimerDaemons.TimerDaemon.ProcessTimerOrBlockTask` | src/freertos/timers.c:599-658 | one round |
| `TimerDaemons.TimerDaemon.ProcessCommand` | src/freertos/timers.c:755-900 | one command |
| `TimerDaemons.TimerDaemon.ProcessReceivedCommands` | src/freertos/timers.c:755-900 | the command loop is a run of commands |
| `StreamBuffers.UsedAndFree` | src/freertos/stream_buffer.c:497-528 | bytes used and spaces free always make up all but one of the ring |
| `StreamBuffers.LengthRoundTrip` | src/freertos/stream_buffer.c:979-983 | a message length is read back as it was written |
| `StreamBuffers.StepInv` | src/freertos/stream_buffer.c:724-1249 | every step of writer or reader, a byte or an index at a time, keeps the invariant |
| `StreamBuffers.RunInv` | src/freertos/stream_buffer.c:724-1249 | so does every interleaving |
| `StreamBuffers.NothingLostOrTorn` | src/freertos/stream_buffer.c:724-1249 | from an empty buffer on, after every interleaving: bytes read are a prefix of bytes written, unread bytes are intact in the ring, and messages received are exactly the first messages sent, whole |
| `StreamBuffers.TooSmallTakesNothing` | src/freertos/stream_buffer.c:968-1017 | a receive takes the next message whole if it fits the caller's buffer and otherwise takes nothing |
| `StreamBuffers.SpaceIsSafe` | src/freertos/stream_buffer.c:497-528 | the writer's figure for the space is never more than there is, however stale |
| `StreamBuffers.FirstFrame` | src/freertos/stream_buffer.c:724-764 | since only whole frames are published, a non-empty message buffer holds a whole message first |
| `StreamBufferCalls.FitsIsSent` | src/freertos/stream_buffer.c:497-764 | a send of what fits when it begins is not refused and not cut short, however the reader comes in between |
| `StreamBufferCalls.NextIsReceived` | src/freertos/stream_buffer.c:911-1017 | a receive that finds a message takes just that one if the caller has room for it, and nothing if not, however the writer comes in between |
| `StreamBufferObjects.StreamBuffer.BytesInBuffer` | src/freertos/stream_buffer.c:1231-1249 | the number of unread bytes |
| `StreamBufferObjects.StreamBuffer.SpacesAvailable` | src/freertos/stream_buffer.c:497-528 | the number of free bytes |
| `StreamBufferObjects.StreamBuffer.WriteBytesToBuffer` | src/freertos/stream_buffer.c:1141-1184 | copies in one piece or two and touches nothing else |
| `StreamBufferObjects.StreamBuffer.ReadBytesFromBuffer` | src/freertos/stream_buffer.c:1187-1228 | copies out in one piece or two |
| `StreamBufferObjects.StreamBuffer.WriteMessageToBuffer` | src/freertos/stream_buffer.c:724-764 | a whole message behind its length or nothing; a stream as far as there is space |
| `StreamBufferObjects.StreamBuffer.ReadMessageFromBuffer` | src/freertos/stream_buffer.c:968-1017 | the next message if it fits, or as many bytes as fit |
| `StreamBufferObjects.StreamBuffer.Send` | src/freertos/stream_buffer.c:673-721 | a send that does not wait |
| `StreamBufferObjects.StreamBuffer.Receive` | src/freertos/stream_buffer.c:911-965 | a receive that does not wait |
| `StreamBufferObjects.TakenWhole` | src/freertos/stream_buffer.c:968-1017 | a message that was sent is received whole if it fits and left alone if not |
| `EventGroups.ClearMaskIsUnion` | src/freertos/event_groups.c:592-602 | the bits cleared are the union of the woken tasks' masks |
| `EventGroups.OrderIrrelevant` | src/freertos/event_groups.c:556-620 | which tasks are woken and which bits are cleared does not depend on the order of the list |
| `EventGroups.SetIsExact` | src/freertos/event_groups.c:533-625 | setting bits wakes exactly the waiters that old and new bits satisfy, each with those bits, and leaves every bit that none of them wants cleared |
| `EventGroups.SetInv` | src/freertos/event_groups.c:533-625 | after a set no waiter is left whose condition holds |
| `EventGroups.ClearInv` | src/freertos/event_groups.c:473-498 | nor after a clear |
| `EventGroups.WaitInv` | src/freertos/event_groups.c:317-470 | nor after a wait that blocks or returns |
| `EventGroups.SyncInv` | src/freertos/event_groups.c:194-314 | nor after a rendezvous |
| `EventGroups.ExpireInv` | src/freertos/event_groups.c:415-452 | nor after a timeout |
| `EventGroups.ResumeInv` | src/freertos/event_groups.c:407-469 | nor when a blocked call returns |
| `EventGroups.ResumeMeets` | src/freertos/event_groups.c:424-469 | a call that returns because bits were set returns bits that meet what it asked for |
| `EventGroups.WaitIs` | src/freertos/event_groups.c:317-407 | a wait returns at once if and only if its condition holds or it may not block, with the bits as they were; just the bits it wants cleared are cleared, and only if the condition held; otherwise its task waits behind all others |
| `EventGroups.SyncIs` | src/freertos/event_groups.c:194-255 | a rendezvous does to others what a set does; it returns if and only if all its bits have come, with old and new bits, or it may not block, with what is left of them; what it clears and where it waits |
| `EventGroups.ClearIs` | src/freertos/event_groups.c:473-498 | a clear clears the bits given and touches no task |
| `EventGroups.ExpireIs` | src/freertos/event_groups.c:415-452 | a timeout takes just the one task off the list |
| `EventGroups.ResumeIs` | src/freertos/event_groups.c:407-469 | a call that had blocked returns the bits that woke it and clears none, or after a timeout the present bits, clearing its own if they meet its wish by now |
| `EventGroups.WaitHonoured` | src/freertos/event_groups.c:317-469 | over every run between a wait that blocks and its return: its task is in the call for just its wish, waits only while the wish is not met, and if woken by bits returns bits that meet it |
| `EventGroups.RunInv` | src/freertos/event_groups.c:194-625 | over every run from a new group on no waiter is left whose condition holds, and no woken task is given bits that do not meet its wish |
| `EventGroupWords.AllBits` | src/freertos/event_groups.c:711-723 | the all-bits test on words is set inclusion |
| `EventGroupWords.AnyBits` | src/freertos/event_groups.c:698-710 | the any-bit test on words is a non-empty intersection |
| `EventGroupWords.ItemValueDecodes` | src/freertos/event_groups.c:372-397 | a waiter's wish is read back from its item value and does not look like a wake-up |
| `EventGroupWords.WakeValueDecodes` | src/freertos/event_groups.c:604-609 | so are the bits that woke it |
| `EventGroupWords.TestWaitCondition` | src/freertos/event_groups.c:692-726 | the test on words |
| `EventGroupWords.TestItem` | src/freertos/event_groups.c:560-602 | splitting an item value, testing it and collecting what to clear |
| `EventGroupObjects.EventGroup.UnblockMatching` | src/freertos/event_groups.c:550-615 | the walk along the list, removals included, does what the scans say of the whole list |
| `EventGroupObjects.EventGroup.SetBits` | src/freertos/event_groups.c:533-625 | the set |
| `EventGroupObjects.EventGroup.ClearBits` | src/freertos/event_groups.c:473-498 | the clear, returning the value before |
| `EventGroupObjects.EventGroup.WaitBits` | src/freertos/event_groups.c:317-407 | the wait up to where it returns or blocks |
| `EventGroupObjects.EventGroup.Sync` | src/freertos/event_groups.c:194-255 | the rendezvous up to where it returns or blocks |
| `EventGroupObjects.EventGroup.FinishWait` | src/freertos/event_groups.c:407-469 | the rest of a call that blocked |
| `CrcUnits.CalculateCrc32` | src/bsp/periph/gd32_crc.c:29-66 | the loop over whole words, and the incomplete last word with its low bytes masked out |
| `CrcUnits.CrcSame` | src/bsp/periph/gd32_crc.c:29-66 | bytes that agree up to the end of the last word have one CRC |
| `CrcUnits.FedIff` | src/bsp/periph/gd32_crc.c:44-63 | what is fed of a word agrees if and only if the bytes that are kept do, which are those that end it |
| `CrcUnits.BuiltInTells` | tools/upgrade_client_new.py:62-88 | CRC-32 with the polynomial 0x04C11DB7 tells apart any two words fed in one state and any two states fed one word |
| `Boots.StepInv` | src/app/boot_main.c:53-132 | every flash operation, whatever it leaves behind, and every reset keeps the invariant, which speaks of the image accepted last if it fits |
| `Boots.CrashSafe` | src/app/boot_main.c:53-132 | after every run, if the image accepted last fits the application region, whatever was accepted before it: the region matches that image, or the loader would accept it again; while the application runs the former holds |
| `Boots.FactoryInv` | src/app/boot_main.c:53-132 | a freshly programmed device satisfies the invariant |
| `Boots.FitsIff` | src/app/boot_main.c:100-111 | every word is written inside the application region if and only if the image is less than a word larger than it; a larger one is written over its own source |
| `Boots.LostIff` | src/app/boot_main.c:53-132 | for every accepted image, whatever the flash holds: there is a run that ends in the application being started with its region not matching, and with no image left to install, if and only if the image is larger than the region, by a byte or by more, and below 2^31 bytes; from there on no byte is checked |
| `BootObjects.CopyExactIff` | src/bsp/periph/gd32_fmc.c:106-125 | the copy is exact if and only if the bytes behind the last whole word are blank, as for every image of whole words |
| `BootObjects.BootLoader.WriteByWord` | src/bsp/periph/gd32_fmc.c:106-125 | the word loop programs whole words only |
| `BootObjects.BootLoader.CopyImage` | src/app/boot_main.c:100-111 | the chunk loop copies all whole words of the image and writes nowhere else |
| `BootObjects.BootLoader.MarkFinished` | src/app/boot_main.c:121-126 | only the status byte of the header changes |
| `BootObjects.BootLoader.Upgrade` | src/app/boot_main.c:53-132 | what one pass through the routine leaves: region, header, everything behind, and its outcome |
| `BootObjects.CheckPassesIff` | src/app/boot_main.c:113-120 | the check after the copy passes if and only if the bytes that the CRC sees of an incomplete last word, which end that word, are blank in the staging area |
| `BootObjects.FinishedIff` | src/app/boot_main.c:53-132 | so the routine reports success if and only if those bytes are blank, for any CRC that tells words apart |
| `BootObjects.ReportTrueIff` | src/app/boot_main.c:112-132 | when success is reported for an incomplete copy, and failure for a complete one, exactly; neither for an image of whole words |
| `BootObjects.RetriesForEver` | src/app/boot_main.c:127-131 | a pass that ends in a reset leaves what makes the next pass end so again |
| `BootObjects.LastByteMissing` | src/app/boot_main.c:112-132 | an image of five bytes that is accepted, reported as installed, and lacks its last byte, for whatever CRC |
| `Paras.IntactIs` | src/app/para/para.c:80-104 | an area is intact if and only if its magic number and every group CRC are right |
| `Paras.LoadIs` | src/app/para/para.c:115-149 | after the three passes each group is that of the first area whose magic number and CRC are right for it, or the default, whatever becomes of other groups |
| `Paras.InitIs` | src/app/para/para.c:115-176 | after start-up each group in use is the one that the three passes found, but for a device address out of range, which becomes the default |
| `Paras.InitBackupIs` | src/app/para/para.c:387-401 | when the user area was damaged the backup is intact afterwards: groups that were intact are left alone and the others are those in use |
| `Paras.InitIntact` | src/app/para/para.c:115-176 | after start-up with working storage the user area is intact and in use, with an address in range |
| `Paras.InitFixedPoint` | src/app/para/para.c:115-176 | a second start-up changes neither parameters nor user area, and a third changes nothing at all |
| `Paras.DamagedBackupStays` | src/app/para/para.c:153-164 | when the user area is intact a backup damaged outside its CRC fields is not repaired, and exactly then |
| `ParaObjects.ParaManager.ValidatePara` | src/app/para/para.c:80-104 | the checking loop |
| `ParaObjects.ParaManager.TryRestore` | src/app/para/para.c:411-454 | the restoring loop |
| `ParaObjects.ParaManager.RecalculateAllCrc` | src/app/para/para.c:373-379 | the sealing loop |
| `ParaObjects.ParaManager.SaveToUser` | src/app/para/para.c:303-340 | flash is written as a whole |
| `ParaObjects.ParaManager.SaveToBackup` | src/app/para/para.c:303-365 | EEPROM is written as a whole or group by group |
| `ParaObjects.ParaManager.LoadAll` | src/app/para/para.c:115-149 | the three passes |
| `ParaObjects.ParaManager.RepairInvalidStorage` | src/app/para/para.c:387-401 | areas that are not intact are written again |
| `ParaObjects.ParaManager.SaveGroup` | src/app/para/para.c:185-208 | saving after a change to one group |
| `ParaObjects.ParaManager.ParaInit` | src/app/para/para.c:115-176 | start-up as a whole |
| `Agents.NextInv` | src/app/arch/agent.c:80-204 | every half of a post and of the agent's turn keeps queue and semaphore in agreement |
| `Agents.NoJobStranded` | src/app/arch/agent.c:80-204 | while a job is queued somebody is on the way to it, also after a flush |
| `Agents.ExactlyOnceInOrder` | src/app/arch/agent.c:108-204 | without a flush jobs run once each in order, no give fails and a post is refused only when the queue is full |
| `Agents.RefusedButQueued` | src/app/arch/agent.c:148-158 | a post is refused after its job was queued if and only if the semaphore is full, which takes a flush |
| `Agents.RefusedAfterFlush` | src/app/arch/agent.c:80-161 | a concrete run that gets there |
| `Agents.AgentQueue.Add` | src/app/arch/agent.c:121-137 | the ring appends |
| `Agents.AgentQueue.Fetch` | src/app/arch/agent.c:186-196 | the ring yields the first job |
| `Agents.AgentQueue.Flush` | src/app/arch/agent.c:90-91 | the ring is emptied |
| `SerialFlashes.FindChip` | src/app/arch/storage.c:243-248 | the address is found in the right chip |
| `SerialFlashes.Chip.ProgramSector` | src/app/arch/storage.c:272-286 | an erased sector programmed page by page holds the buffer |
| `SerialFlashes.Chip.WriteInSector` | src/app/arch/storage.c:256-286 | reading, changing, erasing and programming a sector changes just the bytes asked for |
| `SerialFlashes.SectorMasks` | src/app/arch/storage.c:251-252 | counting off sectors finds the one that masking the address gives |
| `SerialFlashes.Chip.WriteNext` | src/app/arch/storage.c:253-293 | one pass of the outer loop: one sector more is stored, or one sector has suffered |
| `SerialFlashes.Chip.Write` | src/app/arch/storage.c:234-298 | a write that succeeds is a plain store of bytes; one that fails reports what is stored, and only one more sector is touched; it succeeds if and only if there are operations for an erase and sixteen pages of every sector that the bytes lie in |
| `SerialFlashes.Chip.Read` | src/app/arch/storage.c:212-225 | a read returns what is stored |
| `Protocol.ModbusCrc` | tools/upgrade_client_new.py:24-33 | the bit loops compute the CRC |
| `Protocol.Crc16Rtu` | src/lib/microlib/hq_generic.c:150-171 | the table of nibbles computes the same CRC, for every input |
| `Protocol.Residue` | src/app/proto/proto_base.c:41-46 | a sequence followed by its CRC, low byte first, has CRC zero |
| `Protocol.ResidueOnly` | src/app/proto/proto_base.c:54-62 | and no other two bytes give zero |
| `Protocol.HeaderRoundTrip` | src/app/proto/proto_base.c:114-119 | a header as built is read back and its CRC checks |
| `Protocol.BuildCheck` | src/app/proto/proto_base.c:26-65 | a packet with data is accepted whatever follows it and gives back header and data |
| `Protocol.BuildCheckEmpty` | src/app/proto/proto_base.c:48-55 | a packet without data is accepted if and only if at least two more bytes follow |
| `Protocol.CheckSound` | src/app/proto/proto_base.c:26-65 | an accepted packet with data is, byte for byte, one that would be built |
| `Protocol.MovesBy` | src/app/proto/proto_base.c:55-56 | how far the loop moves: the whole packet if and only if its length fits in 16 bits, and nothing for exactly one length |
| `Protocol.ShortNeverStuck` | src/app/proto/proto_base.c:75-90 | a buffer shorter than the largest packet is worked through in steps of at least one header |
| `Protocol.StuckForEver` | src/app/proto/proto_base.c:75-90 | concrete packets on which the loop does not move |
| `Protocol.ProcessBuilt` | src/app/proto/proto_base.c:75-90 | a buffer of built packets is taken apart into those packets, once each and in order, whatever follows; packets without data included, as long as the last has data or two bytes follow it |
| `Protocol.LastEmptyLost` | src/app/proto/proto_base.c:48-90 | otherwise it is taken apart into all but the last |
| `Protocol.Parse.CheckPacket` | src/app/proto/proto_base.c:26-65 | the check with the record it fills in |
| `Protocol.ProcessPackets` | src/app/proto/proto_base.c:75-90 | the loop |
| `Protocol.BuildPacket` | src/app/proto/proto_base.c:114-142 | the builder |

## Left out

- Port layer, context switch, interrupt masking, DMA and drivers: critical sections are atomic steps, flash and EEPROM are values or arrays.
- Yields: whether an operation asks for a context switch is modelled only where a method returns it; no claim is made that the running task always has the highest priority.
- The port-optimised selection by a bitmap of priorities: the generic branch is modelled.
- Queue sets, co-routines, queue registry, tickless idle, MPU, tracing, run-time statistics, stack checking, thread-local storage, allocation: configuration variants or easy additions.
- `vTaskPrioritySet`, `xTaskAbortDelay`, direct-to-task notifications: not part of this model. The inheritance claims do not hold together with the first, which can set the base priority above an inherited one.
- Kernels.Kernel: the overflow count is unbounded in the model, a signed word in the code; the lists that are fields of the kernel are sequences, and their pointer form is proved in Lists alone.
- Mutexes.ActBooked: tasks that hold a mutex are not deleted, and a mutex is given only by its holder, as the code asserts.
- Mutexes.TakeBooked: taking a recursive mutex and counting the call are one step here; the code counts after the critical section, where only the holder that has just taken it can look. So it is in `Mutexes.GiveBooked` with counting down, before the critical section.
- Partition.StepConsistent: placing on an unordered event list, removing from one, and `vTaskPlaceOnEventListRestricted`, which event groups and the timer queue use, are no steps; what they do to the event group's own list is in EventGroupObjects.
- Partition.RunsConsistent: the same steps are missing from its runs.
- Wakeups.ReadyInTime: its runs are of kernel operations; those on mutexes are actions of `Mutexes`, and whom they move is in `Handovers`.
- Wakeups.RunsQueued: the same runs. A task that inherits a priority while it waits keeps its place in the code, which is what `Inversions` is about.
- Kernels.Kernel.SuspendTask: for a scheduler that is running; before it runs the code would clear or switch `pxCurrentTCB` when the current task is suspended.
- Kernels.Kernel.AddNewTask: likewise; before the scheduler runs the code would make the new task the current one if its priority is no lower.
- QueueRing.Queue.CopyDataToQueue: overwriting needs items with a size; what becomes of a semaphore is in `Queues.AddedBoundedIff`, and its count leaves what the object's invariant allows.
- QueueRing.Queue.TrySend: the same.
- QueueRing.Queue.SendFromIsr: the same.
- Queues.NoReceiverWakeupLost: at most 127 posts from interrupts come between a lock and its unlock, as the code asserts, and woken tasks are neither deleted nor suspended before they retry.
- Timers.StartedTimerIsExact: the daemon looks at the clock at least once in every wrap, and obeys a command less than one wrap after it was sent, which is what the wrapped comparisons can tell apart. `vTimerSetReloadMode` is left out; callbacks are counted, not run.
- TimerDaemons.TimerDaemon.ProcessTimerOrBlockTask: blocking until the next expiry is left out; a round simply comes later.
- TimerDaemons.TimerDaemon.ProcessReceivedCommands: pended function calls are left out.
- StreamBufferObjects.StreamBuffer.Send: waiting for space, trigger levels and waking the reader are left out; a wait is any number of fresh looks at the indices, in StreamBuffers. `xStreamBufferReset` is left out.
- StreamBufferObjects.StreamBuffer.Receive: waiting for data and waking the writer likewise.
- StreamBufferObjects.StreamBuffer.SpacesAvailable: the object runs alone, so that reading the tail again changes nothing; under interleaving `StreamBuffers.SpaceIsSafe` holds for any tail seen.
- EventGroupObjects.EventGroup: `vEventGroupDelete` and calls pended from interrupts, which run as ordinary calls later, are left out.
- Boots.CrashSafe: the image that was accepted last fits the application region, which nothing in the loader checks; `Boots.LostIff` says what becomes of larger ones. The CRC unit is any function of its state and a word; starting the application itself is left out.
- Boots.LostIff: for CRC units that tell words and states apart, as the one that is built in does (`CrcUnits.BuiltInTells`).
- BootObjects.BootLoader.CopyImage: the image fits, so that the copy does not read what it has written; that a larger one is written over its source is in `Boots.FitsIff`.
- BootObjects.BootLoader.Upgrade: the image fits, as above.
- Paras.InitIntact: for storage that reads and writes without error; what a failed read means is in `Paras.LoadIs`.
- ParaObjects.ParaManager.TryRestore: reads do not fail.
- ParaObjects.ParaManager.LoadAll: reads do not fail.
- ParaObjects.ParaManager.SaveToUser: writes do not fail.
- ParaObjects.ParaManager.SaveToBackup: writes do not fail.
- ParaObjects.ParaManager.RepairInvalidStorage: writes do not fail.
- ParaObjects.ParaManager.SaveGroup: writes do not fail.
- ParaObjects.ParaManager.ParaInit: neither reads nor writes fail.
- Paras.LoadIs: groups are separate sequences of bytes, as the offset table lays them out, and the CRC is any function.
- `pmm_restore_to_factory`, `pmm_restore_to_default`: would add only another save of all groups.
- SerialFlashes.Chip.Write: the operation that fails may leave anything in its sector; enabling writes and waiting for the chip are part of the operation they belong to.
- Protocol.ProcessPackets: for buffers on which the loop ends; `Protocol.StuckForEver` has one on which it does not. Handlers and the replies they collect are left out.
- Protocol.BuildPacket: the error replies are left out.
- `src/app/arch/serial.c`, `message.c`, `scom.c`, `src/app/comm`, `src/lwip`, `src/app/proto/proto_char.c`, `src/app/app_main.c`: not part of this model.
