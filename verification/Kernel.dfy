/** The kernel's global variables as an object.  Each method is one critical section
    of tasks.c, loops included, and does to the fields what the function of the same
    purpose in Tasks does to a kernel state; what those functions keep is proved in
    Partition. */
module Kernels {
  import opened Common
  import opened Lists
  import opened Clocks
  import opened Tasks

  class Kernel {
    var tickCount: Tick
    var numOfOverflows: nat
    var nextTaskUnblockTime: Tick
    var delayedTaskList: seq<Entry<TaskId>>
    var overflowDelayedTaskList: seq<Entry<TaskId>>
    var pendedTicks: nat
    var schedulerSuspended: nat
    var currentTcb: TaskId
    var topReadyPriority: nat
    var currentNumberOfTasks: nat
    var tcb: map<TaskId, Tcb>
    var readyTasksLists: seq<Ring<TaskId>>
    var suspendedTaskList: seq<TaskId>
    var pendingReadyList: seq<TaskId>
    var tasksWaitingTermination: seq<TaskId>
    var eventLists: seq<seq<Entry<TaskId>>>

    ghost function Time(): Clock
      reads this
    {
      Clock(tickCount, numOfOverflows, nextTaskUnblockTime, delayedTaskList, overflowDelayedTaskList)
    }

    ghost function View(): K
      reads this
    {
      K(Time(), pendedTicks, schedulerSuspended, currentTcb, topReadyPriority, currentNumberOfTasks, tcb,
        readyTasksLists, suspendedTaskList, pendingReadyList, tasksWaitingTermination, eventLists)
    }

    /** An empty system before its first task. */
    constructor (first: TaskId, events: nat)
      ensures View() == K(Clock(0, 0, MAX_DELAY, [], []), 0, 0, first, 0, 0, map[],
                          seq(MAX_PRIORITIES, _ => Ring([], 0)), [], [], [], seq(events, _ => []))
    {
      tickCount, numOfOverflows, nextTaskUnblockTime := 0, 0, MAX_DELAY;
      delayedTaskList, overflowDelayedTaskList := [], [];
      pendedTicks, schedulerSuspended, currentTcb, topReadyPriority, currentNumberOfTasks := 0, 0, first, 0, 0;
      tcb := map[];
      readyTasksLists := seq(MAX_PRIORITIES, _ => Ring([], 0));
      suspendedTaskList, pendingReadyList, tasksWaitingTermination := [], [], [];
      eventLists := seq(events, _ => []);
    }

    method ResetNextTaskUnblockTime()
      modifies this`nextTaskUnblockTime
      ensures View() == old(View()).ResetNext()
    {
      if delayedTaskList == [] {
        nextTaskUnblockTime := MAX_DELAY;
      } else {
        nextTaskUnblockTime := delayedTaskList[0].value;
      }
    }

    method AddTaskToReadyList(t: TaskId)
      requires View().Shaped() && View().Known(t)
      modifies this`topReadyPriority, this`readyTasksLists
      ensures View() == old(View()).AddReady(t)
    {
      var p := tcb[t].priority;
      if p > topReadyPriority { topReadyPriority := p; }
      readyTasksLists := readyTasksLists[p := readyTasksLists[p].InsertEnd(t)];
    }

    /** Removes a task's state item from the list that contains it. */
    method RemoveStateItem(t: TaskId)
      requires View().Shaped() && View().Known(t)
      modifies this`readyTasksLists, this`delayedTaskList, this`overflowDelayedTaskList, this`suspendedTaskList
      ensures View() == old(View()).DropState(t)
    {
      var p := tcb[t].priority;
      readyTasksLists := readyTasksLists[p := DropRing(readyTasksLists[p], t)];
      delayedTaskList := DropEntry(delayedTaskList, t);
      overflowDelayedTaskList := DropEntry(overflowDelayedTaskList, t);
      suspendedTaskList := DropTask(suspendedTaskList, t);
    }

    method RemoveEventItem(t: TaskId)
      modifies this`eventLists, this`pendingReadyList
      ensures View() == old(View()).DropEvent(t)
    {
      eventLists := DropEvery(eventLists, t);
      pendingReadyList := DropTask(pendingReadyList, t);
    }

    method AddCurrentTaskToDelayedList(ticksToWait: Tick, canBlockIndefinitely: bool)
      requires View().Shaped() && View().Known(currentTcb)
      modifies this
      ensures View() == old(View()).DelayCurrent(ticksToWait, canBlockIndefinitely)
    {
      var constTickCount := tickCount;
      RemoveStateItem(currentTcb);
      if ticksToWait == MAX_DELAY && canBlockIndefinitely {
        suspendedTaskList := suspendedTaskList + [currentTcb];
      } else {
        var timeToWake := AddTicks(constTickCount, ticksToWait);
        if timeToWake < constTickCount {
          overflowDelayedTaskList := InsertSorted(overflowDelayedTaskList, Entry(timeToWake, currentTcb));
        } else {
          delayedTaskList := InsertSorted(delayedTaskList, Entry(timeToWake, currentTcb));
          if timeToWake < nextTaskUnblockTime {
            nextTaskUnblockTime := timeToWake;
          }
        }
      }
    }

    method PlaceOnEventList(l: nat, ticksToWait: Tick)
      requires View().Shaped() && View().Known(currentTcb) && l < |eventLists|
      modifies this
      ensures View() == old(View()).PlaceOnEventList(l, ticksToWait)
    {
      var e := Entry(MAX_PRIORITIES - tcb[currentTcb].priority, currentTcb);
      eventLists := eventLists[l := InsertSorted(eventLists[l], e)];
      AddCurrentTaskToDelayedList(ticksToWait, true);
    }

    method RemoveFromEventList(l: nat) returns (higherPriority: bool)
      requires View().Shaped() && l < |eventLists| && eventLists[l] != []
      requires View().Known(eventLists[l][0].owner) && View().Known(currentTcb)
      modifies this
      ensures View() == old(View()).RemoveFromEventList(l)
      ensures higherPriority <==> tcb[old(eventLists)[l][0].owner].priority > tcb[currentTcb].priority
    {
      var t := eventLists[l][0].owner;
      eventLists := eventLists[l := eventLists[l][1..]];
      if schedulerSuspended == 0 {
        RemoveStateItem(t);
        AddTaskToReadyList(t);
      } else {
        pendingReadyList := pendingReadyList + [t];
      }
      higherPriority := tcb[t].priority > tcb[currentTcb].priority;
    }

    /** The lists change places when the tick count wraps. */
    method SwitchDelayedLists()
      modifies this
      ensures Time() == old(Time()).(delayed := old(overflowDelayedTaskList), overflow := old(delayedTaskList),
                                     overflows := old(numOfOverflows) + 1).ResetNext()
      ensures View() == old(View()).(clock := Time())
    {
      delayedTaskList, overflowDelayedTaskList := overflowDelayedTaskList, delayedTaskList;
      numOfOverflows := numOfOverflows + 1;
      ResetNextTaskUnblockTime();
    }

    /** The head of the delay list is taken off it and made ready. */
    method UnblockHead()
      requires Closed(View()) && delayedTaskList != []
      modifies this
      ensures View() == WakeHead(old(View()))
    {
      var t := delayedTaskList[0].owner;
      assert delayedTaskList[0] in View().clock.delayed;
      delayedTaskList := delayedTaskList[1..];
      RemoveEventItem(t);
      AddTaskToReadyList(t);
    }

    method CountTick()
      modifies this
      ensures View() == old(View()).(clock := old(Time()).Advance())
    {
      tickCount := AddTicks(tickCount, 1);
      if tickCount == 0 {
        SwitchDelayedLists();
      }
    }

    /** Unblocks every task whose time has come. */
    method UnblockDue()
      requires Closed(View())
      modifies this
      ensures View() == WakeDue(old(View()))
    {
      ghost var due := WakeDue(View());
      while delayedTaskList != [] && delayedTaskList[0].value <= tickCount
        invariant Closed(View()) && WakeDue(View()) == due
        decreases |delayedTaskList|
      {
        UnblockHead();
      }
      ResetNextTaskUnblockTime();
    }

    method IncrementTick()
      requires Closed(View())
      modifies this
      ensures View() == Tasks.IncrementTick(old(View()))
    {
      if schedulerSuspended == 0 {
        CountTick();
        assert Closed(View());
        if tickCount >= nextTaskUnblockTime {
          UnblockDue();
        }
      } else {
        pendedTicks := pendedTicks + 1;
      }
    }

    method SuspendAll()
      modifies this`schedulerSuspended
      ensures View() == old(View()).SuspendAll()
    {
      schedulerSuspended := schedulerSuspended + 1;
    }

    /** The head of the pending list is made ready. */
    method ReadyPendingHead()
      requires Closed(View()) && pendingReadyList != []
      modifies this
      ensures View() == old(View()).(pendingReady := old(pendingReadyList)[1..]).MakeReady(old(pendingReadyList)[0])
    {
      var t := pendingReadyList[0];
      assert t in View().pendingReady;
      pendingReadyList := pendingReadyList[1..];
      RemoveStateItem(t);
      AddTaskToReadyList(t);
    }

    /** Readies every held task. */
    method ReadyPending() returns (moved: bool)
      requires Closed(View())
      modifies this
      ensures View() == MovePending(old(View())) && moved == (old(pendingReadyList) != [])
      ensures Closed(View())
    {
      ghost var settled := MovePending(View());
      moved := false;
      while pendingReadyList != []
        invariant Closed(View()) && MovePending(View()) == settled
        invariant moved || pendingReadyList == old(pendingReadyList)
        invariant moved ==> old(pendingReadyList) != []
        decreases |pendingReadyList|
      {
        ghost var k := View();
        var t := pendingReadyList[0];
        assert t in k.pendingReady;
        DropEntrySubset(k.clock.delayed, t);
        DropEntrySubset(k.clock.overflow, t);
        ReadyPendingHead();
        moved := true;
      }
    }

    /** Replays the pended ticks. */
    method ReplayPendedTicks()
      requires Closed(View())
      modifies this
      ensures View() == TickTimes(old(View()), old(pendedTicks)).(pendedTicks := 0)
    {
      var pendedCounts := pendedTicks;
      ghost var last := TickTimes(View(), pendedCounts);
      while pendedCounts > 0
        invariant Closed(View()) && TickTimes(View(), pendedCounts) == last
      {
        IncrementTick();
        pendedCounts := pendedCounts - 1;
      }
      pendedTicks := 0;
    }

    method ResumeAll()
      requires Closed(View()) && schedulerSuspended > 0
      modifies this
      ensures View() == Tasks.ResumeAll(old(View()))
    {
      schedulerSuspended := schedulerSuspended - 1;
      if schedulerSuspended == 0 {
        if currentNumberOfTasks > 0 {
          var moved := ReadyPending();
          if moved {
            ResetNextTaskUnblockTime();
          }
          ReplayPendedTicks();
        }
      }
    }

    method SuspendTask(t: TaskId)
      requires View().Shaped() && View().Known(t)
      modifies this
      ensures View() == old(View()).SuspendTask(t)
    {
      RemoveStateItem(t);
      RemoveEventItem(t);
      suspendedTaskList := suspendedTaskList + [t];
      ResetNextTaskUnblockTime();
    }

    method ResumeTask(t: TaskId)
      requires View().Shaped() && View().Known(t)
      modifies this
      ensures View() == old(View()).ResumeTask(t)
    {
      if t != currentTcb {
        if IsTaskSuspended(t) {
          RemoveStateItem(t);
          AddTaskToReadyList(t);
        }
      }
    }

    /** On the suspended list, not already resumed by an interrupt, and on no event
        list. */
    predicate IsTaskSuspended(t: TaskId)
      reads this
      ensures IsTaskSuspended(t) <==> View().IsSuspended(t)
    {
      t in suspendedTaskList && Count(pendingReadyList, t) == 0 && CountEvents(eventLists, t) == 0
    }

    method ResumeFromIsr(t: TaskId)
      requires View().Shaped() && View().Known(t)
      modifies this
      ensures View() == old(View()).ResumeFromIsr(t)
    {
      if IsTaskSuspended(t) {
        if schedulerSuspended == 0 {
          RemoveStateItem(t);
          AddTaskToReadyList(t);
        } else {
          pendingReadyList := pendingReadyList + [t];
        }
      }
    }

    method AddNewTask(t: TaskId, priority: nat)
      requires View().Shaped() && t !in tcb && priority < MAX_PRIORITIES
      modifies this
      ensures View() == old(View()).Create(t, priority)
    {
      currentNumberOfTasks := currentNumberOfTasks + 1;
      tcb := tcb[t := Tcb(priority, priority, 0)];
      AddTaskToReadyList(t);
    }

    method DeleteTask(t: TaskId)
      requires View().Shaped() && View().Known(t) && currentNumberOfTasks > 0
      modifies this
      ensures View() == old(View()).Delete(t)
    {
      RemoveStateItem(t);
      RemoveEventItem(t);
      if t == currentTcb {
        tasksWaitingTermination := tasksWaitingTermination + [t];
      } else {
        currentNumberOfTasks := currentNumberOfTasks - 1;
        tcb := tcb - {t};
        ResetNextTaskUnblockTime();
      }
    }

    /** The idle task's clean-up loop frees every deleted task. */
    method CheckTasksWaitingTermination()
      requires currentNumberOfTasks >= |tasksWaitingTermination|
      modifies this
      ensures View() == old(View()).(termination := [],
                                     number := old(currentNumberOfTasks) - |old(tasksWaitingTermination)|,
                                     tcb := Freed(old(tcb), old(tasksWaitingTermination)))
    {
      ghost var rest := currentNumberOfTasks - |tasksWaitingTermination|;
      while tasksWaitingTermination != []
        invariant currentNumberOfTasks == rest + |tasksWaitingTermination|
        invariant Freed(tcb, tasksWaitingTermination) == Freed(old(tcb), old(tasksWaitingTermination))
        invariant View() == old(View()).(termination := tasksWaitingTermination, number := currentNumberOfTasks, tcb := tcb)
        decreases |tasksWaitingTermination|
      {
        CleanUpOne();
      }
    }

    static function Freed(tcb: map<TaskId, Tcb>, ts: seq<TaskId>): map<TaskId, Tcb>
      decreases |ts|
    {
      if ts == [] then tcb else Freed(tcb - {ts[0]}, ts[1..])
    }

    method CleanUpOne()
      requires tasksWaitingTermination != [] && currentNumberOfTasks > 0
      modifies this
      ensures View() == old(View()).CleanUpOne()
    {
      var t := tasksWaitingTermination[0];
      tasksWaitingTermination := tasksWaitingTermination[1..];
      currentNumberOfTasks := currentNumberOfTasks - 1;
      tcb := tcb - {t};
    }

    // ---- priority inheritance

    /** Gives a task a new priority in its control block and its event item. */
    method Relabel(t: TaskId, priority: nat)
      requires t in tcb && priority < MAX_PRIORITIES
      modifies this`tcb, this`eventLists
      ensures View() == old(View()).Relabel(t, priority)
    {
      tcb := tcb[t := tcb[t].(priority := priority)];
      eventLists := RevalueEvery(eventLists, t, MAX_PRIORITIES - priority);
    }

    /** The running task is about to wait for a mutex of `holder`. */
    method PriorityInherit(holder: TaskId) returns (inherited: bool)
      requires View().Shaped() && View().Known(holder) && View().Known(currentTcb)
      modifies this
      ensures (View(), inherited) == old(View()).Inherit(holder)
    {
      if tcb[holder].priority < tcb[currentTcb].priority {
        ChangePriority(holder, tcb[currentTcb].priority);
        inherited := true;
      } else {
        inherited := tcb[holder].basePriority < tcb[currentTcb].priority;
      }
    }

    method ChangePriority(t: TaskId, priority: nat)
      requires View().Shaped() && View().Known(t) && priority < MAX_PRIORITIES
      modifies this
      ensures View() == old(View()).SetPriority(t, priority)
    {
      if t in readyTasksLists[tcb[t].priority].items {
        RemoveStateItem(t);
        Relabel(t, priority);
        AddTaskToReadyList(t);
      } else {
        Relabel(t, priority);
      }
    }

    /** The running task gives back one of its mutexes. */
    method PriorityDisinherit() returns (switchNeeded: bool)
      requires View().Shaped() && View().Known(currentTcb) && tcb[currentTcb].mutexesHeld > 0
      requires tcb[currentTcb].basePriority < MAX_PRIORITIES
      modifies this
      ensures (View(), switchNeeded) == old(View()).Disinherit()
    {
      var t := currentTcb;
      tcb := tcb[t := tcb[t].(mutexesHeld := tcb[t].mutexesHeld - 1)];
      switchNeeded := false;
      if tcb[t].priority != tcb[t].basePriority {
        if tcb[t].mutexesHeld == 0 {
          RemoveStateItem(t);
          Relabel(t, tcb[t].basePriority);
          AddTaskToReadyList(t);
          switchNeeded := true;
        }
      }
    }

    method PriorityDisinheritAfterTimeout(holder: TaskId, highestPriorityWaiting: nat)
      requires View().Shaped() && View().Known(holder)
      requires tcb[holder].basePriority < MAX_PRIORITIES && highestPriorityWaiting < MAX_PRIORITIES
      modifies this
      ensures View() == old(View()).DisinheritAfterTimeout(holder, highestPriorityWaiting)
    {
      var priorityToUse := tcb[holder].basePriority;
      if priorityToUse < highestPriorityWaiting {
        priorityToUse := highestPriorityWaiting;
      }
      if tcb[holder].priority != priorityToUse {
        if tcb[holder].mutexesHeld == 1 {
          ChangePriority(holder, priorityToUse);
        }
      }
    }

    method IncrementMutexHeldCount() returns (holder: TaskId)
      requires currentTcb in tcb
      modifies this`tcb
      ensures View() == old(View()).HoldOneMore() && holder == currentTcb
    {
      tcb := tcb[currentTcb := tcb[currentTcb].(mutexesHeld := tcb[currentTcb].mutexesHeld + 1)];
      holder := currentTcb;
    }

    /** Selects the next task to run.  The loop needs a ready task at or below the
        recorded top priority; the idle task is one. */
    method SwitchContext()
      requires View().Shaped() && (schedulerSuspended == 0 ==> AnyReady(readyTasksLists, topReadyPriority))
      requires topReadyPriority < |readyTasksLists|
      modifies this
      ensures View() == old(View()).SwitchContext()
    {
      if schedulerSuspended == 0 {
        var lists := readyTasksLists;
        var topPriority: nat := topReadyPriority;
        while lists[topPriority].items == []
          invariant topPriority < |lists| && AnyReady(lists, topPriority)
          invariant Highest(lists, topPriority) == Highest(lists, old(topReadyPriority))
          invariant View() == old(View())
          decreases topPriority
        {
          assert topPriority > 0;
          topPriority := topPriority - 1;
        }
        var (r, t) := readyTasksLists[topPriority].Select();
        readyTasksLists := readyTasksLists[topPriority := r];
        currentTcb := t;
        topReadyPriority := topPriority;
      }
    }
  }
}
