/** A mutex as the object that queue.c keeps: the fields of a queue of length one and
    item size zero.  The methods are its critical sections, and do to the kernel and
    to the mutex what the functions of Mutexes do. */
module MutexObjects {
  import opened Common
  import opened Lists
  import opened Tasks
  import opened Kernels
  import opened Mutexes

  class MutexQueue {
    const kernel: Kernel
    /** The event list that tasks waiting to take the mutex are on. */
    const tasksWaitingToReceive: nat
    const isRecursive: bool
    var messagesWaiting: nat
    var mutexHolder: Option<TaskId>
    var recursiveCallCount: nat

    ghost function View(): Mutex
      reads this
    {
      Mutex(messagesWaiting, mutexHolder, isRecursive, recursiveCallCount)
    }

    /** A new mutex is free. */
    constructor (kernel: Kernel, list: nat, recursive: bool)
      ensures this.kernel == kernel && tasksWaitingToReceive == list
      ensures View() == Mutex(1, None, recursive, 0)
    {
      this.kernel, tasksWaitingToReceive, isRecursive := kernel, list, recursive;
      messagesWaiting, mutexHolder, recursiveCallCount := 1, None, 0;
    }

    /** The running task takes the mutex if it is free. */
    method TryTake() returns (taken: bool)
      requires kernel.currentTcb in kernel.tcb
      modifies this, kernel
      ensures taken <==> old(messagesWaiting) > 0
      ensures taken ==> (kernel.View(), View()) == old(TakeOne(kernel.View(), View()))
      ensures !taken ==> kernel.View() == old(kernel.View()) && View() == old(View())
    {
      taken := messagesWaiting > 0;
      if taken {
        messagesWaiting := messagesWaiting - 1;
        var holder := kernel.IncrementMutexHeldCount();
        mutexHolder := Some(holder);
      }
    }

    /** A recursive mutex is counted again for its holder, and taken by others. */
    method TryTakeRecursive() returns (taken: bool)
      requires kernel.currentTcb in kernel.tcb
      modifies this, kernel
      ensures taken <==> old(mutexHolder == Some(kernel.currentTcb)) || old(messagesWaiting) > 0
      ensures old(mutexHolder == Some(kernel.currentTcb)) ==>
                kernel.View() == old(kernel.View()) && View() == old(View()).(calls := old(recursiveCallCount) + 1)
      ensures old(mutexHolder != Some(kernel.currentTcb)) && taken ==>
                var (k, x) := old(TakeOne(kernel.View(), View()));
                kernel.View() == k && View() == x.(calls := x.calls + 1)
      ensures !taken ==> kernel.View() == old(kernel.View()) && View() == old(View())
    {
      if mutexHolder == Some(kernel.currentTcb) {
        recursiveCallCount := recursiveCallCount + 1;
        taken := true;
      } else {
        taken := TryTake();
        if taken {
          recursiveCallCount := recursiveCallCount + 1;
        }
      }
    }

    /** The running task waits, after lending the holder its priority. */
    method BlockOn(ticksToWait: Tick) returns (inherited: bool)
      requires kernel.View().Shaped() && kernel.View().Known(kernel.currentTcb)
      requires tasksWaitingToReceive < |kernel.eventLists|
      requires mutexHolder.Some? ==> kernel.View().Known(mutexHolder.value)
      modifies kernel
      ensures kernel.View() == old(BlockOne(kernel.View(), View(), tasksWaitingToReceive, ticksToWait))
      ensures inherited <==> old(mutexHolder.Some? && kernel.View().Inherit(mutexHolder.value).1)
    {
      inherited := false;
      if mutexHolder.Some? {
        inherited := kernel.PriorityInherit(mutexHolder.value);
      }
      assert kernel.View().Known(kernel.currentTcb);
      kernel.PlaceOnEventList(tasksWaitingToReceive, ticksToWait);
    }

    /** The holder, which is running, gives the mutex back. */
    method Give()
      requires kernel.View().Shaped() && kernel.View().Known(kernel.currentTcb)
      requires tasksWaitingToReceive < |kernel.eventLists| && mutexHolder == Some(kernel.currentTcb)
      requires kernel.tcb[kernel.currentTcb].mutexesHeld > 0
      requires kernel.tcb[kernel.currentTcb].basePriority < MAX_PRIORITIES
      requires var wait := kernel.eventLists[tasksWaitingToReceive]; wait != [] ==> kernel.View().Known(wait[0].owner)
      modifies this, kernel
      ensures (kernel.View(), View()) == old(GiveOne(kernel.View(), View(), tasksWaitingToReceive))
    {
      var switchNeeded := kernel.PriorityDisinherit();
      mutexHolder := None;
      messagesWaiting := messagesWaiting + 1;
      if kernel.eventLists[tasksWaitingToReceive] != [] {
        var higherPriority := kernel.RemoveFromEventList(tasksWaitingToReceive);
      }
    }

    /** Gives a recursive mutex back once; only the outermost give lets it go. */
    method GiveRecursive() returns (given: bool)
      requires kernel.View().Shaped() && kernel.View().Known(kernel.currentTcb)
      requires tasksWaitingToReceive < |kernel.eventLists|
      requires mutexHolder == Some(kernel.currentTcb) ==>
                 && recursiveCallCount > 0 && kernel.tcb[kernel.currentTcb].mutexesHeld > 0
                 && kernel.tcb[kernel.currentTcb].basePriority < MAX_PRIORITIES
      requires var wait := kernel.eventLists[tasksWaitingToReceive]; wait != [] ==> kernel.View().Known(wait[0].owner)
      modifies this, kernel
      ensures given <==> old(mutexHolder == Some(kernel.currentTcb))
      ensures !given || old(recursiveCallCount) > 1 ==> kernel.View() == old(kernel.View())
      ensures !given ==> View() == old(View())
      ensures given && old(recursiveCallCount) > 1 ==> View() == old(View()).(calls := old(recursiveCallCount) - 1)
      ensures given && old(recursiveCallCount) == 1 ==>
                (kernel.View(), View()) == old(GiveOne(kernel.View(), View().(calls := 0), tasksWaitingToReceive))
    {
      given := mutexHolder == Some(kernel.currentTcb);
      if given {
        recursiveCallCount := recursiveCallCount - 1;
        if recursiveCallCount == 0 {
          Give();
        }
      }
    }

    /** The priority of the first waiter. */
    method GetDisinheritPriorityAfterTimeout() returns (highest: nat)
      requires tasksWaitingToReceive < |kernel.eventLists|
      requires var wait := kernel.eventLists[tasksWaitingToReceive]; wait != [] ==> wait[0].value <= MAX_PRIORITIES
      ensures highest == HighestWaiting(kernel.eventLists[tasksWaitingToReceive])
    {
      if kernel.eventLists[tasksWaitingToReceive] != [] {
        highest := MAX_PRIORITIES - kernel.eventLists[tasksWaitingToReceive][0].value;
      } else {
        highest := 0;
      }
    }

    /** The running task has timed out and found the mutex still taken. */
    method TimedOut(inherited: bool)
      requires kernel.View().Shaped() && tasksWaitingToReceive < |kernel.eventLists|
      requires mutexHolder.Some? && kernel.View().Known(mutexHolder.value)
      requires kernel.tcb[mutexHolder.value].basePriority < MAX_PRIORITIES
      requires var wait := kernel.eventLists[tasksWaitingToReceive]; wait != [] ==> 0 < wait[0].value <= MAX_PRIORITIES
      modifies kernel
      ensures kernel.View() == old(TimedOutOne(kernel.View(), View(), tasksWaitingToReceive, inherited))
    {
      if inherited {
        var highest := GetDisinheritPriorityAfterTimeout();
        kernel.PriorityDisinheritAfterTimeout(mutexHolder.value, highest);
      }
    }
  }
}
