/** The task lists.  A kernel state is a value here, and each operation a function on
    it, one for each critical section; module Kernel carries the same operations out
    on an object.  Proved: every task is on exactly one state list, whatever is done;
    the clock of Clocks is kept to; and no tick is lost to a suspended scheduler. */
module Tasks {
  import opened Common
  import opened Lists
  import opened Clocks

  const MAX_PRIORITIES: nat := 32

  datatype Tcb = Tcb(priority: nat, basePriority: nat, mutexesHeld: nat)

  // ---------------------------------------------------------------- list primitives

  function IndexOf(s: seq<TaskId>, t: TaskId): (k: nat)
    requires t in s
    ensures k < |s| && s[k] == t
  {
    if s[0] == t then 0 else 1 + IndexOf(s[1..], t)
  }

  /** A list without the first occurrence of task `t`. */
  function DropTask(s: seq<TaskId>, t: TaskId): seq<TaskId> {
    if s == [] then [] else if s[0] == t then s[1..] else [s[0]] + DropTask(s[1..], t)
  }

  function DropRing(r: Ring<TaskId>, t: TaskId): Ring<TaskId>
    requires r.pos <= |r.items|
  {
    if t in r.items then r.Remove(IndexOf(r.items, t)) else r
  }

  /** Every event list without task `t`. */
  function DropEvery(lists: seq<seq<Entry<TaskId>>>, t: TaskId): (r: seq<seq<Entry<TaskId>>>)
    ensures |r| == |lists|
  {
    if lists == [] then [] else [DropEntry(lists[0], t)] + DropEvery(lists[1..], t)
  }

  /** A list in which the item of task `t` has been given a new value where it stands. */
  function Revalue(s: seq<Entry<TaskId>>, t: TaskId, value: Tick): (r: seq<Entry<TaskId>>)
    ensures |r| == |s|
    ensures forall i | 0 <= i < |s| :: r[i] == if s[i].owner == t then Entry(value, t) else s[i]
  {
    if s == [] then []
    else [if s[0].owner == t then Entry(value, t) else s[0]] + Revalue(s[1..], t, value)
  }

  function RevalueEvery(lists: seq<seq<Entry<TaskId>>>, t: TaskId, value: Tick): (r: seq<seq<Entry<TaskId>>>)
    ensures |r| == |lists|
    ensures forall l | 0 <= l < |lists| :: r[l] == Revalue(lists[l], t, value)
  {
    if lists == [] then [] else [Revalue(lists[0], t, value)] + RevalueEvery(lists[1..], t, value)
  }

  predicate AnyReady(ready: seq<Ring<TaskId>>, top: nat) {
    exists p | 0 <= p <= top && p < |ready| :: ready[p].items != []
  }

  /** The selection loop: down from `top` to the first non-empty list. */
  function Highest(ready: seq<Ring<TaskId>>, top: nat): (p: nat)
    requires AnyReady(ready, top)
    ensures p <= top && p < |ready| && ready[p].items != []
    ensures forall q | p < q <= top && q < |ready| :: ready[q].items == []
  {
    if top < |ready| && ready[top].items != [] then top else Highest(ready, top - 1)
  }

  // ---------------------------------------------------------------- the kernel state

  datatype K = K(
    clock: Clock, pendedTicks: nat, nesting: nat,
    current: TaskId, topReady: nat, number: nat, tcb: map<TaskId, Tcb>,
    ready: seq<Ring<TaskId>>, suspended: seq<TaskId>, pendingReady: seq<TaskId>,
    termination: seq<TaskId>, events: seq<seq<Entry<TaskId>>>)
  {
    /** There is one ready list for each priority, and no index points past its list. */
    ghost predicate Shaped() {
      && |ready| == MAX_PRIORITIES
      && (forall p | 0 <= p < |ready| :: ready[p].pos <= |ready[p].items|)
    }

    predicate Known(t: TaskId) { t in tcb && tcb[t].priority < MAX_PRIORITIES }

    /** Puts a task at the end of the ready list of its priority. */
    function AddReady(t: TaskId): (k: K)
      requires Shaped() && Known(t)
      ensures k.Shaped()
    {
      var p := tcb[t].priority;
      this.(topReady := if p > topReady then p else topReady,
            ready := ready[p := ready[p].InsertEnd(t)])
    }

    /** Takes a task's state item off whatever list holds it. */
    function DropState(t: TaskId): (k: K)
      requires Shaped() && Known(t)
      ensures k.Shaped()
    {
      var p := tcb[t].priority;
      this.(ready := ready[p := DropRing(ready[p], t)],
            clock := clock.Drop(t),
            suspended := DropTask(suspended, t))
    }

    /** Takes a task's event item off whatever list holds it. */
    function DropEvent(t: TaskId): K {
      this.(events := DropEvery(events, t), pendingReady := DropTask(pendingReady, t))
    }

    function ResetNext(): K { this.(clock := clock.ResetNext()) }

    /** Moves a task from wherever its state item is to its ready list. */
    function MakeReady(t: TaskId): (k: K)
      requires Shaped() && Known(t)
      ensures k.Shaped()
    {
      DropState(t).AddReady(t)
    }

    /** Blocks the running task for a number of ticks. */
    function DelayCurrent(ticks: Tick, indefinitely: bool): K
      requires Shaped() && Known(current)
    {
      var k := DropState(current);
      if ticks == MAX_DELAY && indefinitely then k.(suspended := k.suspended + [current])
      else k.(clock := k.clock.Block(current, ticks))
    }

    function PlaceOnEventList(l: nat, ticks: Tick): K
      requires Shaped() && Known(current) && l < |events|
    {
      var e := Entry(MAX_PRIORITIES - tcb[current].priority, current);
      this.(events := events[l := InsertSorted(events[l], e)]).DelayCurrent(ticks, true)
    }

    /** Unblocks the first task of an event list. */
    function RemoveFromEventList(l: nat): K
      requires Shaped() && l < |events| && events[l] != [] && Known(events[l][0].owner)
    {
      var t := events[l][0].owner;
      var k := this.(events := events[l := events[l][1..]]);
      if nesting == 0 then k.MakeReady(t) else k.(pendingReady := pendingReady + [t])
    }

    function SuspendTask(t: TaskId): K
      requires Shaped() && Known(t)
    {
      var k := DropState(t).DropEvent(t);
      k.(suspended := k.suspended + [t]).ResetNext()
    }

    /** Whether a task is on the suspended list because it was suspended, rather
        than blocked without a timeout or already resumed. */
    predicate IsSuspended(t: TaskId) {
      t in suspended && EventCopies(this, t) == 0
    }

    function ResumeTask(t: TaskId): K
      requires Shaped() && Known(t)
    {
      if t != current && IsSuspended(t) then MakeReady(t) else this
    }

    function ResumeFromIsr(t: TaskId): K
      requires Shaped() && Known(t)
    {
      if !IsSuspended(t) then this
      else if nesting == 0 then MakeReady(t)
      else this.(pendingReady := pendingReady + [t])
    }

    function Create(t: TaskId, priority: nat): K
      requires Shaped() && t !in tcb && priority < MAX_PRIORITIES
    {
      this.(number := number + 1, tcb := tcb[t := Tcb(priority, priority, 0)]).AddReady(t)
    }

    /** A task that deletes itself waits on the termination list for the idle task. */
    function Delete(t: TaskId): K
      requires Shaped() && Known(t) && number > 0
    {
      var k := DropState(t).DropEvent(t);
      if t == current then k.(termination := k.termination + [t])
      else k.(number := number - 1, tcb := tcb - {t}).ResetNext()
    }

    /** The idle task frees one deleted task. */
    function CleanUpOne(): K
      requires termination != [] && number > 0
    {
      this.(termination := termination[1..], number := number - 1, tcb := tcb - {termination[0]})
    }

    // ---- priority inheritance

    /** The control block and the event item of a task show its new priority; an item
        that is on an event list keeps its place there. */
    function Relabel(t: TaskId, priority: nat): K
      requires t in tcb && priority < MAX_PRIORITIES
    {
      this.(tcb := tcb[t := tcb[t].(priority := priority)],
            events := RevalueEvery(events, t, MAX_PRIORITIES - priority))
    }

    /** Gives a task a new priority; a ready task moves to the list of that priority. */
    function SetPriority(t: TaskId, priority: nat): (k: K)
      requires Shaped() && Known(t) && priority < MAX_PRIORITIES
      ensures k.Shaped()
    {
      if t in ready[tcb[t].priority].items then DropState(t).Relabel(t, priority).AddReady(t)
      else Relabel(t, priority)
    }

    /** The running task is about to block on a mutex held by `holder`: the holder's
        priority is raised to its own if it is lower. */
    function Inherit(holder: TaskId): (K, bool)
      requires Shaped() && Known(holder) && Known(current)
    {
      if tcb[holder].priority < tcb[current].priority then
        (SetPriority(holder, tcb[current].priority), true)
      else
        (this, tcb[holder].basePriority < tcb[current].priority)
    }

    function HoldOneMore(): K
      requires current in tcb
    {
      this.(tcb := tcb[current := tcb[current].(mutexesHeld := tcb[current].mutexesHeld + 1)])
    }

    /** The running task gives a mutex back; with its last one it returns to its own
        priority. */
    function Disinherit(): (K, bool)
      requires Shaped() && Known(current) && tcb[current].mutexesHeld > 0
      requires tcb[current].basePriority < MAX_PRIORITIES
    {
      var x := tcb[current].(mutexesHeld := tcb[current].mutexesHeld - 1);
      var k := this.(tcb := tcb[current := x]);
      if x.priority != x.basePriority && x.mutexesHeld == 0 then
        (k.DropState(current).Relabel(current, x.basePriority).AddReady(current), true)
      else (k, false)
    }

    /** A waiter has timed out: a holder of this one mutex falls back to the highest
        priority still waiting for it, or to its own. */
    function DisinheritAfterTimeout(holder: TaskId, highestWaiting: nat): K
      requires Shaped() && Known(holder)
      requires tcb[holder].basePriority < MAX_PRIORITIES && highestWaiting < MAX_PRIORITIES
    {
      var use := if tcb[holder].basePriority < highestWaiting then highestWaiting else tcb[holder].basePriority;
      if tcb[holder].priority != use && tcb[holder].mutexesHeld == 1 then SetPriority(holder, use) else this
    }

    function SuspendAll(): K { this.(nesting := nesting + 1) }

    /** Chooses the next task of the highest non-empty priority. */
    function SwitchContext(): K
      requires Shaped()
    {
      if nesting > 0 || !AnyReady(ready, topReady) then this else
        var p := Highest(ready, topReady);
        var (r, t) := ready[p].Select();
        this.(ready := ready[p := r], current := t, topReady := p)
    }
  }

  // ---------------------------------------------------------------- the tick

  /** Every listed task has a control block, so that the loops below can ready it. */
  ghost predicate Closed(k: K) {
    && k.Shaped()
    && (forall t | t in k.tcb :: k.tcb[t].priority < MAX_PRIORITIES)
    && (forall e | e in k.clock.delayed :: e.owner in k.tcb)
    && (forall e | e in k.clock.overflow :: e.owner in k.tcb)
    && (forall t | t in k.pendingReady :: t in k.tcb)
  }

  lemma {:induction false} DropTaskSubset(s: seq<TaskId>, t: TaskId)
    ensures forall u | u in DropTask(s, t) :: u in s
  {
    if s != [] && s[0] != t { DropTaskSubset(s[1..], t); }
  }

  lemma {:induction false} DropEntrySubset(s: seq<Entry<TaskId>>, t: TaskId)
    ensures forall e | e in DropEntry(s, t) :: e in s
  {
    if s != [] && s[0].owner != t { DropEntrySubset(s[1..], t); }
  }

  /** The task at the head of the delay list becomes ready. */
  function WakeHead(k: K): (r: K)
    requires Closed(k) && k.clock.delayed != []
    ensures Closed(r) && r.clock == k.clock.(delayed := k.clock.delayed[1..])
  {
    var t := k.clock.delayed[0].owner;
    assert k.clock.delayed[0] in k.clock.delayed;
    DropTaskSubset(k.pendingReady, t);
    k.(clock := k.clock.(delayed := k.clock.delayed[1..])).DropEvent(t).AddReady(t)
  }

  /** Wakes every task at the head of the delay list whose time has come, and
      remembers when the next one is due. */
  function WakeDue(k: K): (r: K)
    requires Closed(k)
    ensures Closed(r)
    decreases |k.clock.delayed|
  {
    if k.clock.HeadDue() then WakeDue(WakeHead(k)) else k.ResetNext()
  }

  /** One tick interrupt: counted at once, or pended while the scheduler is
      suspended. */
  function IncrementTick(k: K): (r: K)
    requires Closed(k)
    ensures Closed(r)
  {
    if k.nesting > 0 then k.(pendedTicks := k.pendedTicks + 1) else
      var k1 := k.(clock := k.clock.Advance());
      if k1.clock.tick >= k1.clock.nextUnblock then WakeDue(k1) else k1
  }

  function TickTimes(k: K, n: nat): (r: K)
    requires Closed(k)
    ensures Closed(r)
    decreases n
  {
    if n == 0 then k else TickTimes(IncrementTick(k), n - 1)
  }

  /** Moves every task held back during the suspension to its ready list. */
  function MovePending(k: K): (r: K)
    requires Closed(k)
    ensures Closed(r)
    decreases |k.pendingReady|
  {
    if k.pendingReady == [] then k else
      var t := k.pendingReady[0];
      assert t in k.pendingReady;
      DropEntrySubset(k.clock.delayed, t);
      DropEntrySubset(k.clock.overflow, t);
      MovePending(k.(pendingReady := k.pendingReady[1..]).MakeReady(t))
  }

  /** The held tasks are readied, and the cached time recomputed if there were any. */
  function Settle(k: K): (r: K)
    requires Closed(k)
    ensures Closed(r)
  {
    if k.pendingReady == [] then k else MovePending(k).ResetNext()
  }

  function Replay(k: K): (r: K)
    requires Closed(k)
    ensures Closed(r)
  {
    TickTimes(k, k.pendedTicks).(pendedTicks := 0)
  }

  /** Ends one level of suspension; the last one readies the held tasks and replays
      the pended ticks. */
  function ResumeAll(k: K): (r: K)
    requires Closed(k) && k.nesting > 0
    ensures Closed(r)
  {
    var k0 := k.(nesting := k.nesting - 1);
    if k0.nesting > 0 || k0.number == 0 then k0 else Replay(Settle(k0))
  }

  // ---------------------------------------------------------------- how often a task is listed

  function Count(s: seq<TaskId>, t: TaskId): nat {
    if s == [] then 0 else (if s[0] == t then 1 else 0) + Count(s[1..], t)
  }

  function CountEntries(s: seq<Entry<TaskId>>, t: TaskId): nat {
    if s == [] then 0 else (if s[0].owner == t then 1 else 0) + CountEntries(s[1..], t)
  }

  function CountReady(ready: seq<Ring<TaskId>>, t: TaskId): nat {
    if ready == [] then 0 else Count(ready[0].items, t) + CountReady(ready[1..], t)
  }

  function CountEvents(events: seq<seq<Entry<TaskId>>>, t: TaskId): nat {
    if events == [] then 0 else CountEntries(events[0], t) + CountEvents(events[1..], t)
  }

  /** How many state lists hold a task. */
  function Copies(k: K, t: TaskId): nat {
    CountReady(k.ready, t) + CountEntries(k.clock.delayed, t) + CountEntries(k.clock.overflow, t) +
    Count(k.suspended, t) + Count(k.termination, t)
  }

  /** How many event lists hold a task. */
  function EventCopies(k: K, t: TaskId): nat {
    CountEvents(k.events, t) + Count(k.pendingReady, t)
  }
}
