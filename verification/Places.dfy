/** Where each task is.  A task is ready, asleep until a true time, parked without a time,
    or ended; beside that it may wait on an event list, or be held back as long as the
    scheduler is suspended.  This module says for every kernel operation and every task
    how that changes, and what follows over whole runs: when a sleeping task is ready
    again, that no wake-up is lost to a suspended scheduler, and that tasks of one
    priority take turns. */
module Places {
  import opened Common
  import opened Lists
  import opened Clocks
  import opened Tasks
  import opened Partition
  import opened Mutexes

  datatype Place = Ready | Asleep(wake: nat) | Parked | Ended | Nowhere

  /** The true time at which a task is to be woken. */
  function WakeOf(due: seq<Alarm>, t: TaskId): Option<nat> {
    if due == [] then None else if due[0].task == t then Some(due[0].wake) else WakeOf(due[1..], t)
  }

  function PlaceOf(k: K, t: TaskId): Place {
    if CountReady(k.ready, t) > 0 then Ready
    else if WakeOf(k.clock.Due(), t).Some? then Asleep(WakeOf(k.clock.Due(), t).value)
    else if t in k.suspended then Parked
    else if t in k.termination then Ended
    else Nowhere
  }

  predicate WaitsOn(k: K, l: nat, t: TaskId) { l < |k.events| && Listed(k.events[l], t) }

  /** It has been woken while the scheduler is suspended. */
  predicate IsHeld(k: K, t: TaskId) { t in k.pendingReady }

  // ---------------------------------------------------------------- what each operation does

  /** An alarm that has not gone off yet. */
  function Still(wake: Option<nat>, now: nat): Option<nat> {
    if wake.Some? && wake.value <= now then None else wake
  }

  predicate Wakes(k: K, t: TaskId, now: nat) { PlaceOf(k, t).Asleep? && PlaceOf(k, t).wake <= now }

  /** The place of a task after an operation, from the state before it. */
  function PlaceAfter(k: K, step: Step, t: TaskId): Place
    requires Enabled(k, step)
  {
    var p := PlaceOf(k, t);
    match step
    case TickInterrupt => if k.nesting == 0 && Wakes(k, t, k.clock.Now() + 1) then Ready else p
    case Delay(ticks) => if t == k.current then Asleep(k.clock.Now() + ticks) else p
    case Wait(_, ticks) => if t != k.current then p else if ticks == MAX_DELAY then Parked else Asleep(k.clock.Now() + ticks)
    case Event(l) => if t == k.events[l][0].owner && k.nesting == 0 then Ready else p
    case Suspend(u) => if t == u then Parked else p
    case Resume(u) => if t == u && t != k.current && k.IsSuspended(t) then Ready else p
    case ResumeIsr(u) => if t == u && k.nesting == 0 && k.IsSuspended(t) then Ready else p
    case Spawn(u, _) => if t == u then Ready else p
    case Kill(u) => if t != u then p else if t == k.current then Ended else Nowhere
    case CleanUp => if t == k.termination[0] then Nowhere else p
    case ResumeScheduler => if k.nesting == 1 && (IsHeld(k, t) || Wakes(k, t, RealTime(k))) then Ready else p
    case _ => p
  }

  /** Whether it waits on an event list afterwards. */
  predicate WaitsAfter(k: K, step: Step, l: nat, t: TaskId)
    requires Enabled(k, step)
  {
    match step
    case TickInterrupt => WaitsOn(k, l, t) && !(k.nesting == 0 && Wakes(k, t, k.clock.Now() + 1))
    case Wait(m, _) => WaitsOn(k, l, t) || (l == m && t == k.current)
    case Event(m) => WaitsOn(k, l, t) && t != k.events[m][0].owner
    case Suspend(u) => WaitsOn(k, l, t) && t != u
    case Kill(u) => WaitsOn(k, l, t) && t != u
    case ResumeScheduler => WaitsOn(k, l, t) && !(k.nesting == 1 && Wakes(k, t, RealTime(k)))
    case _ => WaitsOn(k, l, t)
  }

  predicate HeldAfter(k: K, step: Step, t: TaskId)
    requires Enabled(k, step)
  {
    match step
    case Event(l) => IsHeld(k, t) || (t == k.events[l][0].owner && k.nesting > 0)
    case Suspend(u) => IsHeld(k, t) && t != u
    case ResumeIsr(u) => IsHeld(k, t) || (t == u && k.nesting > 0 && k.IsSuspended(t))
    case Kill(u) => IsHeld(k, t) && t != u
    case ResumeScheduler => IsHeld(k, t) && k.nesting > 1
    case _ => IsHeld(k, t)
  }

  // ---------------------------------------------------------------- alarms of one task

  function CountAlarms(due: seq<Alarm>, t: TaskId): nat {
    if due == [] then 0 else (if due[0].task == t then 1 else 0) + CountAlarms(due[1..], t)
  }

  lemma {:induction false} WakeCounted(due: seq<Alarm>, t: TaskId)
    ensures WakeOf(due, t).Some? <==> CountAlarms(due, t) > 0
  {
    if due != [] { WakeCounted(due[1..], t); }
  }

  lemma {:induction false} AlarmsCount(s: seq<Entry<TaskId>>, base: nat, t: TaskId)
    ensures CountAlarms(Alarms(s, base), t) == CountEntries(s, t)
  {
    if s != [] { AlarmsCount(s[1..], base, t); }
  }

  lemma {:induction false} CountAlarmsJoin(a: seq<Alarm>, b: seq<Alarm>, t: TaskId)
    ensures CountAlarms(a + b, t) == CountAlarms(a, t) + CountAlarms(b, t)
  {
    if a == [] {
      assert a + b == b;
    } else {
      assert (a + b)[1..] == a[1..] + b;
      CountAlarmsJoin(a[1..], b, t);
    }
  }

  lemma ClockCounts(c: Clock, t: TaskId)
    ensures CountAlarms(c.Due(), t) == CountEntries(c.delayed, t) + CountEntries(c.overflow, t)
    ensures WakeOf(c.Due(), t).Some? <==> CountAlarms(c.Due(), t) > 0
  {
    AlarmsCount(c.delayed, Epoch(c.overflows), t);
    AlarmsCount(c.overflow, Epoch(c.overflows + 1), t);
    CountAlarmsJoin(Alarms(c.delayed, Epoch(c.overflows)), Alarms(c.overflow, Epoch(c.overflows + 1)), t);
    WakeCounted(c.Due(), t);
  }

  lemma {:induction false} WakeInsert(due: seq<Alarm>, a: Alarm, t: TaskId)
    requires WakeOf(due, a.task) == None
    ensures WakeOf(InsertAlarm(due, a), t) == if t == a.task then Some(a.wake) else WakeOf(due, t)
  {
    if due == [] || due[0].wake > a.wake {
      assert ([a] + due)[1..] == due;
    } else {
      WakeInsert(due[1..], a, t);
      assert ([due[0]] + InsertAlarm(due[1..], a))[1..] == InsertAlarm(due[1..], a);
    }
  }

  lemma {:induction false} WakeDrop(due: seq<Alarm>, t: TaskId, u: TaskId)
    requires CountAlarms(due, t) <= 1
    ensures WakeOf(DropAlarm(due, t), u) == if u == t then None else WakeOf(due, u)
  {
    if due != [] {
      if due[0].task == t {
        WakeCounted(due[1..], t);
      } else {
        WakeDrop(due[1..], t, u);
        assert ([due[0]] + DropAlarm(due[1..], t))[1..] == DropAlarm(due[1..], t);
      }
    }
  }

  lemma {:induction false} WakeNotBefore(due: seq<Alarm>, t: TaskId, first: nat)
    requires forall i | 0 <= i < |due| :: due[i].wake >= first
    ensures WakeOf(due, t).Some? ==> WakeOf(due, t).value >= first
  {
    if due != [] { WakeNotBefore(due[1..], t, first); }
  }

  lemma {:induction false} WakeAfter(due: seq<Alarm>, now: nat, t: TaskId)
    requires Ordered(due) && CountAlarms(due, t) <= 1
    ensures WakeOf(After(due, now), t) == Still(WakeOf(due, t), now)
  {
    if due != [] {
      if due[0].wake <= now {
        WakeAfter(due[1..], now, t);
        WakeCounted(due[1..], t);
      } else {
        WakeNotBefore(due, t, due[0].wake);
      }
    }
  }

  // ---------------------------------------------------------------- places by elimination

  /** What says where a task is that is not ready. */
  datatype Rest = Rest(live: bool, wake: Option<nat>, parked: bool, ended: bool)

  function RestOf(k: K, t: TaskId): Rest {
    Rest(t in k.tcb, WakeOf(k.clock.Due(), t), t in k.suspended, t in k.termination)
  }

  const LOOSE: Rest := Rest(true, None, false, false)

  function PlaceBy(r: Rest): Place {
    if !r.live then Nowhere else if r.wake.Some? then Asleep(r.wake.value)
    else if r.parked then Parked else if r.ended then Ended else Ready
  }

  lemma PlaceIs(k: K, t: TaskId)
    requires ConsistentLists(k)
    ensures PlaceOf(k, t) == PlaceBy(RestOf(k, t))
    ensures RestOf(k, t).wake.Some? ==> RestOf(k, t).live && !RestOf(k, t).parked && !RestOf(k, t).ended
    ensures RestOf(k, t).parked ==> RestOf(k, t).live && !RestOf(k, t).ended
    ensures RestOf(k, t).ended ==> RestOf(k, t).live
    ensures CountAlarms(k.clock.Due(), t) <= 1
    ensures CountReady(k.ready, t) > 0 ==> RestOf(k, t) == LOOSE
  {
    assert Copies(k, t) == if t in k.tcb then 1 else 0;
    ClockCounts(k.clock, t);
    CountMember(k.suspended, t);
    CountMember(k.termination, t);
  }

  /** Taking a task off its state list. */
  lemma DropStateRest(k: K, t: TaskId, u: TaskId)
    requires ConsistentLists(k) && k.clock.Timely() && k.Known(t) && Count(k.termination, t) == 0
    ensures RestOf(k.DropState(t), u) == if u == t then LOOSE else RestOf(k, u)
  {
    PlaceIs(k, t);
    assert Copies(k, t) == 1;
    CountListed(k.clock.delayed, t);
    CountListed(k.clock.overflow, t);
    DropRefines(k.clock, t);
    WakeDrop(k.clock.Due(), t, u);
    CountDrop(k.suspended, t, u);
    CountMember(k.suspended, u);
    CountMember(DropTask(k.suspended, t), u);
    CountMember(k.termination, t);
  }

  /** Readying it. */
  lemma MakeReadyMoves(k: K, t: TaskId, u: TaskId, r: K)
    requires ConsistentLists(k) && k.clock.Timely() && k.Known(t) && Count(k.termination, t) == 0
    requires ConsistentLists(r) && RestOf(r, u) == RestOf(k.DropState(t), u)
    ensures PlaceOf(r, u) == if u == t then Ready else PlaceOf(k, u)
  {
    DropStateRest(k, t, u);
    PlaceIs(k, u);
    PlaceIs(r, u);
  }

  // ---------------------------------------------------------------- blocking

  lemma BlockRest(c: Clock, t: TaskId, ticks: Tick, u: TaskId)
    requires c.Timely() && ticks > 0 && WakeOf(c.Due(), t) == None
    ensures WakeOf(c.Block(t, ticks).Due(), u) == if u == t then Some(c.Now() + ticks) else WakeOf(c.Due(), u)
  {
    BlockRefines(c, t, ticks);
    WakeInsert(c.Due(), Alarm(c.Now() + ticks, t), u);
  }

  /** The running task has been taken off its ready list and put to sleep, or parked. */
  lemma DelayMoves(k: K, ticks: Tick, park: bool, d: K, r: K, u: TaskId)
    requires Consistent(k) && ticks > 0 && CountReady(k.ready, k.current) > 0 && d == k.DropState(k.current)
    requires ConsistentLists(r) && r.tcb == d.tcb && r.termination == d.termination
    requires park ==> r.clock == d.clock && r.suspended == d.suspended + [k.current]
    requires !park ==> r.clock == d.clock.Block(k.current, ticks) && r.suspended == d.suspended
    ensures PlaceOf(r, u) ==
            if u != k.current then PlaceOf(k, u) else if park then Parked else Asleep(k.clock.Now() + ticks)
  {
    var t := k.current;
    PlaceIs(k, t);
    CountMember(k.termination, t);
    DropStateRest(k, t, t);
    DropStateRest(k, t, u);
    DropTimely(k.clock, t);
    if !park { BlockRest(d.clock, t, ticks, u); }
    PlaceIs(k, u);
    PlaceIs(r, u);
  }

  /** A delay: the task sleeps until `ticks` ticks from now, unless it asked to wait for
      ever, and no other task is moved. */
  lemma DelayPlaces(k: K, ticks: Tick, indefinitely: bool, u: TaskId)
    requires Consistent(k) && ticks > 0 && CountReady(k.ready, k.current) > 0
    ensures PlaceOf(k.DelayCurrent(ticks, indefinitely), u) ==
            if u != k.current then PlaceOf(k, u)
            else if ticks == MAX_DELAY && indefinitely then Parked else Asleep(k.clock.Now() + ticks)
  {
    DelayConsistent(k, ticks, indefinitely);
    DelayMoves(k, ticks, ticks == MAX_DELAY && indefinitely, k.DropState(k.current), k.DelayCurrent(ticks, indefinitely), u);
  }

  /** In terms of the alarms: one more, at that time, or none. */
  lemma DelayAlarm(k: K, ticks: Tick, indefinitely: bool)
    requires Consistent(k) && ticks > 0 && CountReady(k.ready, k.current) > 0
    ensures var r := k.DelayCurrent(ticks, indefinitely);
            if ticks == MAX_DELAY && indefinitely then r.clock.Due() == k.clock.Due() && k.current in r.suspended
            else r.clock.Due() == InsertAlarm(k.clock.Due(), Alarm(k.clock.Now() + ticks, k.current)) && k.current !in r.suspended
  {
    var t := k.current;
    PlaceIs(k, t);
    ClockCounts(k.clock, t);
    CountListed(k.clock.delayed, t);
    CountListed(k.clock.overflow, t);
    DropAbsent(k.clock.delayed, t);
    DropAbsent(k.clock.overflow, t);
    CountMember(k.suspended, t);
    CountDrop(k.suspended, t, t);
    CountMember(DropTask(k.suspended, t), t);
    BlockRefines(k.clock, t, ticks);
  }

  lemma {:induction false} ListedInsert(s: seq<Entry<TaskId>>, e: Entry<TaskId>, t: TaskId)
    ensures Listed(InsertSorted(s, e), t) <==> t == e.owner || Listed(s, t)
  {
    if s == [] || s[0].value > e.value {
      assert ([e] + s)[1..] == s;
    } else {
      ListedInsert(s[1..], e, t);
      assert InsertSorted(s, e)[1..] == InsertSorted(s[1..], e);
    }
  }

  /** A wait for an event: the same, and the task is on that event list. */
  lemma WaitPlaces(k: K, l: nat, ticks: Tick, u: TaskId)
    requires Consistent(k) && ticks > 0 && CountReady(k.ready, k.current) > 0 && l < |k.events|
    ensures var r := k.PlaceOnEventList(l, ticks);
            && PlaceOf(r, u) == (if u != k.current then PlaceOf(k, u)
                                 else if ticks == MAX_DELAY then Parked else Asleep(k.clock.Now() + ticks))
            && |r.events| == |k.events|
            && (forall m :: WaitsOn(r, m, u) <==> WaitsOn(k, m, u) || (m == l && u == k.current))
            && (IsHeld(r, u) <==> IsHeld(k, u))
  {
    PlaceConsistent(k, l, ticks);
    DelayMoves(k, ticks, ticks == MAX_DELAY, k.DropState(k.current), k.PlaceOnEventList(l, ticks), u);
    ListedInsert(k.events[l], Entry(MAX_PRIORITIES - k.tcb[k.current].priority, k.current), u);
  }

  // ---------------------------------------------------------------- waking, suspending and resuming

  lemma {:induction false} ListedDrop(s: seq<Entry<TaskId>>, t: TaskId, u: TaskId)
    requires CountEntries(s, t) <= 1
    ensures Listed(DropEntry(s, t), u) <==> u != t && Listed(s, u)
  {
    if s != [] {
      CountListed(s[1..], t);
      if s[0].owner != t { ListedDrop(s[1..], t, u); }
    }
  }

  lemma {:induction false} CountEventsBounds(events: seq<seq<Entry<TaskId>>>, l: nat, t: TaskId)
    requires l < |events|
    ensures CountEntries(events[l], t) <= CountEvents(events, t)
  {
    if l > 0 { CountEventsBounds(events[1..], l - 1, t); }
  }

  /** Taking a task's event item off whatever list holds it. */
  lemma DropEventPlaces(k: K, t: TaskId, l: nat, u: TaskId)
    requires EventCopies(k, t) <= 1
    ensures WaitsOn(k.DropEvent(t), l, u) <==> u != t && WaitsOn(k, l, u)
    ensures IsHeld(k.DropEvent(t), u) <==> u != t && IsHeld(k, u)
  {
    if l < |k.events| {
      CountEventsBounds(k.events, l, t);
      DropEveryAt(k.events, t);
      ListedDrop(k.events[l], t, u);
    }
    CountDrop(k.pendingReady, t, u);
    CountMember(k.pendingReady, u);
    CountMember(k.DropEvent(t).pendingReady, u);
  }

  /** The same of all lists at once. */
  lemma OffEvents(k: K, t: TaskId, u: TaskId, r: K)
    requires EventCopies(k, t) <= 1 && r.events == DropEvery(k.events, t) && r.pendingReady == DropTask(k.pendingReady, t)
    ensures |r.events| == |k.events| && (forall m :: WaitsOn(r, m, u) <==> WaitsOn(k, m, u) && u != t)
    ensures IsHeld(r, u) <==> IsHeld(k, u) && u != t
  {
    DropEventPlaces(k, t, 0, u);
    forall m: nat ensures WaitsOn(r, m, u) <==> WaitsOn(k, m, u) && u != t { DropEventPlaces(k, t, m, u); }
  }

  /** A ready task is on no event list, and no task is on two. */
  lemma WaitsOnce(k: K, t: TaskId)
    requires Consistent(k)
    ensures forall l, m | WaitsOn(k, l, t) && WaitsOn(k, m, t) :: l == m
    ensures forall l | WaitsOn(k, l, t) :: !IsHeld(k, t) && PlaceOf(k, t) != Ready
    ensures IsHeld(k, t) ==> PlaceOf(k, t) != Ready
    ensures EventCopies(k, t) == 0 <==> !IsHeld(k, t) && forall l :: !WaitsOn(k, l, t)
  {
    assert EventCopies(k, t) <= EventRoom(k, t) <= 1;
    CountMember(k.pendingReady, t);
    forall l: nat | WaitsOn(k, l, t) ensures CountEvents(k.events, t) >= 1 {
      CountListed(k.events[l], t);
      CountEventsBounds(k.events, l, t);
    }
    forall l: nat, m: nat | WaitsOn(k, l, t) && WaitsOn(k, m, t) ensures l == m {
      if l != m { TwoLists(k.events, l, m, t); }
    }
    if CountEvents(k.events, t) > 0 {
      var l := SomeList(k.events, t);
      assert WaitsOn(k, l, t);
    }
  }

  lemma {:induction false} SomeList(events: seq<seq<Entry<TaskId>>>, t: TaskId) returns (l: nat)
    requires CountEvents(events, t) > 0
    ensures l < |events| && Listed(events[l], t)
  {
    CountListed(events[0], t);
    if Listed(events[0], t) {
      l := 0;
    } else {
      var m := SomeList(events[1..], t);
      l := m + 1;
    }
  }

  lemma {:induction false} TwoLists(events: seq<seq<Entry<TaskId>>>, l: nat, m: nat, t: TaskId)
    requires l < |events| && m < |events| && l != m && Listed(events[l], t) && Listed(events[m], t)
    ensures CountEvents(events, t) > 1
  {
    CountListed(events[l], t);
    CountListed(events[m], t);
    if l > 0 && m > 0 {
      TwoLists(events[1..], l - 1, m - 1, t);
    } else {
      CountEventsBounds(events[1..], if l == 0 then m - 1 else l - 1, t);
    }
  }

  /** An event takes the first waiter off its list; it is ready at once or, while the
      scheduler is suspended, held. */
  lemma EventPlaces(k: K, l: nat, u: TaskId)
    requires Consistent(k) && l < |k.events| && k.events[l] != []
    ensures k.Known(k.events[l][0].owner)
    ensures var r, t := k.RemoveFromEventList(l), k.events[l][0].owner;
            && PlaceOf(r, u) == (if u == t && k.nesting == 0 then Ready else PlaceOf(k, u))
            && |r.events| == |k.events|
            && (forall m :: WaitsOn(r, m, u) <==> WaitsOn(k, m, u) && u != t)
            && (IsHeld(r, u) <==> IsHeld(k, u) || (u == t && k.nesting > 0))
  {
    EventConsistent(k, l);
    EventMoves(k, l, k.events[l][0].owner, u, k.RemoveFromEventList(l));
    EventOff(k, l, k.events[l][0].owner, u, k.RemoveFromEventList(l));
  }

  lemma EventMoves(k: K, l: nat, t: TaskId, u: TaskId, r: K)
    requires Consistent(k) && l < |k.events| && k.events[l] != [] && t == k.events[l][0].owner && k.Known(t)
    requires r == k.RemoveFromEventList(l) && ConsistentLists(r)
    ensures PlaceOf(r, u) == if u == t && k.nesting == 0 then Ready else PlaceOf(k, u)
  {
    CountEventsBounds(k.events, l, t);
    assert EventCopies(k, t) <= EventRoom(k, t);
    if k.nesting == 0 { MakeReadyMoves(k, t, u, r); }
  }

  lemma EventOff(k: K, l: nat, t: TaskId, u: TaskId, r: K)
    requires Consistent(k) && l < |k.events| && k.events[l] != [] && t == k.events[l][0].owner
    requires r.events == k.events[l := k.events[l][1..]]
    ensures forall m :: WaitsOn(r, m, u) <==> WaitsOn(k, m, u) && u != t
  {
    HeadListed(k.events[l], u);
    WaitsOnce(k, t);
    HeadListed(k.events[l], t);
    assert WaitsOn(k, l, t);
    CountEventsBounds(k.events, l, t);
    assert EventCopies(k, t) <= EventRoom(k, t);
    CountListed(k.events[l][1..], t);
    assert CountEntries(k.events[l], t) == 1 + CountEntries(k.events[l][1..], t);
    forall m: nat ensures WaitsOn(r, m, u) <==> WaitsOn(k, m, u) && u != t {
      if m == l {
        assert r.events[m] == k.events[l][1..];
        assert WaitsOn(r, m, u) <==> Listed(k.events[l][1..], u);
        assert WaitsOn(k, m, u) <==> Listed(k.events[l], u);
        assert u == t ==> !Listed(k.events[l][1..], u);
      } else if m < |k.events| {
        assert r.events[m] == k.events[m];
        assert WaitsOn(k, m, t) ==> m == l;
      }
    }
  }

  lemma HeadListed(s: seq<Entry<TaskId>>, u: TaskId)
    requires s != []
    ensures Listed(s, u) <==> s[0].owner == u || Listed(s[1..], u)
  {
  }

  lemma SuspendPlaces(k: K, t: TaskId, u: TaskId)
    requires Consistent(k) && t in k.tcb && Count(k.termination, t) == 0
    ensures var r := k.SuspendTask(t);
            && PlaceOf(r, u) == (if u == t then Parked else PlaceOf(k, u))
            && |r.events| == |k.events|
            && (forall m :: WaitsOn(r, m, u) <==> WaitsOn(k, m, u) && u != t)
            && (IsHeld(r, u) <==> IsHeld(k, u) && u != t)
  {
    SuspendConsistent(k, t);
    assert EventCopies(k, t) <= EventRoom(k, t);
    OffEvents(k, t, u, k.SuspendTask(t));
    SuspendMoves(k, t, k.DropState(t), u, k.SuspendTask(t));
  }

  lemma SuspendMoves(k: K, t: TaskId, d: K, u: TaskId, r: K)
    requires Consistent(k) && t in k.tcb && Count(k.termination, t) == 0 && d == k.DropState(t)
    requires ConsistentLists(r) && r.tcb == d.tcb && r.termination == d.termination && r.clock.Due() == d.clock.Due()
    requires r.suspended == d.suspended + [t]
    ensures PlaceOf(r, u) == if u == t then Parked else PlaceOf(k, u)
  {
    DropStateRest(k, t, u);
    PlaceIs(k, u);
    PlaceIs(r, u);
  }

  lemma ResumePlaces(k: K, t: TaskId, u: TaskId)
    requires Consistent(k) && t in k.tcb
    ensures k.Known(t) && PlaceOf(k.ResumeTask(t), u) == if u == t && t != k.current && k.IsSuspended(t) then Ready else PlaceOf(k, u)
    ensures k.ResumeTask(t).events == k.events && k.ResumeTask(t).pendingReady == k.pendingReady
  {
    if t != k.current && k.IsSuspended(t) { ResumedMoves(k, t, u, k.MakeReady(t)); }
  }

  lemma ResumedMoves(k: K, t: TaskId, u: TaskId, r: K)
    requires Consistent(k) && t in k.tcb && k.IsSuspended(t) && k.Known(t) && r == k.MakeReady(t)
    ensures PlaceOf(r, u) == if u == t then Ready else PlaceOf(k, u)
  {
    SuspendedNotTerminated(k, t);
    MakeReadyConsistent(k, t);
    MakeReadyMoves(k, t, u, r);
  }

  lemma ResumeIsrPlaces(k: K, t: TaskId, u: TaskId)
    requires Consistent(k) && t in k.tcb
    ensures k.Known(t) && PlaceOf(k.ResumeFromIsr(t), u) == if u == t && k.nesting == 0 && k.IsSuspended(t) then Ready else PlaceOf(k, u)
    ensures k.ResumeFromIsr(t).events == k.events
    ensures IsHeld(k.ResumeFromIsr(t), u) <==> IsHeld(k, u) || (u == t && k.nesting > 0 && k.IsSuspended(t))
  {
    if k.IsSuspended(t) && k.nesting == 0 { ResumedMoves(k, t, u, k.MakeReady(t)); }
  }

  // ---------------------------------------------------------------- birth and death

  lemma CreatePlaces(k: K, t: TaskId, priority: nat, u: TaskId)
    requires Consistent(k) && t !in k.tcb && priority < MAX_PRIORITIES
    ensures PlaceOf(k.Create(t, priority), u) == if u == t then Ready else PlaceOf(k, u)
    ensures k.Create(t, priority).events == k.events && k.Create(t, priority).pendingReady == k.pendingReady
  {
    CreateConsistent(k, t, priority);
    PlaceIs(k, u);
    PlaceIs(k.Create(t, priority), u);
  }

  lemma DeletePlaces(k: K, t: TaskId, u: TaskId)
    requires Consistent(k) && t in k.tcb && Count(k.termination, t) == 0
    ensures k.number > 0
    ensures var r := k.Delete(t);
            && PlaceOf(r, u) == (if u != t then PlaceOf(k, u) else if t == k.current then Ended else Nowhere)
            && |r.events| == |k.events|
            && (forall m :: WaitsOn(r, m, u) <==> WaitsOn(k, m, u) && u != t)
            && (IsHeld(r, u) <==> IsHeld(k, u) && u != t)
  {
    DeleteConsistent(k, t);
    assert EventCopies(k, t) <= EventRoom(k, t);
    var r := k.Delete(t);
    DeleteIs(k, t, k.DropState(t), r);
    OffEvents(k, t, u, r);
    if t == k.current { EndedMoves(k, t, k.DropState(t), u, r); } else { ForgottenMoves(k, t, k.DropState(t), u, r); }
  }

  lemma DeleteIs(k: K, t: TaskId, d: K, r: K)
    requires k.Shaped() && k.Known(t) && k.number > 0 && d == k.DropState(t) && r == k.Delete(t)
    ensures r.events == DropEvery(k.events, t) && r.pendingReady == DropTask(k.pendingReady, t)
    ensures r.suspended == d.suspended && r.clock.Due() == d.clock.Due()
    ensures t == k.current ==> r.tcb == d.tcb && r.termination == d.termination + [t]
    ensures t != k.current ==> r.tcb == d.tcb - {t} && r.termination == d.termination
  {
  }

  lemma EndedMoves(k: K, t: TaskId, d: K, u: TaskId, r: K)
    requires Consistent(k) && t in k.tcb && Count(k.termination, t) == 0 && d == k.DropState(t)
    requires ConsistentLists(r) && r.clock.Due() == d.clock.Due() && r.suspended == d.suspended
    requires r.tcb == d.tcb && r.termination == d.termination + [t]
    ensures PlaceOf(r, u) == if u == t then Ended else PlaceOf(k, u)
  {
    DropStateRest(k, t, u);
    PlaceIs(k, u);
    PlaceIs(r, u);
  }

  lemma ForgottenMoves(k: K, t: TaskId, d: K, u: TaskId, r: K)
    requires Consistent(k) && t in k.tcb && Count(k.termination, t) == 0 && d == k.DropState(t)
    requires ConsistentLists(r) && r.clock.Due() == d.clock.Due() && r.suspended == d.suspended
    requires (u in r.tcb <==> u in d.tcb && u != t) && r.termination == d.termination
    ensures PlaceOf(r, u) == if u == t then Nowhere else PlaceOf(k, u)
  {
    DropStateRest(k, t, u);
    PlaceIs(k, u);
    PlaceIs(r, u);
  }

  lemma CleanUpPlaces(k: K, u: TaskId)
    requires Consistent(k) && k.termination != [] && k.termination[0] != k.current
    ensures k.number > 0
    ensures PlaceOf(k.CleanUpOne(), u) == if u == k.termination[0] then Nowhere else PlaceOf(k, u)
    ensures k.CleanUpOne().events == k.events && k.CleanUpOne().pendingReady == k.pendingReady
  {
    CleanUpConsistent(k);
    assert k.termination == [k.termination[0]] + k.termination[1..];
    PlaceIs(k, u);
    PlaceIs(k.CleanUpOne(), u);
  }

  // ---------------------------------------------------------------- ticks

  /** Nothing but alarms has gone off. */
  lemma LaterPlaces(k: K, r: K, now: nat, u: TaskId)
    requires ConsistentLists(k) && ConsistentLists(r) && k.clock.Timely() && Unmoved(k, r)
    requires r.clock.Due() == After(k.clock.Due(), now)
    ensures PlaceOf(r, u) == if Wakes(k, u, now) then Ready else PlaceOf(k, u)
  {
    PlaceIs(k, u);
    PlaceIs(r, u);
    DueOrdered(k.clock);
    WakeAfter(k.clock.Due(), now, u);
  }

  lemma {:induction false} WakeDueReady(k: K, u: TaskId)
    requires Closed(k)
    ensures CountReady(WakeDue(k).ready, u) >= CountReady(k.ready, u)
    decreases |k.clock.delayed|
  {
    if k.clock.HeadDue() {
      var t := k.clock.delayed[0].owner;
      assert k.clock.delayed[0] in k.clock.delayed;
      AddReadyCopies(k.(clock := k.clock.(delayed := k.clock.delayed[1..])).DropEvent(t), t, u);
      WakeDueReady(WakeHead(k), u);
    }
  }

  /** Waking the head of the delay list takes it off its event list. */
  lemma WakeHeadOff(k: K, l: nat, u: TaskId)
    requires ConsistentLists(k) && Closed(k) && k.clock.delayed != []
    ensures WaitsOn(WakeHead(k), l, u) <==> WaitsOn(k, l, u) && u != k.clock.delayed[0].owner
    ensures CountReady(WakeHead(k).ready, k.clock.delayed[0].owner) > 0
  {
    var t := k.clock.delayed[0].owner;
    assert k.clock.delayed[0] in k.clock.delayed;
    assert EventCopies(k, t) <= EventRoom(k, t);
    DropEventPlaces(k, t, l, u);
    AddReadyCopies(k.(clock := k.clock.(delayed := k.clock.delayed[1..])).DropEvent(t), t, t);
  }

  lemma ReadyWaitsNot(k: K, l: nat, u: TaskId)
    requires ConsistentLists(k) && WaitsOn(k, l, u)
    ensures CountReady(k.ready, u) == 0
  {
    assert EventCopies(k, u) <= EventRoom(k, u);
    CountListed(k.events[l], u);
    CountEventsBounds(k.events, l, u);
  }

  /** The wake loop takes just those off their event lists that it readies. */
  lemma {:induction false} WakeDueOff(k: K, l: nat, u: TaskId)
    requires ConsistentLists(k) && Closed(k)
    ensures WaitsOn(WakeDue(k), l, u) <==> WaitsOn(k, l, u) && CountReady(WakeDue(k).ready, u) == 0
    decreases |k.clock.delayed|
  {
    if k.clock.HeadDue() {
      WakeHeadConsistent(k);
      WakeHeadOff(k, l, u);
      WakeDueOff(WakeHead(k), l, u);
      WakeDueReady(WakeHead(k), k.clock.delayed[0].owner);
    } else if WaitsOn(k, l, u) {
      ReadyWaitsNot(k, l, u);
    }
  }

  lemma TickOff(k: K, l: nat, u: TaskId)
    requires ConsistentLists(k) && k.clock.Timely() && k.nesting == 0 && Closed(k)
    ensures WaitsOn(IncrementTick(k), l, u) <==> WaitsOn(k, l, u) && CountReady(IncrementTick(k).ready, u) == 0
  {
    AdvanceLists(k);
    var k1 := k.(clock := k.clock.Advance());
    ConsistentClosed(k1);
    if k1.clock.tick >= k1.clock.nextUnblock {
      WakeDueOff(k1, l, u);
    } else if WaitsOn(k, l, u) {
      ReadyWaitsNot(k, l, u);
    }
  }

  /** A counted tick readies the tasks whose time has come, and takes them off the event
      lists on which they wait. */
  lemma TickPlaces(k: K, l: nat, u: TaskId)
    requires Consistent(k) && k.nesting == 0
    ensures Closed(k)
    ensures var r := IncrementTick(k);
            && PlaceOf(r, u) == (if Wakes(k, u, k.clock.Now() + 1) then Ready else PlaceOf(k, u))
            && (WaitsOn(r, l, u) <==> WaitsOn(k, l, u) && !Wakes(k, u, k.clock.Now() + 1))
            && r.pendingReady == []
  {
    TickConsistent(k);
    TickRefines(k.clock);
    TickOff(k, l, u);
    WokenPlaces(k, IncrementTick(k), k.clock.Now() + 1, l, u);
  }

  lemma WokenPlaces(k: K, r: K, now: nat, l: nat, u: TaskId)
    requires ConsistentLists(k) && ConsistentLists(r) && k.clock.Timely() && Unmoved(k, r)
    requires r.clock.Due() == After(k.clock.Due(), now)
    requires WaitsOn(r, l, u) <==> WaitsOn(k, l, u) && CountReady(r.ready, u) == 0
    ensures PlaceOf(r, u) == if Wakes(k, u, now) then Ready else PlaceOf(k, u)
    ensures WaitsOn(r, l, u) <==> WaitsOn(k, l, u) && !Wakes(k, u, now)
  {
    LaterPlaces(k, r, now, u);
    IsReady(k, u);
    IsReady(r, u);
    var woken := Wakes(k, u, now);
    if WaitsOn(k, l, u) { ReadyWaitsNot(k, l, u); }
    StillWaits(PlaceOf(k, u), PlaceOf(r, u), woken, WaitsOn(k, l, u), WaitsOn(r, l, u));
  }

  lemma IsReady(k: K, u: TaskId)
    ensures PlaceOf(k, u) == Ready <==> CountReady(k.ready, u) > 0
  {
  }

  /** Of one task: its place before and after, whether it was woken, and whether it waited
      before and after. */
  lemma StillWaits(p: Place, q: Place, woken: bool, before: bool, after: bool)
    requires q == if woken then Ready else p
    requires before ==> p != Ready
    requires after <==> before && q != Ready
    ensures after <==> before && !woken
  {
  }

  /** A ready task stays so, and those that become ready leave their event lists. */
  ghost predicate Off(k: K, r: K, l: nat, u: TaskId) {
    && CountReady(r.ready, u) >= CountReady(k.ready, u)
    && (WaitsOn(r, l, u) <==> WaitsOn(k, l, u) && CountReady(r.ready, u) == 0)
  }

  lemma OffSelf(k: K, l: nat, u: TaskId)
    requires ConsistentLists(k)
    ensures Off(k, k, l, u)
  {
    if WaitsOn(k, l, u) { ReadyWaitsNot(k, l, u); }
  }

  lemma OffJoin(k: K, t: K, r: K, l: nat, u: TaskId)
    requires Off(k, t, l, u) && Off(t, r, l, u)
    ensures Off(k, r, l, u)
  {
  }

  lemma TickOneOff(k: K, l: nat, u: TaskId, t: K)
    requires ConsistentLists(k) && k.clock.Timely() && k.nesting == 0 && Closed(k) && t == IncrementTick(k)
    ensures ConsistentLists(t) && t.clock.Timely() && t.nesting == 0 && Off(k, t, l, u)
  {
    TickConsistent(k);
    TickOff(k, l, u);
    TickReady(k, u);
  }

  lemma OneMoreOff(s: seq<K>, i: nat, l: nat, u: TaskId)
    requires TickByTick(s) && AllSound(s) && i + 1 < |s| && Off(s[0], s[i], l, u)
    ensures Off(s[0], s[i + 1], l, u)
  {
    assert Sound(s[i]);
    TickOneOff(s[i], l, u, s[i + 1]);
    OffJoin(s[0], s[i], s[i + 1], l, u);
  }

  lemma TicksOff(s: seq<K>, n: nat, l: nat, u: TaskId)
    requires TickByTick(s) && AllSound(s) && n < |s|
    ensures Off(s[0], s[n], l, u)
  {
    assert Sound(s[0]);
    OffSelf(s[0], l, u);
    var i := 0;
    while i < n
      invariant i <= n && Off(s[0], s[i], l, u)
    {
      OneMoreOff(s, i, l, u);
      i := i + 1;
    }
  }

  lemma TickReady(k: K, u: TaskId)
    requires Closed(k) && k.nesting == 0
    ensures CountReady(IncrementTick(k).ready, u) >= CountReady(k.ready, u)
  {
    var k1 := k.(clock := k.clock.Advance());
    if k1.clock.tick >= k1.clock.nextUnblock { WakeDueReady(k1, u); }
  }

  // ---------------------------------------------------------------- the end of a suspension

  /** No task has two alarms. */
  ghost predicate OneAlarmEach(c: Clock) { forall t: TaskId :: CountAlarms(c.Due(), t) <= 1 }

  lemma DropAlarmEach(c: Clock, t: TaskId, u: TaskId)
    requires c.Timely() && OneAlarmEach(c)
    ensures c.Drop(t).Timely() && OneAlarmEach(c.Drop(t))
    ensures WakeOf(c.Drop(t).Due(), u) == if u == t then None else WakeOf(c.Due(), u)
  {
    assert CountAlarms(c.Due(), t) <= 1;
    ClockCounts(c, t);
    CountListed(c.delayed, t);
    CountListed(c.overflow, t);
    DropRefines(c, t);
    WakeDrop(c.Due(), t, u);
    forall v: TaskId ensures CountAlarms(c.Drop(t).Due(), v) <= 1 {
      assert CountAlarms(c.Due(), v) <= 1;
      ClockCounts(c, v);
      ClockCounts(c.Drop(t), v);
      CountDropEntry(c.delayed, t, v);
      CountDropEntry(c.overflow, t, v);
    }
  }

  lemma {:induction false} DropAllWake(c: Clock, ts: seq<TaskId>, u: TaskId)
    requires c.Timely() && OneAlarmEach(c)
    ensures DropAll(c, ts).Timely() && OneAlarmEach(DropAll(c, ts))
    ensures WakeOf(DropAll(c, ts).Due(), u) == if u in ts then None else WakeOf(c.Due(), u)
    decreases |ts|
  {
    if ts != [] {
      DropAlarmEach(c, ts[0], u);
      DropAllWake(c.Drop(ts[0]), ts[1..], u);
    }
  }

  /** Each held task leaves the list that it is on. */
  lemma {:induction false} MovePendingRest(k: K, u: TaskId)
    requires Closed(k) && Count(k.suspended, u) <= 1
    ensures u in MovePending(k).suspended <==> u in k.suspended && u !in k.pendingReady
    ensures MovePending(k).termination == k.termination
    decreases |k.pendingReady|
  {
    if k.pendingReady != [] {
      var t := k.pendingReady[0];
      assert t in k.pendingReady;
      DropEntrySubset(k.clock.delayed, t);
      DropEntrySubset(k.clock.overflow, t);
      CountDrop(k.suspended, t, u);
      CountMember(k.suspended, u);
      CountMember(DropTask(k.suspended, t), u);
      MovePendingRest(k.(pendingReady := k.pendingReady[1..]).MakeReady(t), u);
    }
  }

  lemma SettleRest(k: K, u: TaskId)
    requires ConsistentLists(k) && k.clock.Timely() && k.nesting == 0 && Closed(k)
    ensures RestOf(Settle(k), u) == if u in k.pendingReady then LOOSE else RestOf(k, u)
    ensures Settle(k).events == k.events
  {
    SettleConsistent(k);
    MovePendingConsistent(k);
    MovePendingKeeps(k);
    assert Copies(k, u) <= 1;
    MovePendingRest(k, u);
    forall t: TaskId ensures CountAlarms(k.clock.Due(), t) <= 1 { PlaceIs(k, t); }
    DropAllWake(k.clock, k.pendingReady, u);
    if u in k.pendingReady { HeldNotEnded(k, u); }
  }

  lemma HeldNotEnded(k: K, u: TaskId)
    requires ConsistentLists(k) && u in k.pendingReady
    ensures u in k.tcb && u !in k.termination
  {
    CountMember(k.pendingReady, u);
    CountMember(k.termination, u);
    assert EventCopies(k, u) <= EventRoom(k, u);
  }

  /** The held tasks are ready. */
  lemma SettlePlaces(k: K, u: TaskId)
    requires ConsistentLists(k) && k.clock.Timely() && k.nesting == 0 && Closed(k)
    ensures PlaceOf(Settle(k), u) == if u in k.pendingReady then Ready else PlaceOf(k, u)
  {
    SettleConsistent(k);
    SettleRest(k, u);
    PlaceIs(k, u);
    PlaceIs(Settle(k), u);
  }

  lemma ReplayPlaces(k: K, l: nat, u: TaskId)
    requires ConsistentLists(k) && k.clock.Timely() && k.nesting == 0 && k.pendingReady == [] && Closed(k)
    ensures PlaceOf(Replay(k), u) == if Wakes(k, u, RealTime(k)) then Ready else PlaceOf(k, u)
    ensures WaitsOn(Replay(k), l, u) <==> WaitsOn(k, l, u) && !Wakes(k, u, RealTime(k))
  {
    TicksPlaces(k, k.pendedTicks, l, u, TickTimes(k, k.pendedTicks));
    SamePlace(TickTimes(k, k.pendedTicks), Replay(k), l, u);
  }

  lemma TicksPlaces(k: K, n: nat, l: nat, u: TaskId, r: K)
    requires Sound(k) && Closed(k) && r == TickTimes(k, n)
    ensures PlaceOf(r, u) == if Wakes(k, u, k.clock.Now() + n) then Ready else PlaceOf(k, u)
    ensures WaitsOn(r, l, u) <==> WaitsOn(k, l, u) && !Wakes(k, u, k.clock.Now() + n)
  {
    var s := TickStates(k, n);
    TicksSound(s);
    TicksOff(s, n, l, u);
    TicksClock(k, n);
    assert Sound(s[n]);
    TickedPlaces(k, n, l, u, r);
  }

  lemma TickedPlaces(k: K, n: nat, l: nat, u: TaskId, r: K)
    requires Sound(k) && Sound(r) && Unmoved(k, r) && r.clock == k.clock.Ticks(n) && Off(k, r, l, u)
    ensures PlaceOf(r, u) == if Wakes(k, u, k.clock.Now() + n) then Ready else PlaceOf(k, u)
    ensures WaitsOn(r, l, u) <==> WaitsOn(k, l, u) && !Wakes(k, u, k.clock.Now() + n)
  {
    TicksDue(k.clock, n, r.clock, k.clock.Now() + n);
    WokenPlaces(k, r, k.clock.Now() + n, l, u);
  }

  lemma TicksDue(c: Clock, n: nat, r: Clock, now: nat)
    requires c.Timely() && r == c.Ticks(n) && now == c.Now() + n
    ensures r.Due() == After(c.Due(), now)
  {
    TicksRefine(c, n);
  }

  lemma SamePlace(k: K, r: K, l: nat, u: TaskId)
    requires r == k.(nesting := r.nesting, pendedTicks := r.pendedTicks)
    ensures PlaceOf(r, u) == PlaceOf(k, u) && (WaitsOn(r, l, u) <==> WaitsOn(k, l, u)) && (IsHeld(r, u) <==> IsHeld(k, u))
  {
  }

  /** The end of the last suspension readies every held task and every task whose time has
      come meanwhile, and no other. */
  lemma ResumeLastPlaces(k: K, l: nat, u: TaskId)
    requires Consistent(k) && k.nesting == 1
    ensures Closed(k)
    ensures var r := ResumeAll(k);
            && PlaceOf(r, u) == (if IsHeld(k, u) || Wakes(k, u, RealTime(k)) then Ready else PlaceOf(k, u))
            && (WaitsOn(r, l, u) <==> WaitsOn(k, l, u) && !Wakes(k, u, RealTime(k)))
            && r.pendingReady == []
  {
    var k0 := k.(nesting := 0);
    ResumeLastIs(k);
    ResumeLast(k);
    SamePlace(k, k0, l, u);
    WaitsOnce(k, u);
    SettledPlaces(k0, Settle(k0), l, u, RealTime(k));
    ReplayPlaces(Settle(k0), l, u);
  }

  lemma SettledPlaces(k: K, s: K, l: nat, u: TaskId, now: nat)
    requires ConsistentLists(k) && k.clock.Timely() && k.nesting == 0 && Closed(k) && s == Settle(k) && now == RealTime(k)
    ensures ConsistentLists(s) && s.clock.Timely() && s.nesting == 0 && s.pendingReady == [] && Closed(s) && RealTime(s) == now
    ensures PlaceOf(s, u) == if IsHeld(k, u) then Ready else PlaceOf(k, u)
    ensures WaitsOn(s, l, u) <==> WaitsOn(k, l, u)
  {
    SettleConsistent(k);
    SettlePlaces(k, u);
    SettleRest(k, u);
  }

  // ---------------------------------------------------------------- every step

  /** Steps that move no task. */
  lemma StaysPut(k: K, r: K, t: TaskId)
    requires ConsistentLists(k) && ConsistentLists(r) && r.tcb == k.tcb && r.clock == k.clock
    requires r.suspended == k.suspended && r.termination == k.termination
    ensures PlaceOf(r, t) == PlaceOf(k, t)
  {
    PlaceIs(k, t);
    PlaceIs(r, t);
  }

  predicate MovesNobody(k: K, step: Step) {
    || step.SuspendScheduler? || step.Switch?
    || (step.TickInterrupt? && k.nesting > 0) || (step.ResumeScheduler? && k.nesting > 1)
  }

  lemma QuietStep(k: K, step: Step, r: K)
    requires Consistent(k) && Enabled(k, step) && MovesNobody(k, step) && r == Next(k, step)
    ensures r.tcb == k.tcb && r.clock == k.clock && r.suspended == k.suspended && r.termination == k.termination
    ensures r.events == k.events && r.pendingReady == k.pendingReady
  {
    ConsistentClosed(k);
  }

  lemma QuietMoves(k: K, step: Step, t: TaskId, r: K)
    requires Consistent(k) && Enabled(k, step) && MovesNobody(k, step) && r == Next(k, step)
    ensures PlaceOf(r, t) == PlaceOf(k, t) && r.events == k.events && r.pendingReady == k.pendingReady
  {
    StepConsistent(k, step);
    QuietStep(k, step, r);
    StaysPut(k, r, t);
  }

  /** What a step makes of one task. */
  ghost predicate Moved(k: K, step: Step, l: nat, t: TaskId, r: K)
    requires Enabled(k, step)
  {
    && PlaceOf(r, t) == PlaceAfter(k, step, t)
    && (WaitsOn(r, l, t) <==> WaitsAfter(k, step, l, t))
    && (IsHeld(r, t) <==> HeldAfter(k, step, t))
  }

  lemma TickMoves(k: K, l: nat, t: TaskId)
    requires Consistent(k) && k.nesting == 0
    ensures Moved(k, TickInterrupt, l, t, Next(k, TickInterrupt))
  {
    TickPlaces(k, l, t);
  }

  lemma BlockMoves(k: K, step: Step, l: nat, t: TaskId)
    requires Consistent(k) && Enabled(k, step) && (step.Delay? || step.Wait?)
    ensures Moved(k, step, l, t, Next(k, step))
  {
    match step
    case Delay(ticks) => DelayPlaces(k, ticks, false, t);
    case Wait(m, ticks) => WaitPlaces(k, m, ticks, t);
  }

  lemma TaskMoves(k: K, step: Step, l: nat, t: TaskId)
    requires Consistent(k) && Enabled(k, step) && (step.Event? || step.Suspend? || step.Resume? || step.ResumeIsr?)
    ensures Moved(k, step, l, t, Next(k, step))
  {
    match step
    case Event(m) => EventPlaces(k, m, t);
    case Suspend(u) => SuspendPlaces(k, u, t);
    case Resume(u) => ResumePlaces(k, u, t);
    case ResumeIsr(u) => ResumeIsrPlaces(k, u, t);
  }

  lemma LifeMoves(k: K, step: Step, l: nat, t: TaskId)
    requires Consistent(k) && Enabled(k, step) && (step.Spawn? || step.Kill? || step.CleanUp?)
    ensures Moved(k, step, l, t, Next(k, step))
  {
    match step
    case Spawn(u, priority) => CreatePlaces(k, u, priority, t);
    case Kill(u) => DeletePlaces(k, u, t);
    case CleanUp => CleanUpPlaces(k, t);
  }

  lemma ResumeMoves(k: K, l: nat, t: TaskId)
    requires Consistent(k) && k.nesting == 1
    ensures Moved(k, ResumeScheduler, l, t, Next(k, ResumeScheduler))
  {
    ResumeLastPlaces(k, l, t);
    Resumed(k, l, t, Next(k, ResumeScheduler));
  }

  lemma Resumed(k: K, l: nat, t: TaskId, r: K)
    requires k.nesting == 1 && r.pendingReady == []
    requires PlaceOf(r, t) == if IsHeld(k, t) || Wakes(k, t, RealTime(k)) then Ready else PlaceOf(k, t)
    requires WaitsOn(r, l, t) <==> WaitsOn(k, l, t) && !Wakes(k, t, RealTime(k))
    ensures Moved(k, ResumeScheduler, l, t, r)
  {
    AfterResume(k, l, t);
  }

  lemma AfterResume(k: K, l: nat, t: TaskId)
    requires k.nesting == 1
    ensures PlaceAfter(k, ResumeScheduler, t) == if IsHeld(k, t) || Wakes(k, t, RealTime(k)) then Ready else PlaceOf(k, t)
    ensures WaitsAfter(k, ResumeScheduler, l, t) <==> WaitsOn(k, l, t) && !Wakes(k, t, RealTime(k))
    ensures !HeldAfter(k, ResumeScheduler, t)
  {
  }

  /** Where every task is after every kernel operation, on which event list, and whether it
      is held: just what the state before says. */
  lemma StepMoves(k: K, step: Step, l: nat, t: TaskId)
    requires Consistent(k) && Enabled(k, step)
    ensures PlaceOf(Next(k, step), t) == PlaceAfter(k, step, t)
    ensures WaitsOn(Next(k, step), l, t) <==> WaitsAfter(k, step, l, t)
    ensures IsHeld(Next(k, step), t) <==> HeldAfter(k, step, t)
  {
    if MovesNobody(k, step) {
      QuietMoves(k, step, t, Next(k, step));
    } else {
      match step
      case TickInterrupt => TickMoves(k, l, t);
      case ResumeScheduler => ResumeMoves(k, l, t);
      case Delay(_) => BlockMoves(k, step, l, t);
      case Wait(_, _) => BlockMoves(k, step, l, t);
      case Spawn(_, _) => LifeMoves(k, step, l, t);
      case Kill(_) => LifeMoves(k, step, l, t);
      case CleanUp => LifeMoves(k, step, l, t);
      case _ => TaskMoves(k, step, l, t);
    }
  }

  function NowAfter(k: K, step: Step): nat {
    if step.TickInterrupt? && k.nesting == 0 then k.clock.Now() + 1
    else if step.ResumeScheduler? && k.nesting == 1 then RealTime(k) else k.clock.Now()
  }

  function NestingAfter(k: K, step: Step): int {
    k.nesting + if step.SuspendScheduler? then 1 else if step.ResumeScheduler? then -1 else 0
  }

  /** The time counted, the depth of suspension, and the running task, which only a switch
      replaces. */
  lemma StepCounts(k: K, step: Step)
    requires Consistent(k) && Enabled(k, step)
    ensures Next(k, step).clock.Now() == NowAfter(k, step)
    ensures Next(k, step).nesting == NestingAfter(k, step)
    ensures !step.Switch? ==> Next(k, step).current == k.current
  {
    Counts(k, step, Next(k, step));
  }

  ghost predicate Counted(k: K, step: Step, r: K) {
    r.clock.Now() == NowAfter(k, step) && r.nesting == NestingAfter(k, step) && (!step.Switch? ==> r.current == k.current)
  }

  lemma Counts(k: K, step: Step, r: K)
    requires Consistent(k) && Enabled(k, step) && r == Next(k, step)
    ensures Counted(k, step, r)
  {
    if step.TickInterrupt? && k.nesting == 0 {
      TickCounts(k, r);
    } else if step.ResumeScheduler? && k.nesting == 1 {
      ResumeCounts(k);
    } else {
      ShortCounts(k, step, r);
    }
  }

  lemma TickCounts(k: K, r: K)
    requires Consistent(k) && k.nesting == 0 && r == Next(k, TickInterrupt)
    ensures Counted(k, TickInterrupt, r)
  {
    TickConsistent(k);
    TickRefines(k.clock);
  }

  lemma ResumeCounts(k: K)
    requires Consistent(k) && k.nesting == 1
    ensures Closed(k) && Counted(k, ResumeScheduler, ResumeAll(k))
  {
    ResumeLast(k);
    ResumeKeepsCurrent(k);
  }

  lemma ShortCounts(k: K, step: Step, r: K)
    requires Consistent(k) && Enabled(k, step) && r == Next(k, step)
    requires !(step.TickInterrupt? && k.nesting == 0) && !(step.ResumeScheduler? && k.nesting == 1)
    ensures r.clock.tick == k.clock.tick && r.clock.overflows == k.clock.overflows
    ensures r.nesting == NestingAfter(k, step) && (!step.Switch? ==> r.current == k.current)
  {
    if MovesNobody(k, step) || step.Spawn? || step.CleanUp? { PlainCounts(k, step, r); } else { OneTaskCounts(k, step, r); }
  }

  lemma PlainCounts(k: K, step: Step, r: K)
    requires Consistent(k) && Enabled(k, step) && r == Next(k, step)
    requires MovesNobody(k, step) || step.Spawn? || step.CleanUp?
    ensures r.clock == k.clock && r.nesting == NestingAfter(k, step) && (!step.Switch? ==> r.current == k.current)
  {
    ConsistentClosed(k);
  }

  lemma ResumeKeepsCurrent(k: K)
    requires Consistent(k) && k.nesting == 1 && Closed(k)
    ensures ResumeAll(k).current == k.current
  {
    var k0 := k.(nesting := 0);
    ResumeLastIs(k);
    SettleConsistent(k0);
    MovePendingCurrent(k0);
    TicksConsistent(Settle(k0), Settle(k0).pendedTicks);
  }

  lemma {:induction false} MovePendingCurrent(k: K)
    requires Closed(k)
    ensures MovePending(k).current == k.current
    decreases |k.pendingReady|
  {
    if k.pendingReady != [] {
      var t := k.pendingReady[0];
      assert t in k.pendingReady;
      DropEntrySubset(k.clock.delayed, t);
      DropEntrySubset(k.clock.overflow, t);
      MovePendingCurrent(k.(pendingReady := k.pendingReady[1..]).MakeReady(t));
    }
  }
}
