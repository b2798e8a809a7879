/** Handing a mutex over: a task that blocks on one is asleep on its wait list, after its
    holder has inherited; a give frees the mutex and wakes the first waiter, even while the
    scheduler is suspended; and a take that is given back leaves no trace. */
module Handovers {
  import opened Common
  import opened Lists
  import opened Clocks
  import opened Tasks
  import opened Partition
  import opened Mutexes
  import opened Places

  // ---------------------------------------------------------------- a change of priority moves nobody

  lemma {:induction false} RevalueListed(s: seq<Entry<TaskId>>, t: TaskId, value: Tick, u: TaskId)
    ensures Listed(Revalue(s, t, value), u) <==> Listed(s, u)
  {
    if s != [] { RevalueListed(s[1..], t, value, u); }
  }

  /** Event lists in which a task has been given another value. */
  lemma RevaluedWaits(k: K, r: K, t: TaskId, value: Tick, u: TaskId)
    requires r.events == RevalueEvery(k.events, t, value)
    ensures forall l :: WaitsOn(r, l, u) <==> WaitsOn(k, l, u)
    ensures forall l | 0 <= l < |k.events| && k.events[l] != [] :: r.events[l] != [] && r.events[l][0].owner == k.events[l][0].owner
  {
    forall l: nat ensures WaitsOn(r, l, u) <==> WaitsOn(k, l, u) {
      if l < |k.events| { RevalueListed(k.events[l], t, value, u); }
    }
  }

  /** A ready task moved between ready lists, or a task that stays where it is. */
  lemma MovedReadily(k: K, t: TaskId, r: K, u: TaskId)
    requires Consistent(k) && ConsistentLists(r) && r.tcb.Keys == k.tcb.Keys && t in k.tcb && k.Known(t)
    requires CountReady(k.ready, t) > 0
    requires r.clock == k.DropState(t).clock && r.suspended == k.DropState(t).suspended && r.termination == k.termination
    ensures PlaceOf(r, u) == PlaceOf(k, u)
  {
    PlaceIs(k, t);
    CountMember(k.termination, t);
    DropStateRest(k, t, u);
    PlaceIs(k, u);
    PlaceIs(r, u);
  }

  lemma RelabelledPlaces(k: K, r: K, u: TaskId)
    requires ConsistentLists(k) && ConsistentLists(r) && r.tcb.Keys == k.tcb.Keys && r.clock == k.clock
    requires r.suspended == k.suspended && r.termination == k.termination
    ensures PlaceOf(r, u) == PlaceOf(k, u)
  {
    PlaceIs(k, u);
    PlaceIs(r, u);
  }

  lemma SetPriorityPlaces(k: K, t: TaskId, priority: nat, u: TaskId)
    requires Consistent(k) && t in k.tcb && priority < MAX_PRIORITIES
    ensures var r := k.SetPriority(t, priority);
            PlaceOf(r, u) == PlaceOf(k, u) && (forall l :: WaitsOn(r, l, u) <==> WaitsOn(k, l, u)) && r.pendingReady == k.pendingReady
  {
    var r := k.SetPriority(t, priority);
    SetPriorityConsistent(k, t, priority);
    SetPriorityRepriced(k, t, priority);
    RevaluedWaits(k, r, t, MAX_PRIORITIES - priority, u);
    if t in k.ready[k.tcb[t].priority].items {
      CountMember(k.ready[k.tcb[t].priority].items, t);
      CountReadyBounds(k.ready, k.tcb[t].priority, t);
      MovedReadily(k, t, r, u);
    } else {
      RelabelledPlaces(k, r, u);
    }
  }

  lemma InheritPlaces(k: K, holder: TaskId, u: TaskId)
    requires Consistent(k) && k.Known(holder) && k.Known(k.current)
    ensures var r := k.Inherit(holder).0;
            && PlaceOf(r, u) == PlaceOf(k, u) && (forall l :: WaitsOn(r, l, u) <==> WaitsOn(k, l, u))
            && r.pendingReady == k.pendingReady && r.current == k.current && r.clock.Now() == k.clock.Now()
  {
    if k.tcb[holder].priority < k.tcb[k.current].priority {
      SetPriorityPlaces(k, holder, k.tcb[k.current].priority, u);
    }
  }

  // ---------------------------------------------------------------- blocking

  /** Blocking on a mutex: the task sleeps for as long as it asked, on the wait list of the
      mutex, and no other task is moved; the holder is not below it then. */
  lemma BlockPlaces(s: S, m: nat, ticks: Tick, u: TaskId)
    requires Booked(s) && Allowed(s, Block(m, ticks))
    ensures var r, t := Act(s, Block(m, ticks)), s.k.current;
            && r.mutexes == s.mutexes && s.mutexes[m].holder.Some?
            && PlaceOf(r.k, u) == (if u != t then PlaceOf(s.k, u)
                                   else if ticks == MAX_DELAY then Parked else Asleep(s.k.clock.Now() + ticks))
            && (forall l :: WaitsOn(r.k, l, u) <==> WaitsOn(s.k, l, u) || (l == m && u == t))
            && (t in r.k.tcb && s.mutexes[m].holder.value in r.k.tcb &&
                r.k.tcb[s.mutexes[m].holder.value].priority >= r.k.tcb[t].priority)
  {
    BookedKnows(s);
    assert MutexOk(s.k, s.mutexes[m]);
    var h := s.mutexes[m].holder.value;
    InheritBooked(s, h);
    InheritPlaces(s.k, h, u);
    InheritEvents(s.k, h);
    BlockedPlaces(s.k, s.k.Inherit(h).0, m, ticks, u);
  }

  lemma BlockedPlaces(k: K, k1: K, m: nat, ticks: Tick, u: TaskId)
    requires Consistent(k1) && ticks > 0 && CountReady(k1.ready, k1.current) > 0 && m < |k1.events|
    requires k1.current == k.current && k1.clock.Now() == k.clock.Now() && PlaceOf(k1, u) == PlaceOf(k, u)
    requires forall l :: WaitsOn(k1, l, u) <==> WaitsOn(k, l, u)
    ensures var r := k1.PlaceOnEventList(m, ticks);
            && PlaceOf(r, u) == (if u != k.current then PlaceOf(k, u)
                                 else if ticks == MAX_DELAY then Parked else Asleep(k.clock.Now() + ticks))
            && (forall l :: WaitsOn(r, l, u) <==> WaitsOn(k, l, u) || (l == m && u == k.current))
            && r.tcb == k1.tcb
  {
    WaitPlaces(k1, m, ticks, u);
  }

  lemma InheritEvents(k: K, holder: TaskId)
    requires k.Shaped() && k.Known(holder) && k.Known(k.current)
    ensures |k.Inherit(holder).0.events| == |k.events|
  {
  }

  // ---------------------------------------------------------------- giving

  /** The same tasks are first on the same lists. */
  ghost predicate SameHeads(k: K, r: K) {
    |r.events| == |k.events| &&
    forall l | 0 <= l < |k.events| ::
      (r.events[l] == [] <==> k.events[l] == []) && (k.events[l] != [] ==> r.events[l][0].owner == k.events[l][0].owner)
  }

  ghost predicate SameWaits(k: K, r: K, u: TaskId) { forall l :: WaitsOn(r, l, u) <==> WaitsOn(k, l, u) }

  /** Giving back a mutex moves no task. */
  ghost predicate SamePlaces(k: K, r: K, u: TaskId) {
    && PlaceOf(r, u) == PlaceOf(k, u) && SameWaits(k, r, u) && SameHeads(k, r)
    && r.pendingReady == k.pendingReady && r.nesting == k.nesting
  }

  /** The running task has moved to the ready list of another priority. */
  ghost predicate Lowered(k: K, r: K, value: Tick)
    requires k.Shaped() && k.Known(k.current)
  {
    && r.events == RevalueEvery(k.events, k.current, value)
    && r.clock == k.DropState(k.current).clock && r.suspended == k.DropState(k.current).suspended
    && r.termination == k.termination && r.pendingReady == k.pendingReady && r.nesting == k.nesting && r.tcb.Keys == k.tcb.Keys
  }

  lemma LastGivenIs(k: K, r: K)
    requires k.Shaped() && k.Known(k.current) && k.tcb[k.current].mutexesHeld == 1 && k.tcb[k.current].basePriority < MAX_PRIORITIES
    requires k.tcb[k.current].priority != k.tcb[k.current].basePriority && r == k.Disinherit().0
    ensures Lowered(k, r, MAX_PRIORITIES - k.tcb[k.current].basePriority)
  {
  }

  lemma LoweredPlaces(k: K, r: K, value: Tick, u: TaskId)
    requires Consistent(k) && CountReady(k.ready, k.current) > 0 && Consistent(r) && k.Known(k.current) && Lowered(k, r, value)
    ensures SamePlaces(k, r, u)
  {
    RevaluedWaits(k, r, k.current, value, u);
    MovedReadily(k, k.current, r, u);
  }

  lemma DisinheritConsistent(k: K, r: K)
    requires Consistent(k) && AllInStep(k) && CountReady(k.ready, k.current) > 0
    requires k.Known(k.current) && k.tcb[k.current].mutexesHeld > 0 && k.tcb[k.current].basePriority < MAX_PRIORITIES
    requires r == k.Disinherit().0
    ensures Consistent(r)
  {
    DisinheritKernel(k);
  }

  lemma OtherGivenPlaces(k: K, r: K, u: TaskId)
    requires Consistent(k) && Consistent(r) && k.Known(k.current) && k.current in r.tcb
    requires r == k.(tcb := k.tcb[k.current := r.tcb[k.current]])
    ensures SamePlaces(k, r, u)
  {
    RelabelledPlaces(k, r, u);
  }

  lemma DisinheritPlaces(k: K, r: K, u: TaskId)
    requires Consistent(k) && Consistent(r) && CountReady(k.ready, k.current) > 0
    requires k.Known(k.current) && k.tcb[k.current].mutexesHeld > 0 && k.tcb[k.current].basePriority < MAX_PRIORITIES
    requires r == k.Disinherit().0
    ensures SamePlaces(k, r, u)
  {
    if k.tcb[k.current].priority != k.tcb[k.current].basePriority && k.tcb[k.current].mutexesHeld == 1 {
      LastGivenIs(k, r);
      LoweredPlaces(k, r, MAX_PRIORITIES - k.tcb[k.current].basePriority, u);
    } else {
      OtherGivenPlaces(k, r, u);
    }
  }

  /** The give that frees the mutex: not a recursive one that was taken more than once. */
  predicate Outermost(x: Mutex) { !(x.recursive && x.calls > 1) }

  /** Then the mutex is free, and the first waiter is off the list and ready, or held while
      the scheduler is suspended; no other task is moved. */
  lemma GivePlaces(s: S, m: nat, u: TaskId)
    requires Booked(s) && Allowed(s, Give(m)) && Outermost(s.mutexes[m])
    ensures var r, wait := Act(s, Give(m)), s.k.events[m];
            && m < |r.mutexes| && r.mutexes[m].count == 1 && r.mutexes[m].holder == None
            && (wait == [] ==> PlaceOf(r.k, u) == PlaceOf(s.k, u) && (IsHeld(r.k, u) <==> IsHeld(s.k, u)))
            && (wait != [] ==>
                  && PlaceOf(r.k, u) == (if u == wait[0].owner && s.k.nesting == 0 then Ready else PlaceOf(s.k, u))
                  && (IsHeld(r.k, u) <==> IsHeld(s.k, u) || (u == wait[0].owner && s.k.nesting > 0))
                  && forall l :: WaitsOn(r.k, l, u) <==> WaitsOn(s.k, l, u) && u != wait[0].owner)
  {
    BookedKnows(s);
    var y := s.mutexes[m];
    assert MutexOk(s.k, y);
    var x := if y.recursive then y.(calls := y.calls - 1) else y;
    var k1 := s.k.Disinherit().0;
    DisinheritConsistent(s.k, k1);
    DisinheritPlaces(s.k, k1, u);
    if k1.events[m] != [] { EventPlaces(k1, m, u); }
    GiveIs(s, m, x, k1);
  }

  // ---------------------------------------------------------------- taking and giving back

  /** A mutex that nobody waits for, or that the running task holds already and that is
      recursive: a take and a give leave everything as it was. */
  lemma TakenAndGiven(s: S, m: nat)
    requires Booked(s) && Allowed(s, Take(m)) && CountReady(s.k.ready, s.k.current) > 0
    requires s.mutexes[m].holder.Some? || s.k.events[m] == []
    ensures Booked(Act(s, Take(m))) && Allowed(Act(s, Take(m)), Give(m)) && Act(Act(s, Take(m)), Give(m)) == s
  {
    TakeBooked(s, m);
    assert MutexOk(s.k, s.mutexes[m]);
    if s.mutexes[m].holder == None { FreeTakenAndGiven(s, m, Act(s, Take(m))); } else { AgainAndBack(s, m, Act(s, Take(m))); }
  }

  lemma AgainAndBack(s: S, m: nat, s1: S)
    requires Booked(s) && Allowed(s, Take(m)) && CountReady(s.k.ready, s.k.current) > 0 && MutexOk(s.k, s.mutexes[m])
    requires s.mutexes[m].holder.Some? && s1 == Act(s, Take(m)) && Booked(s1)
    ensures Allowed(s1, Give(m)) && Act(s1, Give(m)) == s
  {
    var y := s.mutexes[m];
    assert y.recursive && y.calls > 0;
    assert s1.mutexes[m := y] == s.mutexes;
  }

  lemma FreeTakenAndGiven(s: S, m: nat, s1: S)
    requires Booked(s) && Allowed(s, Take(m)) && CountReady(s.k.ready, s.k.current) > 0 && MutexOk(s.k, s.mutexes[m])
    requires s.mutexes[m].holder == None && s.k.events[m] == [] && s1 == Act(s, Take(m)) && Booked(s1)
    ensures Allowed(s1, Give(m)) && Act(s1, Give(m)) == s
  {
    BookedKnows(s);
    BookedKnows(s1);
    FreeTakeIs(s, m, s1);
    assert TaskOk(s.k.tcb[s.k.current], Held(s.mutexes, s.k.current));
    HeldAndReleased(s.k, s1.k);
    GiveIs(s1, m, if s.mutexes[m].recursive then s1.mutexes[m].(calls := s1.mutexes[m].calls - 1) else s1.mutexes[m], s.k);
    assert s1.mutexes[m := s.mutexes[m]] == s.mutexes;
  }

  lemma FreeTakeIs(s: S, m: nat, s1: S)
    requires Booked(s) && Allowed(s, Take(m)) && s.mutexes[m].holder == None && s1 == Act(s, Take(m))
    requires MutexOk(s.k, s.mutexes[m])
    ensures s1.k == s.k.HoldOneMore() && |s1.mutexes| == |s.mutexes|
    ensures var y := s.mutexes[m];
            && s1.mutexes == s.mutexes[m := s1.mutexes[m]]
            && s1.mutexes[m] == y.(count := 0, holder := Some(s.k.current), calls := if y.recursive then 1 else y.calls)
  {
  }

  lemma HeldAndReleased(k: K, k1: K)
    requires k.Shaped() && k.current in k.tcb && k1 == k.HoldOneMore() && k1.Known(k1.current)
    requires k.tcb[k.current].basePriority < MAX_PRIORITIES
    requires k.tcb[k.current].mutexesHeld == 0 ==> k.tcb[k.current].priority == k.tcb[k.current].basePriority
    ensures k1.Disinherit().0 == k
  {
    assert k1.tcb[k.current := k.tcb[k.current]] == k.tcb;
  }
}
