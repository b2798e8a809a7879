/** Sleeping and waking over whole runs of the kernel.  A task that sleeps is ready again
    exactly when its time has come; one that waits for an event is woken by it, even while
    the scheduler is suspended, and by nothing else; an event goes to the highest waiter;
    and ready tasks of one priority take turns. */
module Wakeups {
  import opened Common
  import opened Lists
  import opened Clocks
  import opened Tasks
  import opened Partition
  import opened Mutexes
  import opened Places

  /** The operation does not put the task to sleep, suspend it or delete it, and is no
      event for it. */
  predicate LeavesAlone(k: K, step: Step, t: TaskId)
    requires Enabled(k, step)
  {
    match step
    case Suspend(u) => u != t
    case Kill(u) => u != t
    case Delay(_) => k.current != t
    case Wait(_, _) => k.current != t
    case Event(l) => k.events[l][0].owner != t
    case _ => true
  }

  ghost predicate LeftAlone(k: K, steps: seq<Step>, t: TaskId)
    requires Consistent(k)
    decreases |steps|
  {
    steps != [] && Enabled(k, steps[0]) ==>
      && LeavesAlone(k, steps[0], t)
      && (StepConsistent(k, steps[0]); LeftAlone(Next(k, steps[0]), steps[1..], t))
  }

  // ---------------------------------------------------------------- sleeping

  /** The task is asleep until `wake`, on the given event list if it waits, or has been
      woken by the time. */
  ghost predicate SleepsUntil(k: K, t: TaskId, wake: nat, l: nat, waits: bool) {
    || (PlaceOf(k, t) == Asleep(wake) && k.clock.Now() < wake && !IsHeld(k, t) && (WaitsOn(k, l, t) <==> waits))
    || (PlaceOf(k, t) == Ready && k.clock.Now() >= wake)
  }

  /** A task that is asleep or ready is not one that a resume would ready, or that is
      still to be created or cleaned up. */
  lemma NotParked(k: K, t: TaskId)
    requires Consistent(k) && (PlaceOf(k, t).Asleep? || PlaceOf(k, t) == Ready)
    ensures t in k.tcb && !k.IsSuspended(t) && t !in k.termination
    ensures PlaceOf(k, t) == Ready ==> !IsHeld(k, t)
  {
    PlaceIs(k, t);
    WaitsOnce(k, t);
  }

  lemma SleepsOn(k: K, step: Step, t: TaskId, wake: nat, l: nat, waits: bool, r: K)
    requires Consistent(k) && Enabled(k, step) && LeavesAlone(k, step, t) && SleepsUntil(k, t, wake, l, waits)
    requires Moved(k, step, l, t, r) && r.clock.Now() == NowAfter(k, step)
    ensures SleepsUntil(r, t, wake, l, waits)
  {
    NotParked(k, t);
  }

  lemma {:induction false} SleepsThrough(k: K, steps: seq<Step>, t: TaskId, wake: nat, l: nat, waits: bool)
    requires Consistent(k) && SleepsUntil(k, t, wake, l, waits) && LeftAlone(k, steps, t)
    ensures Runs(k, steps).0 ==> Consistent(Runs(k, steps).1) && SleepsUntil(Runs(k, steps).1, t, wake, l, waits)
    decreases |steps|
  {
    if steps != [] && Enabled(k, steps[0]) {
      StepConsistent(k, steps[0]);
      StepMoves(k, steps[0], l, t);
      StepCounts(k, steps[0]);
      SleepsOn(k, steps[0], t, wake, l, waits, Next(k, steps[0]));
      SleepsThrough(Next(k, steps[0]), steps[1..], t, wake, l, waits);
    }
  }

  /** A call that blocks the running task for `ticks` ticks, alone or for an event on list
      `l`. */
  predicate Blocks(step: Step, ticks: Tick, l: nat, waits: bool) {
    if waits then step == Wait(l, ticks) && ticks < MAX_DELAY else step == Delay(ticks)
  }

  lemma FallsAsleep(k: K, step: Step, ticks: Tick, l: nat, waits: bool)
    requires Consistent(k) && Enabled(k, step) && Blocks(step, ticks, l, waits)
    ensures SleepsUntil(Next(k, step), k.current, k.clock.Now() + ticks, l, waits)
  {
    NotParked(k, k.current);
    WaitsOnce(k, k.current);
    StepMoves(k, step, l, k.current);
    StepCounts(k, step);
  }

  /** A task that blocks with a time, alone or for an event that does not come, sleeps until
      that many ticks have been counted and is then ready, whatever happens meanwhile:
      other tasks, suspensions of the scheduler, pended ticks, even resumes.  Until then it
      is on the event list that it waits on, and afterwards on none. */
  lemma ReadyInTime(k: K, step: Step, ticks: Tick, l: nat, waits: bool, rest: seq<Step>)
    requires Consistent(k) && Enabled(k, step) && Blocks(step, ticks, l, waits)
    requires Consistent(Next(k, step)) && LeftAlone(Next(k, step), rest, k.current) && Runs(Next(k, step), rest).0
    ensures var r, wake := Runs(Next(k, step), rest).1, k.clock.Now() + ticks;
            && PlaceOf(r, k.current) == (if r.clock.Now() >= wake then Ready else Asleep(wake))
            && (waits ==> (WaitsOn(r, l, k.current) <==> r.clock.Now() < wake))
            && (r.nesting == 0 ==> (PlaceOf(r, k.current) == Ready <==> RealTime(k) + TickCount(rest) >= wake))
            && (k.nesting == 0 && r.nesting == 0 ==> (PlaceOf(r, k.current) == Ready <==> TickCount(rest) >= ticks))
  {
    var r := Runs(Next(k, step), rest).1;
    FallsAsleep(k, step, ticks, l, waits);
    SleepsThrough(Next(k, step), rest, k.current, k.clock.Now() + ticks, l, waits);
    RunsConsistent(Next(k, step), rest);
    StepTime(k, step);
    if PlaceOf(r, k.current) == Ready { WaitsOnce(r, k.current); }
  }

  // ---------------------------------------------------------------- being woken

  ghost predicate WokenUp(k: K, t: TaskId) { PlaceOf(k, t) == Ready || IsHeld(k, t) }

  lemma HeldIsLive(k: K, t: TaskId)
    requires Consistent(k) && WokenUp(k, t)
    ensures t in k.tcb && t !in k.termination
  {
    PlaceIs(k, t);
    CountMember(k.pendingReady, t);
    CountMember(k.termination, t);
    assert EventCopies(k, t) <= EventRoom(k, t);
  }

  lemma WokenOn(k: K, step: Step, t: TaskId, r: K)
    requires Consistent(k) && Enabled(k, step) && LeavesAlone(k, step, t) && WokenUp(k, t) && Moved(k, step, 0, t, r)
    ensures WokenUp(r, t)
  {
    HeldIsLive(k, t);
  }

  lemma {:induction false} WokenThrough(k: K, steps: seq<Step>, t: TaskId)
    requires Consistent(k) && WokenUp(k, t) && LeftAlone(k, steps, t)
    ensures Runs(k, steps).0 ==> Consistent(Runs(k, steps).1) && WokenUp(Runs(k, steps).1, t)
    decreases |steps|
  {
    if steps != [] && Enabled(k, steps[0]) {
      StepConsistent(k, steps[0]);
      StepMoves(k, steps[0], 0, t);
      WokenOn(k, steps[0], t, Next(k, steps[0]));
      WokenThrough(Next(k, steps[0]), steps[1..], t);
    }
  }

  /** No wake-up is lost: the first waiter of an event list, once the event has come, is
      ready whenever the scheduler is not suspended, and held as long as it is. */
  lemma EventNotLost(k: K, l: nat, rest: seq<Step>)
    requires Consistent(k) && Enabled(k, Event(l)) && Consistent(Next(k, Event(l)))
    requires LeftAlone(Next(k, Event(l)), rest, k.events[l][0].owner) && Runs(Next(k, Event(l)), rest).0
    ensures var r, t := Runs(Next(k, Event(l)), rest).1, k.events[l][0].owner;
            && (PlaceOf(r, t) == Ready || (r.nesting > 0 && IsHeld(r, t)))
            && forall m :: !WaitsOn(r, m, t)
  {
    var r, t := Runs(Next(k, Event(l)), rest).1, k.events[l][0].owner;
    StepMoves(k, Event(l), 0, t);
    WokenThrough(Next(k, Event(l)), rest, t);
    WaitsOnce(r, t);
  }

  // ---------------------------------------------------------------- waiting for ever

  ghost predicate Waiting(k: K, t: TaskId, l: nat) { PlaceOf(k, t) == Parked && WaitsOn(k, l, t) }

  lemma WaitsFor(k: K, t: TaskId, l: nat)
    requires Consistent(k) && Waiting(k, t, l)
    ensures t in k.tcb && !k.IsSuspended(t) && t !in k.termination && !IsHeld(k, t)
  {
    PlaceIs(k, t);
    WaitsOnce(k, t);
  }

  lemma WaitsOnAndOn(k: K, step: Step, t: TaskId, l: nat, r: K)
    requires Consistent(k) && Enabled(k, step) && LeavesAlone(k, step, t) && Waiting(k, t, l) && Moved(k, step, l, t, r)
    ensures Waiting(r, t, l)
  {
    WaitsFor(k, t, l);
  }

  lemma {:induction false} WaitsThrough(k: K, steps: seq<Step>, t: TaskId, l: nat)
    requires Consistent(k) && Waiting(k, t, l) && LeftAlone(k, steps, t)
    ensures Runs(k, steps).0 ==> Waiting(Runs(k, steps).1, t, l)
    decreases |steps|
  {
    if steps != [] && Enabled(k, steps[0]) {
      StepConsistent(k, steps[0]);
      StepMoves(k, steps[0], l, t);
      WaitsOnAndOn(k, steps[0], t, l, Next(k, steps[0]));
      WaitsThrough(Next(k, steps[0]), steps[1..], t, l);
    }
  }

  /** A task that waits without a time is readied by nothing but its event: no tick, and no
      resume either, although it is on the list of the suspended tasks. */
  lemma OnlyTheEvent(k: K, l: nat, rest: seq<Step>)
    requires Consistent(k) && Enabled(k, Wait(l, MAX_DELAY)) && Consistent(Next(k, Wait(l, MAX_DELAY)))
    requires LeftAlone(Next(k, Wait(l, MAX_DELAY)), rest, k.current) && Runs(Next(k, Wait(l, MAX_DELAY)), rest).0
    ensures var r := Runs(Next(k, Wait(l, MAX_DELAY)), rest).1; PlaceOf(r, k.current) == Parked && WaitsOn(r, l, k.current)
  {
    StepMoves(k, Wait(l, MAX_DELAY), l, k.current);
    WaitsThrough(Next(k, Wait(l, MAX_DELAY)), rest, k.current, l);
  }

  /** What a resume looks for: a task that is parked and waits for nothing. */
  lemma ResumableIs(k: K, t: TaskId)
    requires Consistent(k)
    ensures k.IsSuspended(t) <==> PlaceOf(k, t) == Parked && !IsHeld(k, t) && forall l :: !WaitsOn(k, l, t)
  {
    PlaceIs(k, t);
    WaitsOnce(k, t);
  }

  // ---------------------------------------------------------------- the highest waiter first

  /** Event lists in order of the priorities of their tasks. */
  ghost predicate Queued(k: K) { AllInStep(k) && forall l | 0 <= l < |k.events| :: Sorted(k.events[l]) }

  lemma WaitQueued(k: K, l: nat, ticks: Tick)
    requires Consistent(k) && Queued(k) && Enabled(k, Wait(l, ticks))
    ensures Queued(Next(k, Wait(l, ticks)))
  {
    JoinQueued(k, l, Entry(MAX_PRIORITIES - k.tcb[k.current].priority, k.current), Next(k, Wait(l, ticks)));
  }

  lemma JoinQueued(k: K, l: nat, e: Entry<TaskId>, r: K)
    requires Queued(k) && l < |k.events| && e.owner in k.tcb && e.value == MAX_PRIORITIES - k.tcb[e.owner].priority
    requires r.tcb == k.tcb && r.events == k.events[l := InsertSorted(k.events[l], e)]
    ensures Queued(r)
  {
    InsertSortedOrder(k.events[l], e);
    JoinInStep(k, l, e, r);
  }

  lemma StepQueued(k: K, step: Step)
    requires Consistent(k) && Queued(k) && Enabled(k, step)
    ensures Queued(Next(k, step))
  {
    if step.Wait? {
      WaitQueued(k, step.l, step.ticks);
    } else {
      StepConsistent(k, step);
      StepTcb(k, step);
      StepThins(k, step);
      ThinnedQueued(k, step, Next(k, step));
    }
  }

  lemma ThinnedQueued(k: K, step: Step, r: K)
    requires Consistent(r) && Queued(k) && Enabled(k, step) && r.tcb == TcbAfter(k, step) && Thinned(k.events, r.events)
    ensures Queued(r)
  {
    ThinnedInStep(k, r);
    forall l | 0 <= l < |r.events| ensures Sorted(r.events[l]) { assert ThinnedOne(k.events[l], r.events[l]); }
  }

  lemma {:induction false} RunsQueued(k: K, steps: seq<Step>)
    requires Consistent(k) && Queued(k)
    ensures Runs(k, steps).0 ==> Queued(Runs(k, steps).1)
    decreases |steps|
  {
    if steps != [] && Enabled(k, steps[0]) {
      StepConsistent(k, steps[0]);
      StepQueued(k, steps[0]);
      RunsQueued(Next(k, steps[0]), steps[1..]);
    }
  }

  /** A system begins so. */
  lemma StartsQueued(first: TaskId, priority: nat, events: nat)
    requires priority < MAX_PRIORITIES
    ensures var k := K(Clock(0, 0, MAX_DELAY, [], []), 0, 0, first, 0, 0, map[],
                       seq(MAX_PRIORITIES, _ => Ring([], 0)), [], [], [], seq(events, _ => []));
            k.Shaped() && Queued(k.Create(first, priority))
  {
  }

  /** After any run an event goes to a waiter of the highest priority of all that wait on
      its list. */
  lemma EventTakesHighest(k: K, steps: seq<Step>, l: nat, i: nat)
    requires Consistent(k) && Queued(k) && Runs(k, steps).0
    requires l < |Runs(k, steps).1.events| && i < |Runs(k, steps).1.events[l]|
    ensures var r := Runs(k, steps).1; var first, other := r.events[l][0].owner, r.events[l][i].owner;
            first in r.tcb && other in r.tcb && r.tcb[first].priority >= r.tcb[other].priority
  {
    RunsQueued(k, steps);
    var r := Runs(k, steps).1;
    assert InStep(r, r.events[l]) && Sorted(r.events[l]);
  }

  // ---------------------------------------------------------------- taking turns

  lemma {:induction false} CountTwice(s: seq<TaskId>, i: nat, j: nat)
    requires i < j < |s| && s[i] == s[j]
    ensures Count(s, s[i]) >= 2
  {
    if i == 0 {
      assert s[1..][j - 1] == s[0];
      CountMember(s[1..], s[0]);
    } else {
      CountTwice(s[1..], i - 1, j - 1);
    }
  }

  lemma RingOk(k: K, p: nat)
    requires Consistent(k) && p < |k.ready|
    ensures k.ready[p].Ok()
  {
    var s := k.ready[p].items;
    forall i, j | 0 <= i < j < |s| ensures s[i] != s[j] {
      CountReadyBounds(k.ready, p, s[i]);
      assert Copies(k, s[i]) <= 1;
      if s[i] == s[j] { CountTwice(s, i, j); }
    }
  }

  /** The tasks that `n` successive switches choose. */
  function Chosen(k: K, n: nat): seq<TaskId>
    requires k.Shaped()
    decreases n
  {
    if n == 0 then [] else [k.SwitchContext().current] + Chosen(Switched(k), n - 1)
  }

  function Switched(k: K): (r: K)
    requires k.Shaped()
    ensures r.Shaped() && r == k.SwitchContext()
  {
    k.SwitchContext()
  }

  /** The list that a switch chooses from. */
  ghost predicate Top(k: K, p: nat) {
    k.Shaped() && k.nesting == 0 && AnyReady(k.ready, k.topReady) && p == Highest(k.ready, k.topReady)
  }

  lemma SwitchOnTop(k: K, p: nat)
    requires Top(k, p) && k.ready[p].Ok()
    ensures var r := Switched(k);
            && r.current == k.ready[p].Upcoming()[0] && r.ready[p] == k.ready[p].Select().0 && r.ready[p].Ok()
            && Top(r, p) && |r.ready[p].items| == |k.ready[p].items|
  {
    SelectRotates(k.ready[p]);
    var r := Switched(k);
    assert r.ready[p].items != [] && r.topReady == p;
  }

  lemma {:induction false} ChosenAre(k: K, p: nat, n: nat)
    requires Top(k, p) && k.ready[p].Ok() && k.ready[p].items != []
    ensures Chosen(k, n) == Selections(k.ready[p], n)
    decreases n
  {
    if n > 0 {
      SwitchOnTop(k, p);
      SelectRotates(k.ready[p]);
      ChosenAre(Switched(k), p, n - 1);
    }
  }

  /** As many switches as there are ready tasks of the highest priority run each of them
      once, in the order in which they were lined up. */
  lemma TakesTurns(k: K, p: nat)
    requires Consistent(k) && Top(k, p)
    ensures Chosen(k, |k.ready[p].items|) == k.ready[p].Upcoming()
    ensures multiset(Chosen(k, |k.ready[p].items|)) == multiset(k.ready[p].items)
    ensures forall t | t in k.tcb && PlaceOf(k, t) == Ready && k.tcb[t].priority == p :: t in Chosen(k, |k.ready[p].items|)
  {
    RingOk(k, p);
    ChosenAre(k, p, |k.ready[p].items|);
    RoundRobin(k.ready[p]);
    AllChosen(k, p, k.ready[p].items, Chosen(k, |k.ready[p].items|));
  }

  lemma AllChosen(k: K, p: nat, items: seq<TaskId>, chosen: seq<TaskId>)
    requires Consistent(k) && p < |k.ready| && items == k.ready[p].items && multiset(chosen) == multiset(items)
    ensures forall t | t in k.tcb && PlaceOf(k, t) == Ready && k.tcb[t].priority == p :: t in chosen
  {
    forall t | t in k.tcb && PlaceOf(k, t) == Ready && k.tcb[t].priority == p ensures t in chosen {
      CountReadyAt(k.ready, p, t);
      CountMember(items, t);
      SameMembers(items, chosen, t);
    }
  }

  lemma SameMembers(a: seq<TaskId>, b: seq<TaskId>, t: TaskId)
    requires multiset(a) == multiset(b) && t in a
    ensures t in b
  {
    assert t in multiset(a);
  }

  /** A task that is readied lines up behind all others of its priority, but for the one
      that the index rests on. */
  lemma LinesUpLast(k: K, t: TaskId)
    requires k.Shaped() && k.Known(t) && k.ready[k.tcb[t].priority].Ok() && t !in k.ready[k.tcb[t].priority].items
    ensures var p := k.tcb[t].priority; var r, before := k.AddReady(t), k.ready[p];
            && r.ready[p].Ok() && (forall q | 0 <= q < |k.ready| && q != p :: r.ready[q] == k.ready[q])
            && r.ready[p].Upcoming() == if before.pos == 0 then before.Upcoming() + [t]
                                        else before.Upcoming()[..|before.items| - 1] + [t, before.items[before.pos - 1]]
  {
    InsertEndIsLast(k.ready[k.tcb[t].priority], t);
  }
}
