/** Whether inheritance does its work: a holder never is below a task that waits for its
    mutex, and wait lists are in priority order.  Proved for each action exactly when it
    keeps this so, by a condition on the state before it, and for each run.  It fails in
    two ways.  A task that itself waits is given a new priority: its entry stays where it
    is, and the holder that it waits for inherits nothing.  Or a task takes a free mutex
    past a higher one that still waits for it, and inherits nothing either. */
module Inversions {
  import opened Common
  import opened Lists
  import opened Clocks
  import opened Tasks
  import opened Partition
  import opened Mutexes

  /** The holder is at least as high as every task that waits, and the wait list is in
      priority order. */
  ghost predicate NoInversion(k: K, x: Mutex, wait: seq<Entry<TaskId>>) {
    && Sorted(wait)
    && (x.holder.Some? && x.holder.value in k.tcb ==>
          forall i | 0 <= i < |wait| && wait[i].owner in k.tcb ::
            k.tcb[x.holder.value].priority >= k.tcb[wait[i].owner].priority)
  }

  ghost predicate Fair(s: S)
    requires |s.mutexes| <= |s.k.events|
  {
    forall m | 0 <= m < |s.mutexes| :: NoInversion(s.k, s.mutexes[m], s.k.events[m])
  }

  // ---------------------------------------------------------------- the condition

  function Prio(k: K, t: TaskId): nat { if t in k.tcb then k.tcb[t].priority else 0 }

  /** A waiter may be given another priority: its place in the wait list is right for it,
      and the holder it waits for is not below it. */
  ghost predicate InPlace(k: K, x: Mutex, wait: seq<Entry<TaskId>>, i: nat, priority: nat)
    requires i < |wait|
  {
    && (forall j | 0 <= j < i :: Prio(k, wait[j].owner) >= priority)
    && (forall j | i < j < |wait| :: Prio(k, wait[j].owner) <= priority)
    && (x.holder.Some? && x.holder != Some(wait[i].owner) ==> Prio(k, x.holder.value) >= priority)
  }

  /** So it may wherever it waits. */
  ghost predicate CanReprice(s: S, t: TaskId, priority: nat)
    requires |s.mutexes| <= |s.k.events|
  {
    forall n, i | 0 <= n < |s.mutexes| && 0 <= i < |s.k.events[n]| && s.k.events[n][i].owner == t ::
      InPlace(s.k, s.mutexes[n], s.k.events[n], i, priority)
  }

  /** The priority that a holder falls back to when a waiter times out. */
  function FallBack(k: K, h: TaskId, wait: seq<Entry<TaskId>>): nat
    requires h in k.tcb && (wait != [] ==> wait[0].value <= MAX_PRIORITIES)
  {
    if k.tcb[h].basePriority < HighestWaiting(wait) then HighestWaiting(wait) else k.tcb[h].basePriority
  }

  /** Nobody who waits for the mutex is above the running task. */
  ghost predicate NoneAbove(k: K, wait: seq<Entry<TaskId>>) {
    forall i | 0 <= i < |wait| :: Prio(k, k.current) >= Prio(k, wait[i].owner)
  }

  /** Seen before the action: it overtakes nobody.  Inheritance and its undoing can, and so
      can taking a mutex while others wait for it. */
  ghost predicate OvertakesNobody(s: S, a: Action)
    requires Booked(s) && Allowed(s, a)
  {
    BookedKnows(s);
    match a
    case Take(m) => s.mutexes[m].holder.Some? || NoneAbove(s.k, s.k.events[m])
    case Block(m, _) =>
      assert MutexOk(s.k, s.mutexes[m]);
      var h := s.mutexes[m].holder.value;
      Prio(s.k, h) >= Prio(s.k, s.k.current) || CanReprice(s, h, Prio(s.k, s.k.current))
    case TimedOut(m, inherited) =>
      assert MutexOk(s.k, s.mutexes[m]);
      var h := s.mutexes[m].holder.value;
      var priority := FallBack(s.k, h, s.k.events[m]);
      !inherited || s.k.tcb[h].mutexesHeld != 1 || Prio(s.k, h) == priority || CanReprice(s, h, priority)
    case _ => true
  }

  // ---------------------------------------------------------------- no priority inversion

  /** The inversion condition survives when entries leave the list, the waiters keep
      their priorities and the holder, if there still is one, does not drop. */
  lemma KeepsUp(k: K, x: Mutex, wait: seq<Entry<TaskId>>, r: K, y: Mutex, left: seq<Entry<TaskId>>)
    requires NoInversion(k, x, wait) && InStep(k, wait) && ThinnedOne(wait, left) && MutexOk(k, x)
    requires y.holder.Some? ==> y.holder == x.holder
    requires y.holder.Some? && y.holder.value in r.tcb ==> r.tcb[y.holder.value].priority >= k.tcb[y.holder.value].priority
    requires forall i | 0 <= i < |wait| && wait[i].owner in r.tcb :: r.tcb[wait[i].owner].priority == k.tcb[wait[i].owner].priority
    ensures NoInversion(r, y, left)
  {
    forall i | 0 <= i < |left| && y.holder.Some? && y.holder.value in r.tcb && left[i].owner in r.tcb
      ensures r.tcb[y.holder.value].priority >= r.tcb[left[i].owner].priority
    {
      assert left[i] in wait;
      var j :| 0 <= j < |wait| && wait[j] == left[i];
    }
  }

  lemma ThinnedFair(s: S, r: K)
    requires Booked(s) && Fair(s) && Thinned(s.k.events, r.events)
    requires forall t | t in s.k.tcb && t in r.tcb :: r.tcb[t].priority == s.k.tcb[t].priority
    ensures Fair(s.(k := r))
  {
    forall m | 0 <= m < |s.mutexes| ensures NoInversion(r, s.mutexes[m], r.events[m]) {
      assert NoInversion(s.k, s.mutexes[m], s.k.events[m]) && InStep(s.k, s.k.events[m]) && MutexOk(s.k, s.mutexes[m]);
      assert ThinnedOne(s.k.events[m], r.events[m]);
      KeepsUp(s.k, s.mutexes[m], s.k.events[m], r, s.mutexes[m], r.events[m]);
    }
  }

  lemma {:induction false} RevalueAbsent(s: seq<Entry<TaskId>>, t: TaskId, value: Tick)
    requires CountEntries(s, t) == 0
    ensures Revalue(s, t, value) == s
  {
    if s != [] { RevalueAbsent(s[1..], t, value); }
  }

  lemma {:induction false} RevalueEveryAbsent(lists: seq<seq<Entry<TaskId>>>, t: TaskId, value: Tick)
    requires CountEvents(lists, t) == 0
    ensures RevalueEvery(lists, t, value) == lists
  {
    if lists != [] {
      RevalueAbsent(lists[0], t, value);
      RevalueEveryAbsent(lists[1..], t, value);
    }
  }

  /** A waiting task is not one that waits nowhere. */
  lemma WaitsElsewhere(k: K, t: TaskId)
    requires Consistent(k) && CountEvents(k.events, t) == 0
    ensures forall l, i | 0 <= l < |k.events| && 0 <= i < |k.events[l]| :: k.events[l][i].owner != t
  {
    forall l, i | 0 <= l < |k.events| && 0 <= i < |k.events[l]| ensures k.events[l][i].owner != t { WaitsAlive(k, l, i); }
  }

  /** Taking a free mutex makes the running task its holder, and lends it nothing. */
  lemma TakeFairIff(s: S, m: nat)
    requires Booked(s) && Allowed(s, Take(m)) && Fair(s)
    ensures Fair(Act(s, Take(m))) <==> OvertakesNobody(s, Take(m))
  {
    var r := Act(s, Take(m));
    assert NoInversion(s.k, s.mutexes[m], s.k.events[m]) && InStep(s.k, s.k.events[m]) && MutexOk(s.k, s.mutexes[m]);
    forall n | 0 <= n < |s.mutexes| && (n != m || s.mutexes[m].holder.Some?)
      ensures NoInversion(r.k, r.mutexes[n], r.k.events[n])
    {
      assert NoInversion(s.k, s.mutexes[n], s.k.events[n]) && InStep(s.k, s.k.events[n]) && MutexOk(s.k, s.mutexes[n]);
      KeepsUp(s.k, s.mutexes[n], s.k.events[n], r.k, r.mutexes[n], r.k.events[n]);
    }
    if s.mutexes[m].holder == None {
      TakenIff(s.k, s.k.events[m], r.k, r.mutexes[m]);
      assert r.k.events[m] == s.k.events[m];
    }
  }

  lemma TakenIff(k: K, wait: seq<Entry<TaskId>>, r: K, y: Mutex)
    requires Sorted(wait) && InStep(k, wait) && y.holder == Some(k.current) && k.current in k.tcb
    requires r.tcb.Keys == k.tcb.Keys && forall u | u in k.tcb :: r.tcb[u].priority == k.tcb[u].priority
    ensures NoInversion(r, y, wait) <==> NoneAbove(k, wait)
  {
  }

  lemma PlaceFair(s: S, m: nat, ticks: Tick)
    requires Booked(s) && Fair(s) && m < |s.mutexes| && s.mutexes[m].holder.Some? && s.k.Known(s.k.current)
    requires s.mutexes[m].holder.value in s.k.tcb
    requires s.k.tcb[s.mutexes[m].holder.value].priority >= s.k.tcb[s.k.current].priority
    ensures Fair(s.(k := s.k.PlaceOnEventList(m, ticks)))
  {
    var r := s.k.PlaceOnEventList(m, ticks);
    var x := s.mutexes[m];
    var e := Entry(MAX_PRIORITIES - s.k.tcb[s.k.current].priority, s.k.current);
    forall n | 0 <= n < |s.mutexes| ensures NoInversion(r, s.mutexes[n], r.events[n]) {
      assert NoInversion(s.k, s.mutexes[n], s.k.events[n]);
      if n == m {
        InsertSortedOrder(s.k.events[m], e);
        InsertSortedBounds(s.k.events[m], e);
        forall i | 0 <= i < |r.events[m]| && r.events[m][i].owner in r.tcb
          ensures r.tcb[x.holder.value].priority >= r.tcb[r.events[m][i].owner].priority
        {
          if r.events[m][i].owner != s.k.current {
            assert r.events[m][i] in s.k.events[m];
          }
        }
      }
    }
  }

  /** What giving back one mutex leaves: events as they were, and priorities too but for
      the running task's when it was its last. */
  ghost predicate Returned(s: S, m: nat, r: S) {
    && r.k.events == s.k.events && |r.mutexes| == |s.mutexes| && r.k.tcb.Keys == s.k.tcb.Keys
    && m < |s.mutexes| && s.mutexes[m].holder == Some(s.k.current) && r.mutexes[m].holder == None
    && (forall n | 0 <= n < |s.mutexes| && n != m :: r.mutexes[n] == s.mutexes[n])
    && (forall u | u in s.k.tcb && u != s.k.current :: r.k.tcb[u].priority == s.k.tcb[u].priority)
    && (s.k.current in s.k.tcb && s.k.tcb[s.k.current].mutexesHeld > 1 ==>
          r.k.tcb[s.k.current].priority == s.k.tcb[s.k.current].priority)
  }

  lemma DisinheritReturns(s: S, m: nat, x: Mutex, r: S)
    requires Booked(s) && m < |s.mutexes| && s.mutexes[m].holder == Some(s.k.current) && CountEvents(s.k.events, s.k.current) == 0
    requires CountReady(s.k.ready, s.k.current) > 0 && x.holder == None
    requires s.k.Known(s.k.current) && s.k.tcb[s.k.current].basePriority < MAX_PRIORITIES && s.k.tcb[s.k.current].mutexesHeld > 0
    requires r == S(s.k.Disinherit().0, s.mutexes[m := x])
    ensures Returned(s, m, r)
  {
    DisinheritTcb(s.k);
    RevalueEveryAbsent(s.k.events, s.k.current, MAX_PRIORITIES - s.k.tcb[s.k.current].basePriority);
  }

  lemma ReturnedFair(s: S, m: nat, r: S)
    requires Booked(s) && Fair(s) && Returned(s, m, r) && CountEvents(s.k.events, s.k.current) == 0 && s.k.current in s.k.tcb
    ensures |r.mutexes| <= |r.k.events| && Fair(r)
  {
    var t := s.k.current;
    WaitsElsewhere(s.k, t);
    assert TaskOk(s.k.tcb[t], Held(s.mutexes, t));
    forall n | 0 <= n < |s.mutexes| ensures NoInversion(r.k, r.mutexes[n], r.k.events[n]) {
      assert NoInversion(s.k, s.mutexes[n], s.k.events[n]) && InStep(s.k, s.k.events[n]) && MutexOk(s.k, s.mutexes[n]);
      if n != m && s.mutexes[n].holder == Some(t) { HeldOnly(s.mutexes, m, n, t); }
      KeepsUp(s.k, s.mutexes[n], s.k.events[n], r.k, r.mutexes[n], r.k.events[n]);
    }
  }

  lemma DisinheritFair(s: S, m: nat, x: Mutex, r: S)
    requires Booked(s) && Fair(s) && m < |s.mutexes| && s.mutexes[m].holder == Some(s.k.current)
    requires CountReady(s.k.ready, s.k.current) > 0 && x.holder == None
    requires s.k.Known(s.k.current) && s.k.tcb[s.k.current].basePriority < MAX_PRIORITIES && s.k.tcb[s.k.current].mutexesHeld > 0
    requires r == S(s.k.Disinherit().0, s.mutexes[m := x])
    ensures |r.mutexes| <= |r.k.events| && Fair(r)
  {
    ReadyListed(s.k, s.k.current);
    DisinheritReturns(s, m, x, r);
    ReturnedFair(s, m, r);
  }

  lemma GiveFair(s: S, m: nat)
    requires Booked(s) && Allowed(s, Give(m)) && Fair(s)
    ensures Fair(Act(s, Give(m)))
  {
    var y := s.mutexes[m];
    var x := if y.recursive then y.(calls := y.calls - 1) else y;
    if x.recursive && x.calls > 0 {
      forall n | 0 <= n < |s.mutexes| ensures NoInversion(s.k, s.mutexes[m := x][n], s.k.events[n]) {
        assert NoInversion(s.k, s.mutexes[n], s.k.events[n]);
      }
    } else {
      GiveLastFair(s, m, x, Act(s, Give(m)));
    }
  }

  lemma GiveLastFair(s: S, m: nat, x: Mutex, end: S)
    requires Booked(s) && Allowed(s, Give(m)) && Fair(s) && end == Act(s, Give(m))
    requires x == if s.mutexes[m].recursive then s.mutexes[m].(calls := s.mutexes[m].calls - 1) else s.mutexes[m]
    requires !(x.recursive && x.calls > 0)
    ensures |end.mutexes| <= |end.k.events| && Fair(end)
  {
    BookedKnows(s);
    assert MutexOk(s.k, s.mutexes[m]);
    var x1 := x.(holder := None, count := x.count + 1);
    var r := S(s.k.Disinherit().0, s.mutexes[m := x1]);
    DisinheritBooked(s, m, x1, r);
    DisinheritFair(s, m, x1, r);
    BookedKnows(r);
    GiveIs(s, m, x, r.k);
    ReleaseFair(r, m, end);
  }

  lemma ReleaseFair(s: S, m: nat, r: S)
    requires Booked(s) && Fair(s) && m < |s.k.events| && (s.k.events[m] != [] ==> s.k.Known(s.k.events[m][0].owner))
    requires r == if s.k.events[m] != [] then s.(k := s.k.RemoveFromEventList(m)) else s
    ensures |r.mutexes| <= |r.k.events| && Fair(r)
  {
    if s.k.events[m] != [] {
      EventThins(s.k, m);
      ThinnedFair(s, r.k);
    }
  }

  /** The head of a wait list in step and in order has the highest priority on it. */
  lemma HeadIsHighest(k: K, wait: seq<Entry<TaskId>>)
    requires InStep(k, wait) && Sorted(wait) && forall t | t in k.tcb :: k.tcb[t].priority < MAX_PRIORITIES
    ensures wait != [] ==> wait[0].value <= MAX_PRIORITIES && wait[0].owner in k.tcb
    ensures wait != [] ==> HighestWaiting(wait) == k.tcb[wait[0].owner].priority
    ensures forall i | 0 <= i < |wait| :: k.tcb[wait[i].owner].priority <= HighestWaiting(wait)
  {
  }

  lemma WaitFair(s: S, l: nat, ticks: Tick)
    requires Booked(s) && Fair(s) && |s.mutexes| <= l < |s.k.events| && s.k.Known(s.k.current)
    ensures Fair(s.(k := s.k.PlaceOnEventList(l, ticks)))
  {
    forall m | 0 <= m < |s.mutexes|
      ensures NoInversion(s.k.PlaceOnEventList(l, ticks), s.mutexes[m], s.k.PlaceOnEventList(l, ticks).events[m])
    {
      assert NoInversion(s.k, s.mutexes[m], s.k.events[m]);
    }
  }

  lemma OtherFair(s: S, step: Step)
    requires Booked(s) && Allowed(s, Other(step)) && Fair(s)
    ensures |s.mutexes| <= |Next(s.k, step).events| && Fair(Act(s, Other(step)))
  {
    if step.Wait? {
      WaitFair(s, step.l, step.ticks);
    } else {
      StepTcb(s.k, step);
      StepThins(s.k, step);
      ThinnedFair(s, Next(s.k, step));
    }
  }

  // ---------------------------------------------------------------- a new priority

  lemma {:induction false} TwiceListed(wait: seq<Entry<TaskId>>, i: nat, j: nat, t: TaskId)
    requires i < j < |wait| && wait[i].owner == t && wait[j].owner == t
    ensures CountEntries(wait, t) >= 2
  {
    if i > 0 { TwiceListed(wait[1..], i - 1, j - 1, t); } else { ListedOnce(wait[1..], j - 1, t); }
  }

  lemma {:induction false} ListedOnce(wait: seq<Entry<TaskId>>, i: nat, t: TaskId)
    requires i < |wait| && wait[i].owner == t
    ensures CountEntries(wait, t) >= 1
  {
    if i > 0 { ListedOnce(wait[1..], i - 1, t); }
  }

  ghost predicate Distinct(wait: seq<Entry<TaskId>>) {
    forall i, j | 0 <= i < j < |wait| :: wait[i].owner != wait[j].owner
  }

  /** Nobody is on a wait list twice. */
  lemma WaitsOnce(k: K, l: nat)
    requires Consistent(k) && l < |k.events|
    ensures Distinct(k.events[l])
  {
    var wait := k.events[l];
    forall i, j | 0 <= i < j < |wait| ensures wait[i].owner != wait[j].owner {
      if wait[i].owner == wait[j].owner {
        TwiceListed(wait, i, j, wait[i].owner);
        CountEventsUpdate(k.events, l, [], wait[i].owner);
        WaitsAlive(k, l, i);
      }
    }
  }

  /** The priorities of `r` are those of `k` but for one task's. */
  ghost predicate OneChanged(k: K, r: K, t: TaskId, priority: nat) {
    && t in k.tcb && r.tcb.Keys == k.tcb.Keys && priority < MAX_PRIORITIES
    && forall u | u in k.tcb :: r.tcb[u].priority == if u == t then priority else k.tcb[u].priority
  }

  /** What a new priority does to one wait list. */
  lemma ListIff(k: K, x: Mutex, wait: seq<Entry<TaskId>>, r: K, t: TaskId, priority: nat, left: seq<Entry<TaskId>>)
    requires NoInversion(k, x, wait) && InStep(k, wait) && MutexOk(k, x) && Distinct(wait)
    requires OneChanged(k, r, t, priority) && left == Revalue(wait, t, MAX_PRIORITIES - priority)
    requires x.holder == Some(t) ==> forall i | 0 <= i < |wait| && wait[i].owner != t ::
               Prio(k, wait[i].owner) <= priority
    ensures NoInversion(r, x, left) <==> forall i | 0 <= i < |wait| && wait[i].owner == t :: InPlace(k, x, wait, i, priority)
  {
    if NoInversion(r, x, left) {
      forall i | 0 <= i < |wait| && wait[i].owner == t ensures InPlace(k, x, wait, i, priority) {
        StaysInPlace(k, x, wait, r, t, priority, left, i);
      }
    }
    if forall i | 0 <= i < |wait| && wait[i].owner == t :: InPlace(k, x, wait, i, priority) {
      StaysSorted(k, x, wait, t, priority, left);
      StaysAbove(k, x, wait, r, t, priority, left);
    }
  }

  lemma StaysInPlace(k: K, x: Mutex, wait: seq<Entry<TaskId>>, r: K, t: TaskId, priority: nat, left: seq<Entry<TaskId>>, i: nat)
    requires NoInversion(r, x, left) && InStep(k, wait) && MutexOk(k, x) && Distinct(wait)
    requires OneChanged(k, r, t, priority) && left == Revalue(wait, t, MAX_PRIORITIES - priority)
    requires i < |wait| && wait[i].owner == t
    ensures InPlace(k, x, wait, i, priority)
  {
    assert left[i] == Entry(MAX_PRIORITIES - priority, t);
    forall j | 0 <= j < i ensures Prio(k, wait[j].owner) >= priority { assert left[j] == wait[j]; }
    forall j | i < j < |wait| ensures Prio(k, wait[j].owner) <= priority { assert left[j] == wait[j]; }
  }

  lemma StaysSorted(k: K, x: Mutex, wait: seq<Entry<TaskId>>, t: TaskId, priority: nat, left: seq<Entry<TaskId>>)
    requires Sorted(wait) && InStep(k, wait) && Distinct(wait)
    requires t in k.tcb && priority < MAX_PRIORITIES && left == Revalue(wait, t, MAX_PRIORITIES - priority)
    requires forall i | 0 <= i < |wait| && wait[i].owner == t :: InPlace(k, x, wait, i, priority)
    ensures Sorted(left)
  {
    forall i, j | 0 <= i < j < |left| ensures left[i].value <= left[j].value {
      if wait[i].owner == t { assert InPlace(k, x, wait, i, priority); }
      if wait[j].owner == t { assert InPlace(k, x, wait, j, priority); }
    }
  }

  lemma StaysAbove(k: K, x: Mutex, wait: seq<Entry<TaskId>>, r: K, t: TaskId, priority: nat, left: seq<Entry<TaskId>>)
    requires NoInversion(k, x, wait) && InStep(k, wait) && MutexOk(k, x) && Sorted(left)
    requires OneChanged(k, r, t, priority) && left == Revalue(wait, t, MAX_PRIORITIES - priority)
    requires x.holder == Some(t) ==> forall i | 0 <= i < |wait| && wait[i].owner != t ::
               Prio(k, wait[i].owner) <= priority
    requires forall i | 0 <= i < |wait| && wait[i].owner == t :: InPlace(k, x, wait, i, priority)
    ensures NoInversion(r, x, left)
  {
    if x.holder.Some? {
      forall i | 0 <= i < |left| && left[i].owner in r.tcb
        ensures r.tcb[x.holder.value].priority >= r.tcb[left[i].owner].priority
      {
        assert left[i].owner == wait[i].owner;
        if wait[i].owner == t { assert InPlace(k, x, wait, i, priority); }
      }
    }
  }

  /** Fairness survives a new priority exactly when the task may have it, if it is not
      below those that wait for the task. */
  lemma RepricedFairIff(s: S, t: TaskId, priority: nat, r: K)
    requires Booked(s) && Fair(s) && t in s.k.tcb && priority < MAX_PRIORITIES && Repriced(s.k, r, t, priority)
    requires forall m, i | 0 <= m < |s.mutexes| && s.mutexes[m].holder == Some(t) && 0 <= i < |s.k.events[m]| ::
               s.k.events[m][i].owner != t ==>
                 Prio(s.k, s.k.events[m][i].owner) <= priority
    ensures Fair(s.(k := r)) <==> CanReprice(s, t, priority)
  {
    forall n | 0 <= n < |s.mutexes|
      ensures NoInversion(r, s.mutexes[n], r.events[n]) <==>
              forall i | 0 <= i < |s.k.events[n]| && s.k.events[n][i].owner == t :: InPlace(s.k, s.mutexes[n], s.k.events[n], i, priority)
    {
      assert NoInversion(s.k, s.mutexes[n], s.k.events[n]) && InStep(s.k, s.k.events[n]) && MutexOk(s.k, s.mutexes[n]);
      WaitsOnce(s.k, n);
      ListIff(s.k, s.mutexes[n], s.k.events[n], r, t, priority, r.events[n]);
    }
    EachListIff(s, t, priority, r);
  }

  lemma EachListIff(s: S, t: TaskId, priority: nat, r: K)
    requires |s.mutexes| <= |s.k.events| == |r.events|
    requires forall n | 0 <= n < |s.mutexes| ::
               NoInversion(r, s.mutexes[n], r.events[n]) <==>
               forall i | 0 <= i < |s.k.events[n]| && s.k.events[n][i].owner == t :: InPlace(s.k, s.mutexes[n], s.k.events[n], i, priority)
    ensures Fair(s.(k := r)) <==> CanReprice(s, t, priority)
  {
    if Fair(s.(k := r)) {
      forall n, i | 0 <= n < |s.mutexes| && 0 <= i < |s.k.events[n]| && s.k.events[n][i].owner == t
        ensures InPlace(s.k, s.mutexes[n], s.k.events[n], i, priority)
      {
        assert NoInversion(r, s.mutexes[n], r.events[n]);
      }
    }
  }

  // ---------------------------------------------------------------- blocking

  /** Inheritance keeps fairness exactly when the holder is high enough already or may be
      raised. */
  lemma InheritFairIff(s: S, h: TaskId)
    requires Booked(s) && Fair(s) && s.k.Known(h) && s.k.Known(s.k.current)
    ensures |s.k.Inherit(h).0.events| == |s.k.events|
    ensures Fair(s.(k := s.k.Inherit(h).0)) <==>
            Prio(s.k, h) >= Prio(s.k, s.k.current) || CanReprice(s, h, Prio(s.k, s.k.current))
  {
    var p := s.k.tcb[s.k.current].priority;
    if s.k.tcb[h].priority < p {
      SetPriorityRepriced(s.k, h, p);
      forall m, i | 0 <= m < |s.mutexes| && s.mutexes[m].holder == Some(h) && 0 <= i < |s.k.events[m]|
        ensures s.k.events[m][i].owner != h ==> Prio(s.k, s.k.events[m][i].owner) <= p
      {
        assert NoInversion(s.k, s.mutexes[m], s.k.events[m]) && InStep(s.k, s.k.events[m]);
      }
      RepricedFairIff(s, h, p, s.k.SetPriority(h, p));
    }
  }

  /** Where an entry is inserted: before the first larger one. */
  function InsertAt(wait: seq<Entry<TaskId>>, v: Tick): (p: nat)
    ensures p <= |wait| && (forall i | 0 <= i < p :: wait[i].value <= v) && (p < |wait| ==> wait[p].value > v)
  {
    if wait == [] || wait[0].value > v then 0 else 1 + InsertAt(wait[1..], v)
  }

  function Moved(p: nat, i: nat): nat { if i < p then i else i + 1 }

  lemma SplicedAt(wait: seq<Entry<TaskId>>, e: Entry<TaskId>, p: nat, r: seq<Entry<TaskId>>)
    requires p <= |wait| && r == wait[..p] + [e] + wait[p..]
    ensures |r| == |wait| + 1 && forall i | 0 <= i < |wait| :: r[Moved(p, i)] == wait[i]
  {
  }

  lemma SplicedKeeps(wait: seq<Entry<TaskId>>, p: nat, r: seq<Entry<TaskId>>)
    requires p <= |wait| && |r| == |wait| + 1 && forall i | 0 <= i < |wait| :: r[Moved(p, i)] == wait[i]
    ensures Sorted(r) ==> Sorted(wait)
    ensures forall i | 0 <= i < |wait| :: wait[i] in r
  {
    forall i | 0 <= i < |wait| ensures wait[i] in r { assert r[Moved(p, i)] == wait[i]; }
    if Sorted(r) {
      forall i, j | 0 <= i < j < |wait| ensures wait[i].value <= wait[j].value {
        assert r[Moved(p, i)] == wait[i] && r[Moved(p, j)] == wait[j];
      }
    }
  }

  lemma InsertKeepsOthers(wait: seq<Entry<TaskId>>, e: Entry<TaskId>)
    ensures Sorted(InsertSorted(wait, e)) ==> Sorted(wait)
    ensures forall i | 0 <= i < |wait| :: wait[i] in InsertSorted(wait, e)
  {
    var p := InsertAt(wait, e.value);
    InsertSortedAt(wait, e, p);
    SplicedAt(wait, e, p, InsertSorted(wait, e));
    SplicedKeeps(wait, p, InsertSorted(wait, e));
  }

  /** A new waiter does not mend a list. */
  lemma PlaceMendsNothing(s: S, m: nat, ticks: Tick, r: S)
    requires Booked(s) && m < |s.mutexes| && s.k.Known(s.k.current)
    requires r == s.(k := s.k.PlaceOnEventList(m, ticks))
    requires |r.mutexes| <= |r.k.events| && Fair(r)
    ensures Fair(s)
  {
    forall n | 0 <= n < |s.mutexes| ensures NoInversion(s.k, s.mutexes[n], s.k.events[n]) {
      assert NoInversion(r.k, r.mutexes[n], r.k.events[n]);
      if n == m {
        var e := Entry(MAX_PRIORITIES - s.k.tcb[s.k.current].priority, s.k.current);
        assert r.k.events[m] == InsertSorted(s.k.events[m], e) && r.k.tcb == s.k.tcb;
        InsertKeepsOthers(s.k.events[m], e);
        NoNewInversion(s.k, s.mutexes[m], s.k.events[m], r.k, r.mutexes[m], r.k.events[m]);
      }
    }
  }

  lemma NoNewInversion(k: K, x: Mutex, wait: seq<Entry<TaskId>>, r: K, y: Mutex, more: seq<Entry<TaskId>>)
    requires NoInversion(r, y, more) && Sorted(wait) && r.tcb == k.tcb && y.holder == x.holder
    requires forall i | 0 <= i < |wait| :: wait[i] in more
    ensures NoInversion(k, x, wait)
  {
    forall i | 0 <= i < |wait| && x.holder.Some? && x.holder.value in k.tcb && wait[i].owner in k.tcb
      ensures k.tcb[x.holder.value].priority >= k.tcb[wait[i].owner].priority
    {
      var j :| 0 <= j < |more| && more[j] == wait[i];
    }
  }

  /** What blocking keeps, by the state before it. */
  lemma BlockFairIff(s: S, m: nat, ticks: Tick)
    requires Booked(s) && Allowed(s, Block(m, ticks)) && Fair(s)
    ensures Booked(Act(s, Block(m, ticks)))
    ensures Fair(Act(s, Block(m, ticks))) <==> OvertakesNobody(s, Block(m, ticks))
  {
    BookedKnows(s);
    assert MutexOk(s.k, s.mutexes[m]);
    var h := s.mutexes[m].holder.value;
    BlockBooked(s, m, ticks);
    InheritBooked(s, h);
    InheritFairIff(s, h);
    var s1, r := s.(k := s.k.Inherit(h).0), Act(s, Block(m, ticks));
    assert r == s1.(k := s1.k.PlaceOnEventList(m, ticks));
    BookedKnows(s1);
    if Fair(s1) { PlaceFair(s1, m, ticks); }
    if Fair(r) { PlaceMendsNothing(s1, m, ticks, r); }
  }

  // ---------------------------------------------------------------- timing out

  lemma TimedOutFairIff(s: S, m: nat, inherited: bool)
    requires Booked(s) && Allowed(s, TimedOut(m, inherited)) && Fair(s)
    ensures Booked(Act(s, TimedOut(m, inherited)))
    ensures Fair(Act(s, TimedOut(m, inherited))) <==> OvertakesNobody(s, TimedOut(m, inherited))
  {
    BookedKnows(s);
    TimedOutBooked(s, m, inherited);
    assert MutexOk(s.k, s.mutexes[m]);
    var h := s.mutexes[m].holder.value;
    var p := FallBack(s.k, h, s.k.events[m]);
    if inherited && s.k.tcb[h].priority != p && s.k.tcb[h].mutexesHeld == 1 {
      FallFairIff(s, m, h, p, Act(s, TimedOut(m, inherited)));
    }
  }

  lemma FallFairIff(s: S, m: nat, h: TaskId, p: nat, r: S)
    requires Booked(s) && Fair(s) && m < |s.mutexes| && s.mutexes[m].holder == Some(h) && s.k.Known(h)
    requires s.k.tcb[h].mutexesHeld == 1 && (s.k.events[m] != [] ==> s.k.events[m][0].value <= MAX_PRIORITIES)
    requires p == FallBack(s.k, h, s.k.events[m]) < MAX_PRIORITIES && forall u | u in s.k.tcb :: s.k.tcb[u].priority < MAX_PRIORITIES
    requires r == s.(k := s.k.SetPriority(h, p))
    ensures |r.mutexes| <= |r.k.events|
    ensures Fair(r) <==> CanReprice(s, h, p)
  {
    SetPriorityRepriced(s.k, h, p);
    AboveWaiters(s, m, h, p);
    RepricedFairIff(s, h, p, r.k);
  }

  /** A holder of one mutex that falls back stays above everybody who waits for it. */
  lemma AboveWaiters(s: S, m: nat, h: TaskId, p: nat)
    requires Booked(s) && Fair(s) && m < |s.mutexes| && s.mutexes[m].holder == Some(h) && h in s.k.tcb
    requires s.k.tcb[h].mutexesHeld == 1 && (s.k.events[m] != [] ==> s.k.events[m][0].value <= MAX_PRIORITIES)
    requires p == FallBack(s.k, h, s.k.events[m]) && forall u | u in s.k.tcb :: s.k.tcb[u].priority < MAX_PRIORITIES
    ensures forall n, i | 0 <= n < |s.mutexes| && s.mutexes[n].holder == Some(h) && 0 <= i < |s.k.events[n]| ::
              s.k.events[n][i].owner != h ==> Prio(s.k, s.k.events[n][i].owner) <= p
  {
    assert TaskOk(s.k.tcb[h], Held(s.mutexes, h));
    assert InStep(s.k, s.k.events[m]) && NoInversion(s.k, s.mutexes[m], s.k.events[m]);
    HeadIsHighest(s.k, s.k.events[m]);
    forall n | 0 <= n < |s.mutexes| && s.mutexes[n].holder == Some(h) ensures n == m {
      if n != m { HeldOnly(s.mutexes, m, n, h); }
    }
  }

  /** Every action keeps holders from being overtaken, and lists in order, exactly when
      nothing in the state before it says that it overtakes somebody. */
  lemma ActFairIff(s: S, a: Action)
    requires Booked(s) && Allowed(s, a) && Fair(s)
    ensures Booked(Act(s, a))
    ensures Fair(Act(s, a)) <==> OvertakesNobody(s, a)
  {
    ActBooked(s, a);
    match a
    case Take(m) => TakeFairIff(s, m);
    case Block(m, ticks) => BlockFairIff(s, m, ticks);
    case Give(m) => GiveFair(s, m);
    case TimedOut(m, inherited) => TimedOutFairIff(s, m, inherited);
    case Other(step) => OtherFair(s, step);
  }

  // ---------------------------------------------------------------- whole runs

  /** A run: whether every action was allowed, whether none overtook anybody, and the
      end. */
  ghost function Acts(s: S, actions: seq<Action>): (r: (bool, bool, S))
    requires Booked(s)
    ensures Booked(r.2)
    decreases |actions|
  {
    if actions == [] then (true, true, s)
    else if !Allowed(s, actions[0]) then (false, false, s)
    else
      (ActBooked(s, actions[0]);
       var (ok, none, end) := Acts(Act(s, actions[0]), actions[1..]);
       (ok, none && OvertakesNobody(s, actions[0]), end))
  }

  /** Fair in every state of the run. */
  ghost predicate FairThroughout(s: S, actions: seq<Action>)
    requires Booked(s)
    decreases |actions|
  {
    && Fair(s)
    && (actions != [] && Allowed(s, actions[0]) ==> (ActBooked(s, actions[0]); FairThroughout(Act(s, actions[0]), actions[1..])))
  }

  /** The bookkeeping in plain words: a mutex has count 1 or a holder, a task's count is
      that of the mutexes naming it, its priority is not below its own, and equal to it
      when it holds nothing. */
  ghost predicate Exact(s: S) {
    && (forall m | 0 <= m < |s.mutexes| ::
          && s.mutexes[m].count <= 1 && (s.mutexes[m].count == 1 <==> s.mutexes[m].holder == None)
          && (s.mutexes[m].recursive ==> (s.mutexes[m].calls > 0 <==> s.mutexes[m].holder.Some?)))
    && (forall t | t in s.k.tcb ::
          && s.k.tcb[t].mutexesHeld == Held(s.mutexes, t)
          && s.k.tcb[t].priority >= s.k.tcb[t].basePriority
          && (s.k.tcb[t].mutexesHeld == 0 ==> s.k.tcb[t].priority == s.k.tcb[t].basePriority))
  }

  lemma WhatIsBooked(s: S)
    requires Booked(s)
    ensures Exact(s)
  {
    forall m | 0 <= m < |s.mutexes|
      ensures s.mutexes[m].count <= 1 && (s.mutexes[m].count == 1 <==> s.mutexes[m].holder == None)
      ensures s.mutexes[m].recursive ==> (s.mutexes[m].calls > 0 <==> s.mutexes[m].holder.Some?)
    {
      assert MutexOk(s.k, s.mutexes[m]);
    }
    forall t | t in s.k.tcb
      ensures s.k.tcb[t].mutexesHeld == Held(s.mutexes, t) && s.k.tcb[t].priority >= s.k.tcb[t].basePriority
      ensures s.k.tcb[t].mutexesHeld == 0 ==> s.k.tcb[t].priority == s.k.tcb[t].basePriority
    {
      assert TaskOk(s.k.tcb[t], Held(s.mutexes, t));
    }
  }

  /** At the end of every run the bookkeeping is exact; and a run that begins fair is fair
      throughout exactly when none of its actions overtakes anybody. */
  lemma {:induction false} RunsBookedAndFair(s: S, actions: seq<Action>)
    requires Booked(s) && Acts(s, actions).0
    ensures Booked(Acts(s, actions).2) && Exact(Acts(s, actions).2)
    ensures Fair(s) ==> (FairThroughout(s, actions) <==> Acts(s, actions).1)
    ensures Fair(s) && Acts(s, actions).1 ==> Fair(Acts(s, actions).2)
    decreases |actions|
  {
    if actions != [] {
      ActBooked(s, actions[0]);
      RunsBookedAndFair(Act(s, actions[0]), actions[1..]);
      if Fair(s) { ActFairIff(s, actions[0]); }
    } else {
      WhatIsBooked(s);
    }
  }

  /** A timeout on the holder's only mutex leaves it at the higher of its own priority
      and the highest one still waiting: at least every waiter's, and its own or equal
      to some waiter's. */
  lemma TimeoutSettles(s: S, m: nat)
    requires Booked(s) && Fair(s) && Allowed(s, TimedOut(m, true))
    requires s.mutexes[m].holder.Some? && s.mutexes[m].holder.value in s.k.tcb
    requires s.k.tcb[s.mutexes[m].holder.value].mutexesHeld == 1
    ensures var h, r := s.mutexes[m].holder.value, Act(s, TimedOut(m, true)).k;
            && h in r.tcb && r.tcb[h].priority >= s.k.tcb[h].basePriority
            && (forall i | 0 <= i < |s.k.events[m]| && s.k.events[m][i].owner in s.k.tcb ::
                  r.tcb[h].priority >= s.k.tcb[s.k.events[m][i].owner].priority)
            && (r.tcb[h].priority == s.k.tcb[h].basePriority ||
                exists i | 0 <= i < |s.k.events[m]| :: s.k.events[m][i].owner in s.k.tcb &&
                  r.tcb[h].priority == s.k.tcb[s.k.events[m][i].owner].priority)
  {
    BookedKnows(s);
    assert InStep(s.k, s.k.events[m]) && NoInversion(s.k, s.mutexes[m], s.k.events[m]);
    HeadIsHighest(s.k, s.k.events[m]);
    var h, r := s.mutexes[m].holder.value, Act(s, TimedOut(m, true)).k;
    SetPriorityRepriced(s.k, h, r.tcb[h].priority);
    if s.k.events[m] != [] { assert s.k.events[m][0].owner in s.k.tcb; }
  }

  /** Nested blocking does break it: raising a task that itself waits for a mutex does
      not raise the holder of that mutex. */
  lemma NestedInverts(s: S, m: nat, n: nat, i: nat, ticks: Tick)
    requires Booked(s) && Allowed(s, Block(m, ticks)) && n < |s.mutexes| && i < |s.k.events[n]|
    requires s.mutexes[n].holder.Some? && s.mutexes[m].holder == Some(s.k.events[n][i].owner)
    requires s.k.events[n][i].owner in s.k.tcb
    requires s.mutexes[n].holder != s.mutexes[m].holder && s.mutexes[n].holder.value in s.k.tcb
    requires s.k.tcb[s.mutexes[n].holder.value].priority < s.k.tcb[s.k.current].priority
    requires s.k.tcb[s.k.events[n][i].owner].priority < s.k.tcb[s.k.current].priority
    ensures Booked(Act(s, Block(m, ticks))) && !Fair(Act(s, Block(m, ticks)))
  {
    BlockBooked(s, m, ticks);
    BookedKnows(s);
    var h, p := s.mutexes[m].holder.value, s.k.tcb[s.k.current].priority;
    var k1, r := s.k.SetPriority(h, p), Act(s, Block(m, ticks));
    SetPriorityRepriced(s.k, h, p);
    BlockIs(s, m, ticks, h, r);
    PlacedElsewhere(k1, m, n, ticks, r.k);
    StillBelow(r, n, i);
  }

  /** Blocking on a mutex whose holder is raised. */
  lemma BlockIs(s: S, m: nat, ticks: Tick, h: TaskId, r: S)
    requires Booked(s) && Allowed(s, Block(m, ticks)) && s.mutexes[m].holder == Some(h) && r == Act(s, Block(m, ticks))
    requires s.k.Known(h) && s.k.Known(s.k.current) && s.k.tcb[h].priority < s.k.tcb[s.k.current].priority
    ensures var k1 := s.k.SetPriority(h, s.k.tcb[s.k.current].priority);
            && k1.Known(k1.current) && m < |k1.events| && r == s.(k := k1.PlaceOnEventList(m, ticks))
  {
    SetPriorityRepriced(s.k, h, s.k.tcb[s.k.current].priority);
  }

  lemma PlacedElsewhere(k: K, m: nat, n: nat, ticks: Tick, r: K)
    requires k.Shaped() && k.Known(k.current) && m < |k.events| && n < |k.events| && m != n && r == k.PlaceOnEventList(m, ticks)
    ensures |r.events| == |k.events| && r.events[n] == k.events[n] && r.tcb == k.tcb
  {
  }

  lemma StillBelow(s: S, n: nat, i: nat)
    requires n < |s.mutexes| <= |s.k.events| && i < |s.k.events[n]| && s.mutexes[n].holder.Some?
    requires s.mutexes[n].holder.value in s.k.tcb && s.k.events[n][i].owner in s.k.tcb
    requires s.k.tcb[s.mutexes[n].holder.value].priority < s.k.tcb[s.k.events[n][i].owner].priority
    ensures !Fair(s)
  {
    assert !NoInversion(s.k, s.mutexes[n], s.k.events[n]);
  }

  /** So does a take past a waiter that is higher than the running task. */
  lemma TakeOvertakes(s: S, m: nat, i: nat)
    requires Booked(s) && Allowed(s, Take(m)) && s.mutexes[m].holder == None && i < |s.k.events[m]|
    requires Prio(s.k, s.k.events[m][i].owner) > Prio(s.k, s.k.current)
    ensures Booked(Act(s, Take(m))) && !Fair(Act(s, Take(m)))
  {
    TakeBooked(s, m);
    assert InStep(s.k, s.k.events[m]);
    StillBelow(Act(s, Take(m)), m, i);
  }
}
