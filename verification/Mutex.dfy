/** Mutexes and priority inheritance.  Mutex `m` keeps its waiters on event list `m` of
    the kernel.  Over every run of takes, gives, blocks, timeouts and other kernel
    operations the holder bookkeeping stays exact. */
module Mutexes {
  import opened Common
  import opened Lists
  import opened Clocks
  import opened Tasks
  import opened Partition

  datatype Mutex = Mutex(count: nat, holder: Option<TaskId>, recursive: bool, calls: nat)

  /** The priority of the first waiter, from the value it is listed under; priority 0,
      the idle task's, when nobody waits. */
  function HighestWaiting(wait: seq<Entry<TaskId>>): nat
    requires wait != [] ==> wait[0].value <= MAX_PRIORITIES
  {
    if wait == [] then 0 else MAX_PRIORITIES - wait[0].value
  }

  // ---------------------------------------------------------------- one mutex

  function TakeOne(k: K, x: Mutex): (K, Mutex)
    requires k.current in k.tcb && x.count > 0
  {
    (k.HoldOneMore(), x.(count := x.count - 1, holder := Some(k.current)))
  }

  /** Blocking on a mutex: its holder inherits first, then the task waits. */
  function BlockOne(k: K, x: Mutex, l: nat, ticks: Tick): K
    requires k.Shaped() && k.Known(k.current) && l < |k.events|
    requires x.holder.Some? ==> k.Known(x.holder.value)
  {
    var k1 := if x.holder.Some? then k.Inherit(x.holder.value).0 else k;
    k1.PlaceOnEventList(l, ticks)
  }

  /** The holder gives the mutex back and the first waiter is unblocked. */
  function GiveOne(k: K, x: Mutex, l: nat): (K, Mutex)
    requires k.Shaped() && k.Known(k.current) && l < |k.events|
    requires k.tcb[k.current].mutexesHeld > 0 && k.tcb[k.current].basePriority < MAX_PRIORITIES
    requires k.events[l] != [] ==> k.Known(k.events[l][0].owner)
  {
    var k1 := k.Disinherit().0;
    (if k1.events[l] != [] then k1.RemoveFromEventList(l) else k1, x.(holder := None, count := x.count + 1))
  }

  /** A waiter finds that its time has run out with the mutex still held; `inherited`
      says whether it had lent the holder its priority. */
  function TimedOutOne(k: K, x: Mutex, l: nat, inherited: bool): K
    requires k.Shaped() && l < |k.events| && x.holder.Some? && k.Known(x.holder.value)
    requires k.tcb[x.holder.value].basePriority < MAX_PRIORITIES
    requires k.events[l] != [] ==> 0 < k.events[l][0].value <= MAX_PRIORITIES
  {
    if inherited then k.DisinheritAfterTimeout(x.holder.value, HighestWaiting(k.events[l])) else k
  }

  // ---------------------------------------------------------------- the invariants

  datatype S = S(k: K, mutexes: seq<Mutex>)

  /** How many of the mutexes name task `t` as their holder. */
  function Held(mutexes: seq<Mutex>, t: TaskId): nat {
    if mutexes == [] then 0 else (if mutexes[0].holder == Some(t) then 1 else 0) + Held(mutexes[1..], t)
  }

  ghost predicate MutexOk(k: K, x: Mutex) {
    && x.count == (if x.holder == None then 1 else 0)
    && (x.holder.Some? ==> x.holder.value in k.tcb)
    && (x.recursive ==> (x.calls > 0 <==> x.holder.Some?))
  }

  ghost predicate TaskOk(tcb: Tcb, held: nat) {
    && tcb.mutexesHeld == held
    && tcb.basePriority <= tcb.priority < MAX_PRIORITIES
    && (tcb.mutexesHeld == 0 ==> tcb.priority == tcb.basePriority)
  }

  /** A list on which each value encodes the present priority of its task. */
  ghost predicate InStep(k: K, wait: seq<Entry<TaskId>>) {
    forall i | 0 <= i < |wait| ::
      wait[i].owner in k.tcb && wait[i].value == MAX_PRIORITIES - k.tcb[wait[i].owner].priority
  }

  ghost predicate AllInStep(k: K) { forall l | 0 <= l < |k.events| :: InStep(k, k.events[l]) }

  ghost predicate MutexesOk(k: K, mutexes: seq<Mutex>) { forall m | 0 <= m < |mutexes| :: MutexOk(k, mutexes[m]) }

  ghost predicate TasksOk(k: K, mutexes: seq<Mutex>) { forall t | t in k.tcb :: TaskOk(k.tcb[t], Held(mutexes, t)) }

  /** The bookkeeping. */
  ghost predicate Booked(s: S) {
    && Consistent(s.k) && |s.mutexes| <= |s.k.events|
    && MutexesOk(s.k, s.mutexes) && TasksOk(s.k, s.mutexes) && AllInStep(s.k)
  }

  // ---------------------------------------------------------------- the steps

  datatype Action =
    | Take(m: nat)
    | Block(m: nat, ticks: Tick)
    | Give(m: nat)
    | TimedOut(m: nat, inherited: bool)
    | Other(step: Step)

  /** When an action can be taken: a mutex is taken while it is free, or again by the
      holder of a recursive one; only a holder gives, and it runs; a task that blocks
      runs; one that timed out is not itself the holder; tasks that hold mutexes are
      not deleted; and mutex wait lists are left to the mutexes. */
  ghost predicate Allowed(s: S, a: Action) {
    match a
    case Take(m) => m < |s.mutexes| && (s.mutexes[m].count > 0 || (s.mutexes[m].recursive && s.mutexes[m].holder == Some(s.k.current)))
    case Block(m, ticks) => m < |s.mutexes| && s.mutexes[m].count == 0 && ticks > 0 && CountReady(s.k.ready, s.k.current) > 0
    case Give(m) => m < |s.mutexes| && s.mutexes[m].holder == Some(s.k.current) && CountReady(s.k.ready, s.k.current) > 0
    case TimedOut(m, _) => m < |s.mutexes| && s.mutexes[m].count == 0 && s.mutexes[m].holder != Some(s.k.current)
    case Other(step) =>
      && Enabled(s.k, step)
      && (step.Wait? ==> step.l >= |s.mutexes|)
      && (step.Kill? ==> Held(s.mutexes, step.t) == 0)
      && (step.CleanUp? ==> Held(s.mutexes, s.k.termination[0]) == 0)
  }

  lemma BookedKnows(s: S)
    requires Booked(s)
    ensures forall t | t in s.k.tcb :: s.k.Known(t) && s.k.tcb[t].basePriority < MAX_PRIORITIES
    ensures forall m | 0 <= m < |s.mutexes| && s.mutexes[m].holder.Some? ::
              s.mutexes[m].holder.value in s.k.tcb && s.k.tcb[s.mutexes[m].holder.value].mutexesHeld > 0
    ensures forall l | 0 <= l < |s.k.events| && s.k.events[l] != [] ::
              s.k.events[l][0].owner in s.k.tcb && 0 < s.k.events[l][0].value <= MAX_PRIORITIES
  {
    forall t | t in s.k.tcb ensures s.k.Known(t) && s.k.tcb[t].basePriority < MAX_PRIORITIES {
      assert TaskOk(s.k.tcb[t], Held(s.mutexes, t));
    }
    forall m | 0 <= m < |s.mutexes| && s.mutexes[m].holder.Some?
      ensures s.mutexes[m].holder.value in s.k.tcb && s.k.tcb[s.mutexes[m].holder.value].mutexesHeld > 0
    {
      assert MutexOk(s.k, s.mutexes[m]);
      HeldAt(s.mutexes, m);
      assert TaskOk(s.k.tcb[s.mutexes[m].holder.value], Held(s.mutexes, s.mutexes[m].holder.value));
    }
    forall l | 0 <= l < |s.k.events| && s.k.events[l] != []
      ensures s.k.events[l][0].owner in s.k.tcb && 0 < s.k.events[l][0].value <= MAX_PRIORITIES
    {
      assert InStep(s.k, s.k.events[l]);
      assert TaskOk(s.k.tcb[s.k.events[l][0].owner], Held(s.mutexes, s.k.events[l][0].owner));
    }
  }

  /** The state after an action.  A recursive mutex is really taken and given only by
      the outermost call. */
  ghost function Act(s: S, a: Action): S
    requires Booked(s) && Allowed(s, a)
  {
    BookedKnows(s);
    match a
    case Take(m) =>
      var x := s.mutexes[m];
      if x.holder == Some(s.k.current) then s.(mutexes := s.mutexes[m := x.(calls := x.calls + 1)])
      else
        var (k1, x1) := TakeOne(s.k, x);
        S(k1, s.mutexes[m := if x.recursive then x1.(calls := x1.calls + 1) else x1])
    case Block(m, ticks) =>
      s.(k := BlockOne(s.k, s.mutexes[m], m, ticks))
    case Give(m) =>
      var x := if s.mutexes[m].recursive then s.mutexes[m].(calls := s.mutexes[m].calls - 1) else s.mutexes[m];
      if x.recursive && x.calls > 0 then s.(mutexes := s.mutexes[m := x])
      else
        var (k1, x1) := GiveOne(s.k, x, m);
        S(k1, s.mutexes[m := x1])
    case TimedOut(m, inherited) => s.(k := TimedOutOne(s.k, s.mutexes[m], m, inherited))
    case Other(step) => s.(k := Next(s.k, step))
  }

  // ---------------------------------------------------------------- counting holders

  lemma {:induction false} HeldAt(mutexes: seq<Mutex>, m: nat)
    requires m < |mutexes| && mutexes[m].holder.Some?
    ensures Held(mutexes, mutexes[m].holder.value) > 0
  {
    if m > 0 { HeldAt(mutexes[1..], m - 1); }
  }

  lemma {:induction false} HeldNone(mutexes: seq<Mutex>, t: TaskId)
    requires forall m | 0 <= m < |mutexes| :: mutexes[m].holder != Some(t)
    ensures Held(mutexes, t) == 0
  {
    if mutexes != [] { HeldNone(mutexes[1..], t); }
  }

  lemma {:induction false} HeldUpdate(mutexes: seq<Mutex>, m: nat, x: Mutex, t: TaskId)
    requires m < |mutexes|
    ensures Held(mutexes[m := x], t) == Held(mutexes, t)
              - (if mutexes[m].holder == Some(t) then 1 else 0) + (if x.holder == Some(t) then 1 else 0)
  {
    if m == 0 {
      assert mutexes[0 := x][1..] == mutexes[1..];
    } else {
      HeldUpdate(mutexes[1..], m - 1, x, t);
      assert mutexes[m := x][1..] == mutexes[1..][m - 1 := x];
    }
  }

  /** A task that holds every one it is counted for, and only one, holds no other. */
  lemma {:induction false} HeldOnly(mutexes: seq<Mutex>, m: nat, n: nat, t: TaskId)
    requires m < |mutexes| && n < |mutexes| && m != n
    requires mutexes[m].holder == Some(t) && mutexes[n].holder == Some(t)
    ensures Held(mutexes, t) >= 2
  {
    if m == 0 { HeldAt(mutexes[1..], n - 1); }
    else if n == 0 { HeldAt(mutexes[1..], m - 1); }
    else { HeldOnly(mutexes[1..], m - 1, n - 1, t); }
  }

  // ---------------------------------------------------------------- new priorities and the lists

  lemma {:induction false} RevalueCount(s: seq<Entry<TaskId>>, t: TaskId, value: Tick, u: TaskId)
    ensures CountEntries(Revalue(s, t, value), u) == CountEntries(s, u)
  {
    if s != [] { RevalueCount(s[1..], t, value, u); }
  }

  lemma {:induction false} RevalueEveryCount(lists: seq<seq<Entry<TaskId>>>, t: TaskId, value: Tick, u: TaskId)
    ensures CountEvents(RevalueEvery(lists, t, value), u) == CountEvents(lists, u)
  {
    if lists != [] {
      RevalueCount(lists[0], t, value, u);
      RevalueEveryCount(lists[1..], t, value, u);
    }
  }

  /** Changing priorities of tasks that are not on the ready lists, and mutex counts of
      any, leaves the lists in order. */
  lemma RelabelledConsistent(k: K, r: K)
    requires Consistent(k) && r == k.(tcb := r.tcb, events := r.events)
    requires r.tcb.Keys == k.tcb.Keys
    requires forall t | t in k.tcb :: r.tcb[t].priority < MAX_PRIORITIES
    requires forall t | t in k.tcb && CountReady(k.ready, t) > 0 :: r.tcb[t].priority == k.tcb[t].priority
    requires forall u: TaskId :: CountEvents(r.events, u) == CountEvents(k.events, u)
    ensures Consistent(r)
  {
    forall u: TaskId
      ensures Copies(r, u) == Copies(k, u)
      ensures EventCopies(r, u) <= EventRoom(r, u)
    {
      assert EventCopies(k, u) <= EventRoom(k, u);
    }
    assert |r.tcb.Keys| == |k.tcb.Keys|;
    forall p, t | 0 <= p < |r.ready| && t in r.tcb && r.tcb[t].priority != p ensures Count(r.ready[p].items, t) == 0 {
      CountReadyBounds(k.ready, p, t);
    }
  }

  /** The same for the one task whose state item is off its list. */
  lemma RelabelledLoose(k: K, r: K, t: TaskId)
    requires Loose(k, t) && CountReady(k.ready, t) == 0 && r == k.(tcb := r.tcb, events := r.events)
    requires r.tcb.Keys == k.tcb.Keys
    requires forall u | u in k.tcb :: r.tcb[u].priority < MAX_PRIORITIES
    requires forall u | u in k.tcb && u != t :: r.tcb[u].priority == k.tcb[u].priority
    requires forall u: TaskId :: CountEvents(r.events, u) == CountEvents(k.events, u)
    ensures Loose(r, t)
  {
    assert |r.tcb.Keys| == |k.tcb.Keys|;
    forall u: TaskId
      ensures Copies(r, u) == Copies(k, u)
      ensures EventCopies(r, u) <= EventRoom(r, u)
    {
      assert EventCopies(k, u) <= EventRoom(k, u);
    }
    forall p, u | 0 <= p < |r.ready| && u in r.tcb && r.tcb[u].priority != p ensures Count(r.ready[p].items, u) == 0 {
      CountReadyBounds(k.ready, p, u);
    }
  }

  lemma RelabelLoose(k: K, r: K, t: TaskId, priority: nat)
    requires Loose(k, t) && CountReady(k.ready, t) == 0 && EventCopies(k, t) == 0
    requires priority < MAX_PRIORITIES && r == k.Relabel(t, priority)
    ensures Loose(r, t) && EventCopies(r, t) == 0 && r.Known(t)
  {
    forall u: TaskId ensures CountEvents(r.events, u) == CountEvents(k.events, u) {
      RevalueEveryCount(k.events, t, MAX_PRIORITIES - priority, u);
    }
    RelabelledLoose(k, r, t);
  }

  lemma ReadyListed(k: K, t: TaskId)
    requires ConsistentLists(k) && t in k.tcb
    ensures t in k.ready[k.tcb[t].priority].items <==> CountReady(k.ready, t) > 0
    ensures CountReady(k.ready, t) > 0 ==>
              CountReady(k.ready, t) == 1 && Count(k.termination, t) == 0 && EventCopies(k, t) == 0
  {
    CountReadyAt(k.ready, k.tcb[t].priority, t);
    CountMember(k.ready[k.tcb[t].priority].items, t);
    assert Copies(k, t) == 1;
    assert EventCopies(k, t) <= EventRoom(k, t);
  }

  /** A ready task without its place. */
  lemma LoosenReady(k: K, d: K, t: TaskId)
    requires Consistent(k) && t in k.tcb && CountReady(k.ready, t) > 0 && d == k.DropState(t)
    ensures Loose(d, t) && EventCopies(d, t) == 0 && d.clock.Timely()
    ensures forall u: TaskId :: CountReady(d.ready, u) == if u == t then 0 else CountReady(k.ready, u)
    ensures CountReady(k.ready, t) == 1 && d.nesting == k.nesting && d.pendedTicks == k.pendedTicks && d.pendingReady == k.pendingReady
  {
    ReadyListed(k, t);
    assert Copies(k, t) == 1;
    Loosen(k, t);
    forall u: TaskId ensures CountReady(d.ready, u) == if u == t then 0 else CountReady(k.ready, u) {
      DropStateCopies(k, t, u);
    }
    DropTimely(k.clock, t);
  }

  lemma AddLoose(e: K, r: K, t: TaskId)
    requires Loose(e, t) && EventCopies(e, t) == 0 && e.Known(t) && r == e.AddReady(t)
    ensures ConsistentLists(r)
    ensures forall u: TaskId :: CountReady(r.ready, u) == CountReady(e.ready, u) + if u == t then 1 else 0
  {
    TightenReady(e, t);
    AddReadyCounts(e, t);
  }

  /** A ready task moves to the list of its new priority. */
  lemma MoveReadyConsistent(k: K, t: TaskId, priority: nat, r: K)
    requires Consistent(k) && t in k.tcb && CountReady(k.ready, t) > 0 && priority < MAX_PRIORITIES
    requires r == k.DropState(t).Relabel(t, priority).AddReady(t)
    ensures Consistent(r) && forall u: TaskId :: CountReady(r.ready, u) == CountReady(k.ready, u)
  {
    var d := k.DropState(t);
    var e := d.Relabel(t, priority);
    LoosenReady(k, d, t);
    RelabelLoose(d, e, t, priority);
    AddLoose(e, r, t);
  }

  lemma AddReadyCounts(k: K, t: TaskId)
    requires k.Shaped() && k.Known(t)
    ensures forall u: TaskId :: CountReady(k.AddReady(t).ready, u) == CountReady(k.ready, u) + if u == t then 1 else 0
  {
    forall u: TaskId ensures CountReady(k.AddReady(t).ready, u) == CountReady(k.ready, u) + if u == t then 1 else 0 {
      AddReadyCopies(k, t, u);
    }
  }

  lemma SetPriorityConsistent(k: K, t: TaskId, priority: nat)
    requires Consistent(k) && t in k.tcb && priority < MAX_PRIORITIES
    ensures Consistent(k.SetPriority(t, priority))
    ensures forall u: TaskId :: CountReady(k.SetPriority(t, priority).ready, u) == CountReady(k.ready, u)
  {
    ReadyListed(k, t);
    if t in k.ready[k.tcb[t].priority].items {
      MoveReadyConsistent(k, t, priority, k.SetPriority(t, priority));
    } else {
      forall u: TaskId ensures CountEvents(k.Relabel(t, priority).events, u) == CountEvents(k.events, u) {
        RevalueEveryCount(k.events, t, MAX_PRIORITIES - priority, u);
      }
      RelabelledConsistent(k, k.Relabel(t, priority));
    }
  }

  // ---------------------------------------------------------------- how control blocks and wait lists move

  /** The control blocks are as before but for the priority of one task, and the
      values on the event lists follow it. */
  ghost predicate Repriced(k: K, r: K, t: TaskId, priority: nat)
    requires t in k.tcb && priority < MAX_PRIORITIES
  {
    && r.tcb == k.tcb[t := k.tcb[t].(priority := priority)]
    && r.events == RevalueEvery(k.events, t, MAX_PRIORITIES - priority)
  }

  lemma RepricedInStep(k: K, r: K, t: TaskId, priority: nat)
    requires t in k.tcb && priority < MAX_PRIORITIES && Repriced(k, r, t, priority)
    requires forall l | 0 <= l < |k.events| :: InStep(k, k.events[l])
    ensures forall l | 0 <= l < |r.events| :: InStep(r, r.events[l])
  {
    forall l | 0 <= l < |r.events| ensures InStep(r, r.events[l]) {
      assert InStep(k, k.events[l]);
    }
  }

  /** Entries only leave the lists. */
  ghost predicate Thinned(before: seq<seq<Entry<TaskId>>>, after: seq<seq<Entry<TaskId>>>) {
    |after| == |before| && forall l | 0 <= l < |before| :: ThinnedOne(before[l], after[l])
  }

  ghost predicate ThinnedOne(before: seq<Entry<TaskId>>, after: seq<Entry<TaskId>>) {
    && (Sorted(before) ==> Sorted(after))
    && (forall i | 0 <= i < |after| :: after[i] in before)
  }

  lemma ThinnedTwice(a: seq<seq<Entry<TaskId>>>, b: seq<seq<Entry<TaskId>>>, c: seq<seq<Entry<TaskId>>>)
    requires Thinned(a, b) && Thinned(b, c)
    ensures Thinned(a, c)
  {
    forall l | 0 <= l < |a| ensures ThinnedOne(a[l], c[l]) {
      assert ThinnedOne(a[l], b[l]) && ThinnedOne(b[l], c[l]);
    }
  }

  lemma {:induction false} DropEveryAt(events: seq<seq<Entry<TaskId>>>, t: TaskId)
    ensures forall l | 0 <= l < |events| :: DropEvery(events, t)[l] == DropEntry(events[l], t)
  {
    if events != [] { DropEveryAt(events[1..], t); }
  }

  lemma DropEveryThins(events: seq<seq<Entry<TaskId>>>, t: TaskId)
    ensures Thinned(events, DropEvery(events, t))
  {
    DropEveryAt(events, t);
    forall l | 0 <= l < |events| ensures ThinnedOne(events[l], DropEvery(events, t)[l]) {
      DropEntrySubset(events[l], t);
      if Sorted(events[l]) { DropEntrySorted(events[l], t); }
    }
  }

  lemma {:induction false} WakeDueThins(k: K)
    requires Closed(k)
    ensures WakeDue(k).tcb == k.tcb && Thinned(k.events, WakeDue(k).events)
    decreases |k.clock.delayed|
  {
    if k.clock.HeadDue() {
      var t := k.clock.delayed[0].owner;
      DropEveryThins(k.events, t);
      WakeDueThins(WakeHead(k));
      ThinnedTwice(k.events, WakeHead(k).events, WakeDue(k).events);
    }
  }

  lemma {:induction false} TickTimesThins(k: K, n: nat)
    requires Closed(k)
    ensures TickTimes(k, n).tcb == k.tcb && Thinned(k.events, TickTimes(k, n).events)
    decreases n
  {
    if n > 0 {
      TickThins(k);
      TickTimesThins(IncrementTick(k), n - 1);
      ThinnedTwice(k.events, IncrementTick(k).events, TickTimes(k, n).events);
    }
  }

  lemma TickThins(k: K)
    requires Closed(k)
    ensures IncrementTick(k).tcb == k.tcb && Thinned(k.events, IncrementTick(k).events)
  {
    if k.nesting == 0 {
      var k1 := k.(clock := k.clock.Advance());
      if k1.clock.tick >= k1.clock.nextUnblock { WakeDueThins(k1); }
    }
  }

  lemma {:induction false} MovePendingKeeps(k: K)
    requires Closed(k)
    ensures MovePending(k).tcb == k.tcb && MovePending(k).events == k.events
    decreases |k.pendingReady|
  {
    if k.pendingReady != [] {
      var t := k.pendingReady[0];
      assert t in k.pendingReady;
      DropEntrySubset(k.clock.delayed, t);
      DropEntrySubset(k.clock.overflow, t);
      MovePendingKeeps(k.(pendingReady := k.pendingReady[1..]).MakeReady(t));
    }
  }

  lemma ResumeAllThins(k: K)
    requires Closed(k) && k.nesting > 0
    ensures ResumeAll(k).tcb == k.tcb && Thinned(k.events, ResumeAll(k).events)
  {
    var k0 := k.(nesting := k.nesting - 1);
    if k0.nesting == 0 && k0.number > 0 {
      MovePendingKeeps(k0);
      TickTimesThins(Settle(k0), Settle(k0).pendedTicks);
    }
  }

  lemma EventThins(k: K, l: nat)
    requires Consistent(k) && l < |k.events| && k.events[l] != []
    ensures k.Known(k.events[l][0].owner) && Thinned(k.events, k.RemoveFromEventList(l).events)
  {
    EventConsistent(k, l);
    forall i | 0 <= i < |k.events[l][1..]| ensures k.events[l][1..][i] in k.events[l] { }
  }

  /** The control blocks after a kernel operation that is not about mutexes. */
  function TcbAfter(k: K, step: Step): map<TaskId, Tcb> {
    match step
    case Spawn(t, priority) => k.tcb[t := Tcb(priority, priority, 0)]
    case Kill(t) => if t == k.current then k.tcb else k.tcb - {t}
    case CleanUp => if k.termination == [] then k.tcb else k.tcb - {k.termination[0]}
    case _ => k.tcb
  }

  lemma DeleteThins(k: K, t: TaskId)
    requires Consistent(k) && t in k.tcb && Count(k.termination, t) == 0
    ensures k.number > 0 && Thinned(k.events, k.Delete(t).events)
    ensures k.Delete(t).tcb == if t == k.current then k.tcb else k.tcb - {t}
  {
    DeleteConsistent(k, t);
    DropEveryThins(k.events, t);
  }

  lemma CleanUpThins(k: K)
    requires Consistent(k) && k.termination != [] && k.termination[0] != k.current
    ensures k.number > 0 && k.CleanUpOne().events == k.events && k.CleanUpOne().tcb == k.tcb - {k.termination[0]}
  {
    CleanUpConsistent(k);
  }

  /** Steps that go through a loop, or destroy control blocks. */
  predicate Longer(step: Step) {
    step.TickInterrupt? || step.Event? || step.Kill? || step.CleanUp? || step.ResumeScheduler?
  }

  lemma OneTaskTcb(k: K, t: TaskId)
    requires k.Shaped() && k.Known(t)
    ensures k.SuspendTask(t).tcb == k.tcb && k.ResumeTask(t).tcb == k.tcb && k.ResumeFromIsr(t).tcb == k.tcb
  {
  }

  lemma BlockTcb(k: K, ticks: Tick, l: nat)
    requires k.Shaped() && k.Known(k.current)
    ensures k.DelayCurrent(ticks, false).tcb == k.tcb
    ensures l < |k.events| ==> k.PlaceOnEventList(l, ticks).tcb == k.tcb
  {
  }

  lemma ShortStepTcb(k: K, step: Step, r: K)
    requires Closed(k) && k.current in k.tcb && Consistent(k) && Enabled(k, step) && !Longer(step) && r == Next(k, step)
    ensures r.tcb == TcbAfter(k, step)
  {
    match step
    case Delay(ticks) => BlockTcb(k, ticks, 0);
    case Wait(l, ticks) => BlockTcb(k, ticks, l);
    case Suspend(t) => OneTaskTcb(k, t);
    case Resume(t) => OneTaskTcb(k, t);
    case ResumeIsr(t) => OneTaskTcb(k, t);
    case _ =>
  }

  /** No such operation touches a control block it does not make or destroy. */
  lemma StepTcb(k: K, step: Step)
    requires Consistent(k) && Enabled(k, step)
    ensures Next(k, step).tcb == TcbAfter(k, step)
  {
    ConsistentClosed(k);
    if Longer(step) { LongStepTcb(k, step, Next(k, step)); } else { ShortStepTcb(k, step, Next(k, step)); }
  }

  lemma LongStepTcb(k: K, step: Step, r: K)
    requires Closed(k) && Consistent(k) && Enabled(k, step) && Longer(step) && r == Next(k, step)
    ensures r.tcb == TcbAfter(k, step)
  {
    match step
    case TickInterrupt => TickThins(k);
    case Event(l) => EventTcb(k, l);
    case Kill(t) => DeleteThins(k, t);
    case CleanUp => CleanUpThins(k);
    case ResumeScheduler => ResumeAllThins(k);
  }

  lemma EventTcb(k: K, l: nat)
    requires Consistent(k) && l < |k.events| && k.events[l] != []
    ensures k.Known(k.events[l][0].owner) && k.RemoveFromEventList(l).tcb == k.tcb
  {
    EventConsistent(k, l);
  }

  /** But for a task that starts to wait, none adds to an event list. */
  lemma StepThins(k: K, step: Step)
    requires Consistent(k) && Enabled(k, step) && !step.Wait?
    ensures Thinned(k.events, Next(k, step).events)
  {
    ConsistentClosed(k);
    match step
    case TickInterrupt => TickThins(k);
    case Event(l) => EventThins(k, l);
    case Suspend(t) => DropEveryThins(k.events, t);
    case Kill(t) => DeleteThins(k, t);
    case CleanUp => CleanUpThins(k);
    case ResumeScheduler => ResumeAllThins(k);
    case _ =>
  }

  // ---------------------------------------------------------------- the bookkeeping is kept

  /** Another mutex record with the same holder. */
  lemma SameHolder(s: S, m: nat, x: Mutex)
    requires Booked(s) && m < |s.mutexes| && MutexOk(s.k, x) && x.holder == s.mutexes[m].holder
    ensures Booked(s.(mutexes := s.mutexes[m := x]))
  {
    forall t | t in s.k.tcb ensures TaskOk(s.k.tcb[t], Held(s.mutexes[m := x], t)) { HeldUpdate(s.mutexes, m, x, t); }
  }

  /** A kernel with the same control blocks and entries gone from its event lists. */
  lemma ThinnedBooked(s: S, r: K)
    requires Booked(s) && Consistent(r) && r.tcb == s.k.tcb && Thinned(s.k.events, r.events)
    ensures Booked(s.(k := r))
  {
    forall m | 0 <= m < |s.mutexes| ensures MutexOk(r, s.mutexes[m]) { assert MutexOk(s.k, s.mutexes[m]); }
    forall l | 0 <= l < |r.events| ensures InStep(r, r.events[l]) {
      assert InStep(s.k, s.k.events[l]) && ThinnedOne(s.k.events[l], r.events[l]);
      forall i | 0 <= i < |r.events[l]|
        ensures r.events[l][i].owner in r.tcb && r.events[l][i].value == MAX_PRIORITIES - r.tcb[r.events[l][i].owner].priority
      {
        var j :| 0 <= j < |s.k.events[l]| && s.k.events[l][j] == r.events[l][i];
      }
    }
  }

  /** A mutex count does not matter to the lists. */
  lemma CountedConsistent(k: K, t: TaskId, held: nat)
    requires Consistent(k) && AllInStep(k) && t in k.tcb
    ensures var r := k.(tcb := k.tcb[t := k.tcb[t].(mutexesHeld := held)]); Consistent(r) && AllInStep(r)
  {
    var r := k.(tcb := k.tcb[t := k.tcb[t].(mutexesHeld := held)]);
    RelabelledConsistent(k, r);
    forall l | 0 <= l < |r.events| ensures InStep(r, r.events[l]) { assert InStep(k, k.events[l]); }
  }

  /** A free mutex, its new record `y` and a kernel that counts one more for the
      running task. */
  lemma TakeFreeBooked(s: S, m: nat, y: Mutex)
    requires Booked(s) && m < |s.mutexes| && s.mutexes[m].holder == None
    requires y.holder == Some(s.k.current) && y.count == 0 && (y.recursive ==> y.calls > 0)
    ensures Booked(S(s.k.HoldOneMore(), s.mutexes[m := y]))
  {
    var r := s.k.HoldOneMore();
    var mutexes := s.mutexes[m := y];
    CountedConsistent(s.k, s.k.current, s.k.tcb[s.k.current].mutexesHeld + 1);
    forall n | 0 <= n < |mutexes| ensures MutexOk(r, mutexes[n]) { assert MutexOk(s.k, s.mutexes[n]); }
    forall t | t in r.tcb ensures TaskOk(r.tcb[t], Held(mutexes, t)) {
      HeldUpdate(s.mutexes, m, y, t);
      assert TaskOk(s.k.tcb[t], Held(s.mutexes, t));
    }
  }

  lemma TakeBooked(s: S, m: nat)
    requires Booked(s) && Allowed(s, Take(m))
    ensures Booked(Act(s, Take(m)))
  {
    var x := s.mutexes[m];
    assert MutexOk(s.k, x);
    if x.holder == Some(s.k.current) {
      SameHolder(s, m, x.(calls := x.calls + 1));
    } else {
      TakeFreeBooked(s, m, Act(s, Take(m)).mutexes[m]);
    }
  }

  lemma SetPriorityRepriced(k: K, t: TaskId, priority: nat)
    requires k.Shaped() && k.Known(t) && priority < MAX_PRIORITIES
    ensures Repriced(k, k.SetPriority(t, priority), t, priority)
    ensures k.SetPriority(t, priority).current == k.current
  {
  }

  /** A task that holds a mutex may be given any priority not below its own. */
  lemma SetPriorityBooked(s: S, t: TaskId, priority: nat)
    requires Booked(s) && t in s.k.tcb && s.k.Known(t) && priority < MAX_PRIORITIES
    requires s.k.tcb[t].basePriority <= priority && s.k.tcb[t].mutexesHeld > 0
    ensures Booked(s.(k := s.k.SetPriority(t, priority)))
  {
    var r := s.k.SetPriority(t, priority);
    SetPriorityConsistent(s.k, t, priority);
    SetPriorityRepriced(s.k, t, priority);
    RepricedInStep(s.k, r, t, priority);
    forall m | 0 <= m < |s.mutexes| ensures MutexOk(r, s.mutexes[m]) { assert MutexOk(s.k, s.mutexes[m]); }
    forall u | u in r.tcb ensures TaskOk(r.tcb[u], Held(s.mutexes, u)) { assert TaskOk(s.k.tcb[u], Held(s.mutexes, u)); }
  }

  lemma InsertedInStep(k: K, s: seq<Entry<TaskId>>, e: Entry<TaskId>, r: seq<Entry<TaskId>>)
    requires InStep(k, s) && e.owner in k.tcb && e.value == MAX_PRIORITIES - k.tcb[e.owner].priority
    requires forall i | 0 <= i < |r| :: r[i] == e || r[i] in s
    ensures InStep(k, r)
  {
    forall i | 0 <= i < |r| && r[i] != e
      ensures r[i].owner in k.tcb && r[i].value == MAX_PRIORITIES - k.tcb[r[i].owner].priority
    {
      var j :| 0 <= j < |s| && s[j] == r[i];
    }
  }

  /** A task that starts to wait is listed under its priority. */
  lemma JoinInStep(k: K, l: nat, e: Entry<TaskId>, r: K)
    requires AllInStep(k) && l < |k.events| && e.owner in k.tcb && e.value == MAX_PRIORITIES - k.tcb[e.owner].priority
    requires r.tcb == k.tcb && r.events == k.events[l := InsertSorted(k.events[l], e)]
    ensures AllInStep(r)
  {
    InsertSortedBounds(k.events[l], e);
    forall n | 0 <= n < |r.events| ensures InStep(r, r.events[n]) {
      assert InStep(k, k.events[n]);
      if n == l { InsertedInStep(k, k.events[l], e, r.events[n]); }
    }
  }

  lemma PlaceBooked(s: S, l: nat, ticks: Tick)
    requires Booked(s) && l < |s.k.events| && ticks > 0 && CountReady(s.k.ready, s.k.current) > 0
    ensures Booked(s.(k := s.k.PlaceOnEventList(l, ticks)))
  {
    PlaceConsistent(s.k, l, ticks);
    PlacedBooked(s, l, Entry(MAX_PRIORITIES - s.k.tcb[s.k.current].priority, s.k.current), s.k.PlaceOnEventList(l, ticks));
  }

  lemma PlacedBooked(s: S, l: nat, e: Entry<TaskId>, r: K)
    requires Booked(s) && Consistent(r) && l < |s.k.events| && e.owner in s.k.tcb
    requires e.value == MAX_PRIORITIES - s.k.tcb[e.owner].priority
    requires r.tcb == s.k.tcb && r.events == s.k.events[l := InsertSorted(s.k.events[l], e)]
    ensures Booked(s.(k := r))
  {
    JoinInStep(s.k, l, e, r);
    forall m | 0 <= m < |s.mutexes| ensures MutexOk(r, s.mutexes[m]) { assert MutexOk(s.k, s.mutexes[m]); }
  }

  /** After inheriting, the holder is at least as high as the running task, which is
      still ready. */
  lemma InheritBooked(s: S, holder: TaskId)
    requires Booked(s) && holder in s.k.tcb && s.k.tcb[holder].mutexesHeld > 0
    ensures s.k.Known(holder) && s.k.Known(s.k.current)
    ensures var (r, inherited) := s.k.Inherit(holder);
            && Booked(s.(k := r)) && r.current == s.k.current
            && (inherited <==> s.k.tcb[holder].basePriority < s.k.tcb[s.k.current].priority)
            && CountReady(r.ready, r.current) == CountReady(s.k.ready, r.current)
            && r.tcb[holder].priority >= r.tcb[r.current].priority
  {
    BookedKnows(s);
    var p := s.k.tcb[s.k.current].priority;
    assert TaskOk(s.k.tcb[holder], Held(s.mutexes, holder));
    if s.k.tcb[holder].priority < p {
      SetPriorityBooked(s, holder, p);
      SetPriorityConsistent(s.k, holder, p);
      SetPriorityRepriced(s.k, holder, p);
    }
  }

  lemma BlockBooked(s: S, m: nat, ticks: Tick)
    requires Booked(s) && Allowed(s, Block(m, ticks))
    ensures Booked(Act(s, Block(m, ticks)))
  {
    BookedKnows(s);
    var x := s.mutexes[m];
    assert MutexOk(s.k, x);
    InheritBooked(s, x.holder.value);
    var k1 := s.k.Inherit(x.holder.value).0;
    PlaceBooked(s.(k := k1), m, ticks);
  }

  lemma MoveReadyInStep(k: K, t: TaskId, priority: nat, r: K)
    requires Consistent(k) && AllInStep(k) && t in k.tcb && CountReady(k.ready, t) > 0 && priority < MAX_PRIORITIES
    requires r == k.DropState(t).Relabel(t, priority).AddReady(t)
    ensures Consistent(r) && AllInStep(r)
  {
    MoveReadyConsistent(k, t, priority, r);
    RepricedInStep(k, r, t, priority);
  }

  /** What giving back a mutex does to the control blocks. */
  lemma DisinheritTcb(k: K)
    requires Consistent(k) && k.Known(k.current) && k.tcb[k.current].mutexesHeld > 0
    requires k.tcb[k.current].basePriority < MAX_PRIORITIES
    ensures var r, b := k.Disinherit().0, k.tcb[k.current];
            && r.current == k.current && |r.events| == |k.events|
            && r.tcb == k.tcb[k.current := b.(mutexesHeld := b.mutexesHeld - 1,
                                              priority := if b.mutexesHeld == 1 then b.basePriority else b.priority)]
  {
  }

  /** Giving back one of the running task's mutexes: with the last it returns to its
      own priority. */
  lemma DisinheritKernel(k: K)
    requires Consistent(k) && AllInStep(k) && CountReady(k.ready, k.current) > 0
    requires k.Known(k.current) && k.tcb[k.current].mutexesHeld > 0 && k.tcb[k.current].basePriority < MAX_PRIORITIES
    ensures var r, b := k.Disinherit().0, k.tcb[k.current];
            && Consistent(r) && AllInStep(r) && r.current == k.current && |r.events| == |k.events|
            && r.tcb == k.tcb[k.current := b.(mutexesHeld := b.mutexesHeld - 1,
                                              priority := if b.mutexesHeld == 1 then b.basePriority else b.priority)]
  {
    var t, b := k.current, k.tcb[k.current];
    DisinheritTcb(k);
    CountedConsistent(k, t, b.mutexesHeld - 1);
    if b.priority != b.basePriority && b.mutexesHeld == 1 {
      MoveReadyInStep(k.(tcb := k.tcb[t := b.(mutexesHeld := b.mutexesHeld - 1)]), t, b.basePriority, k.Disinherit().0);
    }
  }

  lemma DisinheritBooked(s: S, m: nat, x: Mutex, r: S)
    requires Booked(s) && m < |s.mutexes| && s.mutexes[m].holder == Some(s.k.current)
    requires CountReady(s.k.ready, s.k.current) > 0
    requires x.holder == None && MutexOk(s.k, x)
    requires s.k.Known(s.k.current) && s.k.tcb[s.k.current].basePriority < MAX_PRIORITIES && s.k.tcb[s.k.current].mutexesHeld > 0
    requires r == S(s.k.Disinherit().0, s.mutexes[m := x])
    ensures Booked(r)
  {
    DisinheritKernel(s.k);
    forall n | 0 <= n < |r.mutexes| ensures MutexOk(r.k, r.mutexes[n]) { assert MutexOk(s.k, s.mutexes[n]); }
    forall u | u in r.k.tcb ensures TaskOk(r.k.tcb[u], Held(r.mutexes, u)) {
      HeldUpdate(s.mutexes, m, x, u);
      assert TaskOk(s.k.tcb[u], Held(s.mutexes, u));
    }
  }

  /** Unblocking the first waiter, if there is one. */
  lemma ReleaseBooked(s: S, m: nat, r: S)
    requires Booked(s) && m < |s.k.events| && (s.k.events[m] != [] ==> s.k.Known(s.k.events[m][0].owner))
    requires r == if s.k.events[m] != [] then s.(k := s.k.RemoveFromEventList(m)) else s
    ensures Booked(r)
  {
    if s.k.events[m] != [] {
      EventConsistent(s.k, m);
      EventThins(s.k, m);
      ThinnedBooked(s, r.k);
    }
  }

  lemma GiveOneIs(k: K, x: Mutex, m: nat, k1: K)
    requires k.Shaped() && k.Known(k.current) && k.tcb[k.current].basePriority < MAX_PRIORITIES && k.tcb[k.current].mutexesHeld > 0
    requires m < |k.events| && (k.events[m] != [] ==> k.Known(k.events[m][0].owner))
    requires k1 == k.Disinherit().0 && k1.Shaped() && m < |k1.events| && (k1.events[m] != [] ==> k1.Known(k1.events[m][0].owner))
    ensures GiveOne(k, x, m) == (if k1.events[m] != [] then k1.RemoveFromEventList(m) else k1, x.(holder := None, count := x.count + 1))
  {
  }

  /** The outermost give in two steps. */
  lemma GiveIs(s: S, m: nat, x: Mutex, k1: K)
    requires Booked(s) && Allowed(s, Give(m))
    requires x == if s.mutexes[m].recursive then s.mutexes[m].(calls := s.mutexes[m].calls - 1) else s.mutexes[m]
    requires !(x.recursive && x.calls > 0)
    requires s.k.Known(s.k.current) && s.k.tcb[s.k.current].basePriority < MAX_PRIORITIES && s.k.tcb[s.k.current].mutexesHeld > 0
    requires k1 == s.k.Disinherit().0 && m < |k1.events| && (k1.events[m] != [] ==> k1.Known(k1.events[m][0].owner))
    ensures Act(s, Give(m)) == S(if k1.events[m] != [] then k1.RemoveFromEventList(m) else k1,
                                 s.mutexes[m := x.(holder := None, count := x.count + 1)])
  {
    BookedKnows(s);
    GiveOneIs(s.k, x, m, k1);
  }

  lemma GiveBooked(s: S, m: nat)
    requires Booked(s) && Allowed(s, Give(m))
    ensures Booked(Act(s, Give(m)))
  {
    BookedKnows(s);
    var y := s.mutexes[m];
    assert MutexOk(s.k, y);
    var x := if y.recursive then y.(calls := y.calls - 1) else y;
    if x.recursive && x.calls > 0 {
      SameHolder(s, m, x);
    } else {
      GiveLastBooked(s, m, x, Act(s, Give(m)));
    }
  }

  lemma GiveLastBooked(s: S, m: nat, x: Mutex, end: S)
    requires Booked(s) && Allowed(s, Give(m)) && end == Act(s, Give(m)) && MutexOk(s.k, s.mutexes[m])
    requires x == if s.mutexes[m].recursive then s.mutexes[m].(calls := s.mutexes[m].calls - 1) else s.mutexes[m]
    requires !(x.recursive && x.calls > 0)
    ensures Booked(end)
  {
    BookedKnows(s);
    var x1 := x.(holder := None, count := x.count + 1);
    var r := S(s.k.Disinherit().0, s.mutexes[m := x1]);
    DisinheritBooked(s, m, x1, r);
    BookedKnows(r);
    GiveIs(s, m, x, r.k);
    ReleaseBooked(r, m, end);
  }

  lemma TimedOutBooked(s: S, m: nat, inherited: bool)
    requires Booked(s) && Allowed(s, TimedOut(m, inherited))
    ensures Booked(Act(s, TimedOut(m, inherited)))
  {
    BookedKnows(s);
    var x := s.mutexes[m];
    assert MutexOk(s.k, x);
    var h := x.holder.value;
    var top := HighestWaiting(s.k.events[m]);
    assert TaskOk(s.k.tcb[h], Held(s.mutexes, h));
    var p := if s.k.tcb[h].basePriority < top then top else s.k.tcb[h].basePriority;
    SetPriorityBooked(s, h, p);
    TimedOutIs(s, m, inherited, h, p, Act(s, TimedOut(m, inherited)));
  }

  /** A timeout changes nothing, or the priority of the holder. */
  lemma TimedOutIs(s: S, m: nat, inherited: bool, h: TaskId, p: nat, r: S)
    requires Booked(s) && Allowed(s, TimedOut(m, inherited)) && s.mutexes[m].holder == Some(h) && s.k.Known(h)
    requires s.k.events[m] != [] ==> s.k.events[m][0].value <= MAX_PRIORITIES
    requires var top := HighestWaiting(s.k.events[m]); p == if s.k.tcb[h].basePriority < top then top else s.k.tcb[h].basePriority
    requires p < MAX_PRIORITIES && r == Act(s, TimedOut(m, inherited))
    ensures r == s || r == s.(k := s.k.SetPriority(h, p))
  {
    BookedKnows(s);
  }

  /** What a kernel operation that is not about mutexes does to control blocks and
      wait lists, in a kernel whose event lists it adds nothing to. */
  lemma OtherBooked(s: S, step: Step)
    requires Booked(s) && Allowed(s, Other(step))
    ensures Booked(Act(s, Other(step)))
  {
    if step.Wait? {
      PlaceBooked(s, step.l, step.ticks);
    } else {
      StepConsistent(s.k, step);
      StepTcb(s.k, step);
      StepThins(s.k, step);
      OtherThinned(s, step, Next(s.k, step));
    }
  }

  /** A kernel in which control blocks may have come and gone, but none of a holder,
      and entries have gone from the event lists. */
  lemma OtherThinned(s: S, step: Step, r: K)
    requires Booked(s) && Allowed(s, Other(step)) && !step.Wait?
    requires Consistent(r) && r.tcb == TcbAfter(s.k, step) && Thinned(s.k.events, r.events)
    ensures Booked(s.(k := r))
  {
    forall m | 0 <= m < |s.mutexes| ensures MutexOk(r, s.mutexes[m]) {
      assert MutexOk(s.k, s.mutexes[m]);
      if s.mutexes[m].holder.Some? { HeldAt(s.mutexes, m); }
    }
    forall t | t in r.tcb ensures TaskOk(r.tcb[t], Held(s.mutexes, t)) {
      if t in s.k.tcb {
        assert TaskOk(s.k.tcb[t], Held(s.mutexes, t));
      } else {
        forall m | 0 <= m < |s.mutexes| ensures s.mutexes[m].holder != Some(t) { assert MutexOk(s.k, s.mutexes[m]); }
        HeldNone(s.mutexes, t);
      }
    }
    ThinnedInStep(s.k, r);
  }

  /** Whatever is still on an event list is alive and in step. */
  lemma ThinnedInStep(k: K, r: K)
    requires AllInStep(k) && Consistent(r) && Thinned(k.events, r.events)
    requires forall t | t in k.tcb && t in r.tcb :: r.tcb[t].priority == k.tcb[t].priority
    ensures AllInStep(r)
  {
    forall l | 0 <= l < |r.events| ensures InStep(r, r.events[l]) {
      assert InStep(k, k.events[l]) && ThinnedOne(k.events[l], r.events[l]);
      forall i | 0 <= i < |r.events[l]|
        ensures r.events[l][i].owner in r.tcb && r.events[l][i].value == MAX_PRIORITIES - r.tcb[r.events[l][i].owner].priority
      {
        assert r.events[l][i] in k.events[l];
        WaitsAlive(r, l, i);
      }
    }
  }

  lemma WaitsAlive(k: K, l: nat, i: nat)
    requires Consistent(k) && l < |k.events| && i < |k.events[l]|
    ensures k.events[l][i].owner in k.tcb && CountEvents(k.events, k.events[l][i].owner) == 1
    ensures CountReady(k.ready, k.events[l][i].owner) == 0
  {
    var t := k.events[l][i].owner;
    EntryCounted(k.events[l], k.events[l][i]);
    CountEventsUpdate(k.events, l, [], t);
    assert EventCopies(k, t) <= EventRoom(k, t);
  }

  /** Every action keeps the bookkeeping. */
  lemma ActBooked(s: S, a: Action)
    requires Booked(s) && Allowed(s, a)
    ensures Booked(Act(s, a))
  {
    match a
    case Take(m) => TakeBooked(s, m);
    case Block(m, ticks) => BlockBooked(s, m, ticks);
    case Give(m) => GiveBooked(s, m);
    case TimedOut(m, inherited) => TimedOutBooked(s, m, inherited);
    case Other(step) => OtherBooked(s, step);
  }
}
