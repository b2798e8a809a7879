/** What every sequence of kernel operations keeps: each live task on exactly one
    state list and on at most one event list, ready tasks on the list of their own
    priority, the true-time reading of the delay lists, and every tick counted. */
module Partition {
  import opened Common
  import opened Lists
  import opened Clocks
  import opened Tasks

  // ---------------------------------------------------------------- counting through the list primitives

  lemma {:induction false} CountAppend(a: seq<TaskId>, b: seq<TaskId>, t: TaskId)
    ensures Count(a + b, t) == Count(a, t) + Count(b, t)
  {
    if a == [] { assert a + b == b; } else {
      CountAppend(a[1..], b, t);
      assert (a + b)[1..] == a[1..] + b;
    }
  }

  lemma {:induction false} CountMember(s: seq<TaskId>, t: TaskId)
    ensures t in s <==> Count(s, t) > 0
  {
    if s != [] { CountMember(s[1..], t); }
  }

  lemma {:induction false} CountDrop(s: seq<TaskId>, t: TaskId, u: TaskId)
    ensures Count(DropTask(s, t), u) == Count(s, u) - (if u == t && Count(s, t) > 0 then 1 else 0)
  {
    if s != [] && s[0] != t { CountDrop(s[1..], t, u); }
  }

  lemma CountInsertEnd(r: Ring<TaskId>, t: TaskId, u: TaskId)
    requires r.pos <= |r.items|
    ensures Count(r.InsertEnd(t).items, u) == Count(r.items, u) + (if u == t then 1 else 0)
  {
    CountAppend(r.items, [t], u);
    if r.pos > 0 {
      var a, b := r.items[..r.pos - 1], r.items[r.pos - 1..];
      CountAppend(a, b, u);
      CountAppend(a, [t], u);
      CountAppend(a + [t], b, u);
      assert a + b == r.items;
    }
  }

  lemma CountDropRing(r: Ring<TaskId>, t: TaskId, u: TaskId)
    requires r.pos <= |r.items|
    ensures Count(DropRing(r, t).items, u) == Count(r.items, u) - (if u == t && Count(r.items, t) > 0 then 1 else 0)
  {
    CountMember(r.items, t);
    if t in r.items {
      var k := IndexOf(r.items, t);
      var a, b := r.items[..k], r.items[k + 1..];
      CountAppend(a, b, u);
      CountAppend(a, [t], u);
      CountAppend(a + [t], b, u);
      assert a + [t] + b == r.items;
    }
  }

  lemma {:induction false} CountReadyUpdate(ready: seq<Ring<TaskId>>, p: nat, r: Ring<TaskId>, u: TaskId)
    requires p < |ready|
    ensures CountReady(ready[p := r], u) == CountReady(ready, u) - Count(ready[p].items, u) + Count(r.items, u)
  {
    if p == 0 {
      assert ready[0 := r][1..] == ready[1..];
    } else {
      CountReadyUpdate(ready[1..], p - 1, r, u);
      assert ready[p := r][1..] == ready[1..][p - 1 := r];
    }
  }

  /** A task found on no list but `p` is counted there. */
  lemma {:induction false} CountReadyAt(ready: seq<Ring<TaskId>>, p: nat, u: TaskId)
    requires p < |ready|
    requires forall q | 0 <= q < |ready| && q != p :: Count(ready[q].items, u) == 0
    ensures CountReady(ready, u) == Count(ready[p].items, u)
  {
    if p == 0 {
      CountReadyNone(ready[1..], u);
    } else {
      assert Count(ready[0].items, u) == 0;
      CountReadyAt(ready[1..], p - 1, u);
    }
  }

  lemma {:induction false} CountReadyNone(ready: seq<Ring<TaskId>>, u: TaskId)
    requires forall q | 0 <= q < |ready| :: Count(ready[q].items, u) == 0
    ensures CountReady(ready, u) == 0
  {
    if ready != [] { CountReadyNone(ready[1..], u); }
  }

  lemma {:induction false} CountReadyBounds(ready: seq<Ring<TaskId>>, p: nat, u: TaskId)
    requires p < |ready|
    ensures Count(ready[p].items, u) <= CountReady(ready, u)
  {
    if p > 0 { CountReadyBounds(ready[1..], p - 1, u); }
  }

  lemma {:induction false} CountInsertSorted(s: seq<Entry<TaskId>>, e: Entry<TaskId>, u: TaskId)
    ensures CountEntries(InsertSorted(s, e), u) == CountEntries(s, u) + (if u == e.owner then 1 else 0)
  {
    if s == [] || s[0].value > e.value {
      assert ([e] + s)[1..] == s;
    } else {
      CountInsertSorted(s[1..], e, u);
      assert InsertSorted(s, e)[1..] == InsertSorted(s[1..], e);
    }
  }

  lemma {:induction false} CountDropEntry(s: seq<Entry<TaskId>>, t: TaskId, u: TaskId)
    ensures CountEntries(DropEntry(s, t), u) == CountEntries(s, u) - (if u == t && CountEntries(s, t) > 0 then 1 else 0)
  {
    if s != [] && s[0].owner != t { CountDropEntry(s[1..], t, u); }
  }

  lemma {:induction false} CountListed(s: seq<Entry<TaskId>>, t: TaskId)
    ensures Listed(s, t) <==> CountEntries(s, t) > 0
  {
    if s != [] { CountListed(s[1..], t); }
  }

  lemma {:induction false} CountEventsUpdate(events: seq<seq<Entry<TaskId>>>, l: nat, s: seq<Entry<TaskId>>, u: TaskId)
    requires l < |events|
    ensures CountEvents(events[l := s], u) == CountEvents(events, u) - CountEntries(events[l], u) + CountEntries(s, u)
  {
    if l == 0 {
      assert events[0 := s][1..] == events[1..];
    } else {
      CountEventsUpdate(events[1..], l - 1, s, u);
      assert events[l := s][1..] == events[1..][l - 1 := s];
    }
  }

  lemma {:induction false} CountDropEvery(events: seq<seq<Entry<TaskId>>>, t: TaskId, u: TaskId)
    requires CountEvents(events, t) <= 1
    ensures CountEvents(DropEvery(events, t), u) == if u == t then 0 else CountEvents(events, u)
  {
    if events != [] {
      CountDropEntry(events[0], t, u);
      CountDropEvery(events[1..], t, u);
    }
  }

  // ---------------------------------------------------------------- the invariant

  ghost predicate ReadyByPriority(k: K) {
    forall p, t | 0 <= p < |k.ready| && t in k.tcb && k.tcb[t].priority != p :: Count(k.ready[p].items, t) == 0
  }

  ghost predicate OnOneList(k: K) {
    forall t: TaskId :: Copies(k, t) == if t in k.tcb then 1 else 0
  }

  /** Only a live task that is not ready may be on an event list, and on one. */
  function EventRoom(k: K, t: TaskId): nat {
    if t in k.tcb && CountReady(k.ready, t) == 0 && Count(k.termination, t) == 0 then 1 else 0
  }

  ghost predicate OnOneEventList(k: K) {
    forall t: TaskId :: EventCopies(k, t) <= EventRoom(k, t)
  }

  ghost predicate TopCovers(k: K) {
    forall p | k.topReady < p < |k.ready| :: k.ready[p].items == []
  }

  /** The lists are in order, whatever the clock says. */
  ghost predicate ConsistentLists(k: K) {
    && k.Shaped()
    && (forall t | t in k.tcb :: k.tcb[t].priority < MAX_PRIORITIES)
    && OnOneList(k) && OnOneEventList(k) && ReadyByPriority(k) && TopCovers(k)
    && k.number == |k.tcb| && k.current in k.tcb
  }

  /** What holds between any two kernel operations. */
  ghost predicate Consistent(k: K) {
    && ConsistentLists(k) && k.clock.Timely()
    && (k.nesting == 0 ==> k.pendedTicks == 0 && k.pendingReady == [])
  }

  lemma ConsistentClosed(k: K)
    requires ConsistentLists(k)
    ensures Closed(k)
  {
    forall e | e in k.clock.delayed ensures e.owner in k.tcb { EntryCounted(k.clock.delayed, e); assert Copies(k, e.owner) > 0; }
    forall e | e in k.clock.overflow ensures e.owner in k.tcb { EntryCounted(k.clock.overflow, e); assert Copies(k, e.owner) > 0; }
    forall t | t in k.pendingReady ensures t in k.tcb { CountMember(k.pendingReady, t); assert EventCopies(k, t) > 0; }
  }

  lemma {:induction false} EntryCounted(s: seq<Entry<TaskId>>, e: Entry<TaskId>)
    requires e in s
    ensures CountEntries(s, e.owner) > 0
  {
    if s[0] != e { EntryCounted(s[1..], e); }
  }

  // ---------------------------------------------------------------- building blocks

  lemma AddReadyCopies(k: K, t: TaskId, u: TaskId)
    requires k.Shaped() && k.Known(t)
    ensures CountReady(k.AddReady(t).ready, u) == CountReady(k.ready, u) + (if u == t then 1 else 0)
  {
    var p := k.tcb[t].priority;
    CountInsertEnd(k.ready[p], t, u);
    CountReadyUpdate(k.ready, p, k.ready[p].InsertEnd(t), u);
  }

  /** Taking a task off its state list takes it off every list. */
  lemma DropStateCopies(k: K, t: TaskId, u: TaskId)
    requires k.Shaped() && k.Known(t) && ReadyByPriority(k)
    requires Copies(k, t) <= 1 && Count(k.termination, t) == 0
    ensures Copies(k.DropState(t), u) == Copies(k, u) - (if u == t && Copies(k, t) == 1 then 1 else 0)
    ensures CountReady(k.DropState(t).ready, u) == if u == t then 0 else CountReady(k.ready, u)
  {
    var p := k.tcb[t].priority;
    CountReadyAt(k.ready, p, t);
    CountDropRing(k.ready[p], t, u);
    CountReadyUpdate(k.ready, p, DropRing(k.ready[p], t), u);
    CountDropEntry(k.clock.delayed, t, u);
    CountDropEntry(k.clock.overflow, t, u);
    CountDrop(k.suspended, t, u);
  }

  lemma DropEventCopies(k: K, t: TaskId, u: TaskId)
    requires EventCopies(k, t) <= 1
    ensures EventCopies(k.DropEvent(t), u) == if u == t then 0 else EventCopies(k, u)
  {
    CountDropEvery(k.events, t, u);
    CountDrop(k.pendingReady, t, u);
  }

  lemma AddReadyByPriority(k: K, t: TaskId)
    requires k.Shaped() && k.Known(t) && ReadyByPriority(k)
    ensures ReadyByPriority(k.AddReady(t))
  {
    var p := k.tcb[t].priority;
    forall u | u in k.tcb && k.tcb[u].priority != p ensures Count(k.AddReady(t).ready[p].items, u) == 0 {
      CountInsertEnd(k.ready[p], t, u);
      assert Count(k.ready[p].items, u) == 0;
    }
  }

  lemma DropStateByPriority(k: K, t: TaskId)
    requires k.Shaped() && k.Known(t) && ReadyByPriority(k)
    ensures ReadyByPriority(k.DropState(t))
  {
    var p := k.tcb[t].priority;
    forall u | u in k.tcb && k.tcb[u].priority != p ensures Count(k.DropState(t).ready[p].items, u) == 0 {
      CountDropRing(k.ready[p], t, u);
      assert Count(k.ready[p].items, u) == 0;
    }
  }

  lemma DropStateTop(k: K, t: TaskId)
    requires k.Shaped() && k.Known(t) && TopCovers(k)
    ensures TopCovers(k.DropState(t))
  {
  }

  /** Consistent lists from which one task has been taken off its state list, to be
      put on another before the operation ends. */
  ghost predicate Loose(k: K, t: TaskId) {
    && k.Shaped()
    && (forall u | u in k.tcb :: k.tcb[u].priority < MAX_PRIORITIES)
    && t in k.tcb
    && (forall u: TaskId :: Copies(k, u) == if u in k.tcb && u != t then 1 else 0)
    && OnOneEventList(k) && ReadyByPriority(k) && TopCovers(k)
    && k.number == |k.tcb| && k.current in k.tcb
  }

  lemma Loosen(k: K, t: TaskId)
    requires ConsistentLists(k) && t in k.tcb && Count(k.termination, t) == 0
    ensures Loose(k.DropState(t), t)
  {
    var d := k.DropState(t);
    forall u: TaskId
      ensures Copies(d, u) == if u in k.tcb && u != t then 1 else 0
      ensures EventCopies(d, u) <= EventRoom(d, u)
    {
      assert Copies(k, u) == if u in k.tcb then 1 else 0;
      assert Copies(k, t) == 1;
      DropStateCopies(k, t, u);
      assert EventCopies(d, u) == EventCopies(k, u) <= EventRoom(k, u);
    }
    DropStateByPriority(k, t);
    DropStateTop(k, t);
  }

  /** Readying the loose task, once it is on no event list. */
  lemma TightenReady(k: K, t: TaskId)
    requires Loose(k, t) && EventCopies(k, t) == 0
    ensures ConsistentLists(k.AddReady(t))
  {
    var r := k.AddReady(t);
    forall u: TaskId
      ensures Copies(r, u) == if u in r.tcb then 1 else 0
      ensures EventCopies(r, u) <= EventRoom(r, u)
    {
      AddReadyCopies(k, t, u);
      assert Copies(k, u) == if u in k.tcb && u != t then 1 else 0;
      assert EventCopies(r, u) == EventCopies(k, u) <= EventRoom(k, u);
    }
    AddReadyByPriority(k, t);
  }

  /** Suspending it. */
  lemma TightenSuspended(k: K, t: TaskId)
    requires Loose(k, t)
    ensures ConsistentLists(k.(suspended := k.suspended + [t]))
  {
    var r := k.(suspended := k.suspended + [t]);
    forall u: TaskId
      ensures Copies(r, u) == if u in r.tcb then 1 else 0
      ensures EventCopies(r, u) <= EventRoom(r, u)
    {
      CountAppend(k.suspended, [t], u);
      assert Copies(k, u) == if u in k.tcb && u != t then 1 else 0;
      assert EventCopies(r, u) == EventCopies(k, u) <= EventRoom(k, u);
    }
  }

  /** Listing it with the clock. */
  lemma TightenBlocked(k: K, t: TaskId, ticks: Tick)
    requires Loose(k, t)
    ensures ConsistentLists(k.(clock := k.clock.Block(t, ticks)))
  {
    var r := k.(clock := k.clock.Block(t, ticks));
    var e := Entry(AddTicks(k.clock.tick, ticks), t);
    forall u: TaskId
      ensures Copies(r, u) == if u in r.tcb then 1 else 0
      ensures EventCopies(r, u) <= EventRoom(r, u)
    {
      CountInsertSorted(k.clock.overflow, e, u);
      CountInsertSorted(k.clock.delayed, e, u);
      assert Copies(k, u) == if u in k.tcb && u != t then 1 else 0;
      assert EventCopies(r, u) == EventCopies(k, u) <= EventRoom(k, u);
    }
  }

  lemma DropEventLoose(k: K, t: TaskId)
    requires Loose(k, t)
    ensures Loose(k.DropEvent(t), t) && EventCopies(k.DropEvent(t), t) == 0
  {
    var r := k.DropEvent(t);
    assert EventCopies(k, t) <= EventRoom(k, t) <= 1;
    forall u: TaskId
      ensures Copies(r, u) == Copies(k, u)
      ensures EventCopies(r, u) <= EventRoom(r, u)
      ensures u == t ==> EventCopies(r, u) == 0
    {
      DropEventCopies(k, t, u);
      assert EventCopies(k, u) <= EventRoom(k, u);
    }
  }

  lemma MakeReadyLists(k: K, t: TaskId)
    requires ConsistentLists(k) && t in k.tcb && EventCopies(k, t) == 0 && Count(k.termination, t) == 0
    ensures ConsistentLists(k.MakeReady(t))
  {
    Loosen(k, t);
    TightenReady(k.DropState(t), t);
  }

  lemma MakeReadyConsistent(k: K, t: TaskId)
    requires Consistent(k) && t in k.tcb && EventCopies(k, t) == 0 && Count(k.termination, t) == 0
    ensures Consistent(k.MakeReady(t))
  {
    MakeReadyLists(k, t);
    DropTimely(k.clock, t);
  }

  // ---------------------------------------------------------------- one lemma for each operation

  lemma DelayConsistent(k: K, ticks: Tick, indefinitely: bool)
    requires Consistent(k) && ticks > 0 && CountReady(k.ready, k.current) > 0
    ensures Consistent(k.DelayCurrent(ticks, indefinitely))
  {
    var t := k.current;
    assert Copies(k, t) == 1;
    Loosen(k, t);
    var d := k.DropState(t);
    DropTimely(k.clock, t);
    if ticks == MAX_DELAY && indefinitely {
      TightenSuspended(d, t);
    } else {
      TightenBlocked(d, t, ticks);
      BlockTimely(d.clock, t, ticks);
    }
  }

  /** Listing the loose task on an event list. */
  lemma PlaceLoose(k: K, l: nat, e: Entry<TaskId>)
    requires Loose(k, e.owner) && l < |k.events| && CountReady(k.ready, e.owner) == 0
    requires EventCopies(k, e.owner) == 0
    ensures Loose(k.(events := k.events[l := InsertSorted(k.events[l], e)]), e.owner)
  {
    var r := k.(events := k.events[l := InsertSorted(k.events[l], e)]);
    assert Copies(k, e.owner) == 0;
    forall u: TaskId
      ensures Copies(r, u) == Copies(k, u)
      ensures EventCopies(r, u) <= EventRoom(r, u)
    {
      CountInsertSorted(k.events[l], e, u);
      CountEventsUpdate(k.events, l, InsertSorted(k.events[l], e), u);
      assert EventCopies(k, u) <= EventRoom(k, u);
    }
  }

  lemma PlaceConsistent(k: K, l: nat, ticks: Tick)
    requires Consistent(k) && ticks > 0 && CountReady(k.ready, k.current) > 0 && l < |k.events|
    ensures Consistent(k.PlaceOnEventList(l, ticks))
  {
    var t := k.current;
    var e := Entry(MAX_PRIORITIES - k.tcb[t].priority, t);
    var d := k.DropState(t);
    PlacedLoose(k, l, e, d);
    PlaceTightens(d.(events := d.events[l := InsertSorted(d.events[l], e)]), t, ticks, k.PlaceOnEventList(l, ticks));
  }

  /** The running task is off its ready list and on an event list. */
  lemma PlacedLoose(k: K, l: nat, e: Entry<TaskId>, d: K)
    requires Consistent(k) && e.owner == k.current && CountReady(k.ready, k.current) > 0 && l < |k.events|
    requires k.Known(k.current) && d == k.DropState(k.current)
    ensures d.clock.Timely() && d.nesting == k.nesting && d.pendedTicks == k.pendedTicks && d.pendingReady == k.pendingReady
    ensures l < |d.events| && Loose(d.(events := d.events[l := InsertSorted(d.events[l], e)]), k.current)
  {
    var t := k.current;
    assert Copies(k, t) == 1;
    assert EventCopies(k, t) <= EventRoom(k, t);
    Loosen(k, t);
    DropStateCopies(k, t, t);
    DropTimely(k.clock, t);
    PlaceLoose(d, l, e);
  }

  /** The loose task waits with or without a timeout. */
  lemma PlaceTightens(k: K, t: TaskId, ticks: Tick, r: K)
    requires Loose(k, t) && k.clock.Timely() && ticks > 0 && (k.nesting == 0 ==> k.pendedTicks == 0 && k.pendingReady == [])
    requires r == if ticks == MAX_DELAY then k.(suspended := k.suspended + [t]) else k.(clock := k.clock.Block(t, ticks))
    ensures Consistent(r)
  {
    TightenSuspended(k, t);
    TightenBlocked(k, t, ticks);
    BlockTimely(k.clock, t, ticks);
  }

  lemma EventConsistent(k: K, l: nat)
    requires Consistent(k) && l < |k.events| && k.events[l] != []
    ensures k.Known(k.events[l][0].owner) && Consistent(k.RemoveFromEventList(l))
  {
    var t := k.events[l][0].owner;
    CountEventsUpdate(k.events, l, k.events[l][1..], t);
    assert 1 <= EventCopies(k, t) <= EventRoom(k, t);
    var k1 := k.(events := k.events[l := k.events[l][1..]]);
    var k2 := k.RemoveFromEventList(l);
    forall u: TaskId
      ensures Copies(k1, u) == Copies(k, u)
      ensures EventCopies(k1, u) == EventCopies(k, u) - (if u == t then 1 else 0)
      ensures EventCopies(k1, u) <= EventRoom(k1, u)
    {
      CountEventsUpdate(k.events, l, k.events[l][1..], u);
      assert EventCopies(k, u) <= EventRoom(k, u);
    }
    if k.nesting == 0 {
      MakeReadyConsistent(k1, t);
    } else {
      forall u: TaskId
        ensures Copies(k2, u) == Copies(k1, u)
        ensures EventCopies(k2, u) <= EventRoom(k2, u)
      {
        CountAppend(k.pendingReady, [t], u);
        assert EventCopies(k, u) <= EventRoom(k, u);
      }
    }
  }

  lemma SuspendConsistent(k: K, t: TaskId)
    requires Consistent(k) && t in k.tcb && Count(k.termination, t) == 0
    ensures Consistent(k.SuspendTask(t))
  {
    Loosen(k, t);
    DropEventLoose(k.DropState(t), t);
    TightenSuspended(k.DropState(t).DropEvent(t), t);
    DropTimely(k.clock, t);
    ResetNextTimely(k.DropState(t).clock);
    ResetNextLists(k.DropState(t).DropEvent(t).(suspended := k.DropState(t).suspended + [t]));
  }

  lemma ResetNextLists(k: K)
    requires ConsistentLists(k)
    ensures ConsistentLists(k.ResetNext())
  {
    forall u: TaskId
      ensures Copies(k.ResetNext(), u) == Copies(k, u)
      ensures EventCopies(k.ResetNext(), u) <= EventRoom(k.ResetNext(), u)
    {
      assert EventCopies(k, u) <= EventRoom(k, u);
    }
  }

  /** A suspended task is on the suspended list and so on no other. */
  lemma SuspendedNotTerminated(k: K, t: TaskId)
    requires Consistent(k) && t in k.tcb && k.IsSuspended(t)
    ensures EventCopies(k, t) == 0 && Count(k.termination, t) == 0 && CountReady(k.ready, t) == 0
  {
    CountMember(k.suspended, t);
    assert Copies(k, t) == 1;
  }

  lemma ResumeConsistent(k: K, t: TaskId)
    requires Consistent(k) && t in k.tcb
    ensures Consistent(k.ResumeTask(t)) && Consistent(k.ResumeFromIsr(t))
  {
    if k.IsSuspended(t) {
      SuspendedNotTerminated(k, t);
      MakeReadyConsistent(k, t);
      var r := k.(pendingReady := k.pendingReady + [t]);
      forall u: TaskId
        ensures Copies(r, u) == Copies(k, u)
        ensures EventCopies(r, u) <= EventRoom(r, u)
      {
        CountAppend(k.pendingReady, [t], u);
        assert EventCopies(k, u) <= EventRoom(k, u);
      }
    }
  }

  lemma CreateConsistent(k: K, t: TaskId, priority: nat)
    requires Consistent(k) && t !in k.tcb && priority < MAX_PRIORITIES
    ensures Consistent(k.Create(t, priority))
  {
    var k1 := k.(number := k.number + 1, tcb := k.tcb[t := Tcb(priority, priority, 0)]);
    NewLoose(k, t, k1);
    TightenReady(k1, t);
  }

  /** A new task is counted and on no list. */
  lemma NewLoose(k: K, t: TaskId, r: K)
    requires ConsistentLists(k) && t !in k.tcb && t in r.tcb && r.tcb[t].priority < MAX_PRIORITIES
    requires r == k.(number := k.number + 1, tcb := k.tcb[t := r.tcb[t]])
    ensures Loose(r, t) && EventCopies(r, t) == 0
  {
    assert r.tcb.Keys == k.tcb.Keys + {t};
    assert Copies(k, t) == 0;
    assert EventCopies(k, t) == 0;
    forall u: TaskId
      ensures Copies(r, u) == if u in r.tcb && u != t then 1 else 0
      ensures EventCopies(r, u) <= EventRoom(r, u)
    {
      NewListed(k, t, r, u);
    }
    NewByPriority(k, t, r);
  }

  lemma NewListed(k: K, t: TaskId, r: K, u: TaskId)
    requires OnOneList(k) && OnOneEventList(k) && t !in k.tcb && t in r.tcb
    requires r == k.(number := k.number + 1, tcb := k.tcb[t := r.tcb[t]])
    ensures Copies(r, u) == if u in r.tcb && u != t then 1 else 0
    ensures EventCopies(r, u) <= EventRoom(r, u)
  {
    assert Copies(k, u) == if u in k.tcb then 1 else 0;
    assert EventCopies(r, u) == EventCopies(k, u) <= EventRoom(k, u);
  }

  lemma NewByPriority(k: K, t: TaskId, r: K)
    requires ReadyByPriority(k) && t !in k.tcb && CountReady(k.ready, t) == 0 && r.ready == k.ready
    requires t in r.tcb && r.tcb == k.tcb[t := r.tcb[t]]
    ensures ReadyByPriority(r)
  {
    forall p, u | 0 <= p < |r.ready| && u in r.tcb && r.tcb[u].priority != p ensures Count(r.ready[p].items, u) == 0 {
      CountReadyBounds(k.ready, p, u);
    }
  }

  /** Leaving the loose task to the idle task. */
  lemma TightenTerminated(k: K, t: TaskId)
    requires Loose(k, t) && EventCopies(k, t) == 0
    ensures ConsistentLists(k.(termination := k.termination + [t]))
  {
    var r := k.(termination := k.termination + [t]);
    forall u: TaskId
      ensures Copies(r, u) == if u in r.tcb then 1 else 0
      ensures EventCopies(r, u) <= EventRoom(r, u)
    {
      CountAppend(k.termination, [t], u);
      assert Copies(k, u) == if u in k.tcb && u != t then 1 else 0;
      assert EventCopies(r, u) == EventCopies(k, u) <= EventRoom(k, u);
    }
  }

  lemma OneFewer(tcb: map<TaskId, Tcb>, t: TaskId)
    requires t in tcb
    ensures |tcb - {t}| == |tcb| - 1
  {
    assert tcb.Keys == (tcb - {t}).Keys + {t};
  }

  /** Freeing it at once. */
  lemma TightenForgotten(k: K, t: TaskId)
    requires Loose(k, t) && EventCopies(k, t) == 0 && t != k.current
    ensures k.number > 0 && ConsistentLists(k.(number := k.number - 1, tcb := k.tcb - {t}))
  {
    OneFewer(k.tcb, t);
    var r := k.(number := k.number - 1, tcb := k.tcb - {t});
    forall u: TaskId
      ensures Copies(r, u) == if u in r.tcb then 1 else 0
      ensures EventCopies(r, u) <= EventRoom(r, u)
    {
      assert Copies(k, u) == if u in k.tcb && u != t then 1 else 0;
      assert EventCopies(r, u) == EventCopies(k, u) <= EventRoom(k, u);
    }
  }

  /** Taking a task off its state list and its event list. */
  lemma TakeOff(k: K, t: TaskId)
    requires Consistent(k) && t in k.tcb && Count(k.termination, t) == 0
    ensures var d := k.DropState(t).DropEvent(t);
            && Loose(d, t) && EventCopies(d, t) == 0 && d.clock.Timely()
            && (d.nesting == 0 ==> d.pendedTicks == 0 && d.pendingReady == [])
  {
    Loosen(k, t);
    DropEventLoose(k.DropState(t), t);
    DropTimely(k.clock, t);
  }

  lemma DeleteConsistent(k: K, t: TaskId)
    requires Consistent(k) && t in k.tcb && Count(k.termination, t) == 0
    ensures k.number > 0 && Consistent(k.Delete(t))
  {
    TakeOff(k, t);
    var d := k.DropState(t).DropEvent(t);
    if t == k.current {
      TightenTerminated(d, t);
    } else {
      TightenForgotten(d, t);
      ResetNextLists(d.(number := d.number - 1, tcb := d.tcb - {t}));
      ResetNextTimely(d.clock);
    }
  }

  lemma CleanUpConsistent(k: K)
    requires Consistent(k) && k.termination != [] && k.termination[0] != k.current
    ensures k.number > 0 && Consistent(k.CleanUpOne())
  {
    var t := k.termination[0];
    assert Copies(k, t) >= 1;
    var r := k.CleanUpOne();
    OneFewer(k.tcb, t);
    assert EventCopies(k, t) <= EventRoom(k, t) == 0;
    forall u: TaskId
      ensures Copies(r, u) == if u in r.tcb then 1 else 0
      ensures EventCopies(r, u) <= EventRoom(r, u)
    {
      assert Copies(k, u) == if u in k.tcb then 1 else 0;
      assert EventCopies(r, u) == EventCopies(k, u) <= EventRoom(k, u);
    }
  }

  lemma SwitchConsistent(k: K)
    requires Consistent(k)
    ensures Consistent(k.SwitchContext())
  {
    if k.nesting == 0 && AnyReady(k.ready, k.topReady) {
      var p := Highest(k.ready, k.topReady);
      var (r, t) := k.ready[p].Select();
      var k1 := k.SwitchContext();
      CountMember(r.items, t);
      CountReadyBounds(k.ready, p, t);
      assert Copies(k, t) >= 1;
      forall u: TaskId
        ensures Copies(k1, u) == Copies(k, u)
        ensures EventCopies(k1, u) <= EventRoom(k1, u)
      {
        CountReadyUpdate(k.ready, p, r, u);
        assert EventCopies(k, u) <= EventRoom(k, u);
      }
    }
  }

  // ---- ticks and the end of a suspension

  /** The wake loop keeps the lists in order and does to the clock what the clock's
      own loop does. */
  lemma {:induction false} WakeDueConsistent(k: K)
    requires ConsistentLists(k) && Closed(k)
    ensures ConsistentLists(WakeDue(k)) && WakeDue(k).clock == k.clock.Wake()
    ensures Unmoved(k, WakeDue(k))
    decreases |k.clock.delayed|
  {
    if k.clock.HeadDue() {
      WakeHeadConsistent(k);
      WakeDueConsistent(WakeHead(k));
    } else {
      ResetNextLists(k);
    }
  }

  /** What the wake loop leaves alone. */
  ghost predicate Unmoved(k: K, r: K) {
    && r.pendedTicks == k.pendedTicks && r.nesting == k.nesting && r.current == k.current
    && r.number == k.number && r.tcb == k.tcb && r.suspended == k.suspended && r.termination == k.termination
    && (k.pendingReady == [] ==> r.pendingReady == [])
  }

  lemma WakeHeadConsistent(k: K)
    requires ConsistentLists(k) && Closed(k) && k.clock.delayed != []
    ensures ConsistentLists(WakeHead(k)) && Unmoved(k, WakeHead(k))
  {
    var t := k.clock.delayed[0].owner;
    var d := k.(clock := k.clock.(delayed := k.clock.delayed[1..]));
    assert k.clock.delayed[0] in k.clock.delayed;
    assert Copies(k, t) == 1;
    forall u: TaskId
      ensures Copies(d, u) == if u in d.tcb && u != t then 1 else 0
      ensures EventCopies(d, u) <= EventRoom(d, u)
    {
      assert Copies(k, u) == if u in k.tcb then 1 else 0;
      assert EventCopies(d, u) == EventCopies(k, u) <= EventRoom(k, u);
    }
    DropEventLoose(d, t);
    TightenReady(d.DropEvent(t), t);
  }

  lemma AdvanceLists(k: K)
    requires ConsistentLists(k)
    ensures ConsistentLists(k.(clock := k.clock.Advance()))
  {
    var r := k.(clock := k.clock.Advance());
    forall u: TaskId
      ensures Copies(r, u) == Copies(k, u)
      ensures EventCopies(r, u) <= EventRoom(r, u)
    {
      assert EventCopies(k, u) <= EventRoom(k, u);
    }
  }

  /** A tick that is counted is a tick of the clock. */
  lemma TickConsistent(k: K)
    requires ConsistentLists(k) && k.clock.Timely() && k.nesting == 0
    ensures Closed(k)
    ensures var r := IncrementTick(k);
            ConsistentLists(r) && r.clock == k.clock.Tick() && r.clock.Timely() && Unmoved(k, r)
  {
    ConsistentClosed(k);
    AdvanceLists(k);
    var k1 := k.(clock := k.clock.Advance());
    ConsistentClosed(k1);
    if k1.clock.tick >= k1.clock.nextUnblock { WakeDueConsistent(k1); }
    TickRefines(k.clock);
  }

  lemma {:induction false} WakeDueClock(k: K)
    requires Closed(k)
    ensures WakeDue(k).clock == k.clock.Wake() && Unmoved(k, WakeDue(k))
    decreases |k.clock.delayed|
  {
    if k.clock.HeadDue() { WakeDueClock(WakeHead(k)); }
  }

  lemma TickClock(k: K)
    requires Closed(k) && k.nesting == 0
    ensures IncrementTick(k).clock == k.clock.Tick() && Unmoved(k, IncrementTick(k))
  {
    var k1 := k.(clock := k.clock.Advance());
    if k1.clock.tick >= k1.clock.nextUnblock { WakeDueClock(k1); }
  }

  lemma {:induction false} TicksClock(k: K, n: nat)
    requires Closed(k) && k.nesting == 0
    ensures TickTimes(k, n).clock == k.clock.Ticks(n) && Unmoved(k, TickTimes(k, n))
    decreases n
  {
    if n > 0 {
      TickClock(k);
      TicksClock(IncrementTick(k), n - 1);
    }
  }

  /** What a tick is counted in. */
  ghost predicate Sound(k: K) { ConsistentLists(k) && k.clock.Timely() && k.nesting == 0 }

  /** Each state is one tick behind the one before it. */
  ghost predicate TickByTick(s: seq<K>) {
    s != [] && forall i | 0 <= i < |s| - 1 :: Closed(s[i]) && s[i + 1] == IncrementTick(s[i])
  }

  ghost predicate AllSound(s: seq<K>) { forall i | 0 <= i < |s| :: Sound(s[i]) }

  lemma {:induction false} TickStates(k: K, n: nat) returns (s: seq<K>)
    requires Closed(k)
    ensures TickByTick(s) && |s| == n + 1 && s[0] == k && s[n] == TickTimes(k, n)
    decreases n
  {
    if n == 0 {
      s := [k];
    } else {
      var rest := TickStates(IncrementTick(k), n - 1);
      s := [k] + rest;
    }
  }

  lemma SoundTick(k: K, t: K)
    requires Sound(k) && Closed(k) && t == IncrementTick(k)
    ensures Sound(t)
  {
    TickConsistent(k);
  }

  lemma TicksSound(s: seq<K>)
    requires TickByTick(s) && Sound(s[0])
    ensures AllSound(s)
  {
    var n := 0;
    while n + 1 < |s|
      invariant n < |s| && forall i | 0 <= i <= n :: Sound(s[i])
    {
      SoundTick(s[n], s[n + 1]);
      n := n + 1;
    }
  }

  lemma TicksConsistent(k: K, n: nat)
    requires ConsistentLists(k) && k.clock.Timely() && k.nesting == 0
    ensures Closed(k)
    ensures var r := TickTimes(k, n);
            ConsistentLists(r) && r.clock == k.clock.Ticks(n) && Unmoved(k, r)
  {
    ConsistentClosed(k);
    var s := TickStates(k, n);
    TicksSound(s);
    assert Sound(s[n]);
    TicksClock(k, n);
  }

  function DropAll(c: Clock, ts: seq<TaskId>): Clock
    decreases |ts|
  {
    if ts == [] then c else DropAll(c.Drop(ts[0]), ts[1..])
  }

  /** Moving the held tasks readies each of them and empties the pending list. */
  lemma {:induction false} MovePendingConsistent(k: K)
    requires ConsistentLists(k) && k.clock.Timely() && Closed(k)
    ensures var r := MovePending(k);
            && ConsistentLists(r) && r.clock == DropAll(k.clock, k.pendingReady) && r.clock.Timely()
            && r.pendingReady == [] && r.nesting == k.nesting && r.pendedTicks == k.pendedTicks
            && r.number == k.number && r.tcb == k.tcb
            && (forall t | t in k.pendingReady || CountReady(k.ready, t) > 0 :: CountReady(r.ready, t) > 0)
    decreases |k.pendingReady|
  {
    if k.pendingReady != [] {
      var t := k.pendingReady[0];
      var k1 := k.(pendingReady := k.pendingReady[1..]);
      forall u: TaskId
        ensures Copies(k1, u) == Copies(k, u)
        ensures EventCopies(k1, u) == EventCopies(k, u) - (if u == t then 1 else 0)
        ensures EventCopies(k1, u) <= EventRoom(k1, u)
      {
        assert EventCopies(k, u) <= EventRoom(k, u);
      }
      assert EventCopies(k, t) >= 1;
      MakeReadyLists(k1, t);
      DropTimely(k.clock, t);
      var k2 := k1.MakeReady(t);
      forall u: TaskId ensures CountReady(k2.ready, u) == if u == t then 1 else CountReady(k.ready, u) {
        assert Copies(k, t) == 1;
        DropStateCopies(k1, t, u);
        AddReadyCopies(k1.DropState(t), t, u);
      }
      ConsistentClosed(k2);
      MovePendingConsistent(k2);
    }
  }

  /** The time that has really passed: ticks counted and ticks pended. */
  function RealTime(k: K): nat { k.clock.Now() + k.pendedTicks }

  /** The end of the last suspension: held tasks first, then the pended ticks. */
  lemma SettleConsistent(k: K)
    requires ConsistentLists(k) && k.clock.Timely() && k.nesting == 0
    ensures Closed(k)
    ensures var s := Settle(k);
            && ConsistentLists(s) && s.clock.Timely() && s.nesting == 0 && s.pendingReady == []
            && s.pendedTicks == k.pendedTicks && s.clock.Now() == k.clock.Now()
            && s.clock.Due() == DropAll(k.clock, k.pendingReady).Due()
  {
    ConsistentClosed(k);
    MovePendingConsistent(k);
    ResetNextLists(MovePending(k));
    ResetNextTimely(MovePending(k).clock);
    DropAllNow(k.clock, k.pendingReady);
  }

  /** Replaying the pended ticks. */
  lemma ReplayConsistent(k: K)
    requires ConsistentLists(k) && k.clock.Timely() && k.nesting == 0 && k.pendingReady == []
    ensures Closed(k)
    ensures var r := Replay(k);
            && ConsistentLists(r) && r.nesting == 0 && r.pendingReady == [] && r.pendedTicks == 0
            && r.clock == k.clock.Ticks(k.pendedTicks)
  {
    TicksConsistent(k, k.pendedTicks);
    SameLists(TickTimes(k, k.pendedTicks), Replay(k));
  }

  /** The same in true time; `due` is the list of alarms before. */
  lemma ReplayTimely(k: K, due: seq<Alarm>)
    requires ConsistentLists(k) && k.clock.Timely() && k.nesting == 0 && k.pendingReady == [] && due == k.clock.Due()
    ensures Closed(k) && Consistent(Replay(k)) && Replay(k).clock.Now() == RealTime(k)
    ensures Replay(k).nesting == 0 && Replay(k).pendingReady == [] && Replay(k).pendedTicks == 0
    ensures Replay(k).clock.Due() == After(due, RealTime(k))
  {
    ReplayConsistent(k);
    TicksRefine(k.clock, k.pendedTicks);
  }

  lemma ResumeLastIs(k: K)
    requires ConsistentLists(k) && k.nesting == 1
    ensures Closed(k) && ConsistentLists(k.(nesting := 0)) && Closed(k.(nesting := 0))
    ensures ResumeAll(k) == Replay(Settle(k.(nesting := 0)))
  {
    var k0 := k.(nesting := 0);
    SameLists(k, k0);
    ConsistentClosed(k);
    ConsistentClosed(k0);
    assert k.current in k.tcb.Keys;
  }

  lemma ResumeLastConsistent(k: K)
    requires Consistent(k) && k.nesting == 1
    ensures Closed(k) && Consistent(ResumeAll(k))
  {
    ResumeLastIs(k);
    SettleConsistent(k.(nesting := 0));
    ReplayTimely(Settle(k.(nesting := 0)), Settle(k.(nesting := 0)).clock.Due());
  }

  /** Resuming to nesting zero leaves nothing pending: every held task is ready, and
      the clock has gone through every pended tick. */
  lemma ResumeLast(k: K)
    requires Consistent(k) && k.nesting == 1
    ensures Closed(k)
    ensures var r := ResumeAll(k);
            && r.nesting == 0 && r.pendingReady == [] && r.pendedTicks == 0 && r.clock.Now() == RealTime(k)
            && r.clock.Due() == After(DropAll(k.clock, k.pendingReady).Due(), RealTime(k))
  {
    ResumeLastIs(k);
    SettleConsistent(k.(nesting := 0));
    ReplayTimely(Settle(k.(nesting := 0)), DropAll(k.clock, k.pendingReady).Due());
  }

  lemma ResumeAllConsistent(k: K)
    requires Consistent(k) && k.nesting > 0
    ensures Closed(k)
    ensures Consistent(ResumeAll(k)) && RealTime(ResumeAll(k)) == RealTime(k)
  {
    ConsistentClosed(k);
    if k.nesting == 1 { ResumeLastConsistent(k); ResumeLast(k); } else { SameLists(k, ResumeAll(k)); }
  }

  lemma SameLists(k: K, r: K)
    requires ConsistentLists(k) && r == k.(nesting := r.nesting, pendedTicks := r.pendedTicks)
    ensures ConsistentLists(r)
  {
    forall u: TaskId
      ensures Copies(r, u) == Copies(k, u)
      ensures EventCopies(r, u) <= EventRoom(r, u)
    {
      assert EventCopies(k, u) <= EventRoom(k, u);
    }
  }

  lemma {:induction false} DropAllNow(c: Clock, ts: seq<TaskId>)
    ensures DropAll(c, ts).Now() == c.Now()
    decreases |ts|
  {
    if ts != [] { DropAllNow(c.Drop(ts[0]), ts[1..]); }
  }

  // ---------------------------------------------------------------- whole runs

  datatype Step =
    | TickInterrupt
    | Delay(ticks: Tick)
    | Wait(l: nat, ticks: Tick)
    | Event(l: nat)
    | Suspend(t: TaskId)
    | Resume(t: TaskId)
    | ResumeIsr(t: TaskId)
    | Spawn(t: TaskId, priority: nat)
    | Kill(t: TaskId)
    | CleanUp
    | SuspendScheduler
    | ResumeScheduler
    | Switch

  /** When an operation can be called: blocking is for the running task, which is on
      a ready list, and handles are those of live tasks. */
  predicate Enabled(k: K, step: Step) {
    match step
    case Delay(ticks) => ticks > 0 && CountReady(k.ready, k.current) > 0
    case Wait(l, ticks) => ticks > 0 && CountReady(k.ready, k.current) > 0 && l < |k.events|
    case Event(l) => l < |k.events| && k.events[l] != []
    case Suspend(t) => t in k.tcb && Count(k.termination, t) == 0
    case Resume(t) => t in k.tcb
    case ResumeIsr(t) => t in k.tcb
    case Spawn(t, priority) => t !in k.tcb && priority < MAX_PRIORITIES
    case Kill(t) => t in k.tcb && Count(k.termination, t) == 0
    case CleanUp => k.termination != [] && k.termination[0] != k.current
    case ResumeScheduler => k.nesting > 0
    case _ => true
  }

  lemma FirstWaiterKnown(k: K, l: nat)
    requires Consistent(k) && l < |k.events| && k.events[l] != []
    ensures k.Known(k.events[l][0].owner)
  {
    var t := k.events[l][0].owner;
    CountEventsUpdate(k.events, l, k.events[l][1..], t);
    assert 1 <= EventCopies(k, t) <= EventRoom(k, t);
  }

  lemma SomeTask(k: K)
    requires Consistent(k)
    ensures k.number > 0
  {
    assert k.current in k.tcb.Keys;
  }

  ghost function Next(k: K, step: Step): K
    requires Consistent(k) && Enabled(k, step)
  {
    ConsistentClosed(k);
    match step
    case TickInterrupt => IncrementTick(k)
    case Delay(ticks) => k.DelayCurrent(ticks, false)
    case Wait(l, ticks) => k.PlaceOnEventList(l, ticks)
    case Event(l) => FirstWaiterKnown(k, l); k.RemoveFromEventList(l)
    case Suspend(t) => k.SuspendTask(t)
    case Resume(t) => k.ResumeTask(t)
    case ResumeIsr(t) => k.ResumeFromIsr(t)
    case Spawn(t, priority) => k.Create(t, priority)
    case Kill(t) => SomeTask(k); k.Delete(t)
    case CleanUp => SomeTask(k); k.CleanUpOne()
    case SuspendScheduler => k.SuspendAll()
    case ResumeScheduler => ResumeAll(k)
    case Switch => k.SwitchContext()
  }

  lemma StepConsistent(k: K, step: Step)
    requires Consistent(k) && Enabled(k, step)
    ensures Consistent(Next(k, step))
  {
    match step
    case TickInterrupt =>
      if k.nesting == 0 { TickConsistent(k); } else { ConsistentClosed(k); SameLists(k, IncrementTick(k)); }
    case Delay(ticks) => DelayConsistent(k, ticks, false);
    case Wait(l, ticks) => PlaceConsistent(k, l, ticks);
    case Event(l) => EventConsistent(k, l);
    case Suspend(t) => SuspendConsistent(k, t);
    case Resume(t) => ResumeConsistent(k, t);
    case ResumeIsr(t) => ResumeConsistent(k, t);
    case Spawn(t, priority) => CreateConsistent(k, t, priority);
    case Kill(t) => DeleteConsistent(k, t);
    case CleanUp => CleanUpConsistent(k);
    case SuspendScheduler => SameLists(k, k.SuspendAll());
    case ResumeScheduler => ResumeAllConsistent(k);
    case Switch => SwitchConsistent(k);
  }

  /** Every tick interrupt advances real time by one, and nothing else does. */
  lemma StepTime(k: K, step: Step)
    requires Consistent(k) && Enabled(k, step)
    ensures RealTime(Next(k, step)) == RealTime(k) + (if step.TickInterrupt? then 1 else 0)
  {
    match step
    case TickInterrupt => TickTime(k, Next(k, step));
    case ResumeScheduler => ResumeAllConsistent(k);
    case _ => SameTime(k, step, Next(k, step));
  }

  lemma TickTime(k: K, r: K)
    requires Consistent(k) && r == Next(k, TickInterrupt)
    ensures RealTime(r) == RealTime(k) + 1
  {
    if k.nesting == 0 {
      TickConsistent(k);
      TickRefines(k.clock);
    }
  }

  /** The counts are as they were. */
  predicate SameCounts(k: K, r: K) {
    && r.clock.tick == k.clock.tick && r.clock.overflows == k.clock.overflows && r.pendedTicks == k.pendedTicks
    && r.nesting == k.nesting && r.current == k.current
  }

  lemma BlockCounts(k: K, ticks: Tick, l: nat)
    requires k.Shaped() && k.Known(k.current)
    ensures SameCounts(k, k.DelayCurrent(ticks, false))
    ensures l < |k.events| ==> SameCounts(k, k.PlaceOnEventList(l, ticks))
  {
  }

  lemma TaskCounts(k: K, t: TaskId)
    requires k.Shaped() && k.Known(t)
    ensures SameCounts(k, k.SuspendTask(t)) && SameCounts(k, k.ResumeTask(t)) && SameCounts(k, k.ResumeFromIsr(t))
    ensures k.number > 0 ==> SameCounts(k, k.Delete(t))
  {
  }

  lemma EventCounts(k: K, l: nat)
    requires k.Shaped() && l < |k.events| && k.events[l] != [] && k.Known(k.events[l][0].owner)
    ensures SameCounts(k, k.RemoveFromEventList(l))
  {
  }

  /** Operations on one task leave the counts alone. */
  lemma OneTaskCounts(k: K, step: Step, r: K)
    requires Consistent(k) && Enabled(k, step) && r == Next(k, step)
    requires step.Delay? || step.Wait? || step.Event? || step.Suspend? || step.Resume? || step.ResumeIsr? || step.Kill?
    ensures SameCounts(k, r)
  {
    match step
    case Delay(ticks) => BlockCounts(k, ticks, 0);
    case Wait(l, ticks) => BlockCounts(k, ticks, l);
    case Event(l) =>
      FirstWaiterKnown(k, l);
      EventCounts(k, l);
    case Kill(t) =>
      SomeTask(k);
      TaskCounts(k, t);
    case Suspend(t) => TaskCounts(k, t);
    case Resume(t) => TaskCounts(k, t);
    case ResumeIsr(t) => TaskCounts(k, t);
  }

  lemma SameTime(k: K, step: Step, r: K)
    requires Consistent(k) && Enabled(k, step) && !step.TickInterrupt? && !step.ResumeScheduler? && r == Next(k, step)
    ensures RealTime(r) == RealTime(k)
  {
    if !(step.Spawn? || step.CleanUp? || step.SuspendScheduler? || step.Switch?) { OneTaskCounts(k, step, r); }
  }

  /** A system begins consistent when its first task is created. */
  lemma FirstTaskConsistent(first: TaskId, priority: nat, events: nat)
    requires priority < MAX_PRIORITIES
    ensures var k := K(Clock(0, 0, MAX_DELAY, [], []), 0, 0, first, 0, 0, map[],
                       seq(MAX_PRIORITIES, _ => Ring([], 0)), [], [], [], seq(events, _ => []));
            k.Shaped() && Consistent(k.Create(first, priority))
  {
    var k := K(Clock(0, 0, MAX_DELAY, [], []), 0, 0, first, 0, 0, map[],
               seq(MAX_PRIORITIES, _ => Ring([], 0)), [], [], [], seq(events, _ => []));
    var k1 := k.(number := 1, tcb := map[first := Tcb(priority, priority, 0)]);
    forall t: TaskId ensures Copies(k1, t) == 0 && EventCopies(k1, t) == 0 {
      CountReadyNone(k1.ready, t);
      NoEvents(k1.events, t);
    }
    TightenReady(k1, first);
  }

  lemma {:induction false} NoEvents(events: seq<seq<Entry<TaskId>>>, t: TaskId)
    requires forall l | 0 <= l < |events| :: events[l] == []
    ensures CountEvents(events, t) == 0
  {
    if events != [] { NoEvents(events[1..], t); }
  }

  ghost function Runs(k: K, steps: seq<Step>): (r: (bool, K))
    requires Consistent(k)
    decreases |steps|
  {
    if steps == [] then (true, k)
    else if !Enabled(k, steps[0]) then (false, k)
    else (StepConsistent(k, steps[0]); Runs(Next(k, steps[0]), steps[1..]))
  }

  function TickCount(steps: seq<Step>): nat {
    if steps == [] then 0 else (if steps[0].TickInterrupt? then 1 else 0) + TickCount(steps[1..])
  }

  /** Over every run: the lists stay in order, and no tick is ever lost. */
  lemma {:induction false} RunsConsistent(k: K, steps: seq<Step>)
    requires Consistent(k) && Runs(k, steps).0
    ensures Consistent(Runs(k, steps).1)
    ensures RealTime(Runs(k, steps).1) == RealTime(k) + TickCount(steps)
    ensures Runs(k, steps).1.nesting == 0 ==> Runs(k, steps).1.clock.Now() == RealTime(k) + TickCount(steps)
    decreases |steps|
  {
    if steps != [] {
      StepConsistent(k, steps[0]);
      StepTime(k, steps[0]);
      RunsConsistent(Next(k, steps[0]), steps[1..]);
    }
  }

  /** What a consistent state says about one task, in plain words: a live task is on
      exactly one state list, an unknown one on none; an event list holds only tasks
      that are not ready; a ready task is on the list of its own priority. */
  lemma WhereTasksAre(k: K, t: TaskId)
    requires Consistent(k)
    ensures Copies(k, t) == if t in k.tcb then 1 else 0
    ensures EventCopies(k, t) <= 1 && (EventCopies(k, t) == 1 ==> t in k.tcb && CountReady(k.ready, t) == 0)
    ensures forall p | 0 <= p < |k.ready| && t in k.ready[p].items :: t in k.tcb && k.tcb[t].priority == p
    ensures k.number == |k.tcb|
  {
    assert EventCopies(k, t) <= EventRoom(k, t);
    forall p | 0 <= p < |k.ready| && t in k.ready[p].items ensures t in k.tcb && k.tcb[t].priority == p {
      CountMember(k.ready[p].items, t);
      CountReadyBounds(k.ready, p, t);
      assert Copies(k, t) > 0;
    }
  }

  /** While the idle task is ready the selection loop ends on a task, and on one of
      the highest priority of all ready tasks. */
  lemma SelectsHighest(k: K, idle: TaskId)
    requires Consistent(k) && k.nesting == 0 && CountReady(k.ready, idle) > 0
    ensures AnyReady(k.ready, k.topReady)
    ensures var r := k.SwitchContext();
            && r.current in r.tcb && CountReady(r.ready, r.current) > 0
            && (forall t | t in k.tcb && CountReady(k.ready, t) > 0 ::
                  k.tcb[t].priority <= k.tcb[r.current].priority)
  {
    assert Copies(k, idle) >= 1;
    ReadyAt(k, idle);
    var p := Highest(k.ready, k.topReady);
    var (q, t) := k.ready[p].Select();
    var r := k.SwitchContext();
    CountMember(q.items, t);
    CountReadyUpdate(k.ready, p, q, t);
    CountReadyBounds(k.ready, p, t);
    assert Copies(k, t) >= 1;
    WhereTasksAre(k, t);
    forall u | u in k.tcb && CountReady(k.ready, u) > 0 ensures k.tcb[u].priority <= p { ReadyAt(k, u); }
  }

  lemma ReadyAt(k: K, t: TaskId)
    requires Consistent(k) && t in k.tcb && CountReady(k.ready, t) > 0
    ensures k.ready[k.tcb[t].priority].items != [] && k.tcb[t].priority <= k.topReady
  {
    CountReadyAt(k.ready, k.tcb[t].priority, t);
  }
}
