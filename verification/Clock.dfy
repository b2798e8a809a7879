/** The tick count and the delay lists.  The count wraps at 2^32; a task that blocks
    goes on the list of the current epoch or, if its wake time wraps, on the overflow
    list, and the lists change places when the count wraps.  This module shows that
    the pair of lists, with the cached unblock time, stands for one list of true wake
    times over an unbounded clock. */
module Clocks {
  import opened Common
  import opened Lists

  /** One more than the largest tick count. */
  const TICKS: nat := 0x1_0000_0000

  function AddTicks(a: Tick, b: Tick): Tick {
    if a + b >= TICKS then a + b - TICKS else a + b
  }

  function SubTicks(a: Tick, b: Tick): Tick {
    if a >= b then a - b else a + TICKS - b
  }

  /** A list without the first entry of task `t`. */
  function DropEntry(s: seq<Entry<TaskId>>, t: TaskId): seq<Entry<TaskId>> {
    if s == [] then [] else if s[0].owner == t then s[1..] else [s[0]] + DropEntry(s[1..], t)
  }

  predicate Listed(s: seq<Entry<TaskId>>, t: TaskId) { s != [] && (s[0].owner == t || Listed(s[1..], t)) }

  datatype Clock = Clock(tick: Tick, overflows: nat, nextUnblock: Tick,
                         delayed: seq<Entry<TaskId>>, overflow: seq<Entry<TaskId>>)
  {
    function ResetNext(): Clock {
      this.(nextUnblock := if delayed == [] then MAX_DELAY else delayed[0].value)
    }

    /** Takes a task off whichever delay list holds it. */
    function Drop(t: TaskId): Clock {
      this.(delayed := DropEntry(delayed, t), overflow := DropEntry(overflow, t))
    }

    /** Lists a task to be woken `ticks` ticks from now. */
    function Block(t: TaskId, ticks: Tick): Clock {
      var wake := AddTicks(tick, ticks);
      if wake < tick then this.(overflow := InsertSorted(overflow, Entry(wake, t)))
      else this.(delayed := InsertSorted(delayed, Entry(wake, t)),
                 nextUnblock := if wake < nextUnblock then wake else nextUnblock)
    }

    /** Counts one tick; the lists change places when the count wraps. */
    function Advance(): Clock {
      var c := this.(tick := AddTicks(tick, 1));
      if c.tick == 0 then
        c.(delayed := overflow, overflow := delayed, overflows := overflows + 1).ResetNext()
      else c
    }

    predicate HeadDue() { delayed != [] && delayed[0].value <= tick }

    /** The wake loop: every head entry whose time has come leaves the list. */
    function Wake(): Clock
      decreases |delayed|
    {
      if HeadDue() then this.(delayed := delayed[1..]).Wake() else ResetNext()
    }

    function Tick(): Clock {
      var c := Advance();
      if c.tick >= c.nextUnblock then c.Wake() else c
    }

    function Ticks(n: nat): Clock
      decreases n
    {
      if n == 0 then this else Tick().Ticks(n - 1)
    }

    // ---- true time

    /** The unbounded tick count. */
    function Now(): nat { Epoch(overflows) + tick }

    /** The one list that the two delay lists stand for: the current list belongs
        to the epoch of the tick count, the overflow list to the next. */
    function Due(): seq<Alarm> {
      Alarms(delayed, Epoch(overflows)) + Alarms(overflow, Epoch(overflows + 1))
    }

    /** What makes that reading sound. */
    ghost predicate Timely() {
      && Sorted(delayed) && Sorted(overflow)
      && (forall i | 0 <= i < |delayed| :: delayed[i].value > tick)
      && (forall i | 0 <= i < |overflow| :: overflow[i].value < tick)
      && (delayed != [] ==> nextUnblock <= delayed[0].value)
    }
  }

  /** The true time at which the count stood at zero for the e-th time. */
  function Epoch(e: nat): nat { 0x1_0000_0000 * e }

  /** A listed task together with its true wake time. */
  datatype Alarm = Alarm(wake: nat, task: TaskId)

  function Alarms(s: seq<Entry<TaskId>>, base: nat): (r: seq<Alarm>)
    ensures |r| == |s|
  {
    if s == [] then [] else [Alarm(base + s[0].value, s[0].owner)] + Alarms(s[1..], base)
  }

  lemma {:induction false} AlarmsAt(s: seq<Entry<TaskId>>, base: nat)
    ensures forall i | 0 <= i < |s| :: Alarms(s, base)[i] == Alarm(base + s[i].value, s[i].owner)
  {
    if s != [] { AlarmsAt(s[1..], base); }
  }

  /** Insertion into the single list, behind alarms at the same time. */
  function InsertAlarm(s: seq<Alarm>, a: Alarm): seq<Alarm> {
    if s == [] || s[0].wake > a.wake then [a] + s else [s[0]] + InsertAlarm(s[1..], a)
  }

  function DropAlarm(s: seq<Alarm>, t: TaskId): seq<Alarm> {
    if s == [] then [] else if s[0].task == t then s[1..] else [s[0]] + DropAlarm(s[1..], t)
  }

  /** The alarms still to come at a given time. */
  function After(s: seq<Alarm>, now: nat): seq<Alarm> {
    if s == [] then [] else if s[0].wake <= now then After(s[1..], now) else s
  }

  predicate Ordered(s: seq<Alarm>) { forall i, j | 0 <= i < j < |s| :: s[i].wake <= s[j].wake }

  /** The single list really is sorted, and lies wholly in the future, within one
      wrap of the present. */
  lemma DueOrdered(c: Clock)
    requires c.Timely()
    ensures Ordered(c.Due())
    ensures forall i | 0 <= i < |c.Due()| :: c.Now() < c.Due()[i].wake < c.Now() + TICKS
  {
    var d, o := Alarms(c.delayed, Epoch(c.overflows)), Alarms(c.overflow, Epoch(c.overflows + 1));
    AlarmsAt(c.delayed, Epoch(c.overflows));
    AlarmsAt(c.overflow, Epoch(c.overflows + 1));
    assert forall i | 0 <= i < |d| :: c.Now() < d[i].wake < Epoch(c.overflows + 1);
    assert forall i | 0 <= i < |o| :: Epoch(c.overflows + 1) <= o[i].wake < c.Now() + TICKS;
    OrderedAppend(d, o);
  }

  lemma OrderedAppend(a: seq<Alarm>, b: seq<Alarm>)
    requires Ordered(a) && Ordered(b)
    requires forall i, j | 0 <= i < |a| && 0 <= j < |b| :: a[i].wake <= b[j].wake
    ensures Ordered(a + b)
  {
  }

  // ---- insertion and removal

  lemma {:induction false} InsertAlarms(s: seq<Entry<TaskId>>, e: Entry<TaskId>, base: nat)
    ensures Alarms(InsertSorted(s, e), base) == InsertAlarm(Alarms(s, base), Alarm(base + e.value, e.owner))
  {
    if s == [] || s[0].value > e.value {
      assert ([e] + s)[1..] == s;
    } else {
      InsertAlarms(s[1..], e, base);
      assert ([s[0]] + InsertSorted(s[1..], e))[1..] == InsertSorted(s[1..], e);
    }
  }

  lemma {:induction false} InsertBeforeAll(s: seq<Alarm>, rest: seq<Alarm>, a: Alarm)
    requires forall i | 0 <= i < |rest| :: rest[i].wake > a.wake
    ensures InsertAlarm(s, a) + rest == InsertAlarm(s + rest, a)
  {
    if s == [] {
      assert s + rest == rest;
    } else if s[0].wake > a.wake {
      assert [a] + s + rest == [a] + (s + rest);
    } else {
      InsertBeforeAll(s[1..], rest, a);
      assert (s + rest)[1..] == s[1..] + rest;
      assert [s[0]] + InsertAlarm(s[1..], a) + rest == [s[0]] + (InsertAlarm(s[1..], a) + rest);
    }
  }

  lemma {:induction false} InsertBehindAll(front: seq<Alarm>, s: seq<Alarm>, a: Alarm)
    requires forall i | 0 <= i < |front| :: front[i].wake <= a.wake
    ensures front + InsertAlarm(s, a) == InsertAlarm(front + s, a)
  {
    if front == [] {
      assert front + s == s && front + InsertAlarm(s, a) == InsertAlarm(s, a);
    } else {
      InsertBehindAll(front[1..], s, a);
      assert (front + s)[1..] == front[1..] + s;
      assert front + InsertAlarm(s, a) == [front[0]] + (front[1..] + InsertAlarm(s, a));
    }
  }

  /** Every entry after an insertion is an old one or the new one. */
  lemma InsertSortedBounds(s: seq<Entry<TaskId>>, e: Entry<TaskId>)
    ensures forall i | 0 <= i < |InsertSorted(s, e)| :: InsertSorted(s, e)[i] == e || InsertSorted(s, e)[i] in s
  {
    InsertSortedContents(s, e);
    forall i | 0 <= i < |InsertSorted(s, e)| ensures InsertSorted(s, e)[i] == e || InsertSorted(s, e)[i] in s {
      assert InsertSorted(s, e)[i] in multiset(InsertSorted(s, e));
    }
  }

  lemma BlockTimely(c: Clock, t: TaskId, ticks: Tick)
    requires c.Timely() && ticks > 0
    ensures c.Block(t, ticks).Timely()
  {
    var e := Entry(AddTicks(c.tick, ticks), t);
    if e.value < c.tick {
      InsertSortedOrder(c.overflow, e);
      InsertSortedBounds(c.overflow, e);
    } else {
      InsertSortedOrder(c.delayed, e);
      InsertSortedBounds(c.delayed, e);
    }
  }

  /** Blocking for `ticks` adds one alarm, at the true time `ticks` from now. */
  lemma BlockRefines(c: Clock, t: TaskId, ticks: Tick)
    requires c.Timely() && ticks > 0
    ensures c.Block(t, ticks).Timely() && c.Block(t, ticks).Now() == c.Now()
    ensures c.Block(t, ticks).Due() == InsertAlarm(c.Due(), Alarm(c.Now() + ticks, t))
  {
    BlockTimely(c, t, ticks);
    var e := Entry(AddTicks(c.tick, ticks), t);
    BlockDue(c.delayed, c.overflow, e, Alarm(c.Now() + ticks, t), e.value < c.tick, Epoch(c.overflows), Epoch(c.overflows + 1));
  }

  /** The entry goes on the list of the epoch that it will be woken in. */
  lemma BlockDue(delayed: seq<Entry<TaskId>>, overflow: seq<Entry<TaskId>>, e: Entry<TaskId>, a: Alarm, later: bool, now: nat, next: nat)
    requires next == now + TICKS && a == Alarm((if later then next else now) + e.value, e.owner)
    ensures InsertAlarm(Alarms(delayed, now) + Alarms(overflow, next), a) ==
            if later then Alarms(delayed, now) + Alarms(InsertSorted(overflow, e), next)
            else Alarms(InsertSorted(delayed, e), now) + Alarms(overflow, next)
  {
    if later { InsertLater(delayed, overflow, e, a, now, next); } else { InsertSooner(delayed, overflow, e, a, now, next); }
  }

  lemma InsertLater(delayed: seq<Entry<TaskId>>, overflow: seq<Entry<TaskId>>, e: Entry<TaskId>, a: Alarm, now: nat, next: nat)
    requires a == Alarm(next + e.value, e.owner) && next == now + TICKS
    ensures InsertAlarm(Alarms(delayed, now) + Alarms(overflow, next), a) ==
            Alarms(delayed, now) + Alarms(InsertSorted(overflow, e), next)
  {
    InsertAlarms(overflow, e, next);
    AlarmsAt(delayed, now);
    InsertBehindAll(Alarms(delayed, now), Alarms(overflow, next), a);
  }

  lemma InsertSooner(delayed: seq<Entry<TaskId>>, overflow: seq<Entry<TaskId>>, e: Entry<TaskId>, a: Alarm, now: nat, next: nat)
    requires a == Alarm(now + e.value, e.owner) && next == now + TICKS
    ensures InsertAlarm(Alarms(delayed, now) + Alarms(overflow, next), a) ==
            Alarms(InsertSorted(delayed, e), now) + Alarms(overflow, next)
  {
    InsertAlarms(delayed, e, now);
    AlarmsAt(overflow, next);
    InsertBeforeAll(Alarms(delayed, now), Alarms(overflow, next), a);
  }

  lemma {:induction false} DropAlarms(s: seq<Entry<TaskId>>, t: TaskId, base: nat)
    ensures Alarms(DropEntry(s, t), base) == DropAlarm(Alarms(s, base), t)
  {
    if s != [] && s[0].owner != t {
      DropAlarms(s[1..], t, base);
      assert ([s[0]] + DropEntry(s[1..], t))[1..] == DropEntry(s[1..], t);
    }
  }

  lemma {:induction false} DropAbsent(s: seq<Entry<TaskId>>, t: TaskId)
    requires !Listed(s, t)
    ensures DropEntry(s, t) == s
  {
    if s != [] {
      DropAbsent(s[1..], t);
    }
  }

  lemma {:induction false} ListedIsAlarm(s: seq<Entry<TaskId>>, t: TaskId, base: nat)
    ensures HasAlarm(Alarms(s, base), t) <==> Listed(s, t)
  {
    if s != [] { ListedIsAlarm(s[1..], t, base); }
  }

  lemma {:induction false} DropAppend(a: seq<Alarm>, b: seq<Alarm>, t: TaskId)
    ensures DropAlarm(a + b, t) == if HasAlarm(a, t) then DropAlarm(a, t) + b else a + DropAlarm(b, t)
  {
    if a == [] {
      assert a + b == b;
    } else if a[0].task == t {
      assert (a + b)[1..] == a[1..] + b;
    } else {
      DropAppend(a[1..], b, t);
      assert (a + b)[1..] == a[1..] + b;
    }
  }

  predicate HasAlarm(s: seq<Alarm>, t: TaskId) { s != [] && (s[0].task == t || HasAlarm(s[1..], t)) }

  lemma {:induction false} DropEntrySorted(s: seq<Entry<TaskId>>, t: TaskId)
    requires Sorted(s)
    ensures Sorted(DropEntry(s, t))
    ensures forall i | 0 <= i < |DropEntry(s, t)| :: DropEntry(s, t)[i] in s
  {
    if s != [] && s[0].owner != t { DropEntrySorted(s[1..], t); }
  }

  lemma DropTimely(c: Clock, t: TaskId)
    requires c.Timely()
    ensures c.Drop(t).Timely()
  {
    DropEntrySorted(c.delayed, t);
    DropEntrySorted(c.overflow, t);
  }

  /** Taking a task off the delay lists removes its alarm and no other. */
  lemma DropRefines(c: Clock, t: TaskId)
    requires c.Timely() && !(Listed(c.delayed, t) && Listed(c.overflow, t))
    ensures c.Drop(t).Timely() && c.Drop(t).Now() == c.Now() && c.Drop(t).Due() == DropAlarm(c.Due(), t)
  {
    DropTimely(c, t);
    DropJoined(c.delayed, c.overflow, t, Epoch(c.overflows), Epoch(c.overflows + 1));
  }

  lemma DropJoined(delayed: seq<Entry<TaskId>>, overflow: seq<Entry<TaskId>>, t: TaskId, now: nat, next: nat)
    requires !(Listed(delayed, t) && Listed(overflow, t))
    ensures Alarms(DropEntry(delayed, t), now) + Alarms(DropEntry(overflow, t), next) ==
            DropAlarm(Alarms(delayed, now) + Alarms(overflow, next), t)
  {
    DropAlarms(delayed, t, now);
    DropAlarms(overflow, t, next);
    DropAppend(Alarms(delayed, now), Alarms(overflow, next), t);
    ListedIsAlarm(delayed, t, now);
    if Listed(delayed, t) { DropAbsent(overflow, t); } else { DropAbsent(delayed, t); }
  }

  /** Recomputing the cached time never makes it late. */
  lemma ResetNextTimely(c: Clock)
    requires c.Timely()
    ensures c.ResetNext().Timely() && c.ResetNext().Due() == c.Due() && c.ResetNext().Now() == c.Now()
  {
  }

  // ---- ticks

  /** When the count wraps, nothing is left on the list for the old epoch: the
      assertion in the switch cannot fire. */
  lemma EmptyWhenSwitched(c: Clock)
    requires c.Timely() && AddTicks(c.tick, 1) == 0
    ensures c.delayed == []
  {
  }

  /** The wake loop takes off exactly the entries whose time has come. */
  lemma {:induction false} WakeRefines(c: Clock)
    requires Sorted(c.delayed) && forall i | 0 <= i < |c.overflow| :: c.overflow[i].value < c.tick
    requires Sorted(c.overflow)
    ensures c.Wake().Timely() && c.Wake() == c.(delayed := c.Wake().delayed, nextUnblock := c.Wake().nextUnblock)
    ensures Alarms(c.Wake().delayed, Epoch(c.overflows)) == After(Alarms(c.delayed, Epoch(c.overflows)), c.Now())
    decreases |c.delayed|
  {
    if c.HeadDue() {
      WakeRefines(c.(delayed := c.delayed[1..]));
      assert Alarms(c.delayed, Epoch(c.overflows))[1..] == Alarms(c.delayed[1..], Epoch(c.overflows));
    }
  }

  lemma {:induction false} AfterAppend(a: seq<Alarm>, b: seq<Alarm>, now: nat)
    requires forall i | 0 <= i < |b| :: b[i].wake > now
    ensures After(a + b, now) == After(a, now) + b
  {
    if a == [] {
      assert a + b == b;
    } else {
      assert (a + b)[1..] == a[1..] + b;
      AfterAppend(a[1..], b, now);
    }
  }

  /** The count has been moved and nobody has been woken yet. */
  ghost predicate Advanced(k: Clock) {
    && Sorted(k.delayed) && Sorted(k.overflow)
    && (forall i | 0 <= i < |k.delayed| :: k.delayed[i].value >= k.tick)
    && (forall i | 0 <= i < |k.overflow| :: k.overflow[i].value < k.tick)
    && (k.delayed != [] ==> k.nextUnblock <= k.delayed[0].value)
  }

  /** Counting a tick moves the lists to the right epoch and changes no alarm. */
  lemma AdvanceRefines(c: Clock)
    requires c.Timely()
    ensures c.Advance().Now() == c.Now() + 1 && c.Advance().Due() == c.Due() && Advanced(c.Advance())
  {
    if AddTicks(c.tick, 1) == 0 { SwitchRefines(c); }
  }

  lemma SwitchRefines(c: Clock)
    requires c.Timely() && AddTicks(c.tick, 1) == 0
    ensures c.Advance().Now() == c.Now() + 1 && c.Advance().Due() == c.Due() && Advanced(c.Advance())
  {
    EmptyWhenSwitched(c);
    SwitchDue(c.overflow, Epoch(c.overflows), Epoch(c.overflows + 1), Epoch(c.overflows + 2));
  }

  /** An empty list may change places with the other. */
  lemma SwitchDue(overflow: seq<Entry<TaskId>>, now: nat, next: nat, later: nat)
    ensures Alarms([], now) + Alarms(overflow, next) == Alarms(overflow, next) + Alarms([], later)
  {
  }

  lemma WokenRefines(k: Clock, r: Clock)
    requires Advanced(k) && r == k.Wake()
    ensures r.Timely() && r.Now() == k.Now() && r.Due() == After(k.Due(), k.Now())
  {
    var a, b := Alarms(k.delayed, Epoch(k.overflows)), Alarms(k.overflow, Epoch(k.overflows + 1));
    AlarmsAt(k.overflow, Epoch(k.overflows + 1));
    AfterAppend(a, b, k.Now());
    WakeRefines(k);
  }

  lemma NoneWokenRefines(k: Clock)
    requires Advanced(k) && k.tick < k.nextUnblock
    ensures k.Timely() && k.Due() == After(k.Due(), k.Now())
  {
    NothingDue(k);
  }

  /** Of a sound clock no alarm is due. */
  lemma NothingDue(c: Clock)
    requires c.Timely()
    ensures After(c.Due(), c.Now()) == c.Due()
  {
    DueOrdered(c);
  }

  /** A tick is one step of true time, and leaves exactly the alarms still to come. */
  lemma TickRefines(c: Clock)
    requires c.Timely()
    ensures c.Tick().Timely() && c.Tick().Now() == c.Now() + 1
    ensures c.Tick().Due() == After(c.Due(), c.Now() + 1)
  {
    AdvanceRefines(c);
    var k := c.Advance();
    if k.tick >= k.nextUnblock { WokenRefines(k, c.Tick()); } else { NoneWokenRefines(k); }
  }

  lemma {:induction false} AfterAfter(s: seq<Alarm>, now: nat, later: nat)
    requires now <= later
    ensures After(After(s, now), later) == After(s, later)
  {
    if s != [] { AfterAfter(s[1..], now, later); }
  }

  lemma {:induction false} TicksRefine(c: Clock, n: nat)
    requires c.Timely()
    ensures c.Ticks(n).Timely() && c.Ticks(n).Now() == c.Now() + n
    ensures c.Ticks(n).Due() == After(c.Due(), c.Now() + n)
    decreases n
  {
    if n == 0 {
      NothingDue(c);
    } else {
      TickRefines(c);
      TicksRefine(c.Tick(), n - 1);
      TicksJoin(c.Due(), c.Tick().Due(), c.Ticks(n).Due(), c.Now(), n);
    }
  }

  lemma TicksJoin(due: seq<Alarm>, next: seq<Alarm>, last: seq<Alarm>, now: nat, n: nat)
    requires n > 0 && next == After(due, now + 1) && last == After(next, now + 1 + (n - 1))
    ensures last == After(due, now + n)
  {
    AfterAfter(due, now + 1, now + n);
  }

  // ---- what a sleeping task sees

  lemma {:induction false} AfterInsert(s: seq<Alarm>, a: Alarm, now: nat)
    requires Ordered(s)
    ensures After(InsertAlarm(s, a), now) == if a.wake > now then InsertAlarm(After(s, now), a) else After(s, now)
  {
    if s == [] {
      assert [a][1..] == [];
    } else if s[0].wake > a.wake {
      assert ([a] + s)[1..] == s;
    } else {
      AfterInsert(s[1..], a, now);
      assert ([s[0]] + InsertAlarm(s[1..], a))[1..] == InsertAlarm(s[1..], a);
    }
  }

  /** A task that blocks for `ticks` is still waiting after `n` ticks exactly while
      `n` is less than `ticks`, wherever the count wraps in between; every other
      task's alarm is what it would have been without it. */
  lemma SleepsExactly(c: Clock, t: TaskId, ticks: Tick, n: nat)
    requires c.Timely() && ticks > 0
    ensures var r, a, others := c.Block(t, ticks).Ticks(n), Alarm(c.Now() + ticks, t), After(c.Due(), c.Now() + n);
            r.Now() == c.Now() + n && r.Due() == if n < ticks then InsertAlarm(others, a) else others
  {
    BlockRefines(c, t, ticks);
    TicksRefine(c.Block(t, ticks), n);
    DueOrdered(c);
    AfterInsert(c.Due(), Alarm(c.Now() + ticks, t), c.Now() + n);
  }

  // ---- tick counts of true times

  /** The tick count at a true time. */
  function Low(time: nat): Tick { if time < TICKS then time else Low(time - TICKS) }

  lemma {:induction false} LowEpoch(e: nat, n: nat)
    requires Epoch(e) <= n < Epoch(e + 1)
    ensures Low(n) == n - Epoch(e)
  {
    if e > 0 { LowEpoch(e - 1, n - TICKS); }
  }

  lemma LowAdd(c: nat, p: Tick)
    ensures AddTicks(Low(c), p) == Low(c + p)
  {
    var e := c / TICKS;
    LowEpoch(e, c);
    LowEpoch(if c + p < Epoch(e + 1) then e else e + 1, c + p);
  }

  lemma LowSub(n: nat, c: nat)
    requires c <= n < c + TICKS
    ensures SubTicks(Low(n), Low(c)) == n - c
  {
    var e := c / TICKS;
    LowEpoch(e, c);
    LowEpoch(if n < Epoch(e + 1) then e else e + 1, n);
  }
}
