/** A run of three tasks and one mutex in which a take passes a higher waiter.  Tasks 2 and
    3 wait for the mutex that task 1 holds; task 1 gives it, drops to its own priority, and
    task 3 is woken, but is suspended before it has run; task 1 takes the mutex again, and
    task 2 waits for a holder below it that has inherited nothing. */
module OvertakenRuns {
  import opened Common
  import opened Lists
  import opened Clocks
  import opened Tasks
  import opened Partition
  import opened Mutexes
  import opened Inversions
  import opened InvertedRuns

  function Tcbs(first: nat, held: nat): map<TaskId, Tcb> {
    map[1 := Tcb(first, 1, held), 2 := Tcb(2, 2, 0), 3 := Tcb(3, 3, 0)]
  }

  // the states behind S3 of the other run, one after another
  function T4(): S { S(Kernel(2, 2, Two(2, 0), NoneReady()[2 := Ring([1], 1)], [2], [Entry(30, 2)]), [HELD_1, FREE]) }
  function T5(): S { S(Kernel(1, 2, Two(2, 0), NoneReady()[2 := Ring([1], 1)], [2], [Entry(30, 2)]), [HELD_1, FREE]) }
  function T6(): S { S(Kernel(1, 3, Tcbs(2, 1), NoneReady()[2 := Ring([1], 1)][3 := Ring([3], 0)], [2], [Entry(30, 2)]), [HELD_1, FREE]) }
  function T7(): S { S(Kernel(3, 3, Tcbs(2, 1), NoneReady()[2 := Ring([1], 1)][3 := Ring([3], 1)], [2], [Entry(30, 2)]), [HELD_1, FREE]) }
  function T8(): S { S(Kernel(3, 3, Tcbs(3, 1), NoneReady()[3 := Ring([1], 1)], [2, 3], [Entry(29, 3), Entry(30, 2)]), [HELD_1, FREE]) }
  function T9(): S { S(Kernel(1, 3, Tcbs(3, 1), NoneReady()[3 := Ring([1], 1)], [2, 3], [Entry(29, 3), Entry(30, 2)]), [HELD_1, FREE]) }
  function T10(): S { S(Kernel(1, 3, Tcbs(1, 0), NoneReady()[1 := Ring([1], 0)][3 := Ring([3], 0)], [2], [Entry(30, 2)]), [FREE, FREE]) }
  function T11(): S { S(Kernel(1, 3, Tcbs(1, 0), NoneReady()[1 := Ring([1], 0)], [2, 3], [Entry(30, 2)]), [FREE, FREE]) }

  // ---------------------------------------------------------------- giving and suspending

  ghost predicate Gives(s: S, m: nat, k1: K, r: S) {
    && m < |s.mutexes| <= |s.k.events| && s.mutexes[m] == FREE.(count := 0, holder := Some(s.k.current))
    && s.k.Shaped() && s.k.Known(s.k.current) && CountReady(s.k.ready, s.k.current) > 0
    && s.k.tcb[s.k.current].mutexesHeld > 0 && s.k.tcb[s.k.current].basePriority < MAX_PRIORITIES
    && k1 == s.k.Disinherit().0 && k1.Shaped() && |k1.events| == |s.k.events|
    && k1.events[m] != [] && k1.Known(k1.events[m][0].owner)
    && r == S(k1.RemoveFromEventList(m), s.mutexes[m := FREE])
  }

  ghost predicate Suspends(s: S, t: TaskId, r: S) {
    && s.k.Shaped() && s.k.Known(t) && Count(s.k.termination, t) == 0 && r == s.(k := s.k.SuspendTask(t))
  }

  lemma Given(s: S, m: nat, k1: K, r: S, rest: seq<Action>)
    requires Booked(s) && Gives(s, m, k1, r)
    ensures Booked(r) && Acts(s, [Give(m)] + rest).0 == Acts(r, rest).0 && Acts(s, [Give(m)] + rest).2 == Acts(r, rest).2
  {
    GiveIs(s, m, s.mutexes[m], k1);
    ActsStep(s, Give(m), rest, r);
  }

  lemma Suspended(s: S, t: TaskId, r: S, rest: seq<Action>)
    requires Booked(s) && Suspends(s, t, r)
    ensures Booked(r)
    ensures Acts(s, [Other(Suspend(t))] + rest).0 == Acts(r, rest).0 && Acts(s, [Other(Suspend(t))] + rest).2 == Acts(r, rest).2
  {
    ActsStep(s, Other(Suspend(t)), rest, r);
  }

  // ---------------------------------------------------------------- the states follow one another

  function Raised2(): K { Kernel(2, 2, Two(2, 0), NoneReady()[2 := Ring([1, 2], 2)], [], []) }

  lemma Raise1To2(k: K)
    requires k == S3().k
    ensures k.Shaped() && k.Known(1) && k.Known(2) && k.Inherit(1).0 == Raised2()
  {
    var none: seq<seq<Entry<TaskId>>> := [[], []];
    assert RevalueEvery(none, 1, 30) == none;
    var one: Ring<TaskId>, two: Ring<TaskId>, both: Ring<TaskId> := Ring([1], 0), Ring([2], 1), Ring([1, 2], 2);
    assert one.Remove(0) == Ring([], 0) && two.InsertEnd(1) == both;
    assert Two(1, 0)[1 := Tcb(2, 1, 1)] == Two(2, 0);
    var d := k.DropState(1);
    assert d == Kernel(2, 2, Two(1, 0), NoneReady()[2 := Ring([2], 1)], [], []);
    var e := d.Relabel(1, 2);
    assert e == Kernel(2, 2, Two(2, 0), NoneReady()[2 := Ring([2], 1)], [], []);
  }

  lemma Wait2(k: K)
    requires k == Raised2()
    ensures k.Shaped() && k.Known(2) && k.current == 2 && |k.events| == 2 && k.PlaceOnEventList(0, MAX_DELAY) == T4().k
  {
    var both: Ring<TaskId> := Ring([1, 2], 2);
    assert both.Remove(1) == Ring([1], 1);
    assert IndexOf([1, 2], 2) == 1;
    var none: seq<Entry<TaskId>> := [];
    assert InsertSorted(none, Entry(30, 2)) == [Entry(30, 2)];
  }

  lemma BlockParts(s: S, t: TaskId, k1: K, r: S)
    requires s.mutexes == [HELD_1, FREE] && |s.k.events| == 2 && s.k.current == t && CountReady(s.k.ready, t) > 0
    requires s.k.Shaped() && s.k.Known(1) && s.k.Known(t) && k1 == s.k.Inherit(1).0
    requires k1.Shaped() && k1.Known(t) && k1.current == t && |k1.events| == 2
    requires r == S(k1.PlaceOnEventList(0, MAX_DELAY), [HELD_1, FREE])
    ensures Blocks(s, 0, 1, k1, r)
  {
  }

  lemma Block2First()
    ensures Blocks(S3(), 0, 1, Raised2(), T4())
  {
    IsReady(S3().k, 2, 2);
    Raise1To2(S3().k);
    Wait2(Raised2());
    BlockParts(S3(), 2, Raised2(), T4());
  }

  lemma BackTo1()
    ensures Switches(T4(), T5())
  {
    Chooses(T4().k, 2, Ring([1], 1));
  }

  lemma Spawn3Then()
    ensures Spawns(T5(), 3, 3, T6())
  {
    var ring: Ring<TaskId> := Ring([], 0);
    assert ring.InsertEnd(3) == Ring([3], 0);
    assert Two(2, 0)[3 := Tcb(3, 3, 0)] == Tcbs(2, 1);
  }

  lemma OnTo3()
    ensures Switches(T6(), T7())
  {
    Chooses(T6().k, 3, Ring([3], 0));
  }

  function Raised3(): K { Kernel(3, 3, Tcbs(3, 1), NoneReady()[3 := Ring([1, 3], 2)], [2], [Entry(30, 2)]) }

  // between the two: task 1 off its ready list, and then with its new priority
  function Raised3Off(): K { Kernel(3, 3, Tcbs(2, 1), NoneReady()[3 := Ring([3], 1)], [2], [Entry(30, 2)]) }
  function Raised3Named(): K { Kernel(3, 3, Tcbs(3, 1), NoneReady()[3 := Ring([3], 1)], [2], [Entry(30, 2)]) }

  lemma Raise1To3Off(k: K)
    requires k == T7().k
    ensures k.Shaped() && k.Known(1) && k.Known(3) && 1 in k.ready[2].items && k.DropState(1) == Raised3Off()
  {
    var one: Ring<TaskId> := Ring([1], 1);
    assert one.Remove(0) == Ring([], 0);
    assert DropTask([2], 1) == [2] by { assert [2][1..] == []; }
  }

  lemma Raise1To3Named(k: K)
    requires k == Raised3Off()
    ensures 1 in k.tcb && k.Relabel(1, 3) == Raised3Named()
  {
    var waits: seq<seq<Entry<TaskId>>> := [[Entry(30, 2)], []];
    assert Revalue(waits[0], 1, 29) == waits[0] && Revalue(waits[1], 1, 29) == waits[1];
    assert RevalueEvery(waits, 1, 29) == waits;
    assert Tcbs(2, 1)[1 := Tcb(3, 1, 1)] == Tcbs(3, 1);
  }

  lemma Raise1To3On(k: K)
    requires k == Raised3Named()
    ensures k.Shaped() && k.Known(1) && k.AddReady(1) == Raised3()
  {
    var three: Ring<TaskId> := Ring([3], 1);
    assert three.InsertEnd(1) == Ring([1, 3], 2);
  }

  lemma RaiseParts(k: K, t: TaskId, d: K, e: K, r: K)
    requires k.Shaped() && k.Known(t) && k.Known(k.current) && t in k.ready[k.tcb[t].priority].items
    requires k.tcb[t].priority < k.tcb[k.current].priority
    requires d == k.DropState(t) && t in d.tcb && e == d.Relabel(t, k.tcb[k.current].priority)
    requires e.Shaped() && e.Known(t) && r == e.AddReady(t)
    ensures k.Inherit(t).0 == r
  {
  }

  lemma Raise1To3(k: K)
    requires k == T7().k
    ensures k.Shaped() && k.Known(1) && k.Known(3) && k.Inherit(1).0 == Raised3()
  {
    Raise1To3Off(k);
    Raise1To3Named(Raised3Off());
    Raise1To3On(Raised3Named());
    RaiseParts(k, 1, Raised3Off(), Raised3Named(), Raised3());
  }

  lemma Wait3(k: K)
    requires k == Raised3()
    ensures k.Shaped() && k.Known(3) && k.current == 3 && |k.events| == 2 && k.PlaceOnEventList(0, MAX_DELAY) == T8().k
  {
    var both: Ring<TaskId> := Ring([1, 3], 2);
    assert both.Remove(1) == Ring([1], 1);
    assert IndexOf([1, 3], 3) == 1;
    assert DropTask([2], 3) == [2] by { assert [2][1..] == []; }
    assert InsertSorted([Entry(30, 2)], Entry(29, 3)) == [Entry(29, 3), Entry(30, 2)];
  }

  lemma Block3First()
    ensures Blocks(T7(), 0, 1, Raised3(), T8())
  {
    IsReady(T7().k, 3, 3);
    Raise1To3(T7().k);
    Wait3(Raised3());
    BlockParts(T7(), 3, Raised3(), T8());
  }

  lemma BackTo1Again()
    ensures Switches(T8(), T9())
  {
    Chooses(T8().k, 3, Ring([1], 1));
  }

  function Dropped(): K {
    Kernel(1, 3, Tcbs(1, 0), NoneReady()[1 := Ring([1], 0)], [2, 3], [Entry(29, 3), Entry(30, 2)])
  }

  // between the two: one mutex fewer, off the ready list, and then with the old priority
  function DroppedHeld(): K {
    Kernel(1, 3, Tcbs(3, 0), NoneReady()[3 := Ring([1], 1)], [2, 3], [Entry(29, 3), Entry(30, 2)])
  }
  function DroppedOff(): K { Kernel(1, 3, Tcbs(3, 0), NoneReady(), [2, 3], [Entry(29, 3), Entry(30, 2)]) }
  function DroppedNamed(): K { Kernel(1, 3, Tcbs(1, 0), NoneReady(), [2, 3], [Entry(29, 3), Entry(30, 2)]) }

  lemma Drop1Held(k: K)
    requires k == T9().k
    ensures k.Shaped() && k.Known(1) && k.tcb[1] == Tcb(3, 1, 1) && k.current == 1 && |k.events| == 2
    ensures k.(tcb := k.tcb[1 := Tcb(3, 1, 0)]) == DroppedHeld()
  {
    assert Tcbs(3, 1)[1 := Tcb(3, 1, 0)] == Tcbs(3, 0);
  }

  lemma Drop1Off(k: K)
    requires k == DroppedHeld()
    ensures k.Shaped() && k.Known(1) && k.DropState(1) == DroppedOff()
  {
    var one: Ring<TaskId> := Ring([1], 1);
    assert one.Remove(0) == Ring([], 0);
    assert DropTask([2, 3], 1) == [2, 3] by { assert [2, 3][1..] == [3] && [3][1..] == []; }
  }

  lemma Drop1Named(k: K)
    requires k == DroppedOff()
    ensures 1 in k.tcb && k.Relabel(1, 1) == DroppedNamed()
  {
    var waits: seq<seq<Entry<TaskId>>> := [[Entry(29, 3), Entry(30, 2)], []];
    assert Revalue(waits[0], 1, 31) == waits[0] && Revalue(waits[1], 1, 31) == waits[1];
    assert RevalueEvery(waits, 1, 31) == waits;
    assert Tcbs(3, 0)[1 := Tcb(1, 1, 0)] == Tcbs(1, 0);
  }

  lemma Drop1On(k: K)
    requires k == DroppedNamed()
    ensures k.Shaped() && k.Known(1) && k.AddReady(1) == Dropped()
  {
    var none: Ring<TaskId> := Ring([], 0);
    assert none.InsertEnd(1) == Ring([1], 0);
  }

  lemma DropParts(k: K, c: K, d: K, e: K, r: K)
    requires k.Shaped() && k.Known(k.current) && k.tcb[k.current] == Tcb(3, 1, 1)
    requires c == k.(tcb := k.tcb[k.current := Tcb(3, 1, 0)]) && c.Known(k.current) && d == c.DropState(k.current)
    requires k.current in d.tcb && e == d.Relabel(k.current, 1)
    requires e.Shaped() && e.Known(k.current) && r == e.AddReady(k.current)
    ensures k.Disinherit().0 == r
  {
  }

  lemma Drop1(k: K)
    requires k == T9().k
    ensures k.Shaped() && k.Known(1) && k.tcb[1] == Tcb(3, 1, 1) && |k.events| == 2 && k.Disinherit().0 == Dropped()
  {
    Drop1Held(k);
    Drop1Off(DroppedHeld());
    Drop1Named(DroppedOff());
    Drop1On(DroppedNamed());
    DropParts(k, DroppedHeld(), DroppedOff(), DroppedNamed(), Dropped());
  }

  lemma Wake3(k: K)
    requires k == Dropped()
    ensures k.Shaped() && |k.events| == 2 && k.events[0] != [] && k.Known(k.events[0][0].owner)
    ensures k.RemoveFromEventList(0) == T10().k
  {
    var none: Ring<TaskId> := Ring([], 0);
    assert none.InsertEnd(3) == Ring([3], 0);
    assert DropTask([2, 3], 3) == [2] by { assert [2, 3][1..] == [3] && [3][1..] == []; }
    var wait: seq<Entry<TaskId>> := [Entry(29, 3), Entry(30, 2)];
    assert wait[1..] == [Entry(30, 2)];
  }

  lemma Gives1()
    ensures Gives(T9(), 0, Dropped(), T10())
  {
    IsReady(T9().k, 3, 1);
    Drop1(T9().k);
    Wake3(Dropped());
    GiveParts(T9(), Dropped(), T10());
  }

  lemma GiveParts(s: S, k1: K, r: S)
    requires s.mutexes == [HELD_1, FREE] && |s.k.events| == 2 && s.k.current == 1 && CountReady(s.k.ready, 1) > 0
    requires s.k.Shaped() && s.k.Known(1) && s.k.tcb[1] == Tcb(3, 1, 1) && k1 == s.k.Disinherit().0
    requires k1.Shaped() && |k1.events| == 2 && k1.events[0] != [] && k1.Known(k1.events[0][0].owner)
    requires r == S(k1.RemoveFromEventList(0), [FREE, FREE])
    ensures Gives(s, 0, k1, r)
  {
  }

  lemma Suspend3()
    ensures Suspends(T10(), 3, T11())
  {
    var three: Ring<TaskId> := Ring([3], 0);
    assert three.Remove(0) == Ring([], 0);
    assert DropTask([2], 3) == [2] by { assert [2][1..] == []; }
    var waits: seq<seq<Entry<TaskId>>> := [[Entry(30, 2)], []];
    DropAbsent(waits[0]);
    assert DropEvery(waits, 3) == waits;
  }

  lemma DropAbsent(s: seq<Entry<TaskId>>)
    requires s == [Entry(30, 2)]
    ensures DropEntry(s, 3) == s
  {
    assert s[1..] == [];
  }

  ghost predicate AboutToOvertake(s: S) {
    && |s.mutexes| == 2 == |s.k.events| && s.mutexes[0] == FREE && s.k.events[0] == [Entry(30, 2)]
    && s.k.current == 1 && s.k.tcb == Tcbs(1, 0)
  }

  lemma Overtakes(s: S)
    requires Booked(s) && AboutToOvertake(s)
    ensures EndsUnfair(s, [Take(0)])
  {
    TakeOvertakes(s, 0, 0);
    EndsWith(s, Take(0), Act(s, Take(0)));
  }

  // ---------------------------------------------------------------- the run

  const FROM_9: seq<Action> := [Give(0)] + ([Other(Suspend(3))] + [Take(0)])
  const FROM_3: seq<Action> :=
    [Block(0, MAX_DELAY)] + ([Other(Switch)] + ([Other(Spawn(3, 3))] + ([Other(Switch)] + ([Block(0, MAX_DELAY)] + ([Other(Switch)] + FROM_9)))))
  const OVERTAKING: seq<Action> := [Take(0)] + ([Other(Spawn(2, 2))] + ([Other(Switch)] + FROM_3))

  lemma FirstPart(s0: S, s1: S, s2: S, s3: S)
    requires Booked(s0) && Takes(s0, 0, s1) && Spawns(s1, 2, 2, s2) && Switches(s2, s3)
    ensures Booked(s3) && Acts(s0, OVERTAKING).0 == Acts(s3, FROM_3).0 && Acts(s0, OVERTAKING).2 == Acts(s3, FROM_3).2
  {
    Taken(s0, 0, s1, [Other(Spawn(2, 2))] + ([Other(Switch)] + FROM_3));
    Spawned(s1, 2, 2, s2, [Other(Switch)] + FROM_3);
    Switched(s2, s3, FROM_3);
  }

  lemma SecondPart(s3: S, k1: K, s4: S, s5: S, s6: S, s7: S, k2: K, s8: S, s9: S)
    requires Booked(s3) && Blocks(s3, 0, 1, k1, s4) && Switches(s4, s5) && Spawns(s5, 3, 3, s6) && Switches(s6, s7)
    requires Blocks(s7, 0, 1, k2, s8) && Switches(s8, s9)
    ensures Booked(s9) && Acts(s3, FROM_3).0 == Acts(s9, FROM_9).0 && Acts(s3, FROM_3).2 == Acts(s9, FROM_9).2
  {
    var from7 := [Block(0, MAX_DELAY)] + ([Other(Switch)] + FROM_9);
    Blocked(s3, 0, 1, k1, s4, [Other(Switch)] + ([Other(Spawn(3, 3))] + ([Other(Switch)] + from7)));
    Switched(s4, s5, [Other(Spawn(3, 3))] + ([Other(Switch)] + from7));
    Spawned(s5, 3, 3, s6, [Other(Switch)] + from7);
    Switched(s6, s7, from7);
    Blocked(s7, 0, 1, k2, s8, [Other(Switch)] + FROM_9);
    Switched(s8, s9, FROM_9);
  }

  lemma LastPart(s9: S, k3: K, s10: S, s11: S)
    requires Booked(s9) && Gives(s9, 0, k3, s10) && Suspends(s10, 3, s11) && AboutToOvertake(s11)
    ensures EndsUnfair(s9, FROM_9)
  {
    Given(s9, 0, k3, s10, [Other(Suspend(3))] + [Take(0)]);
    Suspended(s10, 3, s11, [Take(0)]);
    Overtakes(s11);
  }

  /** From a system of one task and free mutexes, which is fair. */
  lemma OvertakenRun()
    ensures Booked(S0()) && Fair(S0()) && EndsUnfair(S0(), OVERTAKING)
  {
    Begins();
    Take1();
    Spawn2();
    SwitchTo2();
    FirstPart(S0(), S1(), S2(), S3());
    Block2First();
    BackTo1();
    Spawn3Then();
    OnTo3();
    Block3First();
    BackTo1Again();
    SecondPart(S3(), Raised2(), T4(), T5(), T6(), T7(), Raised3(), T8(), T9());
    Gives1();
    Suspend3();
    LastPart(T9(), Dropped(), T10(), T11());
  }
}
