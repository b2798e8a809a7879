/** A run of three tasks and two mutexes in which inheritance fails.  Task 1 holds mutex 0;
    task 2 holds mutex 1 and waits for mutex 0, so that task 1 inherits priority 2; task 3
    blocks on mutex 1, so that task 2 inherits priority 3, and task 1 stays where it is. */
module InvertedRuns {
  import opened Common
  import opened Lists
  import opened Clocks
  import opened Tasks
  import opened Partition
  import opened Mutexes
  import opened Inversions

  function NoneReady(): seq<Ring<TaskId>> { seq(MAX_PRIORITIES, _ => Ring([], 0)) }

  function Kernel(current: TaskId, top: nat, tcb: map<TaskId, Tcb>, ready: seq<Ring<TaskId>>,
                  suspended: seq<TaskId>, wait: seq<Entry<TaskId>>): K
  {
    K(Clock(0, 0, MAX_DELAY, [], []), 0, 0, current, top, |tcb|, tcb, ready, suspended, [], [], [wait, []])
  }

  const FREE := Mutex(1, None, false, 0)
  const HELD_1 := Mutex(0, Some(1), false, 0)
  const HELD_2 := Mutex(0, Some(2), false, 0)

  function Alone(held: nat): map<TaskId, Tcb> { map[1 := Tcb(1, 1, held)] }
  function Two(first: nat, held: nat): map<TaskId, Tcb> { map[1 := Tcb(first, 1, 1), 2 := Tcb(2, 2, held)] }
  function Three(): map<TaskId, Tcb> { map[1 := Tcb(2, 1, 1), 2 := Tcb(2, 2, 1), 3 := Tcb(3, 3, 0)] }

  // the states, one after another
  function S0(): S { S(Kernel(1, 1, Alone(0), NoneReady()[1 := Ring([1], 0)], [], []), [FREE, FREE]) }
  function S1(): S { S(Kernel(1, 1, Alone(1), NoneReady()[1 := Ring([1], 0)], [], []), [HELD_1, FREE]) }
  function S2(): S { S(Kernel(1, 2, Two(1, 0), NoneReady()[1 := Ring([1], 0)][2 := Ring([2], 0)], [], []), [HELD_1, FREE]) }
  function S3(): S { S(Kernel(2, 2, Two(1, 0), NoneReady()[1 := Ring([1], 0)][2 := Ring([2], 1)], [], []), [HELD_1, FREE]) }
  function S4(): S { S(Kernel(2, 2, Two(1, 1), NoneReady()[1 := Ring([1], 0)][2 := Ring([2], 1)], [], []), [HELD_1, HELD_2]) }
  function S5(): S { S(Kernel(2, 2, Two(2, 1), NoneReady()[2 := Ring([1], 1)], [2], [Entry(30, 2)]), [HELD_1, HELD_2]) }
  function S6(): S { S(Kernel(1, 2, Two(2, 1), NoneReady()[2 := Ring([1], 1)], [2], [Entry(30, 2)]), [HELD_1, HELD_2]) }
  function S7(): S { S(Kernel(1, 3, Three(), NoneReady()[2 := Ring([1], 1)][3 := Ring([3], 0)], [2], [Entry(30, 2)]), [HELD_1, HELD_2]) }
  function S8(): S { S(Kernel(3, 3, Three(), NoneReady()[2 := Ring([1], 1)][3 := Ring([3], 1)], [2], [Entry(30, 2)]), [HELD_1, HELD_2]) }

  // ---------------------------------------------------------------- the actions, one by one

  ghost predicate Takes(s: S, m: nat, r: S) {
    && m < |s.mutexes| && s.mutexes[m] == FREE && s.k.current in s.k.tcb
    && r == S(s.k.HoldOneMore(), s.mutexes[m := FREE.(count := 0, holder := Some(s.k.current))])
  }

  ghost predicate Spawns(s: S, t: TaskId, priority: nat, r: S) {
    && s.k.Shaped() && t !in s.k.tcb && priority < MAX_PRIORITIES && r == s.(k := s.k.Create(t, priority))
  }

  ghost predicate Switches(s: S, r: S) { s.k.Shaped() && r == s.(k := s.k.SwitchContext()) }

  ghost predicate Blocks(s: S, m: nat, h: TaskId, k1: K, r: S) {
    && m < |s.mutexes| <= |s.k.events| && s.mutexes[m] == FREE.(count := 0, holder := Some(h))
    && s.k.Shaped() && s.k.Known(h) && s.k.Known(s.k.current) && CountReady(s.k.ready, s.k.current) > 0
    && k1 == s.k.Inherit(h).0 && |k1.events| == |s.k.events| && k1.Shaped() && k1.current == s.k.current && k1.Known(k1.current)
    && r == s.(k := k1.PlaceOnEventList(m, MAX_DELAY))
  }

  lemma Taken(s: S, m: nat, r: S, rest: seq<Action>)
    requires Booked(s) && Takes(s, m, r)
    ensures Booked(r) && Acts(s, [Take(m)] + rest).0 == Acts(r, rest).0 && Acts(s, [Take(m)] + rest).2 == Acts(r, rest).2
  {
    ActsStep(s, Take(m), rest, r);
  }

  lemma Spawned(s: S, t: TaskId, priority: nat, r: S, rest: seq<Action>)
    requires Booked(s) && Spawns(s, t, priority, r)
    ensures Booked(r)
    ensures Acts(s, [Other(Spawn(t, priority))] + rest).0 == Acts(r, rest).0
    ensures Acts(s, [Other(Spawn(t, priority))] + rest).2 == Acts(r, rest).2
  {
    ActsStep(s, Other(Spawn(t, priority)), rest, r);
  }

  lemma Switched(s: S, r: S, rest: seq<Action>)
    requires Booked(s) && Switches(s, r)
    ensures Booked(r) && Acts(s, [Other(Switch)] + rest).0 == Acts(r, rest).0 && Acts(s, [Other(Switch)] + rest).2 == Acts(r, rest).2
  {
    ActsStep(s, Other(Switch), rest, r);
  }

  lemma Blocked(s: S, m: nat, h: TaskId, k1: K, r: S, rest: seq<Action>)
    requires Booked(s) && Blocks(s, m, h, k1, r)
    ensures Booked(r)
    ensures Acts(s, [Block(m, MAX_DELAY)] + rest).0 == Acts(r, rest).0
    ensures Acts(s, [Block(m, MAX_DELAY)] + rest).2 == Acts(r, rest).2
  {
    ActsStep(s, Block(m, MAX_DELAY), rest, r);
  }

  lemma ActsStep(s: S, a: Action, rest: seq<Action>, r: S)
    requires Booked(s) && Allowed(s, a) && Act(s, a) == r
    ensures Booked(r) && Acts(s, [a] + rest).0 == Acts(r, rest).0 && Acts(s, [a] + rest).2 == Acts(r, rest).2
  {
    ActBooked(s, a);
    assert ([a] + rest)[1..] == rest;
  }

  // ---------------------------------------------------------------- the states follow one another

  lemma Begins()
    ensures Booked(S0()) && Fair(S0())
  {
    FirstTaskConsistent(1, 1, 2);
    FirstKernel();
    FirstBooked(S0());
  }

  lemma FirstKernel()
    ensures var k := K(Clock(0, 0, MAX_DELAY, [], []), 0, 0, 1, 0, 0, map[],
                       seq(MAX_PRIORITIES, _ => Ring([], 0)), [], [], [], seq(2, _ => []));
            k.Shaped() && k.Create(1, 1) == S0().k
  {
    var none: seq<seq<Entry<TaskId>>> := [[], []];
    assert seq(2, _ => []) == none;
    var ring: Ring<TaskId> := Ring([], 0);
    assert ring.InsertEnd(1) == Ring([1], 0);
    assert seq(MAX_PRIORITIES, _ => Ring([], 0)) == NoneReady();
  }

  lemma FirstBooked(s: S)
    requires Consistent(s.k) && s.mutexes == [FREE, FREE] && s.k.events == [[], []] && s.k.tcb == map[1 := Tcb(1, 1, 0)]
    ensures Booked(s) && Fair(s)
  {
    HeldNone(s.mutexes, 1);
  }

  lemma Take1() ensures Takes(S0(), 0, S1()) { }

  lemma Spawn2()
    ensures Spawns(S1(), 2, 2, S2())
  {
    var ring: Ring<TaskId> := Ring([], 0);
    assert ring.InsertEnd(2) == Ring([2], 0);
    assert Alone(1)[2 := Tcb(2, 2, 0)] == Two(1, 0);
  }

  /** Which task the next switch chooses. */
  lemma Chooses(k: K, p: nat, r: Ring<TaskId>)
    requires k.Shaped() && k.nesting == 0 && k.topReady == p < MAX_PRIORITIES && k.ready[p] == r && r.items != []
    ensures k.SwitchContext() == k.(ready := k.ready[p := r.Select().0], current := r.Select().1, topReady := p)
  {
    assert AnyReady(k.ready, p);
  }

  lemma SwitchTo2()
    ensures Switches(S2(), S3())
  {
    Chooses(S2().k, 2, Ring([2], 0));
  }

  lemma Take2()
    ensures Takes(S3(), 1, S4())
  {
    assert Two(1, 0)[2 := Tcb(2, 2, 1)] == Two(1, 1);
  }

  function Raised(): K { Kernel(2, 2, Two(2, 1), NoneReady()[2 := Ring([1, 2], 2)], [], []) }

  lemma Block2()
    ensures Blocks(S4(), 0, 1, Raised(), S5())
  {
    IsReady(S4().k, 2, 2);
    Raised1(S4().k);
    Waits2(Raised());
    BlockParts(S4(), Raised(), S5());
  }

  lemma BlockParts(s: S, k1: K, r: S)
    requires s.mutexes == [HELD_1, HELD_2] && |s.k.events| == 2 && s.k.current == 2 && CountReady(s.k.ready, 2) > 0
    requires s.k.Shaped() && s.k.Known(1) && s.k.Known(2) && k1 == s.k.Inherit(1).0
    requires k1.Shaped() && k1.Known(2) && k1.current == 2 && |k1.events| == 2
    requires r == S(k1.PlaceOnEventList(0, MAX_DELAY), [HELD_1, HELD_2])
    ensures Blocks(s, 0, 1, k1, r)
  {
  }

  lemma IsReady(k: K, p: nat, t: TaskId)
    requires p < |k.ready| && t in k.ready[p].items
    ensures CountReady(k.ready, t) > 0
  {
    CountMember(k.ready[p].items, t);
    CountReadyBounds(k.ready, p, t);
  }

  lemma Raised1(k: K)
    requires k == S4().k
    ensures k.Shaped() && k.Known(1) && k.Known(2)
    ensures k.Inherit(1).0 == Raised()
  {
    var none: seq<seq<Entry<TaskId>>> := [[], []];
    assert RevalueEvery(none, 1, 30) == none;
    var one: Ring<TaskId>, two: Ring<TaskId>, both: Ring<TaskId> := Ring([1], 0), Ring([2], 1), Ring([1, 2], 2);
    assert one.Remove(0) == Ring([], 0) && two.InsertEnd(1) == both;
    assert Two(1, 1)[1 := Tcb(2, 1, 1)] == Two(2, 1);
    var d := k.DropState(1);
    assert d == Kernel(2, 2, Two(1, 1), NoneReady()[2 := Ring([2], 1)], [], []);
    var e := d.Relabel(1, 2);
    assert e == Kernel(2, 2, Two(2, 1), NoneReady()[2 := Ring([2], 1)], [], []);
    assert e.AddReady(1) == Kernel(2, 2, Two(2, 1), NoneReady()[2 := Ring([1, 2], 2)], [], []);
  }

  lemma Waits2(k: K)
    requires k == Raised()
    ensures k.Shaped() && k.Known(2) && k.current == 2 && |k.events| == 2 && k.PlaceOnEventList(0, MAX_DELAY) == S5().k
  {
    var both: Ring<TaskId> := Ring([1, 2], 2);
    assert both.Remove(1) == Ring([1], 1);
    assert IndexOf([1, 2], 2) == 1;
    var none: seq<Entry<TaskId>> := [];
    assert InsertSorted(none, Entry(30, 2)) == [Entry(30, 2)];
  }

  lemma SwitchTo1()
    ensures Switches(S5(), S6())
  {
    Chooses(S5().k, 2, Ring([1], 1));
  }

  lemma Spawn3()
    ensures Spawns(S6(), 3, 3, S7())
  {
    var ring: Ring<TaskId> := Ring([], 0);
    assert ring.InsertEnd(3) == Ring([3], 0);
    assert Two(2, 1)[3 := Tcb(3, 3, 0)] == Three();
  }

  lemma SwitchTo3()
    ensures Switches(S7(), S8())
  {
    Chooses(S7().k, 3, Ring([3], 0));
  }

  ghost predicate AboutToInvert(s: S) {
    && |s.mutexes| == 2 == |s.k.events| && s.mutexes[0] == FREE.(count := 0, holder := Some(1))
    && s.mutexes[1] == FREE.(count := 0, holder := Some(2)) && s.k.events[0] == [Entry(30, 2)] && s.k.current == 3
    && CountReady(s.k.ready, 3) > 0 && s.k.tcb == Three()
  }

  lemma Inverting()
    ensures AboutToInvert(S8())
  {
    IsReady(S8().k, 3, 3);
  }

  /** The run is possible and does not end fair. */
  ghost predicate EndsUnfair(s: S, actions: seq<Action>)
    requires Booked(s)
  {
    Acts(s, actions).0 && !Fair(Acts(s, actions).2)
  }

  lemma EndsWith(s: S, a: Action, r: S)
    requires Booked(s) && Allowed(s, a) && Act(s, a) == r && Booked(r) && !Fair(r)
    ensures EndsUnfair(s, [a])
  {
    assert [a] == [a] + [];
    ActsStep(s, a, [], r);
  }

  lemma Inverts(s: S)
    requires Booked(s) && AboutToInvert(s)
    ensures EndsUnfair(s, [Block(1, MAX_DELAY)])
  {
    NestedInverts(s, 1, 0, 0, MAX_DELAY);
    EndsWith(s, Block(1, MAX_DELAY), Act(s, Block(1, MAX_DELAY)));
  }

  // ---------------------------------------------------------------- the run

  const FROM_4: seq<Action> :=
    [Block(0, MAX_DELAY)] + ([Other(Switch)] + ([Other(Spawn(3, 3))] + ([Other(Switch)] + [Block(1, MAX_DELAY)])))
  const ACTIONS: seq<Action> := [Take(0)] + ([Other(Spawn(2, 2))] + ([Other(Switch)] + ([Take(1)] + FROM_4)))

  lemma FirstHalf(s0: S, s1: S, s2: S, s3: S, s4: S)
    requires Booked(s0) && Takes(s0, 0, s1) && Spawns(s1, 2, 2, s2) && Switches(s2, s3) && Takes(s3, 1, s4)
    ensures Booked(s4) && Acts(s0, ACTIONS).0 == Acts(s4, FROM_4).0 && Acts(s0, ACTIONS).2 == Acts(s4, FROM_4).2
  {
    Taken(s0, 0, s1, [Other(Spawn(2, 2))] + ([Other(Switch)] + ([Take(1)] + FROM_4)));
    Spawned(s1, 2, 2, s2, [Other(Switch)] + ([Take(1)] + FROM_4));
    Switched(s2, s3, [Take(1)] + FROM_4);
    Taken(s3, 1, s4, FROM_4);
  }

  lemma SecondHalf(s4: S, k1: K, s5: S, s6: S, s7: S, s8: S)
    requires Booked(s4) && Blocks(s4, 0, 1, k1, s5) && Switches(s5, s6) && Spawns(s6, 3, 3, s7) && Switches(s7, s8) && AboutToInvert(s8)
    ensures EndsUnfair(s4, FROM_4)
  {
    Blocked(s4, 0, 1, k1, s5, [Other(Switch)] + ([Other(Spawn(3, 3))] + ([Other(Switch)] + [Block(1, MAX_DELAY)])));
    Switched(s5, s6, [Other(Spawn(3, 3))] + ([Other(Switch)] + [Block(1, MAX_DELAY)]));
    Spawned(s6, 3, 3, s7, [Other(Switch)] + [Block(1, MAX_DELAY)]);
    Switched(s7, s8, [Block(1, MAX_DELAY)]);
    Inverts(s8);
  }

  /** A system of one task and two free mutexes is fair, and the run does not end fair. */
  lemma InvertedRun()
    ensures Booked(S0()) && Fair(S0()) && EndsUnfair(S0(), ACTIONS)
  {
    Begins();
    Take1();
    Spawn2();
    SwitchTo2();
    Take2();
    FirstHalf(S0(), S1(), S2(), S3(), S4());
    Block2();
    SwitchTo1();
    Spawn3();
    SwitchTo3();
    Inverting();
    SecondHalf(S4(), Raised(), S5(), S6(), S7(), S8());
  }
}
