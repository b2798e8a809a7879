/** Deadlines in wrapped time: a blocking call that may wake up any number of times for
    nothing, and a task that runs at fixed intervals.  Against unbounded time, the first
    never loses or gains a tick, and the second never drifts; and it is said exactly when
    the wrapped comparisons can be fooled. */
module Deadlines {
  import opened Common
  import opened Lists
  import opened Clocks
  import opened Tasks
  import opened Kernels
  import opened Partition
  import opened Places

  // ---------------------------------------------------------------- time-outs

  /** When a time-out was last set: the overflow count and the tick count. */
  datatype Since = Since(overflows: nat, entering: Tick)
  {
    function Time(): nat { Epoch(overflows) + entering }
  }

  function SetTimeOut(c: Clock): Since { Since(c.overflows, c.tick) }

  /** Checks for a time-out; if there is none, the wait goes on for what is left. */
  function Check(c: Clock, since: Since, wait: Tick): (bool, Tick, Since) {
    var elapsed := SubTicks(c.tick, since.entering);
    if wait == MAX_DELAY then (false, wait, since)
    else if c.overflows != since.overflows && c.tick >= since.entering then (true, 0, since)
    else if elapsed < wait then (false, wait - elapsed, SetTimeOut(c))
    else (true, 0, since)
  }

  /** Two wraps of the count look like one if the count has not come round to where it
      was: such a wait is misjudged, and no other, unless what the count shows is enough
      by itself. */
  predicate TwiceRound(c: Clock, since: Since) {
    c.overflows >= since.overflows + 2 && c.tick < since.entering
  }

  /** A finite wait is reported over if and only if that much true time has passed,
      except in the one case in which the count has gone round twice unseen. */
  lemma CheckExactIff(c: Clock, since: Since, wait: Tick)
    requires since.Time() <= c.Now() && wait < MAX_DELAY
    ensures (Check(c, since, wait).0 <==> c.Now() - since.Time() >= wait) <==>
            !(TwiceRound(c, since) && SubTicks(c.tick, since.entering) < wait)
  {
    if c.overflows > since.overflows + 1 { assert Epoch(c.overflows) >= Epoch(since.overflows) + 2 * TICKS; }
    if c.overflows == since.overflows + 1 { assert Epoch(c.overflows) == Epoch(since.overflows) + TICKS; }
  }

  /** Such a check: the count has passed zero twice since it stood at 2^31. */
  lemma TwiceRoundMisjudged(c: Clock, since: Since)
    requires c.overflows == 2 && c.tick == 0 && since == Since(0, 0x8000_0000)
    ensures TwiceRound(c, since) && !Check(c, since, 0x8000_0005).0 && c.Now() - since.Time() > 0x8000_0005
  {
    assert Epoch(2) == 2 * TICKS;
  }

  /** What is left after a check is what was left before, less the true time in between. */
  lemma CheckRemaining(c: Clock, since: Since, wait: Tick)
    requires since.Time() <= c.Now() && wait < MAX_DELAY && c.overflows <= since.overflows + 1
    ensures var (timedOut, left, next) := Check(c, since, wait);
            && (timedOut <==> c.Now() - since.Time() >= wait)
            && (!timedOut ==> next.Time() == c.Now() && left == wait - (c.Now() - since.Time()) && 0 < left < MAX_DELAY)
  {
    CheckExactIff(c, since, wait);
    if c.overflows == since.overflows + 1 { assert Epoch(c.overflows) == Epoch(since.overflows) + TICKS; }
  }

  /** A blocking call checks each time it wakes up, and gives up at the first time-out. */
  function Checks(times: seq<Clock>, since: Since, wait: Tick): (bool, Tick, Since)
    decreases |times|
  {
    if times == [] then (false, wait, since) else
      var (timedOut, left, next) := Check(times[0], since, wait);
      if timedOut then (true, left, next) else Checks(times[1..], next, left)
  }

  /** The checks come in time, less than two wraps apart. */
  predicate Regular(times: seq<Clock>, since: Since) {
    times != [] ==>
      && since.Time() <= times[0].Now() && times[0].overflows <= since.overflows + 1
      && Regular(times[1..], SetTimeOut(times[0]))
  }

  /** Over any number of wake-ups: as long as the wait goes on, what is left and the true
      time that has passed make up what was asked for; and it is over at the first check
      at or after the deadline, not before. */
  lemma {:induction false} WaitsExactly(times: seq<Clock>, since: Since, wait: Tick)
    requires wait < MAX_DELAY && Regular(times, since)
    ensures var (timedOut, left, next) := Checks(times, since, wait);
            && (timedOut <==> exists i :: 0 <= i < |times| && times[i].Now() >= since.Time() + wait)
            && (!timedOut ==> left + (next.Time() - since.Time()) == wait)
            && (!timedOut && times != [] ==> next.Time() == times[|times| - 1].Now())
    decreases |times|
  {
    if times != [] {
      CheckRemaining(times[0], since, wait);
      var (timedOut, left, next) := Check(times[0], since, wait);
      if !timedOut {
        WaitsExactly(times[1..], next, left);
        if i :| 0 <= i < |times| && times[i].Now() >= since.Time() + wait { assert times[i] == times[1..][i - 1]; }
        if i :| 0 <= i < |times[1..]| && times[1..][i].Now() >= next.Time() + left { assert times[i + 1] == times[1..][i]; }
      }
    }
  }

  /** The largest wait is no wait at all: it never runs out. */
  lemma {:induction false} NeverTimesOut(times: seq<Clock>, since: Since)
    ensures !Checks(times, since, MAX_DELAY).0
    decreases |times|
  {
    if times != [] { NeverTimesOut(times[1..], since); }
  }

  // ---------------------------------------------------------------- fixed intervals

  /** The next wake time, and whether to sleep for it, from the wrapped times alone. */
  function DelayUntil(tick: Tick, previous: Tick, increment: Tick): (Tick, bool) {
    var wake := AddTicks(previous, increment);
    (wake,
     if tick < previous then wake < previous && wake > tick
     else wake < previous || wake > tick)
  }

  /** The wake time is the previous one plus the increment in true time, and the task
      sleeps if and only if that is in the future, if and only if it is called within one
      wrap of its previous wake time or looks late anyway. */
  lemma DelayUntilExactIff(previous: nat, increment: Tick, now: nat)
    requires previous <= now && increment > 0
    ensures var (wake, sleep) := DelayUntil(Low(now), Low(previous), increment);
            && wake == Low(previous + increment)
            && ((sleep <==> previous + increment > now) <==>
                now - previous < TICKS || SubTicks(Low(now), Low(previous)) >= increment)
  {
    LowAdd(previous, increment);
    SleepIff(Low(now), Low(previous), increment);
    if now - previous < TICKS { LowSub(now, previous); }
  }

  /** A call that comes a wrap late: the task sleeps although its time has long passed. */
  lemma LateCallMisjudged()
    ensures DelayUntil(Low(TICKS), Low(0), 10).1 && 0 + 10 < TICKS
  {
    assert Low(TICKS) == Low(0) == 0;
  }

  lemma SleepIff(tick: Tick, previous: Tick, increment: Tick)
    requires increment > 0
    ensures DelayUntil(tick, previous, increment).1 <==> SubTicks(tick, previous) < increment
  {
  }

  /** And it then sleeps for just as long as it takes to get there. */
  lemma SleepsUntilWake(previous: nat, increment: Tick, now: nat)
    requires previous <= now < previous + TICKS && increment > 0 && previous + increment > now
    ensures SubTicks(DelayUntil(Low(now), Low(previous), increment).0, Low(now)) == previous + increment - now
  {
    LowAdd(previous, increment);
    LowSub(previous + increment, now);
  }

  /** In the kernel: a task that calls within one wrap of its previous wake time, and
      before its next one, is then asleep until exactly that. */
  lemma SleepsToNext(k: K, previous: nat, increment: Tick)
    requires Consistent(k) && CountReady(k.ready, k.current) > 0 && increment > 0
    requires previous <= k.clock.Now() < previous + TICKS && k.clock.Now() < previous + increment
    ensures var (wake, sleep) := DelayUntil(k.clock.tick, Low(previous), increment);
            && sleep && SubTicks(wake, k.clock.tick) > 0
            && PlaceOf(k.DelayCurrent(SubTicks(wake, k.clock.tick), false), k.current) == Asleep(previous + increment)
  {
    var now := k.clock.Now();
    LowEpoch(k.clock.overflows, now);
    DelayUntilExactIff(previous, increment, now);
    SleepsUntilWake(previous, increment, now);
    DelayPlaces(k, SubTicks(DelayUntil(k.clock.tick, Low(previous), increment).0, k.clock.tick), false, k.current);
  }

  /** A task that calls at the given true times, always with the same increment. */
  function WakeTimes(times: seq<nat>, previous: Tick, increment: Tick): seq<Tick> {
    if times == [] then [] else
      var wake := DelayUntil(Low(times[0]), previous, increment).0;
      [wake] + WakeTimes(times[1..], wake, increment)
  }

  /** Whenever it calls, its wake times are those of an exact arithmetic progression. */
  lemma {:induction false} NoDrift(times: seq<nat>, start: nat, increment: Tick, k: nat)
    requires k < |times|
    ensures |WakeTimes(times, Low(start), increment)| == |times|
    ensures WakeTimes(times, Low(start), increment)[k] == Low(start + (k + 1) * increment)
    decreases |times|
  {
    LowAdd(start, increment);
    WakeTimesLength(times, Low(start), increment);
    if k > 0 {
      NoDrift(times[1..], start + increment, increment, k - 1);
      OneMore(k, increment);
    }
  }

  lemma OneMore(k: nat, increment: nat)
    ensures increment + k * increment == (k + 1) * increment
  {
  }

  lemma {:induction false} WakeTimesLength(times: seq<nat>, previous: Tick, increment: Tick)
    ensures |WakeTimes(times, previous, increment)| == |times|
    decreases |times|
  {
    if times != [] { WakeTimesLength(times[1..], DelayUntil(Low(times[0]), previous, increment).0, increment); }
  }

  // ---------------------------------------------------------------- the kernel calls

  class TimeOut {
    var overflowCount: nat
    var timeOnEntering: Tick

    ghost function View(): Since
      reads this
    {
      Since(overflowCount, timeOnEntering)
    }

    constructor (kernel: Kernel)
      ensures View() == SetTimeOut(kernel.Time())
    {
      overflowCount, timeOnEntering := kernel.numOfOverflows, kernel.tickCount;
    }

    method SetTimeOutState(kernel: Kernel)
      modifies this
      ensures View() == SetTimeOut(kernel.Time())
    {
      overflowCount := kernel.numOfOverflows;
      timeOnEntering := kernel.tickCount;
    }

    method CheckForTimeOut(kernel: Kernel, ticksToWait: Tick) returns (timedOut: bool, left: Tick)
      modifies this
      ensures (timedOut, left, View()) == Check(kernel.Time(), old(View()), ticksToWait)
    {
      var constTickCount := kernel.tickCount;
      var elapsedTime := SubTicks(constTickCount, timeOnEntering);
      left := ticksToWait;
      if ticksToWait == MAX_DELAY {
        timedOut := false;
      } else if kernel.numOfOverflows != overflowCount && constTickCount >= timeOnEntering {
        timedOut := true;
        left := 0;
      } else if elapsedTime < ticksToWait {
        left := ticksToWait - elapsedTime;
        SetTimeOutState(kernel);
        timedOut := false;
      } else {
        left := 0;
        timedOut := true;
      }
    }
  }

  /** Puts the running task to sleep until the next of its wake times, if that is still to
      come. */
  method TaskDelayUntil(kernel: Kernel, previousWakeTime: Tick, timeIncrement: Tick)
    returns (wakeTime: Tick, shouldDelay: bool)
    requires kernel.View().Shaped() && kernel.View().Known(kernel.currentTcb) && timeIncrement > 0
    modifies kernel
    ensures (wakeTime, shouldDelay) == DelayUntil(old(kernel.tickCount), previousWakeTime, timeIncrement)
    ensures kernel.View() ==
              if shouldDelay then old(kernel.View()).DelayCurrent(SubTicks(wakeTime, old(kernel.tickCount)), false)
              else old(kernel.View())
  {
    var constTickCount := kernel.tickCount;
    var timeToWake := AddTicks(previousWakeTime, timeIncrement);
    shouldDelay := false;
    if constTickCount < previousWakeTime {
      if timeToWake < previousWakeTime && timeToWake > constTickCount {
        shouldDelay := true;
      }
    } else {
      if timeToWake < previousWakeTime || timeToWake > constTickCount {
        shouldDelay := true;
      }
    }
    wakeTime := timeToWake;
    if shouldDelay {
      kernel.AddCurrentTaskToDelayedList(SubTicks(timeToWake, constTickCount), false);
    }
  }
}
