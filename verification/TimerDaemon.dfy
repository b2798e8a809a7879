/** The timer service task as an object: its two lists, the last time it looked, and the
    timers.  The loops of timers.c are loops here; each method does to the daemon's state
    what the function of Timers does. */
module TimerDaemons {
  import opened Common
  import opened Lists
  import opened Clocks
  import opened Tasks
  import opened Timers

  class TimerDaemon {
    var timers: map<TimerId, Timer>
    var currentTimerList: seq<Entry<TimerId>>
    var overflowTimerList: seq<Entry<TimerId>>
    var lastTime: Tick
    ghost var story: map<TimerId, Story>
    ghost var epoch: nat

    ghost function View(): Daemon
      reads this
    {
      Daemon(timers, story, currentTimerList, overflowTimerList, lastTime, epoch)
    }

    /** Two empty lists. */
    constructor ()
      ensures View() == Daemon(map[], map[], [], [], 0, 0)
    {
      timers, currentTimerList, overflowTimerList, lastTime, story, epoch := map[], [], [], 0, map[], 0;
    }

    /** Where a timer's callback would be called. */
    method CallBack(id: TimerId)
      requires View().Has(id)
      modifies this`story
      ensures View() == old(View()).Fire(id)
    {
      story := story[id := story[id].(fired := story[id].fired + 1)];
    }

    method InsertTimerInActiveList(id: TimerId, nextExpiryTime: Tick, timeNow: Tick, commandTime: Tick)
      returns (processTimerNow: bool)
      requires View().Has(id)
      modifies this`currentTimerList, this`overflowTimerList
      ensures (View(), processTimerNow) == old(View()).Insert(id, nextExpiryTime, timeNow, commandTime)
    {
      processTimerNow := false;
      if nextExpiryTime <= timeNow {
        if SubTicks(timeNow, commandTime) >= timers[id].period {
          processTimerNow := true;
        } else {
          overflowTimerList := InsertSorted(overflowTimerList, Entry(nextExpiryTime, id));
        }
      } else {
        if timeNow < commandTime && nextExpiryTime >= commandTime {
          processTimerNow := true;
        } else {
          currentTimerList := InsertSorted(currentTimerList, Entry(nextExpiryTime, id));
        }
      }
    }

    method ReloadTimer(id: TimerId, expiredTime: Tick, timeNow: Tick)
      requires View().Has(id)
      modifies this`story, this`currentTimerList, this`overflowTimerList
      ensures View() == old(View()).Reload(id, expiredTime, timeNow)
    {
      ghost var reloaded := View().Reload(id, expiredTime, timeNow);
      var period := timers[id].period;
      var expired := expiredTime;
      AlreadyDueIff(timeNow, expired, period);
      var due := InsertTimerInActiveList(id, AddTicks(expired, period), timeNow, expired);
      while due
        invariant View().Has(id) && timers == old(timers)
        invariant due ==> SubTicks(timeNow, expired) >= period
        invariant due ==> View().Fire(id).Reload(id, AddTicks(expired, period), timeNow) == reloaded
        invariant !due ==> View() == reloaded
        decreases due, SubTicks(timeNow, expired)
      {
        expired := AddTicks(expired, period);
        CallBack(id);
        AlreadyDueIff(timeNow, expired, period);
        due := InsertTimerInActiveList(id, AddTicks(expired, period), timeNow, expired);
      }
    }

    /** Reloads or retires a timer that has expired, then calls back. */
    method ExpireTimer(id: TimerId, expiredTime: Tick, timeNow: Tick)
      requires View().Has(id)
      modifies this
      ensures View() == old(View()).Expire(id, expiredTime, timeNow)
    {
      if timers[id].autoReload {
        ReloadTimer(id, expiredTime, timeNow);
      } else {
        timers := timers[id := timers[id].(active := false)];
      }
      CallBack(id);
    }

    method ProcessExpiredTimer(nextExpireTime: Tick, timeNow: Tick)
      requires currentTimerList != [] && currentTimerList[0].value == nextExpireTime
      requires View().Has(currentTimerList[0].owner)
      modifies this
      ensures View() == old(View()).ProcessExpired(timeNow)
    {
      var id := currentTimerList[0].owner;
      currentTimerList := currentTimerList[1..];
      ExpireTimer(id, nextExpireTime, timeNow);
    }

    method SwitchTimerLists()
      requires View().AllKnown()
      modifies this
      ensures View() == old(View()).Switch()
    {
      ghost var finished := View().Finish();
      while currentTimerList != []
        invariant View().AllKnown() && View().Finish() == finished
        decreases |currentTimerList|
      {
        assert currentTimerList[0] in currentTimerList;
        var nextExpireTime := currentTimerList[0].value;
        ProcessExpiredTimer(nextExpireTime, MAX_DELAY);
      }
      var temp := currentTimerList;
      currentTimerList := overflowTimerList;
      overflowTimerList := temp;
      epoch := epoch + 1;
    }

    method SampleTimeNow(now: Tick) returns (timerListsWereSwitched: bool)
      requires View().AllKnown()
      modifies this
      ensures View() == old(View()).Sample(now) && (timerListsWereSwitched <==> now < old(lastTime))
    {
      if now < lastTime {
        SwitchTimerLists();
        timerListsWereSwitched := true;
      } else {
        timerListsWereSwitched := false;
      }
      lastTime := now;
    }

    /** One round of the service task's loop, at true time `n`, of which it sees the tick
        count; blocking until there is something to do is left out. */
    method ProcessTimerOrBlockTask(now: Tick, ghost n: nat)
      requires View().AllKnown() && now == Low(n)
      modifies this
      ensures View() == old(View()).Round(n)
    {
      var listWasEmpty := currentTimerList == [];
      var nextExpireTime := if listWasEmpty then 0 else currentTimerList[0].value;
      var switched := SampleTimeNow(now);
      if !switched {
        if !listWasEmpty && nextExpireTime <= now {
          assert currentTimerList[0] in currentTimerList;
          ProcessExpiredTimer(nextExpireTime, now);
        }
      }
    }

    /** Starts or restarts a timer by a command sent at true time `at`. */
    method StartTimer(id: TimerId, messageValue: Tick, ghost at: nat, now: Tick, ghost n: nat)
      requires View().Has(id) && messageValue == Low(at) && now == Low(n)
      modifies this
      ensures View() == old(View()).StartAt(id, at, n)
    {
      timers := timers[id := timers[id].(active := true)];
      story := story[id := Story(at, 0, false)];
      var expiry := AddTicks(messageValue, timers[id].period);
      var due := InsertTimerInActiveList(id, expiry, now, messageValue);
      if due {
        ExpireTimer(id, expiry, now);
      }
    }

    method StopTimer(id: TimerId)
      requires View().Has(id)
      modifies this
      ensures View() == old(View()).Stop(id)
    {
      timers := timers[id := timers[id].(active := false)];
      story := story[id := story[id].(stopped := true)];
    }

    /** Obeys one command. */
    method ProcessCommand(m: Message, now: Tick, ghost n: nat)
      requires View().AllKnown() && View().Has(m.id) && (m.Change? ==> m.period > 0) && now == Low(n)
      modifies this
      ensures View() == old(View()).Obey(m, n)
    {
      View().UnlistKnown(m.id);
      currentTimerList := DropEntry(currentTimerList, m.id);
      overflowTimerList := DropEntry(overflowTimerList, m.id);
      assert View().Has(m.id);
      var switched := SampleTimeNow(now);
      match m
      case Start(id, at) =>
        StartTimer(id, Low(at), at, now, n);
      case Halt(id) =>
        StopTimer(id);
      case Change(id, period) =>
        timers := timers[id := timers[id].(active := true, period := period)];
        story := story[id := Story(n, 0, false)];
        var due := InsertTimerInActiveList(id, AddTicks(now, period), now, now);
      case Remove(id) =>
        if timers[id].isStatic {
          StopTimer(id);
        } else {
          timers := timers - {id};
          story := story - {id};
        }
    }

    /** One command of a run. */
    method ProcessNextCommand(e: Event, ghost n: nat)
      requires e.Command? && Inv(View(), n, {}) && lastTime == Low(n) && Happens(View(), n, e)
      modifies this
      ensures old(Inv(View(), n, {})) && old(View()).last == Low(n) && View() == Next(old(View()), n, e)
      ensures Inv(View(), e.time, {}) && lastTime == Low(e.time)
    {
      InvKnown(View(), n, {});
      NextInv(View(), n, e);
      ProcessCommand(e.m, Low(e.time), e.time);
    }

    /** Empties the command queue.  The clock goes on while it does: each command comes
        with the true time at which it is obeyed. */
    method ProcessReceivedCommands(queue: seq<Event>, ghost start: nat)
      requires forall i | 0 <= i < |queue| :: queue[i].Command?
      requires Inv(View(), start, {}) && lastTime == Low(start) && Run(View(), start, queue).0
      modifies this
      ensures Inv(old(View()), start, {}) && old(lastTime) == Low(start)
      ensures View() == Run(old(View()), start, queue).1
    {
      ghost var end := Run(View(), start, queue);
      var left := queue;
      ghost var n := start;
      while left != []
        invariant forall i | 0 <= i < |left| :: left[i].Command?
        invariant Inv(View(), n, {}) && lastTime == Low(n)
        invariant Run(View(), n, left) == end && end.0
        decreases |left|
      {
        RunStep(View(), n, left);
        ProcessNextCommand(left[0], n);
        n := left[0].time;
        left := left[1..];
      }
    }

    static lemma RunStep(d: Daemon, n: nat, events: seq<Event>)
      requires Inv(d, n, {}) && d.last == Low(n) && events != [] && Run(d, n, events).0
      ensures Happens(d, n, events[0])
      ensures Inv(Next(d, n, events[0]), events[0].time, {}) && Next(d, n, events[0]).last == Low(events[0].time)
      ensures Run(d, n, events) == Run(Next(d, n, events[0]), events[0].time, events[1..])
    {
      NextInv(d, n, events[0]);
    }
  }
}
