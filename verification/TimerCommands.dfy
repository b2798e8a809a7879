/** What the timer commands do to the timer that they name, and for how long: a changed
    timer runs with its new period from the moment the command is obeyed; a stopped one is
    silent until it is started again; a deleted one is gone, or stopped if its memory is
    static; a new one rests. */
module TimerCommands {
  import opened Common
  import opened Lists
  import opened Clocks
  import opened Tasks
  import Partition
  import opened Timers

  // ---------------------------------------------------------------- a timer that is on no list

  /** Nothing at all has happened to the timer. */
  ghost predicate Untouched(d: Daemon, r: Daemon, u: TimerId) {
    && (u in r.timers <==> u in d.timers) && (u in r.story <==> u in d.story)
    && (u in d.timers ==> r.timers[u] == d.timers[u]) && (u in d.story ==> r.story[u] == d.story[u])
  }

  predicate OffCurrent(d: Daemon, u: TimerId) { forall i | 0 <= i < |d.current| :: d.current[i].owner != u }

  lemma {:induction false} ReloadOthers(d: Daemon, id: TimerId, expired: Tick, now: Tick, u: TimerId)
    requires d.Has(id) && u != id
    ensures Untouched(d, d.Reload(id, expired, now), u)
    decreases SubTicks(now, expired)
  {
    var expiry := AddTicks(expired, d.timers[id].period);
    AlreadyDueIff(now, expired, d.timers[id].period);
    if AlreadyDue(expiry, now, expired, d.timers[id].period) { ReloadOthers(d.Fire(id), id, expiry, now, u); }
  }

  lemma ExpireOthers(d: Daemon, id: TimerId, expired: Tick, now: Tick, u: TimerId)
    requires d.Has(id) && u != id
    ensures Untouched(d, d.Expire(id, expired, now), u)
  {
    if d.timers[id].autoReload { ReloadOthers(d, id, expired, now, u); }
  }

  lemma {:induction false} FinishOthers(d: Daemon, u: TimerId)
    requires d.AllKnown() && OffCurrent(d, u)
    ensures Untouched(d, d.Finish(), u)
    decreases |d.current|
  {
    if d.current != [] {
      assert d.current[0] in d.current;
      ExpireOthers(d.(current := d.current[1..]), d.current[0].owner, d.current[0].value, MAX_DELAY, u);
      FinishOthers(d.ProcessExpired(MAX_DELAY), u);
    }
  }

  lemma SampleOthers(d: Daemon, now: Tick, u: TimerId)
    requires d.AllKnown() && OffCurrent(d, u)
    ensures Untouched(d, d.Sample(now), u)
  {
    FinishOthers(d, u);
  }

  lemma RoundOthers(d: Daemon, n: nat, u: TimerId)
    requires d.AllKnown() && OffCurrent(d, u)
    ensures Untouched(d, d.Round(n), u)
  {
    SampleOthers(d, Low(n), u);
    if Low(n) >= d.last && d.current != [] && d.current[0].value <= Low(n) {
      assert d.current[0] in d.current;
      ExpireOthers(d.Sample(Low(n)).(current := d.current[1..]), d.current[0].owner, d.current[0].value, Low(n), u);
    }
  }

  lemma StartOthers(d: Daemon, id: TimerId, at: nat, n: nat, u: TimerId)
    requires d.Has(id) && u != id
    ensures Untouched(d, d.StartAt(id, at, n), u)
  {
    var t := d.timers[id].(active := true);
    var d1 := d.(timers := d.timers[id := t], story := d.story[id := Story(at, 0, false)]);
    var (d2, due) := d1.Insert(id, AddTicks(Low(at), t.period), Low(n), Low(at));
    if due { ExpireOthers(d2, id, AddTicks(Low(at), t.period), Low(n), u); }
  }

  lemma ApplyOthers(d: Daemon, m: Message, n: nat, u: TimerId)
    requires d.Has(m.id) && (m.Change? ==> m.period > 0) && u != m.id
    ensures Untouched(d, d.Apply(m, n), u)
  {
    if m.Start? { StartOthers(d, m.id, m.at, n, u); }
  }

  lemma ObeyOthers(d: Daemon, m: Message, n: nat, u: TimerId)
    requires d.AllKnown() && d.Has(m.id) && (m.Change? ==> m.period > 0) && u != m.id && OffCurrent(d, u)
    ensures Untouched(d, d.Obey(m, n), u)
  {
    d.UnlistKnown(m.id);
    UnlistOff(d, m.id, u);
    SampleOthers(d.Unlist(m.id), Low(n), u);
    var s := d.Unlist(m.id).Sample(Low(n));
    assert d.Unlist(m.id).Has(m.id);
    ApplyOthers(s, m, n, u);
  }

  lemma UnlistOff(d: Daemon, id: TimerId, u: TimerId)
    requires OffCurrent(d, u)
    ensures OffCurrent(d.Unlist(id), u)
  {
    DropEntrySubset(d.current, id);
    var r := d.Unlist(id);
    forall i | 0 <= i < |r.current| ensures r.current[i].owner != u { assert r.current[i] in d.current; }
  }

  /** A timer that is not active is on no list, and nothing happens to it unless a command
      names it. */
  lemma IdleOff(d: Daemon, n: nat, u: TimerId)
    requires Inv(d, n, {}) && (u in d.timers ==> !d.timers[u].active)
    ensures OffCurrent(d, u)
  {
    assert Listings(d, u) == 0;
    forall i | 0 <= i < |d.current| ensures d.current[i].owner != u { Partition.EntryCounted(d.current, d.current[i]); }
  }

  lemma NextOthers(d: Daemon, n: nat, e: Event, u: TimerId)
    requires Inv(d, n, {}) && d.last == Low(n) && Happens(d, n, e) && (e.Command? ==> e.m.id != u)
    requires u in d.timers && !d.timers[u].active
    ensures Untouched(d, Next(d, n, e), u)
  {
    InvKnown(d, n, {});
    IdleOff(d, n, u);
    match e
    case Look(time) => RoundOthers(d, time, u);
    case Command(m, time) => ObeyOthers(d, m, time, u);
    case New(_, _, _, _, _) =>
  }

  /** A timer at rest stays as it is, without a callback, through any run in which no
      command names it. */
  lemma {:induction false} RestsOn(d: Daemon, n: nat, events: seq<Event>, u: TimerId)
    requires Inv(d, n, {}) && d.last == Low(n) && Run(d, n, events).0 && NoCommandTo(events, u)
    requires u in d.timers && u in d.story && !d.timers[u].active
    ensures var r := Run(d, n, events).1;
            u in r.timers && u in r.story && r.timers[u] == d.timers[u] && r.story[u] == d.story[u]
    decreases |events|
  {
    if events != [] {
      NextInv(d, n, events[0]);
      var d1, n1 := Next(d, n, events[0]), events[0].time;
      RunOn(d, n, events, d1, n1);
      NextOthers(d, n, events[0], u);
      RestsOn(d1, n1, events[1..], u);
    }
  }

  // ---------------------------------------------------------------- stopping and deleting

  /** The timer that a command names, when the command is carried out. */
  lemma NamedUntouched(d: Daemon, n: nat, id: TimerId, later: nat)
    requires Inv(d, n, {}) && d.last == Low(n) && n <= later < n + TICKS && id in d.timers
    ensures d.AllKnown() && d.Has(id) && d.Unlist(id).AllKnown()
    ensures Untouched(d, d.Unlist(id).Sample(Low(later)), id)
  {
    SampledInv(d, n, later, id);
    UnlistInv(d, n, id);
    OffListed(d.Unlist(id), n, {id}, id);
    SampleOthers(d.Unlist(id), Low(later), id);
  }

  /** A stopped timer is at rest; it had no callback in between, and keeps what else it
      has. */
  lemma HaltSets(d: Daemon, n: nat, id: TimerId, later: nat)
    requires Inv(d, n, {}) && d.last == Low(n) && Happens(d, n, Command(Halt(id), later))
    ensures var r := Next(d, n, Command(Halt(id), later));
            && id in r.timers && id in r.story
            && r.timers[id] == d.timers[id].(active := false) && r.story[id] == d.story[id].(stopped := true)
  {
    NamedUntouched(d, n, id, later);
  }

  /** And so it is silent, until a command names it again. */
  lemma StoppedIsSilent(d: Daemon, n: nat, id: TimerId, later: nat, events: seq<Event>)
    requires Inv(d, n, {}) && d.last == Low(n) && Happens(d, n, Command(Halt(id), later))
    requires Inv(Next(d, n, Command(Halt(id), later)), later, {}) && Next(d, n, Command(Halt(id), later)).last == Low(later)
    requires Run(Next(d, n, Command(Halt(id), later)), later, events).0 && NoCommandTo(events, id)
    ensures var r := Run(Next(d, n, Command(Halt(id), later)), later, events).1;
            id in r.story && id in r.timers && r.story[id].fired == d.story[id].fired && !r.timers[id].active
  {
    HaltSets(d, n, id, later);
    RestsOn(Next(d, n, Command(Halt(id), later)), later, events, id);
  }

  /** A timer of allocated memory is gone, one of static memory is stopped. */
  lemma RemoveSets(d: Daemon, n: nat, id: TimerId, later: nat)
    requires Inv(d, n, {}) && d.last == Low(n) && Happens(d, n, Command(Remove(id), later))
    ensures var r := Next(d, n, Command(Remove(id), later));
            if d.timers[id].isStatic then
              && id in r.timers && id in r.story
              && r.timers[id] == d.timers[id].(active := false) && r.story[id] == d.story[id].(stopped := true)
            else id !in r.timers && id !in r.story && Listings(r, id) == 0
  {
    NamedUntouched(d, n, id, later);
    NextInv(d, n, Command(Remove(id), later));
    var r := Next(d, n, Command(Remove(id), later));
    assert Listings(r, id) == if id in r.timers && r.timers[id].active && id !in {} then 1 else 0;
  }

  // ---------------------------------------------------------------- changing the period

  /** The timer has its new period from the time of the command on, and is active,
      whatever it was before. */
  lemma ChangeSets(d: Daemon, n: nat, id: TimerId, period: Tick, later: nat)
    requires Inv(d, n, {}) && d.last == Low(n) && Happens(d, n, Command(Change(id, period), later))
    ensures var r := Next(d, n, Command(Change(id, period), later));
            && id in r.timers && id in r.story
            && r.timers[id] == Timer(period, d.timers[id].autoReload, d.timers[id].isStatic, true)
            && r.story[id] == Story(later, 0, false)
            && NextDue(r.timers[id], r.story[id]) == later + period
  {
    NamedUntouched(d, n, id, later);
  }

  /** Left alone from then on, its callbacks are those of an ideal timer with the new
      period that was started when the command was obeyed. */
  lemma ChangedTimerIsExact(d: Daemon, n: nat, id: TimerId, period: Tick, later: nat, events: seq<Event>, r: Daemon, m: nat)
    requires Inv(d, n, {}) && d.last == Low(n) && |events| > 0 && events[0] == Command(Change(id, period), later)
    requires forall i | 0 < i < |events| && events[i].Command? :: events[i].m.id != id
    requires Run(d, n, events) == (true, r, m) && Finished(r, m)
    ensures id in d.timers && id in r.timers && id in r.story
    ensures IdealAt(later, period, d.timers[id].autoReload, m, r.timers[id].active, r.story[id].fired)
  {
    ChangeSets(d, n, id, period, later);
    NextInv(d, n, events[0]);
    forall i | 0 <= i < |events[1..]| && events[1..][i].Command? ensures events[1..][i].m.id != id {
      assert events[1..][i] == events[i + 1];
    }
    LeftAlone(Next(d, n, events[0]), later, id, events[1..], r, m);
  }

  // ---------------------------------------------------------------- a new timer

  /** A new timer has what it was created with, and rests until a command names it. */
  lemma NewTimerRests(d: Daemon, n: nat, e: Event, events: seq<Event>)
    requires Inv(d, n, {}) && d.last == Low(n) && Happens(d, n, e) && e.New?
    requires Inv(Next(d, n, e), n, {}) && Next(d, n, e).last == Low(n)
    requires Run(Next(d, n, e), n, events).0 && NoCommandTo(events, e.id)
    ensures var r := Run(Next(d, n, e), n, events).1;
            && e.id in r.timers && e.id in r.story
            && r.timers[e.id] == Timer(e.period, e.autoReload, e.isStatic, false) && r.story[e.id].fired == 0
  {
    RestsOn(Next(d, n, e), n, events, e.id);
  }
}
