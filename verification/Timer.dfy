/** Software timers.  The daemon keeps active timers on two lists, for the present epoch
    of the tick count and the next, and may run late: commands wait in a queue, times
    wrap, and expirations pile up.  Proved: whatever the delays, a timer's callbacks are
    exactly those of an ideal timer in unbounded time, with no drift. */
module Timers {
  import opened Common
  import opened Lists
  import opened Clocks
  import opened Tasks
  import opened Partition

  type TimerId = nat

  datatype Timer = Timer(period: Tick, autoReload: bool, isStatic: bool, active: bool)

  /** What has happened to a timer in true time: when it was last started, how often its
      callback has been called since, and whether it has been stopped. */
  datatype Story = Story(base: nat, fired: nat, stopped: bool)

  // ---------------------------------------------------------------- has it expired already?

  /** The test on wrapped times that tells whether an expiry time, one period after a
      command time, has passed. */
  predicate AlreadyDue(expiry: Tick, now: Tick, command: Tick, period: Tick) {
    if expiry <= now then SubTicks(now, command) >= period
    else now < command && expiry >= command
  }

  lemma AlreadyDueIff(now: Tick, command: Tick, period: Tick)
    requires period > 0
    ensures AlreadyDue(AddTicks(command, period), now, command, period) <==> SubTicks(now, command) >= period
  {
  }

  // ---------------------------------------------------------------- the daemon's state

  /** `epoch` is the epoch of the current list; `last` the tick count when the daemon
      last looked. */
  datatype Daemon = Daemon(timers: map<TimerId, Timer>, story: map<TimerId, Story>,
                           current: seq<Entry<TimerId>>, overflow: seq<Entry<TimerId>>, last: Tick, epoch: nat)
  {
    predicate Has(id: TimerId) { id in timers && id in story && timers[id].period > 0 }

    predicate AllKnown() { forall e | e in current :: Has(e.owner) }

    /** A new timer is at rest. */
    function Create(id: TimerId, period: Tick, autoReload: bool, isStatic: bool): Daemon {
      this.(timers := timers[id := Timer(period, autoReload, isStatic, false)], story := story[id := Story(0, 0, true)])
    }

    /** Calls a timer's callback. */
    function Fire(id: TimerId): (d: Daemon)
      requires Has(id)
      ensures d.Has(id)
    {
      this.(story := story[id := story[id].(fired := story[id].fired + 1)])
    }

    /** Lists a timer for its expiry time, unless that has passed. */
    function Insert(id: TimerId, expiry: Tick, now: Tick, command: Tick): (r: (Daemon, bool))
      requires Has(id)
      ensures r.0.timers == timers && r.0.story == story
      ensures r.1 <==> AlreadyDue(expiry, now, command, timers[id].period)
    {
      if expiry <= now then
        if SubTicks(now, command) >= timers[id].period then (this, true)
        else (this.(overflow := InsertSorted(overflow, Entry(expiry, id))), false)
      else if now < command && expiry >= command then (this, true)
      else (this.(current := InsertSorted(current, Entry(expiry, id))), false)
    }

    /** Lists an auto-reload timer for its next expiry, with a callback for each one that
        has passed. */
    function Reload(id: TimerId, expired: Tick, now: Tick): (d: Daemon)
      requires Has(id)
      ensures d.timers == timers && d.story.Keys == story.Keys && d.last == last && d.epoch == epoch
      ensures now == MAX_DELAY ==> d.current == current
      decreases SubTicks(now, expired)
    {
      var expiry := AddTicks(expired, timers[id].period);
      var (d, due) := Insert(id, expiry, now, expired);
      AlreadyDueIff(now, expired, timers[id].period);
      if due then d.Fire(id).Reload(id, expiry, now) else d
    }

    function Deactivate(id: TimerId): (d: Daemon)
      requires Has(id)
      ensures d.Has(id)
    {
      this.(timers := timers[id := timers[id].(active := false)])
    }

    /** A timer that has expired is listed again or goes to rest; then comes its
        callback. */
    function Expire(id: TimerId, expired: Tick, now: Tick): (d: Daemon)
      requires Has(id)
      ensures forall u :: Has(u) ==> d.Has(u)
      ensures d.last == last && d.epoch == epoch
      ensures now == MAX_DELAY ==> d.current == current
    {
      if timers[id].autoReload then Reload(id, expired, now).Fire(id) else Deactivate(id).Fire(id)
    }

    /** Processes the first timer of the current list. */
    function ProcessExpired(now: Tick): (d: Daemon)
      requires current != [] && Has(current[0].owner)
      ensures forall u :: Has(u) ==> d.Has(u)
      ensures d.last == last && d.epoch == epoch
      ensures now == MAX_DELAY ==> d.current == current[1..]
    {
      this.(current := current[1..]).Expire(current[0].owner, current[0].value, now)
    }

    /** Processes all of the current list, as of the end of its epoch. */
    function Finish(): (d: Daemon)
      requires AllKnown()
      ensures forall u :: Has(u) ==> d.Has(u)
      ensures d.current == [] && d.last == last && d.epoch == epoch
      decreases |current|
    {
      if current == [] then this
      else
        assert current[0] in current;
        ProcessExpired(MAX_DELAY).Finish()
    }

    /** The epoch of the lists moves on. */
    function Switch(): (d: Daemon)
      requires AllKnown()
      ensures forall u :: Has(u) ==> d.Has(u)
    {
      var d := Finish();
      d.(current := d.overflow, overflow := d.current, epoch := d.epoch + 1)
    }

    /** Reads the tick count; if it has wrapped since the last time, the lists are
        switched. */
    function Sample(now: Tick): (d: Daemon)
      requires AllKnown()
      ensures forall u :: Has(u) ==> d.Has(u)
      ensures d.last == now
    {
      if now < last then Switch().(last := now) else this.(last := now)
    }

    /** Takes a timer off whichever list holds it. */
    function Unlist(id: TimerId): Daemon {
      this.(current := DropEntry(current, id), overflow := DropEntry(overflow, id))
    }

    /** One round of the daemon loop at true time `n`: the first timer is processed if
        it has expired. */
    function Round(n: nat): Daemon
      requires AllKnown()
    {
      var d := Sample(Low(n));
      if Low(n) >= last && current != [] && current[0].value <= Low(n) then
        assert current[0] in current;
        d.ProcessExpired(Low(n))
      else d
    }

    /** Starts or restarts a timer, by a command sent at true time `at`. */
    function StartAt(id: TimerId, at: nat, n: nat): Daemon
      requires Has(id)
    {
      var t := timers[id].(active := true);
      var d := this.(timers := timers[id := t], story := story[id := Story(at, 0, false)]);
      var expiry := AddTicks(Low(at), t.period);
      var (d1, due) := d.Insert(id, expiry, Low(n), Low(at));
      if due then d1.Expire(id, expiry, Low(n)) else d1
    }

    function Stop(id: TimerId): Daemon
      requires Has(id)
    {
      this.(timers := timers[id := timers[id].(active := false)], story := story[id := story[id].(stopped := true)])
    }

    /** A new period counts from the time of processing. */
    function ChangePeriod(id: TimerId, period: Tick, n: nat): Daemon
      requires Has(id) && period > 0
    {
      var t := timers[id].(active := true, period := period);
      var d := this.(timers := timers[id := t], story := story[id := Story(n, 0, false)]);
      d.Insert(id, AddTicks(Low(n), period), Low(n), Low(n)).0
    }

    /** A statically allocated timer is only stopped. */
    function Delete(id: TimerId): Daemon
      requires Has(id)
    {
      if timers[id].isStatic then Stop(id) else this.(timers := timers - {id}, story := story - {id})
    }

    function Apply(m: Message, n: nat): Daemon
      requires Has(m.id) && (m.Change? ==> m.period > 0)
    {
      match m
      case Start(id, at) => StartAt(id, at, n)
      case Halt(id) => Stop(id)
      case Change(id, period) => ChangePeriod(id, period, n)
      case Remove(id) => Delete(id)
    }

    /** Obeys one command at true time `n`. */
    function Obey(m: Message, n: nat): Daemon
      requires AllKnown() && Has(m.id) && (m.Change? ==> m.period > 0)
    {
      UnlistKnown(m.id);
      assert Unlist(m.id).Has(m.id);
      Unlist(m.id).Sample(Low(n)).Apply(m, n)
    }

    lemma UnlistKnown(id: TimerId)
      requires AllKnown()
      ensures Unlist(id).AllKnown()
    {
      DropEntrySubset(current, id);
    }
  }

  /** What an application may ask: `at` is the true time at which it asked, of which the
      message carries the tick count. */
  datatype Message =
    | Start(id: TimerId, at: nat)
    | Halt(id: TimerId)
    | Change(id: TimerId, period: Tick)
    | Remove(id: TimerId)

  // ---------------------------------------------------------------- the invariant

  /** `k` periods. */
  function Periods(k: nat, period: nat): nat { if k == 0 then 0 else Periods(k - 1, period) + period }

  /** When a timer's last callback was due, and when the next one is. */
  function LastDue(t: Timer, s: Story): nat { s.base + Periods(s.fired, t.period) }

  function NextDue(t: Timer, s: Story): nat { LastDue(t, s) + t.period }

  lemma OnePeriodApart(t: Timer, s: Story)
    ensures LastDue(t, s.(fired := s.fired + 1)) == NextDue(t, s)
  {
  }

  /** No callback has come early; a one-shot timer fires once and then rests, an
      auto-reload timer goes on until it is stopped. */
  ghost predicate TimerOk(t: Timer, s: Story, n: nat) {
    && (s.stopped ==> !t.active)
    && (!s.stopped ==> LastDue(t, s) <= n)
    && (!s.stopped && t.autoReload ==> t.active)
    && (!s.stopped && !t.autoReload ==> s.fired == if t.active then 0 else 1)
  }

  /** A list whose values are the true times at which its timers' callbacks are due, in
      the epoch that begins at `base`. */
  ghost predicate TrueTimes(d: Daemon, s: seq<Entry<TimerId>>, base: nat) {
    && Sorted(s)
    && forall i | 0 <= i < |s| ::
         && d.Has(s[i].owner) && d.timers[s[i].owner].active
         && base + s[i].value == NextDue(d.timers[s[i].owner], d.story[s[i].owner])
  }

  function Listings(d: Daemon, id: TimerId): nat { CountEntries(d.current, id) + CountEntries(d.overflow, id) }

  ghost predicate TimersOk(d: Daemon, n: nat, off: set<TimerId>)
    requires d.story.Keys == d.timers.Keys
  {
    && (forall id | id in d.timers :: d.timers[id].period > 0)
    && (forall id | id in d.timers && id !in off :: TimerOk(d.timers[id], d.story[id], n))
  }

  ghost predicate ListedOnce(d: Daemon, off: set<TimerId>) {
    forall id: TimerId :: Listings(d, id) == if id in d.timers && d.timers[id].active && id !in off then 1 else 0
  }

  /** The daemon's state at true time `n`; the timers in `off` are being worked on. */
  ghost predicate Inv(d: Daemon, n: nat, off: set<TimerId>) {
    && Epoch(d.epoch) <= n < Epoch(d.epoch + 1)
    && d.story.Keys == d.timers.Keys
    && TimersOk(d, n, off) && ListedOnce(d, off)
    && TrueTimes(d, d.current, Epoch(d.epoch)) && TrueTimes(d, d.overflow, Epoch(d.epoch + 1))
  }

  lemma InvKnown(d: Daemon, n: nat, off: set<TimerId>)
    requires Inv(d, n, off)
    ensures d.AllKnown() && forall id | id in d.timers :: d.Has(id)
  {
    forall e | e in d.current ensures d.Has(e.owner) { var i :| 0 <= i < |d.current| && d.current[i] == e; }
  }

  // ---------------------------------------------------------------- insertion in true time

  /** Insertion tells exactly whether the timer's time has passed, and otherwise lists
      it by the true epoch of its expiry. */
  lemma InsertTrue(d: Daemon, id: TimerId, c: nat, n: nat)
    requires d.Has(id) && Epoch(d.epoch) <= n < Epoch(d.epoch + 1) && c <= n < c + TICKS
    ensures var (r, due) := d.Insert(id, AddTicks(Low(c), d.timers[id].period), Low(n), Low(c));
            var x := c + d.timers[id].period;
            && (due <==> x <= n)
            && (due ==> r == d)
            && (n < x < Epoch(d.epoch + 1) ==>
                  r == d.(current := InsertSorted(d.current, Entry(Low(x), id))) && Epoch(d.epoch) + Low(x) == x)
            && (x >= Epoch(d.epoch + 1) ==>
                  r == d.(overflow := InsertSorted(d.overflow, Entry(Low(x), id))) && Epoch(d.epoch + 1) + Low(x) == x)
  {
    var x := c + d.timers[id].period;
    LowAdd(c, d.timers[id].period);
    LowSub(n, c);
    LowEpoch(d.epoch, n);
    AlreadyDueIff(Low(n), Low(c), d.timers[id].period);
    if n < x < Epoch(d.epoch + 1) { LowEpoch(d.epoch, x); }
    if x >= Epoch(d.epoch + 1) { LowEpoch(d.epoch + 1, x); }
  }

  // ---------------------------------------------------------------- every operation keeps the invariant

  lemma InsertTrueTimes(d: Daemon, s: seq<Entry<TimerId>>, base: nat, e: Entry<TimerId>)
    requires TrueTimes(d, s, base) && d.Has(e.owner) && d.timers[e.owner].active
    requires base + e.value == NextDue(d.timers[e.owner], d.story[e.owner])
    ensures TrueTimes(d, InsertSorted(s, e), base)
  {
    InsertSortedOrder(s, e);
    InsertSortedBounds(s, e);
    var r := InsertSorted(s, e);
    forall i | 0 <= i < |r| && r[i] != e
      ensures d.Has(r[i].owner) && d.timers[r[i].owner].active
      ensures base + r[i].value == NextDue(d.timers[r[i].owner], d.story[r[i].owner])
    {
      var j :| 0 <= j < |s| && s[j] == r[i];
    }
  }

  /** Listing a timer that is being worked on. */
  lemma InsertInv(d: Daemon, n: nat, off: set<TimerId>, id: TimerId, c: nat)
    requires Inv(d, n, off) && id in off && id in d.timers && d.timers[id].active
    requires c <= n < c + TICKS && c + d.timers[id].period == NextDue(d.timers[id], d.story[id]) > n
    requires TimerOk(d.timers[id], d.story[id], n)
    ensures Inv(d.Insert(id, AddTicks(Low(c), d.timers[id].period), Low(n), Low(c)).0, n, off - {id})
  {
    InsertTrue(d, id, c, n);
    var e := Entry(Low(c + d.timers[id].period), id);
    if c + d.timers[id].period < Epoch(d.epoch + 1) { InsertCurrentInv(d, n, off, e); } else { InsertOverflowInv(d, n, off, e); }
  }

  lemma InsertCurrentInv(d: Daemon, n: nat, off: set<TimerId>, e: Entry<TimerId>)
    requires Inv(d, n, off) && e.owner in off && d.Has(e.owner) && d.timers[e.owner].active
    requires Epoch(d.epoch) + e.value == NextDue(d.timers[e.owner], d.story[e.owner])
    requires TimerOk(d.timers[e.owner], d.story[e.owner], n)
    ensures Inv(d.(current := InsertSorted(d.current, e)), n, off - {e.owner})
  {
    var r := d.(current := InsertSorted(d.current, e));
    InsertTrueTimes(d, d.current, Epoch(d.epoch), e);
    forall u: TimerId ensures Listings(r, u) == Listings(d, u) + if u == e.owner then 1 else 0 {
      CountInsertSorted(d.current, e, u);
    }
  }

  lemma InsertOverflowInv(d: Daemon, n: nat, off: set<TimerId>, e: Entry<TimerId>)
    requires Inv(d, n, off) && e.owner in off && d.Has(e.owner) && d.timers[e.owner].active
    requires Epoch(d.epoch + 1) + e.value == NextDue(d.timers[e.owner], d.story[e.owner])
    requires TimerOk(d.timers[e.owner], d.story[e.owner], n)
    ensures Inv(d.(overflow := InsertSorted(d.overflow, e)), n, off - {e.owner})
  {
    var r := d.(overflow := InsertSorted(d.overflow, e));
    InsertTrueTimes(d, d.overflow, Epoch(d.epoch + 1), e);
    forall u: TimerId ensures Listings(r, u) == Listings(d, u) + if u == e.owner then 1 else 0 {
      CountInsertSorted(d.overflow, e, u);
    }
  }

  /** What happens to a timer that is being worked on does not matter yet. */
  lemma OffInv(d: Daemon, r: Daemon, n: nat, off: set<TimerId>, id: TimerId)
    requires Inv(d, n, off) && id in off && d.Has(id) && r.Has(id)
    requires r == d.(timers := d.timers[id := r.timers[id]], story := d.story[id := r.story[id]])
    ensures Inv(r, n, off)
  {
    forall u: TimerId ensures Listings(r, u) == if u in r.timers && r.timers[u].active && u !in off then 1 else 0 {
      assert Listings(d, u) == if u in d.timers && d.timers[u].active && u !in off then 1 else 0;
    }
    OffListed(d, n, off, id);
  }

  lemma OffListed(d: Daemon, n: nat, off: set<TimerId>, id: TimerId)
    requires Inv(d, n, off) && id in off
    ensures forall i | 0 <= i < |d.current| :: d.current[i].owner != id
    ensures forall i | 0 <= i < |d.overflow| :: d.overflow[i].owner != id
  {
    assert Listings(d, id) == 0;
    forall i | 0 <= i < |d.current| ensures d.current[i].owner != id { EntryCounted(d.current, d.current[i]); }
    forall i | 0 <= i < |d.overflow| ensures d.overflow[i].owner != id { EntryCounted(d.overflow, d.overflow[i]); }
  }

  lemma ReloadIs(d: Daemon, id: TimerId, expired: Tick, now: Tick, expiry: Tick, r: Daemon)
    requires d.Has(id) && expiry == AddTicks(expired, d.timers[id].period) && r == d.Reload(id, expired, now)
    ensures AlreadyDue(expiry, now, expired, d.timers[id].period) ==>
              d.Insert(id, expiry, now, expired).0 == d && r == d.Fire(id).Reload(id, expiry, now)
    ensures !AlreadyDue(expiry, now, expired, d.timers[id].period) ==> r == d.Insert(id, expiry, now, expired).0
  {
  }

  lemma DueTrue(c: nat, n: nat, period: Tick)
    requires period > 0 && c <= n < c + TICKS
    ensures AlreadyDue(Low(c + period), Low(n), Low(c), period) <==> c + period <= n
    ensures Low(c + period) == AddTicks(Low(c), period)
  {
    LowAdd(c, period);
    LowSub(n, c);
    AlreadyDueIff(Low(n), Low(c), period);
  }

  lemma ReloadStep(d: Daemon, n: nat, id: TimerId, c: nat, x: nat, r: Daemon)
    requires d.Has(id) && c <= n < c + TICKS
    requires x == c + d.timers[id].period && r == d.Reload(id, Low(c), Low(n))
    ensures x <= n ==> r == d.Fire(id).Reload(id, Low(x), Low(n))
    ensures x > n ==> r == d.Insert(id, AddTicks(Low(c), d.timers[id].period), Low(n), Low(c)).0
  {
    DueTrue(c, n, d.timers[id].period);
    ReloadIs(d, id, Low(c), Low(n), Low(x), r);
  }

  /** Reloading calls back for every expiry that has passed and lists the timer for the
      first that has not.  The callback for `c` itself counts as made. */
  lemma {:induction false} ReloadInv(d: Daemon, n: nat, off: set<TimerId>, id: TimerId, c: nat, r: Daemon)
    requires Inv(d, n, off) && Reloading(d, id, c) && id in off && c <= n < c + TICKS
    requires r == d.Reload(id, Low(c), Low(n))
    ensures Inv(r, n, off - {id})
    decreases n - c
  {
    var x := c + d.timers[id].period;
    ReloadStep(d, n, id, c, x, r);
    if x <= n {
      FireReloading(d, n, off, id, c);
      ReloadInv(d.Fire(id), n, off, id, x, r);
    } else {
      InsertInv(d, n, off, id, c);
    }
  }

  /** An auto-reload timer called back last for the true time `c`. */
  ghost predicate Reloading(d: Daemon, id: TimerId, c: nat) {
    && d.Has(id) && d.timers[id].active && d.timers[id].autoReload && !d.story[id].stopped
    && c == LastDue(d.timers[id], d.story[id])
  }

  lemma FireReloading(d: Daemon, n: nat, off: set<TimerId>, id: TimerId, c: nat)
    requires Inv(d, n, off) && Reloading(d, id, c) && id in off
    ensures Inv(d.Fire(id), n, off) && Reloading(d.Fire(id), id, c + d.timers[id].period)
  {
    OnePeriodApart(d.timers[id], d.story[id]);
    OffInv(d, d.Fire(id), n, off, id);
  }

  /** The callback commutes with the reload that comes before it. */
  lemma {:induction false} FireReload(d: Daemon, id: TimerId, expired: Tick, now: Tick)
    requires d.Has(id)
    ensures d.Reload(id, expired, now).Fire(id) == d.Fire(id).Reload(id, expired, now)
    decreases SubTicks(now, expired)
  {
    var expiry := AddTicks(expired, d.timers[id].period);
    AlreadyDueIff(now, expired, d.timers[id].period);
    if AlreadyDue(expiry, now, expired, d.timers[id].period) {
      FireReload(d.Fire(id), id, expiry, now);
    }
  }

  /** A timer that rests is on no list. */
  lemma RestInv(d: Daemon, n: nat, off: set<TimerId>, id: TimerId)
    requires Inv(d, n, off) && id in d.timers && !d.timers[id].active && TimerOk(d.timers[id], d.story[id], n)
    ensures Inv(d, n, off - {id})
  {
    forall u: TimerId ensures Listings(d, u) == if u in d.timers && d.timers[u].active && u !in off - {id} then 1 else 0 {
      assert Listings(d, u) == if u in d.timers && d.timers[u].active && u !in off then 1 else 0;
    }
  }

  /** A timer whose time has come, when it reloads. */
  lemma ExpireAutoInv(d: Daemon, n: nat, off: set<TimerId>, id: TimerId, x: nat, r: Daemon)
    requires Inv(d, n, off) && id in off && d.Has(id) && d.timers[id].active && d.timers[id].autoReload && !d.story[id].stopped
    requires x == NextDue(d.timers[id], d.story[id]) && x <= n < x + TICKS
    requires r == d.Reload(id, Low(x), Low(n)).Fire(id)
    ensures Inv(r, n, off - {id})
  {
    FireReload(d, id, Low(x), Low(n));
    FireReloading(d, n, off, id, LastDue(d.timers[id], d.story[id]));
    ReloadInv(d.Fire(id), n, off, id, x, r);
  }

  /** And when it fires once. */
  lemma ExpireOnceInv(d: Daemon, n: nat, off: set<TimerId>, id: TimerId)
    requires Inv(d, n, off) && id in off && d.Has(id) && !d.timers[id].autoReload && !d.story[id].stopped
    requires d.story[id].fired == 0 && NextDue(d.timers[id], d.story[id]) <= n
    ensures Inv(d.Deactivate(id).Fire(id), n, off - {id})
  {
    OnePeriodApart(d.timers[id], d.story[id]);
    OffInv(d, d.Deactivate(id).Fire(id), n, off, id);
    RestInv(d.Deactivate(id).Fire(id), n, off, id);
  }

  lemma ExpireInv(d: Daemon, n: nat, off: set<TimerId>, id: TimerId, x: nat, expired: Tick, r: Daemon)
    requires Inv(d, n, off) && id in off && d.Has(id) && d.timers[id].active && !d.story[id].stopped
    requires !d.timers[id].autoReload ==> d.story[id].fired == 0
    requires x == NextDue(d.timers[id], d.story[id]) && x <= n < x + TICKS
    requires expired == Low(x) && r == d.Expire(id, expired, Low(n))
    ensures Inv(r, n, off - {id})
  {
    if d.timers[id].autoReload {
      ExpireAutoInv(d, n, off, id, x, r);
    } else {
      ExpireOnceInv(d, n, off, id);
    }
  }

  /** Taking the first timer off the current list. */
  lemma HeadOff(d: Daemon, n: nat, off: set<TimerId>)
    requires Inv(d, n, off) && d.current != []
    ensures d.Has(d.current[0].owner) && Inv(d.(current := d.current[1..]), n, off + {d.current[0].owner})
    ensures d.current[0].owner !in off && TimerOk(d.timers[d.current[0].owner], d.story[d.current[0].owner], n)
  {
    var id := d.current[0].owner;
    var d1 := d.(current := d.current[1..]);
    assert Listings(d, id) >= 1;
    forall u: TimerId ensures Listings(d1, u) == if u in d1.timers && d1.timers[u].active && u !in off + {id} then 1 else 0 {
      assert Listings(d, u) == if u in d.timers && d.timers[u].active && u !in off then 1 else 0;
    }
  }

  lemma ProcessExpiredInv(d: Daemon, n: nat, off: set<TimerId>, r: Daemon)
    requires Inv(d, n, off) && d.current != [] && d.current[0].value <= Low(n)
    requires d.Has(d.current[0].owner) && r == d.ProcessExpired(Low(n))
    ensures Inv(r, n, off)
  {
    var id := d.current[0].owner;
    HeadOff(d, n, off);
    HeadTime(d, n);
    ExpireInv(d.(current := d.current[1..]), n, off + {id}, id, Epoch(d.epoch) + d.current[0].value, d.current[0].value, r);
    assert off + {id} - {id} == off;
  }

  /** The value of a head entry is the tick count of its true time. */
  lemma HeadTime(d: Daemon, n: nat)
    requires Epoch(d.epoch) <= n < Epoch(d.epoch + 1) && d.current != [] && d.current[0].value <= Low(n)
    ensures Low(Epoch(d.epoch) + d.current[0].value) == d.current[0].value
    ensures Epoch(d.epoch) + d.current[0].value <= n < Epoch(d.epoch) + d.current[0].value + TICKS
  {
    LowEpoch(d.epoch, n);
    LowEpoch(d.epoch, Epoch(d.epoch) + d.current[0].value);
  }

  lemma {:induction false} FinishInv(d: Daemon, n: nat, off: set<TimerId>, r: Daemon)
    requires n == Epoch(d.epoch + 1) - 1 && Inv(d, n, off) && d.AllKnown() && r == d.Finish()
    ensures Inv(r, n, off)
    decreases |d.current|
  {
    if d.current != [] {
      LowEpoch(d.epoch, n);
      assert d.current[0] in d.current;
      ProcessExpiredInv(d, n, off, d.ProcessExpired(MAX_DELAY));
      InvKnown(d.ProcessExpired(MAX_DELAY), n, off);
      FinishInv(d.ProcessExpired(MAX_DELAY), n, off, r);
    }
  }

  lemma LaterInv(d: Daemon, n: nat, later: nat, off: set<TimerId>)
    requires Inv(d, n, off) && n <= later < Epoch(d.epoch + 1)
    ensures Inv(d, later, off)
  {
    forall id | id in d.timers && id !in off ensures TimerOk(d.timers[id], d.story[id], later) {
      assert TimerOk(d.timers[id], d.story[id], n);
    }
  }

  /** When the count has wrapped, what is left on the current list is processed as of
      the end of its epoch, and the lists move on to the next. */
  lemma SwitchInv(d: Daemon, n: nat, later: nat, off: set<TimerId>)
    requires Inv(d, n, off) && Epoch(d.epoch + 1) <= later < Epoch(d.epoch + 2)
    ensures d.AllKnown() && Inv(d.Switch(), later, off)
  {
    LaterInv(d, n, Epoch(d.epoch + 1) - 1, off);
    InvKnown(d, n, off);
    var f := d.Finish();
    FinishInv(d, Epoch(d.epoch + 1) - 1, off, f);
    var r := d.Switch();
    forall id | id in r.timers && id !in off ensures TimerOk(r.timers[id], r.story[id], later) {
      assert TimerOk(f.timers[id], f.story[id], Epoch(d.epoch + 1) - 1);
    }
    forall u: TimerId ensures Listings(r, u) == Listings(f, u) { }
  }

  /** Looking at the clock at least once every wrap keeps the lists in the right epoch. */
  lemma SampleInv(d: Daemon, n: nat, later: nat, off: set<TimerId>)
    requires Inv(d, n, off) && d.last == Low(n) && n <= later < n + TICKS
    ensures d.AllKnown() && Inv(d.Sample(Low(later)), later, off)
    ensures Low(later) >= d.last <==> later < Epoch(d.epoch + 1)
    ensures later < Epoch(d.epoch + 1) ==> d.Sample(Low(later)) == d.(last := Low(later))
  {
    InvKnown(d, n, off);
    LowEpoch(d.epoch, n);
    if later < Epoch(d.epoch + 1) {
      LowEpoch(d.epoch, later);
      LaterInv(d, n, later, off);
      LastInv(d, later, off, Low(later));
    } else {
      LowEpoch(d.epoch + 1, later);
      SwitchInv(d, n, later, off);
      LastInv(d.Switch(), later, off, Low(later));
    }
  }

  lemma LastInv(d: Daemon, n: nat, off: set<TimerId>, last: Tick)
    requires Inv(d, n, off)
    ensures Inv(d.(last := last), n, off)
  {
    forall u: TimerId ensures Listings(d.(last := last), u) == Listings(d, u) { }
  }

  // ---------------------------------------------------------------- rounds and commands

  lemma RoundInv(d: Daemon, n: nat, later: nat)
    requires Inv(d, n, {}) && d.last == Low(n) && n <= later < n + TICKS
    ensures d.AllKnown() && Inv(d.Round(later), later, {}) && d.Round(later).last == Low(later)
  {
    SampleInv(d, n, later, {});
    var s := d.Sample(Low(later));
    if Low(later) >= d.last && d.current != [] && d.current[0].value <= Low(later) {
      assert d.current[0] in d.current;
      ProcessExpiredInv(s, later, {}, d.Round(later));
    }
  }

  lemma UnlistInv(d: Daemon, n: nat, id: TimerId)
    requires Inv(d, n, {}) && id in d.timers
    ensures Inv(d.Unlist(id), n, {id})
  {
    var r := d.Unlist(id);
    DropTrueTimes(d, d.current, Epoch(d.epoch), id);
    DropTrueTimes(d, d.overflow, Epoch(d.epoch + 1), id);
    forall u: TimerId ensures Listings(r, u) == if u in r.timers && r.timers[u].active && u !in {id} then 1 else 0 {
      assert Listings(d, u) == if u in d.timers && d.timers[u].active && u !in {} then 1 else 0;
      CountDropEntry(d.current, id, u);
      CountDropEntry(d.overflow, id, u);
    }
  }

  lemma DropTrueTimes(d: Daemon, s: seq<Entry<TimerId>>, base: nat, id: TimerId)
    requires TrueTimes(d, s, base)
    ensures TrueTimes(d, DropEntry(s, id), base)
  {
    DropEntrySorted(s, id);
    var r := DropEntry(s, id);
    forall i | 0 <= i < |r|
      ensures d.Has(r[i].owner) && d.timers[r[i].owner].active
      ensures base + r[i].value == NextDue(d.timers[r[i].owner], d.story[r[i].owner])
    {
      var j :| 0 <= j < |s| && s[j] == r[i];
    }
  }

  /** A start command, however late it is obeyed. */
  lemma StartInv(d: Daemon, id: TimerId, at: nat, n: nat, r: Daemon)
    requires Inv(d, n, {id}) && d.Has(id) && at <= n < at + TICKS && r == d.StartAt(id, at, n)
    ensures Inv(r, n, {})
  {
    var t := d.timers[id].(active := true);
    var d1 := d.(timers := d.timers[id := t], story := d.story[id := Story(at, 0, false)]);
    var x := at + t.period;
    OffInv(d, d1, n, {id}, id);
    InsertTrue(d1, id, at, n);
    LowAdd(at, t.period);
    assert {id} - {id} == {};
    if x <= n {
      ExpireInv(d1, n, {id}, id, x, AddTicks(Low(at), t.period), r);
    } else {
      InsertInv(d1, n, {id}, id, at);
    }
  }

  lemma StopInv(d: Daemon, id: TimerId, n: nat)
    requires Inv(d, n, {id}) && d.Has(id)
    ensures Inv(d.Stop(id), n, {})
  {
    OffInv(d, d.Stop(id), n, {id}, id);
    RestInv(d.Stop(id), n, {id}, id);
    assert {id} - {id} == {};
  }

  lemma ChangeInv(d: Daemon, id: TimerId, period: Tick, n: nat)
    requires Inv(d, n, {id}) && d.Has(id) && period > 0
    ensures Inv(d.ChangePeriod(id, period, n), n, {})
  {
    var t := d.timers[id].(active := true, period := period);
    var d1 := d.(timers := d.timers[id := t], story := d.story[id := Story(n, 0, false)]);
    OffInv(d, d1, n, {id}, id);
    InsertInv(d1, n, {id}, id, n);
    assert {id} - {id} == {};
  }

  lemma DeleteInv(d: Daemon, id: TimerId, n: nat)
    requires Inv(d, n, {id}) && d.Has(id)
    ensures Inv(d.Delete(id), n, {})
  {
    var r := d.Delete(id);
    if d.timers[id].isStatic {
      StopInv(d, id, n);
    } else {
      OffListed(d, n, {id}, id);
      forall u: TimerId ensures Listings(r, u) == if u in r.timers && r.timers[u].active && u !in {} then 1 else 0 {
        assert Listings(d, u) == if u in d.timers && d.timers[u].active && u !in {id} then 1 else 0;
      }
      forall u | u in r.timers ensures TimerOk(r.timers[u], r.story[u], n) { assert u !in {id}; }
    }
  }

  /** A command that can be obeyed: it names a live timer, was sent less than one wrap
      ago, and a new period is not zero. */
  predicate Sensible(d: Daemon, m: Message, n: nat) {
    && m.id in d.timers
    && (m.Start? ==> m.at <= n < m.at + TICKS)
    && (m.Change? ==> m.period > 0)
  }

  lemma SampledInv(d: Daemon, n: nat, later: nat, id: TimerId)
    requires Inv(d, n, {}) && d.last == Low(n) && n <= later < n + TICKS && id in d.timers
    ensures d.AllKnown() && d.Has(id) && d.Unlist(id).AllKnown()
    ensures var s := d.Unlist(id).Sample(Low(later)); Inv(s, later, {id}) && s.Has(id) && s.last == Low(later)
  {
    InvKnown(d, n, {});
    UnlistInv(d, n, id);
    SampleInv(d.Unlist(id), n, later, {id});
    assert d.Unlist(id).Has(id);
  }

  lemma ApplyInv(d: Daemon, m: Message, n: nat)
    requires Inv(d, n, {m.id}) && d.Has(m.id) && Sensible(d, m, n)
    ensures Inv(d.Apply(m, n), n, {})
  {
    match m
    case Start(id, at) => StartInv(d, id, at, n, d.StartAt(id, at, n));
    case Halt(id) => StopInv(d, id, n);
    case Change(id, period) => ChangeInv(d, id, period, n);
    case Remove(id) => DeleteInv(d, id, n);
  }

  lemma ApplyLast(d: Daemon, m: Message, n: nat)
    requires d.Has(m.id) && (m.Change? ==> m.period > 0)
    ensures d.Apply(m, n).last == d.last
  {
  }

  lemma ObeyInv(d: Daemon, n: nat, m: Message, later: nat)
    requires Inv(d, n, {}) && d.last == Low(n) && n <= later < n + TICKS && Sensible(d, m, later)
    ensures d.AllKnown() && d.Has(m.id)
    ensures Inv(d.Obey(m, later), later, {}) && d.Obey(m, later).last == Low(later)
  {
    SampledInv(d, n, later, m.id);
    var s := d.Unlist(m.id).Sample(Low(later));
    ApplyInv(s, m, later);
    ApplyLast(s, m, later);
  }

  // ---------------------------------------------------------------- a timer that is left alone

  /** The timer has not been restarted, stopped or changed. */
  ghost predicate Kept(d: Daemon, r: Daemon, u: TimerId) {
    d.Has(u) ==>
      && r.Has(u) && r.timers[u].period == d.timers[u].period && r.timers[u].autoReload == d.timers[u].autoReload
      && r.timers[u].isStatic == d.timers[u].isStatic
      && r.story[u].base == d.story[u].base && r.story[u].stopped == d.story[u].stopped
  }

  lemma {:induction false} ReloadKeeps(d: Daemon, id: TimerId, expired: Tick, now: Tick, u: TimerId)
    requires d.Has(id)
    ensures Kept(d, d.Reload(id, expired, now), u)
    decreases SubTicks(now, expired)
  {
    var expiry := AddTicks(expired, d.timers[id].period);
    AlreadyDueIff(now, expired, d.timers[id].period);
    if AlreadyDue(expiry, now, expired, d.timers[id].period) { ReloadKeeps(d.Fire(id), id, expiry, now, u); }
  }

  lemma ExpireKeeps(d: Daemon, id: TimerId, expired: Tick, now: Tick, u: TimerId)
    requires d.Has(id)
    ensures Kept(d, d.Expire(id, expired, now), u)
  {
    if d.timers[id].autoReload { ReloadKeeps(d, id, expired, now, u); }
  }

  lemma {:induction false} FinishKeeps(d: Daemon, u: TimerId)
    requires d.AllKnown()
    ensures Kept(d, d.Finish(), u)
    decreases |d.current|
  {
    if d.current != [] {
      assert d.current[0] in d.current;
      ExpireKeeps(d.(current := d.current[1..]), d.current[0].owner, d.current[0].value, MAX_DELAY, u);
      FinishKeeps(d.ProcessExpired(MAX_DELAY), u);
    }
  }

  lemma SampleKeeps(d: Daemon, now: Tick, u: TimerId)
    requires d.AllKnown()
    ensures Kept(d, d.Sample(now), u)
  {
    FinishKeeps(d, u);
  }

  lemma RoundKeeps(d: Daemon, n: nat, u: TimerId)
    requires d.AllKnown()
    ensures Kept(d, d.Round(n), u)
  {
    SampleKeeps(d, Low(n), u);
    if Low(n) >= d.last && d.current != [] && d.current[0].value <= Low(n) {
      assert d.current[0] in d.current;
      ExpireKeeps(d.Sample(Low(n)).(current := d.current[1..]), d.current[0].owner, d.current[0].value, Low(n), u);
    }
  }

  /** Commands to other timers leave this one alone. */
  lemma ObeyKeeps(d: Daemon, m: Message, n: nat, u: TimerId)
    requires d.AllKnown() && d.Has(m.id) && (m.Change? ==> m.period > 0) && u != m.id
    ensures Kept(d, d.Obey(m, n), u)
  {
    d.UnlistKnown(m.id);
    SampleKeeps(d.Unlist(m.id), Low(n), u);
    var s := d.Unlist(m.id).Sample(Low(n));
    assert d.Unlist(m.id).Has(m.id);
    if m.Start? {
      var t := s.timers[m.id].(active := true);
      var s1 := s.(timers := s.timers[m.id := t], story := s.story[m.id := Story(m.at, 0, false)]);
      var (s2, due) := s1.Insert(m.id, AddTicks(Low(m.at), t.period), Low(n), Low(m.at));
      if due { ExpireKeeps(s2, m.id, AddTicks(Low(m.at), t.period), Low(n), u); }
    }
  }

  // ---------------------------------------------------------------- whole runs

  /** What happens, each at a true time: the daemon goes through one round of its loop or
      obeys one command, or a timer is created. */
  datatype Event =
    | Look(time: nat)
    | Command(m: Message, time: nat)
    | New(id: TimerId, period: Tick, autoReload: bool, isStatic: bool, time: nat)

  predicate Happens(d: Daemon, n: nat, e: Event) {
    && n <= e.time < n + TICKS
    && (e.Command? ==> Sensible(d, e.m, e.time))
    && (e.New? ==> e.id !in d.timers && e.period > 0 && e.time == n)
  }

  ghost function Next(d: Daemon, n: nat, e: Event): Daemon
    requires Inv(d, n, {}) && d.last == Low(n) && Happens(d, n, e)
  {
    InvKnown(d, n, {});
    match e
    case Look(time) => d.Round(time)
    case Command(m, time) => d.Obey(m, time)
    case New(id, period, autoReload, isStatic, _) => d.Create(id, period, autoReload, isStatic)
  }

  lemma CreateInv(d: Daemon, n: nat, id: TimerId, period: Tick, autoReload: bool, isStatic: bool)
    requires Inv(d, n, {}) && id !in d.timers && period > 0
    ensures Inv(d.Create(id, period, autoReload, isStatic), n, {})
  {
    var r := d.Create(id, period, autoReload, isStatic);
    CreateTrueTimes(d, d.current, Epoch(d.epoch), id, r);
    CreateTrueTimes(d, d.overflow, Epoch(d.epoch + 1), id, r);
    forall u: TimerId ensures Listings(r, u) == if u in r.timers && r.timers[u].active && u !in {} then 1 else 0 {
      assert Listings(d, u) == if u in d.timers && d.timers[u].active && u !in {} then 1 else 0;
    }
  }

  lemma CreateTrueTimes(d: Daemon, s: seq<Entry<TimerId>>, base: nat, id: TimerId, r: Daemon)
    requires TrueTimes(d, s, base) && id !in d.timers
    requires id in r.timers && id in r.story
    requires r.timers == d.timers[id := r.timers[id]] && r.story == d.story[id := r.story[id]]
    ensures TrueTimes(r, s, base)
  {
  }

  /** The daemon starts with nothing to do. */
  lemma StartsInv()
    ensures Inv(Daemon(map[], map[], [], [], 0, 0), 0, {}) && Low(0) == 0
  {
    forall u: TimerId ensures Listings(Daemon(map[], map[], [], [], 0, 0), u) == 0 { }
  }

  lemma NextInv(d: Daemon, n: nat, e: Event)
    requires Inv(d, n, {}) && d.last == Low(n) && Happens(d, n, e)
    ensures Inv(Next(d, n, e), e.time, {}) && Next(d, n, e).last == Low(e.time)
  {
    match e
    case Look(time) => RoundInv(d, n, time);
    case Command(m, time) => ObeyInv(d, n, m, time);
    case New(id, period, autoReload, isStatic, _) => CreateInv(d, n, id, period, autoReload, isStatic);
  }

  lemma NextKeeps(d: Daemon, n: nat, e: Event, u: TimerId)
    requires Inv(d, n, {}) && d.last == Low(n) && Happens(d, n, e) && (e.Command? ==> e.m.id != u)
    ensures Kept(d, Next(d, n, e), u)
  {
    InvKnown(d, n, {});
    match e
    case Look(time) => RoundKeeps(d, time, u);
    case Command(m, time) => ObeyKeeps(d, m, time, u);
    case New(_, _, _, _, _) =>
  }

  /** Whether a run can happen, and the daemon and the true time at its end. */
  ghost function Run(d: Daemon, n: nat, events: seq<Event>): (r: (bool, Daemon, nat))
    requires Inv(d, n, {}) && d.last == Low(n)
    ensures Inv(r.1, r.2, {})
    decreases |events|
  {
    if events == [] then (true, d, n)
    else if !Happens(d, n, events[0]) then (false, d, n)
    else (NextInv(d, n, events[0]); Run(Next(d, n, events[0]), events[0].time, events[1..]))
  }

  lemma RunOn(d: Daemon, n: nat, events: seq<Event>, d1: Daemon, n1: nat)
    requires Inv(d, n, {}) && d.last == Low(n) && events != [] && Happens(d, n, events[0])
    requires d1 == Next(d, n, events[0]) && n1 == events[0].time && Inv(d1, n1, {}) && d1.last == Low(n1)
    ensures Run(d, n, events) == Run(d1, n1, events[1..])
  {
  }

  lemma KeptOn(d: Daemon, d1: Daemon, r: Daemon, u: TimerId)
    requires Kept(d, d1, u) && Kept(d1, r, u)
    ensures Kept(d, r, u)
  {
  }

  predicate NoCommandTo(events: seq<Event>, u: TimerId) {
    forall i | 0 <= i < |events| && events[i].Command? :: events[i].m.id != u
  }

  lemma {:induction false} RunKeeps(d: Daemon, n: nat, events: seq<Event>, u: TimerId, r: (bool, Daemon, nat))
    requires Inv(d, n, {}) && d.last == Low(n) && r == Run(d, n, events) && r.0 && NoCommandTo(events, u)
    ensures Kept(d, r.1, u)
    decreases |events|
  {
    if events != [] {
      NextInv(d, n, events[0]);
      var d1, n1 := Next(d, n, events[0]), events[0].time;
      RunOn(d, n, events, d1, n1);
      RunKeeps(d1, n1, events[1..], u, r);
      NextKeeps(d, n, events[0], u);
      KeptOn(d, d1, r.1, u);
    }
  }

  /** Over every run the invariant is kept, and so is a timer that no command names. */
  lemma RunInv(d: Daemon, n: nat, events: seq<Event>, u: TimerId)
    requires Inv(d, n, {}) && d.last == Low(n) && Run(d, n, events).0
    ensures Inv(Run(d, n, events).1, Run(d, n, events).2, {})
    ensures NoCommandTo(events, u) ==> Kept(d, Run(d, n, events).1, u)
  {
    if NoCommandTo(events, u) { RunKeeps(d, n, events, u, Run(d, n, events)); }
  }

  // ---------------------------------------------------------------- exact firing

  /** The daemon has finished with true time `n`: nothing on its list is due. */
  predicate Finished(d: Daemon, n: nat) { d.current == [] || d.current[0].value > Low(n) }

  lemma {:induction false} PeriodsTimes(k: nat, period: nat)
    ensures Periods(k, period) == k * period
  {
    if k > 0 { PeriodsTimes(k - 1, period); }
  }

  lemma Quotient(a: nat, k: nat, period: nat)
    requires period > 0 && k * period <= a < k * period + period
    ensures a / period == k
  {
    var q := a / period;
    assert a == q * period + a % period;
    assert (q - k) * period == q * period - k * period;
    AtLeastOne(q - k, period);
  }

  lemma WholePeriods(a: nat, k: nat, period: nat)
    requires period > 0 && Periods(k, period) <= a < Periods(k, period) + period
    ensures a / period == k && Periods(k, period) + period == (a / period + 1) * period
  {
    PeriodsTimes(k, period);
    Quotient(a, k, period);
  }

  lemma AtLeastOne(x: int, period: int)
    requires period > 0
    ensures x >= 1 ==> x * period >= period
    ensures x <= -1 ==> x * period <= -period
  {
  }

  lemma {:induction false} ListedSomewhere(d: Daemon, id: TimerId)
    requires Listings(d, id) > 0
    ensures (exists i :: 0 <= i < |d.current| && d.current[i].owner == id) ||
            (exists i :: 0 <= i < |d.overflow| && d.overflow[i].owner == id)
  {
    if CountEntries(d.current, id) > 0 { ListedIn(d.current, id); } else { ListedIn(d.overflow, id); }
  }

  lemma {:induction false} ListedIn(s: seq<Entry<TimerId>>, id: TimerId)
    requires CountEntries(s, id) > 0
    ensures exists i :: 0 <= i < |s| && s[i].owner == id
  {
    if s[0].owner != id {
      ListedIn(s[1..], id);
      var i :| 0 <= i < |s[1..]| && s[1..][i].owner == id;
      assert s[i + 1].owner == id;
    }
  }

  /** Once the daemon has finished, every active timer's next callback is in the
      future. */
  lemma NextInFuture(d: Daemon, n: nat, id: TimerId)
    requires Inv(d, n, {}) && Finished(d, n) && id in d.timers && d.timers[id].active
    ensures NextDue(d.timers[id], d.story[id]) > n
  {
    assert Listings(d, id) == 1;
    ListedSomewhere(d, id);
    LowEpoch(d.epoch, n);
    if i :| 0 <= i < |d.current| && d.current[i].owner == id {
      assert d.current[0].value <= d.current[i].value;
    }
  }

  /** A timer that runs freely: an auto-reload timer has had exactly one callback for
      each whole period since its start, and its next is due at the first multiple yet
      to come; a one-shot timer has had its callback if and only if its time has come. */
  lemma FiresExactly(d: Daemon, n: nat, id: TimerId)
    requires Inv(d, n, {}) && Finished(d, n) && id in d.timers && !d.story[id].stopped
    ensures d.story[id].base <= n
    ensures d.timers[id].autoReload ==>
              && d.story[id].fired == (n - d.story[id].base) / d.timers[id].period
              && d.timers[id].active
              && NextDue(d.timers[id], d.story[id]) ==
                   d.story[id].base + ((n - d.story[id].base) / d.timers[id].period + 1) * d.timers[id].period
    ensures !d.timers[id].autoReload ==>
              && d.story[id].fired == (if n < d.story[id].base + d.timers[id].period then 0 else 1)
              && (d.timers[id].active <==> n < d.story[id].base + d.timers[id].period)
  {
    var t, s := d.timers[id], d.story[id];
    assert TimerOk(t, s, n);
    if t.active { NextInFuture(d, n, id); }
    if t.autoReload { WholePeriods(n - s.base, s.fired, t.period); }
  }

  /** An ideal timer started at true time `at`, as it stands at time `n`. */
  predicate IdealAt(at: nat, period: nat, autoReload: bool, n: nat, active: bool, fired: nat) {
    && at <= n && period > 0
    && fired == (if autoReload then (n - at) / period else if n < at + period then 0 else 1)
    && (active <==> autoReload || n < at + period)
  }

  lemma FiresIdeally(d: Daemon, n: nat, id: TimerId)
    requires Inv(d, n, {}) && Finished(d, n) && id in d.timers && !d.story[id].stopped
    ensures IdealAt(d.story[id].base, d.timers[id].period, d.timers[id].autoReload, n, d.timers[id].active, d.story[id].fired)
  {
    FiresExactly(d, n, id);
  }

  /** A timer that is left alone through a run, after which the daemon has finished. */
  lemma LeftAlone(d: Daemon, n: nat, id: TimerId, events: seq<Event>, r: Daemon, m: nat)
    requires Inv(d, n, {}) && d.last == Low(n) && Run(d, n, events) == (true, r, m) && Finished(r, m)
    requires forall i | 0 <= i < |events| && events[i].Command? :: events[i].m.id != id
    requires d.Has(id) && !d.story[id].stopped
    ensures id in r.timers && id in r.story
    ensures IdealAt(d.story[id].base, d.timers[id].period, d.timers[id].autoReload, m, r.timers[id].active, r.story[id].fired)
  {
    RunInv(d, n, events, id);
    FiresIdeally(r, m, id);
  }

  /** A timer started by a command sent at true time `at` and obeyed at `n1`, and then
      left alone: once the daemon has finished, its callbacks are those of an ideal timer
      started at `at`, however late everything was. */
  lemma StartedTimerIsExact(d: Daemon, n: nat, id: TimerId, at: nat, n1: nat, events: seq<Event>, r: Daemon, m: nat)
    requires Inv(d, n, {}) && d.last == Low(n)
    requires |events| > 0 && events[0] == Command(Start(id, at), n1)
    requires forall i | 0 < i < |events| && events[i].Command? :: events[i].m.id != id
    requires Run(d, n, events) == (true, r, m) && Finished(r, m)
    ensures id in d.timers && id in r.timers && id in r.story
    ensures IdealAt(at, d.timers[id].period, d.timers[id].autoReload, m, r.timers[id].active, r.story[id].fired)
  {
    StartSets(d, n, id, at, n1);
    NextInv(d, n, events[0]);
    forall i | 0 <= i < |events[1..]| && events[1..][i].Command? ensures events[1..][i].m.id != id {
      assert events[1..][i] == events[i + 1];
    }
    LeftAlone(Next(d, n, events[0]), n1, id, events[1..], r, m);
  }

  lemma StartSets(d: Daemon, n: nat, id: TimerId, at: nat, n1: nat)
    requires Inv(d, n, {}) && d.last == Low(n) && Happens(d, n, Command(Start(id, at), n1))
    ensures var r := Next(d, n, Command(Start(id, at), n1));
            && r.Has(id) && r.timers[id].period == d.timers[id].period && r.timers[id].autoReload == d.timers[id].autoReload
            && r.timers[id].isStatic == d.timers[id].isStatic
            && r.story[id].base == at && !r.story[id].stopped
  {
    SampledInv(d, n, n1, id);
    var s := d.Unlist(id).Sample(Low(n1));
    SampleKeeps(d.Unlist(id), Low(n1), id);
    var t := s.timers[id].(active := true);
    var s1 := s.(timers := s.timers[id := t], story := s.story[id := Story(at, 0, false)]);
    var (s2, due) := s1.Insert(id, AddTicks(Low(at), t.period), Low(n1), Low(at));
    if due { ExpireKeeps(s2, id, AddTicks(Low(at), t.period), Low(n1), id); }
  }

  // ---- the daemon does finish

  function DueCount(s: seq<Entry<TimerId>>, now: Tick): nat {
    if s == [] then 0 else (if s[0].value <= now then 1 else 0) + DueCount(s[1..], now)
  }

  lemma {:induction false} InsertNotDue(s: seq<Entry<TimerId>>, e: Entry<TimerId>, now: Tick)
    requires e.value > now
    ensures DueCount(InsertSorted(s, e), now) == DueCount(s, now)
  {
    if s == [] || s[0].value > e.value {
      assert ([e] + s)[1..] == s;
    } else {
      InsertNotDue(s[1..], e, now);
      assert InsertSorted(s, e)[1..] == InsertSorted(s[1..], e);
    }
  }

  /** A reload lists nothing that is already due. */
  lemma {:induction false} ReloadNotDue(d: Daemon, id: TimerId, expired: Tick, now: Tick)
    requires d.Has(id)
    ensures DueCount(d.Reload(id, expired, now).current, now) == DueCount(d.current, now)
    decreases SubTicks(now, expired)
  {
    var expiry := AddTicks(expired, d.timers[id].period);
    AlreadyDueIff(now, expired, d.timers[id].period);
    if AlreadyDue(expiry, now, expired, d.timers[id].period) {
      ReloadNotDue(d.Fire(id), id, expiry, now);
    } else if expiry > now {
      InsertNotDue(d.current, Entry(expiry, id), now);
    }
  }

  lemma {:induction false} NoneDue(s: seq<Entry<TimerId>>, now: Tick)
    requires Sorted(s)
    ensures DueCount(s, now) == 0 <==> s == [] || s[0].value > now
  {
    if s != [] { NoneDue(s[1..], now); }
  }

  /** Another round at the same time processes one more timer, if one is due. */
  lemma RoundAgain(d: Daemon, n: nat)
    requires Inv(d, n, {}) && d.last == Low(n)
    ensures d.AllKnown() && Inv(d.Round(n), n, {}) && d.Round(n).last == Low(n)
    ensures DueCount(d.Round(n).current, Low(n)) == if DueCount(d.current, Low(n)) == 0 then 0 else DueCount(d.current, Low(n)) - 1
  {
    RoundInv(d, n, n);
    NoneDue(d.current, Low(n));
    if !Finished(d, n) {
      var id := d.current[0].owner;
      var d1 := d.(current := d.current[1..]);
      if d.timers[id].autoReload { ReloadNotDue(d1, id, d.current[0].value, Low(n)); }
    }
  }

  ghost function Rounds(d: Daemon, n: nat, k: nat): (r: Daemon)
    requires Inv(d, n, {}) && d.last == Low(n)
    decreases k
  {
    RoundAgain(d, n);
    if k == 0 then d else Rounds(d.Round(n), n, k - 1)
  }

  lemma {:induction false} RoundsFinish(d: Daemon, n: nat, k: nat, r: Daemon)
    requires Inv(d, n, {}) && d.last == Low(n) && k >= DueCount(d.current, Low(n)) && r == Rounds(d, n, k)
    ensures Inv(r, n, {}) && Finished(r, n)
    decreases k
  {
    if k == 0 {
      NoneDue(d.current, Low(n));
    } else {
      RoundAgain(d, n);
      RoundsOn(d, n, k, d.Round(n), r);
      RoundsFinish(d.Round(n), n, k - 1, r);
    }
  }

  lemma RoundsOn(d: Daemon, n: nat, k: nat, d1: Daemon, r: Daemon)
    requires Inv(d, n, {}) && d.last == Low(n) && k > 0 && d.AllKnown() && d1 == d.Round(n) && Inv(d1, n, {}) && d1.last == Low(n)
    requires r == Rounds(d, n, k)
    ensures r == Rounds(d1, n, k - 1)
  {
  }

  /** As many rounds as there are due timers finish any backlog. */
  lemma BacklogFinishes(d: Daemon, n: nat, k: nat)
    requires Inv(d, n, {}) && d.last == Low(n) && k >= DueCount(d.current, Low(n))
    ensures Inv(Rounds(d, n, k), n, {}) && Finished(Rounds(d, n, k), n)
  {
    RoundsFinish(d, n, k, Rounds(d, n, k));
  }
}
