/** Queues.  Three layers: the byte ring that stores items by copy, the lock counts
    that let interrupts touch a queue while a task is deciding whether to block, and
    the protocol of tasks and interrupts around them, one atomic step for each
    critical section. */
module Queues {
  import opened Common
  import opened Lists

  datatype Position = ToBack | ToFront | Overwrite

  const UNLOCKED: int := -1
  const LOCKED_UNMODIFIED: int := 0
  const INT8_MAX: int := 127
  const SIZE_MAX: nat := 0xFFFF_FFFF

  // ---------------------------------------------------------------- counts, locks and wait lists

  /** Takes up to `n` tasks off the head of a wait list. */
  function Drain(wait: seq<Entry<TaskId>>, n: int): (seq<TaskId>, seq<Entry<TaskId>>) {
    if n > 0 && wait != [] then
      var (popped, rest) := Drain(wait[1..], n - 1);
      ([wait[0].owner] + popped, rest)
    else
      ([], wait)
  }

  /** Everything about a queue except the stored bytes. */
  datatype Sync = Sync(length: nat, itemSize: nat, count: nat, rxLock: int, txLock: int,
                       waitRx: seq<Entry<TaskId>>, waitTx: seq<Entry<TaskId>>) {

    predicate Bounded() {
      && length >= 1 && count <= length
      && UNLOCKED <= rxLock <= INT8_MAX && UNLOCKED <= txLock <= INT8_MAX
    }

    predicate Room(position: Position) { count < length || position.Overwrite? }

    /** The count after an item has been copied in.  Only sized items are really
        overwritten; a zero-sized one is always counted again. */
    function Added(position: Position): Sync {
      this.(count := if position.Overwrite? && itemSize > 0 && count > 0 then count else count + 1)
    }

    function WakeReceiver(): (Sync, seq<TaskId>) {
      var (popped, rest) := Drain(waitRx, 1);
      (this.(waitRx := rest), popped)
    }

    function WakeSender(): (Sync, seq<TaskId>) {
      var (popped, rest) := Drain(waitTx, 1);
      (this.(waitTx := rest), popped)
    }

    /** A task's attempt to send: the new state, whether it was done, who was woken. */
    function TrySend(position: Position): (Sync, bool, seq<TaskId>) {
      if Room(position) then
        var (q, woken) := Added(position).WakeReceiver();
        (q, true, woken)
      else (this, false, [])
    }

    function TryReceive(): (Sync, bool, seq<TaskId>) {
      if count > 0 then
        var (q, woken) := this.(count := count - 1).WakeSender();
        (q, true, woken)
      else (this, false, [])
    }

    function TryPeek(): (Sync, bool, seq<TaskId>) {
      if count > 0 then
        var (q, woken) := WakeReceiver();
        (q, true, woken)
      else (this, false, [])
    }

    /** An interrupt's attempt.  While the queue is locked nobody is woken: the lock
        count goes up instead, and must not run out. */
    function IsrSend(position: Position): (Sync, bool, seq<TaskId>) {
      if !Room(position) then (this, false, [])
      else if txLock == UNLOCKED then
        var (q, woken) := Added(position).WakeReceiver();
        (q, true, woken)
      else (Added(position).(txLock := txLock + 1), true, [])
    }

    function IsrReceive(): (Sync, bool, seq<TaskId>) {
      if count == 0 then (this, false, [])
      else if rxLock == UNLOCKED then
        var (q, woken) := this.(count := count - 1).WakeSender();
        (q, true, woken)
      else (this.(count := count - 1, rxLock := rxLock + 1), true, [])
    }

    function Lock(): Sync {
      this.(rxLock := if rxLock == UNLOCKED then LOCKED_UNMODIFIED else rxLock,
            txLock := if txLock == UNLOCKED then LOCKED_UNMODIFIED else txLock)
    }

    function UnlockTx(): (Sync, seq<TaskId>) {
      var (popped, rest) := Drain(waitRx, txLock);
      (this.(waitRx := rest, txLock := UNLOCKED), popped)
    }

    function UnlockRx(): (Sync, seq<TaskId>) {
      var (popped, rest) := Drain(waitTx, rxLock);
      (this.(waitTx := rest, rxLock := UNLOCKED), popped)
    }

    /** Emptying a queue in use wakes one sender. */
    function Reset(): (Sync, seq<TaskId>) {
      this.(count := 0, rxLock := UNLOCKED, txLock := UNLOCKED).WakeSender()
    }
  }

  // ---------------------------------------------------------------- the protocol

  /** Where the one task that may have suspended the scheduler stands. */
  datatype Stage =
    | Running
    | Locked(t: TaskId)
    | SawEmpty(t: TaskId)
    | SawFull(t: TaskId)
    | Leaving(t: TaskId)
    | LeavingRx(t: TaskId)
    | Resuming(t: TaskId)

  /** A queue among its tasks.  `wokenRx` holds the tasks taken off the receivers'
      wait list, by an event or by a timeout, that have not retried yet; `wokenTx`
      likewise for senders. */
  datatype World = World(q: Sync, stage: Stage, wokenRx: set<TaskId>, wokenTx: set<TaskId>)

  datatype Step =
    | TaskSend(t: TaskId, position: Position)
    | TaskReceive(t: TaskId)
    | TaskPeek(t: TaskId)
    | TaskReset(t: TaskId)
    | SuspendAndLock(t: TaskId)
    | CheckEmpty(t: TaskId, timedOut: bool)
    | CheckFull(t: TaskId, timedOut: bool)
    | PlaceReceiver(t: TaskId, value: Tick)
    | PlaceSender(t: TaskId, value: Tick)
    | UnlockTxStep(t: TaskId)
    | UnlockRxStep(t: TaskId)
    | ResumeAll(t: TaskId)
    | SendFromIsr(position: Position)
    | ReceiveFromIsr
    | TimeoutReceiver(k: nat)
    | TimeoutSender(k: nat)

  function Owners(s: seq<Entry<TaskId>>): set<TaskId> {
    if s == [] then {} else {s[0].owner} + Owners(s[1..])
  }

  predicate Waits(w: World, t: TaskId) { t in Owners(w.q.waitRx) || t in Owners(w.q.waitTx) }

  /** A task that runs user code or is about to try for the first time. */
  predicate Fresh(w: World, t: TaskId) {
    !Waits(w, t) && t !in w.wokenRx && t !in w.wokenTx
  }

  predicate UsableFor(q: Sync, position: Position) {
    position.Overwrite? ==> q.length == 1 && q.itemSize > 0
  }

  /** When a step can be taken.  Tasks run only while the scheduler is not suspended
      by another task; interrupts run at any time, up to 127 posts for each lock. */
  predicate Enabled(w: World, step: Step) {
    match step
    case TaskSend(t, position) => w.stage == Running && !Waits(w, t) && t !in w.wokenRx && UsableFor(w.q, position)
    case TaskReceive(t) => w.stage == Running && !Waits(w, t) && t !in w.wokenTx
    case TaskPeek(t) => w.stage == Running && !Waits(w, t) && t !in w.wokenTx
    case TaskReset(t) => w.stage == Running && Fresh(w, t)
    case SuspendAndLock(t) => w.stage == Running && Fresh(w, t)
    case CheckEmpty(t, _) => w.stage == Locked(t)
    case CheckFull(t, _) => w.stage == Locked(t)
    case PlaceReceiver(t, _) => w.stage == SawEmpty(t)
    case PlaceSender(t, _) => w.stage == SawFull(t)
    case UnlockTxStep(t) => w.stage == Leaving(t)
    case UnlockRxStep(t) => w.stage == LeavingRx(t)
    case ResumeAll(t) => w.stage == Resuming(t)
    case SendFromIsr(position) => w.q.txLock < INT8_MAX && UsableFor(w.q, position)
    case ReceiveFromIsr => w.q.rxLock < INT8_MAX
    case TimeoutReceiver(k) => w.stage == Running && k < |w.q.waitRx|
    case TimeoutSender(k) => w.stage == Running && k < |w.q.waitTx|
  }

  function AddAll(s: set<TaskId>, ts: seq<TaskId>): set<TaskId>
    decreases |ts|
  {
    if ts == [] then s else AddAll(s + {ts[0]}, ts[1..])
  }

  function Without(s: seq<Entry<TaskId>>, k: nat): seq<Entry<TaskId>>
    requires k < |s|
  {
    s[..k] + s[k + 1..]
  }

  function Next(w: World, step: Step): World
    requires Enabled(w, step)
  {
    match step
    case TaskSend(t, position) =>
      var (q, done, woken) := w.q.TrySend(position);
      w.(q := q, wokenRx := AddAll(w.wokenRx, woken), wokenTx := w.wokenTx - {t})
    case TaskReceive(t) =>
      var (q, done, woken) := w.q.TryReceive();
      w.(q := q, wokenRx := w.wokenRx - {t}, wokenTx := AddAll(w.wokenTx, woken))
    case TaskPeek(t) =>
      var (q, done, woken) := w.q.TryPeek();
      w.(q := q, wokenRx := AddAll(w.wokenRx - {t}, woken))
    case TaskReset(t) =>
      var (q, woken) := w.q.Reset();
      w.(q := q, wokenTx := AddAll(w.wokenTx, woken))
    case SuspendAndLock(t) => w.(q := w.q.Lock(), stage := Locked(t))
    case CheckEmpty(t, timedOut) => w.(stage := if !timedOut && w.q.count == 0 then SawEmpty(t) else Leaving(t))
    case CheckFull(t, timedOut) => w.(stage := if !timedOut && w.q.count == w.q.length then SawFull(t) else Leaving(t))
    case PlaceReceiver(t, value) => w.(q := w.q.(waitRx := InsertSorted(w.q.waitRx, Entry(value, t))), stage := Leaving(t))
    case PlaceSender(t, value) => w.(q := w.q.(waitTx := InsertSorted(w.q.waitTx, Entry(value, t))), stage := Leaving(t))
    case UnlockTxStep(t) =>
      var (q, woken) := w.q.UnlockTx();
      w.(q := q, stage := LeavingRx(t), wokenRx := AddAll(w.wokenRx, woken))
    case UnlockRxStep(t) =>
      var (q, woken) := w.q.UnlockRx();
      w.(q := q, stage := Resuming(t), wokenTx := AddAll(w.wokenTx, woken))
    case ResumeAll(t) => w.(stage := Running)
    case SendFromIsr(position) =>
      var (q, done, woken) := w.q.IsrSend(position);
      w.(q := q, wokenRx := AddAll(w.wokenRx, woken))
    case ReceiveFromIsr =>
      var (q, done, woken) := w.q.IsrReceive();
      w.(q := q, wokenTx := AddAll(w.wokenTx, woken))
    case TimeoutReceiver(k) =>
      w.(q := w.q.(waitRx := Without(w.q.waitRx, k)), wokenRx := w.wokenRx + {w.q.waitRx[k].owner})
    case TimeoutSender(k) =>
      w.(q := w.q.(waitTx := Without(w.q.waitTx, k)), wokenTx := w.wokenTx + {w.q.waitTx[k].owner})
  }

  /** The state reached by a whole run, if every step of it can be taken. */
  function Run(w: World, steps: seq<Step>): Option<World>
    decreases |steps|
  {
    if steps == [] then Some(w)
    else if Enabled(w, steps[0]) then Run(Next(w, steps[0]), steps[1..])
    else None
  }

  function Initial(length: nat, itemSize: nat, count: nat): World {
    World(Sync(length, itemSize, count, UNLOCKED, UNLOCKED, [], []), Running, {}, {})
  }

  /** A wait list without repetitions and without tasks already woken from it. */
  predicate Apart(wait: seq<Entry<TaskId>>, woken: set<TaskId>)
    decreases |wait|
  {
    wait != [] ==> wait[0].owner !in woken && Apart(wait[1..], woken + {wait[0].owner})
  }

  ghost predicate LocksMatchStage(w: World) {
    match w.stage
    case Running => w.q.txLock == UNLOCKED && w.q.rxLock == UNLOCKED
    case Resuming(_) => w.q.txLock == UNLOCKED && w.q.rxLock == UNLOCKED
    case LeavingRx(_) => w.q.txLock == UNLOCKED && w.q.rxLock >= 0
    case _ => w.q.txLock >= 0 && w.q.rxLock >= 0
  }

  ghost predicate Deciding(stage: Stage) { stage.Locked? || stage.SawEmpty? || stage.SawFull? }

  ghost predicate WellFormed(w: World) {
    && w.q.Bounded()
    && LocksMatchStage(w)
    && Apart(w.q.waitRx, w.wokenRx) && Apart(w.q.waitTx, w.wokenTx)
    && (Deciding(w.stage) ==> Fresh(w, w.stage.t))
  }

  function Posted(lock: int): int { if lock > 0 then lock else 0 }

  /** Nothing a waiting receiver could take is unaccounted for: every item is
      covered by a receiver already woken or by a post the unlocking task will see. */
  ghost predicate ReceiversServed(w: World) {
    && (w.q.waitRx != [] ==> w.q.count <= |w.wokenRx| + Posted(w.q.txLock))
    && (w.stage.SawEmpty? ==> w.q.count <= w.q.txLock)
  }

  /** The mirror image: every free slot is covered. */
  ghost predicate SendersServed(w: World) {
    && (w.q.waitTx != [] ==> w.q.length - w.q.count <= |w.wokenTx| + Posted(w.q.rxLock))
    && (w.stage.SawFull? ==> w.q.length - w.q.count <= w.q.rxLock)
  }

  // ---- wait-list bookkeeping

  lemma {:induction false} ApartAdd(s: seq<Entry<TaskId>>, woken: set<TaskId>, t: TaskId)
    requires Apart(s, woken) && t !in Owners(s)
    ensures Apart(s, woken + {t})
    decreases |s|
  {
    if s != [] {
      ApartAdd(s[1..], woken + {s[0].owner}, t);
      assert woken + {s[0].owner} + {t} == woken + {t} + {s[0].owner};
    }
  }

  lemma {:induction false} ApartInsert(s: seq<Entry<TaskId>>, woken: set<TaskId>, e: Entry<TaskId>)
    requires Apart(s, woken) && e.owner !in Owners(s) && e.owner !in woken
    ensures Apart(InsertSorted(s, e), woken)
    ensures Owners(InsertSorted(s, e)) == Owners(s) + {e.owner}
    decreases |s|
  {
    if s == [] || s[0].value > e.value {
      ApartAdd(s, woken, e.owner);
      assert ([e] + s)[1..] == s;
    } else {
      ApartInsert(s[1..], woken + {s[0].owner}, e);
      assert InsertSorted(s, e)[1..] == InsertSorted(s[1..], e);
    }
  }

  lemma {:induction false} ApartWithout(s: seq<Entry<TaskId>>, woken: set<TaskId>, k: nat)
    requires Apart(s, woken) && k < |s|
    ensures s[k].owner !in woken && Apart(Without(s, k), woken + {s[k].owner})
    ensures Owners(Without(s, k)) <= Owners(s) && s[k].owner in Owners(s)
    decreases k
  {
    if k == 0 {
      assert Without(s, 0) == s[1..];
    } else {
      var h := s[0].owner;
      ApartWithout(s[1..], woken + {h}, k - 1);
      assert Without(s, k) == [s[0]] + Without(s[1..], k - 1);
      assert Without(s, k)[1..] == Without(s[1..], k - 1);
      assert woken + {h} + {s[k].owner} == woken + {s[k].owner} + {h};
    }
  }

  lemma {:induction false} ApartSubset(s: seq<Entry<TaskId>>, woken: set<TaskId>, fewer: set<TaskId>)
    requires Apart(s, woken) && fewer <= woken
    ensures Apart(s, fewer)
    decreases |s|
  {
    if s != [] { ApartSubset(s[1..], woken + {s[0].owner}, fewer + {s[0].owner}); }
  }

  /** Draining takes tasks from the list into the woken set one for one, and stops
      short only when the list is empty. */
  lemma {:induction false} DrainWakes(wait: seq<Entry<TaskId>>, n: int, woken: set<TaskId>)
    requires Apart(wait, woken)
    ensures var (popped, rest) := Drain(wait, n);
            && Apart(rest, AddAll(woken, popped))
            && |AddAll(woken, popped)| == |woken| + |popped|
            && |popped| <= Posted(n) && (rest != [] ==> |popped| == Posted(n))
            && |popped| + |rest| == |wait|
            && Owners(rest) <= Owners(wait)
            && AddAll(woken, popped) <= woken + Owners(wait)
    decreases |wait|
  {
    if n > 0 && wait != [] {
      var t := wait[0].owner;
      DrainWakes(wait[1..], n - 1, woken + {t});
      var (popped, rest) := Drain(wait[1..], n - 1);
      assert ([t] + popped)[1..] == popped;
    }
  }

  /** It takes them from the front, so that those of the highest priority go first. */
  lemma {:induction false} DrainTakesFirst(wait: seq<Entry<TaskId>>, n: int)
    ensures var (popped, rest) := Drain(wait, n);
            && |popped| == (if Posted(n) < |wait| then Posted(n) else |wait|)
            && rest == wait[|popped|..] && forall i | 0 <= i < |popped| :: popped[i] == wait[i].owner
    decreases |wait|
  {
    if n > 0 && wait != [] {
      DrainTakesFirst(wait[1..], n - 1);
      var (popped, rest) := Drain(wait[1..], n - 1);
      assert rest == wait[1..][|popped|..] == wait[|popped| + 1..];
      forall i | 0 <= i < |popped| + 1 ensures ([wait[0].owner] + popped)[i] == wait[i].owner {
        if i > 0 { assert popped[i - 1] == wait[1..][i - 1].owner; }
      }
    }
  }

  /** Leaving the woken set keeps a wait list apart from it and frees one place. */
  lemma Retried(wait: seq<Entry<TaskId>>, woken: set<TaskId>, t: TaskId)
    requires Apart(wait, woken)
    ensures Apart(wait, woken - {t})
    ensures |woken| - 1 <= |woken - {t}| <= |woken|
  {
    ApartSubset(wait, woken, woken - {t});
    if t in woken {
      assert woken == (woken - {t}) + {t};
    } else {
      assert woken - {t} == woken;
    }
  }

  /** A task has joined a wait list: it is there once more than before, in its order. */
  ghost predicate Joined(before: seq<Entry<TaskId>>, after: seq<Entry<TaskId>>, e: Entry<TaskId>) {
    && e.owner in Owners(after) && multiset(after) == multiset(before) + multiset{e}
    && (Sorted(before) ==> Sorted(after))
  }

  lemma Joins(wait: seq<Entry<TaskId>>, woken: set<TaskId>, e: Entry<TaskId>)
    requires Apart(wait, woken) && e.owner !in Owners(wait) && e.owner !in woken
    ensures Joined(wait, InsertSorted(wait, e), e)
  {
    ApartInsert(wait, woken, e);
    InsertSortedContents(wait, e);
    if Sorted(wait) { InsertSortedOrder(wait, e); }
  }

  /** Whether a task that has locked the queue goes on to wait for an item: if and only if
      its time has not run out and the queue is empty when it looks again.  It then waits
      among the others by its priority, and has not been woken. */
  lemma ReceiverWaitsIff(w: World, t: TaskId, timedOut: bool, value: Tick)
    requires WellFormed(w) && w.stage == Locked(t)
    ensures var r := Next(w, CheckEmpty(t, timedOut));
            && (Enabled(r, PlaceReceiver(t, value)) <==> !timedOut && w.q.count == 0)
            && (Enabled(r, PlaceReceiver(t, value)) ==>
                  var p := Next(r, PlaceReceiver(t, value));
                  Joined(w.q.waitRx, p.q.waitRx, Entry(value, t)) && t !in p.wokenRx)
  {
    Joins(w.q.waitRx, w.wokenRx, Entry(value, t));
  }

  /** The same of a task that waits for space. */
  lemma SenderWaitsIff(w: World, t: TaskId, timedOut: bool, value: Tick)
    requires WellFormed(w) && w.stage == Locked(t)
    ensures var r := Next(w, CheckFull(t, timedOut));
            && (Enabled(r, PlaceSender(t, value)) <==> !timedOut && w.q.count == w.q.length)
            && (Enabled(r, PlaceSender(t, value)) ==>
                  var p := Next(r, PlaceSender(t, value));
                  Joined(w.q.waitTx, p.q.waitTx, Entry(value, t)) && t !in p.wokenTx)
  {
    Joins(w.q.waitTx, w.wokenTx, Entry(value, t));
  }

  // ---- one step

  lemma SendWellFormed(w: World, t: TaskId, position: Position)
    requires WellFormed(w) && Enabled(w, TaskSend(t, position))
    ensures WellFormed(Next(w, TaskSend(t, position)))
  {
    ApartSubset(w.q.waitTx, w.wokenTx, w.wokenTx - {t});
    DrainWakes(w.q.waitRx, 1, w.wokenRx);
  }

  lemma ReceiveWellFormed(w: World, t: TaskId)
    requires WellFormed(w) && Enabled(w, TaskReceive(t))
    ensures WellFormed(Next(w, TaskReceive(t)))
  {
    ApartSubset(w.q.waitRx, w.wokenRx, w.wokenRx - {t});
    if w.q.count > 0 {
      DrainWakes(w.q.waitTx, 1, w.wokenTx);
      TookWellFormed(w, t, Next(w, TaskReceive(t)));
    }
  }

  lemma TookWellFormed(w: World, t: TaskId, r: World)
    requires WellFormed(w) && w.stage == Running && w.q.count > 0 && Apart(w.q.waitRx, w.wokenRx - {t})
    requires var (popped, rest) := Drain(w.q.waitTx, 1);
             && r == w.(q := w.q.(count := w.q.count - 1, waitTx := rest), wokenRx := w.wokenRx - {t}, wokenTx := AddAll(w.wokenTx, popped))
             && Apart(rest, AddAll(w.wokenTx, popped))
    ensures WellFormed(r)
  {
  }

  lemma PeekWellFormed(w: World, t: TaskId)
    requires WellFormed(w) && Enabled(w, TaskPeek(t))
    ensures WellFormed(Next(w, TaskPeek(t)))
  {
    var q, woken := w.q, w.wokenRx - {t};
    ApartSubset(q.waitRx, w.wokenRx, woken);
    if q.count > 0 {
      DrainWakes(q.waitRx, 1, woken);
      var (popped, rest) := Drain(q.waitRx, 1);
      assert Next(w, TaskPeek(t)) == w.(q := q.(waitRx := rest), wokenRx := AddAll(woken, popped));
    } else {
      assert Next(w, TaskPeek(t)) == w.(wokenRx := woken);
    }
  }

  lemma PeekServesReceivers(w: World, t: TaskId)
    requires WellFormed(w) && Enabled(w, TaskPeek(t)) && ReceiversServed(w)
    ensures ReceiversServed(Next(w, TaskPeek(t)))
  {
    var q, woken := w.q, w.wokenRx - {t};
    Retried(q.waitRx, w.wokenRx, t);
    if q.count > 0 {
      DrainWakes(q.waitRx, 1, woken);
      var (popped, rest) := Drain(q.waitRx, 1);
      assert Next(w, TaskPeek(t)) == w.(q := q.(waitRx := rest), wokenRx := AddAll(woken, popped));
    } else {
      assert Next(w, TaskPeek(t)) == w.(wokenRx := woken);
    }
  }

  /** Steps of the task that has suspended the scheduler, but for those that touch a wait
      list. */
  predicate Deliberates(step: Step) {
    step.SuspendAndLock? || step.CheckEmpty? || step.CheckFull? || step.ResumeAll?
  }

  lemma DeliberateStep(w: World, step: Step)
    requires WellFormed(w) && Enabled(w, step) && Deliberates(step)
    ensures WellFormed(Next(w, step))
    ensures ReceiversServed(w) ==> ReceiversServed(Next(w, step))
    ensures SendersServed(w) ==> SendersServed(Next(w, step))
  {
  }

  lemma PlaceWellFormed(w: World, t: TaskId, value: Tick)
    ensures WellFormed(w) && Enabled(w, PlaceReceiver(t, value)) ==> WellFormed(Next(w, PlaceReceiver(t, value)))
    ensures WellFormed(w) && Enabled(w, PlaceSender(t, value)) ==> WellFormed(Next(w, PlaceSender(t, value)))
  {
    if WellFormed(w) && Enabled(w, PlaceReceiver(t, value)) { ApartInsert(w.q.waitRx, w.wokenRx, Entry(value, t)); }
    if WellFormed(w) && Enabled(w, PlaceSender(t, value)) { ApartInsert(w.q.waitTx, w.wokenTx, Entry(value, t)); }
  }

  lemma ResetWellFormed(w: World, t: TaskId)
    requires WellFormed(w) && Enabled(w, TaskReset(t))
    ensures WellFormed(Next(w, TaskReset(t)))
  {
    DrainWakes(w.q.waitTx, 1, w.wokenTx);
  }

  lemma UnlockTxWellFormed(w: World, t: TaskId)
    requires WellFormed(w) && Enabled(w, UnlockTxStep(t))
    ensures WellFormed(Next(w, UnlockTxStep(t)))
  {
    DrainWakes(w.q.waitRx, w.q.txLock, w.wokenRx);
  }

  lemma UnlockRxWellFormed(w: World, t: TaskId)
    requires WellFormed(w) && Enabled(w, UnlockRxStep(t))
    ensures WellFormed(Next(w, UnlockRxStep(t)))
  {
    DrainWakes(w.q.waitTx, w.q.rxLock, w.wokenTx);
  }

  lemma IsrSendWellFormed(w: World, position: Position)
    requires WellFormed(w) && Enabled(w, SendFromIsr(position))
    ensures WellFormed(Next(w, SendFromIsr(position)))
  {
    if w.q.Room(position) {
      AddedBoundedIff(w.q, position);
      if w.q.txLock == UNLOCKED { IsrWakes(w, w.q.Added(position), Next(w, SendFromIsr(position))); }
      else { IsrPosts(w, w.q.Added(position), Next(w, SendFromIsr(position))); }
    }
  }

  lemma IsrWakes(w: World, q: Sync, r: World)
    requires WellFormed(w) && q == w.q.(count := q.count) && q.Bounded()
    requires r == w.(q := q.WakeReceiver().0, wokenRx := AddAll(w.wokenRx, q.WakeReceiver().1))
    ensures WellFormed(r)
  {
    DrainWakes(w.q.waitRx, 1, w.wokenRx);
  }

  lemma IsrPosts(w: World, q: Sync, r: World)
    requires WellFormed(w) && q == w.q.(count := q.count) && q.Bounded() && UNLOCKED < q.txLock < INT8_MAX
    requires r == w.(q := q.(txLock := q.txLock + 1))
    ensures WellFormed(r)
  {
  }

  lemma IsrReceiveWellFormed(w: World)
    requires WellFormed(w) && Enabled(w, ReceiveFromIsr)
    ensures WellFormed(Next(w, ReceiveFromIsr))
  {
    DrainWakes(w.q.waitTx, 1, w.wokenTx);
  }

  lemma TimeoutWellFormed(w: World, k: nat)
    ensures WellFormed(w) && Enabled(w, TimeoutReceiver(k)) ==> WellFormed(Next(w, TimeoutReceiver(k)))
    ensures WellFormed(w) && Enabled(w, TimeoutSender(k)) ==> WellFormed(Next(w, TimeoutSender(k)))
  {
    if WellFormed(w) && Enabled(w, TimeoutReceiver(k)) { ApartWithout(w.q.waitRx, w.wokenRx, k); }
    if WellFormed(w) && Enabled(w, TimeoutSender(k)) { ApartWithout(w.q.waitTx, w.wokenTx, k); }
  }

  lemma StepWellFormed(w: World, step: Step)
    requires WellFormed(w) && Enabled(w, step)
    ensures WellFormed(Next(w, step))
  {
    match step
    case TaskSend(t, position) => SendWellFormed(w, t, position);
    case TaskReceive(t) => ReceiveWellFormed(w, t);
    case TaskPeek(t) => PeekWellFormed(w, t);
    case TaskReset(t) => ResetWellFormed(w, t);
    case PlaceReceiver(t, value) => PlaceWellFormed(w, t, value);
    case PlaceSender(t, value) => PlaceWellFormed(w, t, value);
    case UnlockTxStep(t) => UnlockTxWellFormed(w, t);
    case UnlockRxStep(t) => UnlockRxWellFormed(w, t);
    case SendFromIsr(position) => IsrSendWellFormed(w, position);
    case ReceiveFromIsr => IsrReceiveWellFormed(w);
    case TimeoutReceiver(k) => TimeoutWellFormed(w, k);
    case TimeoutSender(k) => TimeoutWellFormed(w, k);
    case _ => DeliberateStep(w, step);
  }

  // ---- what each step does for the receivers

  lemma SendServesReceivers(w: World, t: TaskId, position: Position)
    requires WellFormed(w) && Enabled(w, TaskSend(t, position)) && ReceiversServed(w)
    ensures ReceiversServed(Next(w, TaskSend(t, position)))
  {
    DrainWakes(w.q.waitRx, 1, w.wokenRx);
  }

  lemma ReceiveServesReceivers(w: World, t: TaskId)
    requires WellFormed(w) && Enabled(w, TaskReceive(t)) && ReceiversServed(w)
    ensures ReceiversServed(Next(w, TaskReceive(t)))
  {
    Retried(w.q.waitRx, w.wokenRx, t);
  }

  lemma UnlockServesReceivers(w: World, t: TaskId)
    requires WellFormed(w) && Enabled(w, UnlockTxStep(t)) && ReceiversServed(w)
    ensures ReceiversServed(Next(w, UnlockTxStep(t)))
  {
    DrainWakes(w.q.waitRx, w.q.txLock, w.wokenRx);
  }

  lemma IsrServesReceivers(w: World, position: Position)
    requires WellFormed(w) && Enabled(w, SendFromIsr(position)) && ReceiversServed(w)
    ensures ReceiversServed(Next(w, SendFromIsr(position)))
  {
    DrainWakes(w.q.waitRx, 1, w.wokenRx);
  }

  lemma TimeoutServesReceivers(w: World, k: nat)
    requires WellFormed(w) && Enabled(w, TimeoutReceiver(k)) && ReceiversServed(w)
    ensures ReceiversServed(Next(w, TimeoutReceiver(k)))
  {
    ApartWithout(w.q.waitRx, w.wokenRx, k);
  }

  /** Steps that leave receivers and items alone, or take items away. */
  lemma OtherServesReceivers(w: World, step: Step)
    requires WellFormed(w) && Enabled(w, step) && ReceiversServed(w)
    requires step.TaskReset? || step.PlaceReceiver? || step.PlaceSender? || step.UnlockRxStep? || step.ReceiveFromIsr? || step.TimeoutSender?
    ensures ReceiversServed(Next(w, step))
  {
  }

  /** Every step, a reset included, keeps the receivers served. */
  lemma StepServesReceivers(w: World, step: Step)
    requires WellFormed(w) && Enabled(w, step) && ReceiversServed(w)
    ensures ReceiversServed(Next(w, step))
  {
    match step
    case TaskSend(t, position) => SendServesReceivers(w, t, position);
    case TaskReceive(t) => ReceiveServesReceivers(w, t);
    case TaskPeek(t) => PeekServesReceivers(w, t);
    case UnlockTxStep(t) => UnlockServesReceivers(w, t);
    case SendFromIsr(position) => IsrServesReceivers(w, position);
    case TimeoutReceiver(k) => TimeoutServesReceivers(w, k);
    case _ => if Deliberates(step) { DeliberateStep(w, step); } else { OtherServesReceivers(w, step); }
  }

  // ---- and for the senders

  lemma SendServesSenders(w: World, t: TaskId, position: Position)
    requires WellFormed(w) && Enabled(w, TaskSend(t, position)) && SendersServed(w)
    ensures SendersServed(Next(w, TaskSend(t, position)))
  {
    Retried(w.q.waitTx, w.wokenTx, t);
  }

  lemma ReceiveServesSenders(w: World, t: TaskId)
    requires WellFormed(w) && Enabled(w, TaskReceive(t)) && SendersServed(w)
    ensures SendersServed(Next(w, TaskReceive(t)))
  {
    DrainWakes(w.q.waitTx, 1, w.wokenTx);
  }

  lemma UnlockServesSenders(w: World, t: TaskId)
    requires WellFormed(w) && Enabled(w, UnlockRxStep(t)) && SendersServed(w)
    ensures SendersServed(Next(w, UnlockRxStep(t)))
  {
    DrainWakes(w.q.waitTx, w.q.rxLock, w.wokenTx);
  }

  lemma IsrServesSenders(w: World)
    requires WellFormed(w) && Enabled(w, ReceiveFromIsr) && SendersServed(w)
    ensures SendersServed(Next(w, ReceiveFromIsr))
  {
    DrainWakes(w.q.waitTx, 1, w.wokenTx);
  }

  lemma TimeoutServesSenders(w: World, k: nat)
    requires WellFormed(w) && Enabled(w, TimeoutSender(k)) && SendersServed(w)
    ensures SendersServed(Next(w, TimeoutSender(k)))
  {
    ApartWithout(w.q.waitTx, w.wokenTx, k);
  }

  /** Steps that leave senders and free slots alone, or fill slots. */
  lemma OtherServesSenders(w: World, step: Step)
    requires WellFormed(w) && Enabled(w, step) && SendersServed(w)
    requires step.TaskPeek? || step.PlaceReceiver? || step.PlaceSender? || step.UnlockTxStep? || step.SendFromIsr? || step.TimeoutReceiver?
    ensures SendersServed(Next(w, step))
  {
  }

  /** Every step except a reset keeps the senders served. */
  lemma StepServesSenders(w: World, step: Step)
    requires WellFormed(w) && Enabled(w, step) && SendersServed(w) && !step.TaskReset?
    ensures SendersServed(Next(w, step))
  {
    match step
    case TaskSend(t, position) => SendServesSenders(w, t, position);
    case TaskReceive(t) => ReceiveServesSenders(w, t);
    case UnlockRxStep(t) => UnlockServesSenders(w, t);
    case ReceiveFromIsr => IsrServesSenders(w);
    case TimeoutSender(k) => TimeoutServesSenders(w, k);
    case _ => if Deliberates(step) { DeliberateStep(w, step); } else { OtherServesSenders(w, step); }
  }

  /** A reset frees every slot but wakes a single sender, so it keeps the senders
      served exactly when at most one was waiting or the woken ones suffice. */
  lemma ResetServesSendersIff(w: World, t: TaskId)
    requires WellFormed(w) && Enabled(w, TaskReset(t))
    ensures SendersServed(Next(w, TaskReset(t))) <==>
            |w.q.waitTx| <= 1 || w.q.length <= |w.wokenTx| + 1
  {
    DrainWakes(w.q.waitTx, 1, w.wokenTx);
  }

  /** Overwriting is only for sized items: on a full queue of zero-sized ones, a
      semaphore, it pushes the count beyond the length. */
  lemma AddedBoundedIff(q: Sync, position: Position)
    requires q.Bounded() && q.Room(position)
    ensures q.Added(position).Bounded() <==> q.count < q.length || q.itemSize > 0
  {
  }

  /** A full binary semaphore that is overwritten counts two. */
  lemma SemaphoreOverwritten()
    ensures var q := Sync(1, 0, 1, UNLOCKED, UNLOCKED, [], []);
            q.Bounded() && q.Room(Overwrite) && q.TrySend(Overwrite).1 && q.TrySend(Overwrite).0.count == 2
  {
    var q := Sync(1, 0, 1, UNLOCKED, UNLOCKED, [], []);
    AddedBoundedIff(q, Overwrite);
  }

  // ---- whole runs

  lemma {:induction false} RunServesReceivers(w: World, steps: seq<Step>)
    requires WellFormed(w) && ReceiversServed(w) && Run(w, steps).Some?
    ensures WellFormed(Run(w, steps).value) && ReceiversServed(Run(w, steps).value)
    decreases |steps|
  {
    if steps != [] {
      StepWellFormed(w, steps[0]);
      StepServesReceivers(w, steps[0]);
      RunServesReceivers(Next(w, steps[0]), steps[1..]);
    }
  }

  predicate NoReset(steps: seq<Step>) { forall s | s in steps :: !s.TaskReset? }

  lemma {:induction false} RunServesSenders(w: World, steps: seq<Step>)
    requires WellFormed(w) && SendersServed(w) && Run(w, steps).Some? && NoReset(steps)
    ensures WellFormed(Run(w, steps).value) && SendersServed(Run(w, steps).value)
    decreases |steps|
  {
    if steps != [] {
      assert steps[0] in steps;
      StepWellFormed(w, steps[0]);
      StepServesSenders(w, steps[0]);
      RunServesSenders(Next(w, steps[0]), steps[1..]);
    }
  }

  /** No wakeup of a receiver is ever lost: in every state any interleaving of tasks
      and interrupts can reach, if the queue is unlocked and no woken receiver has
      yet to retry, a task waits for data only while the queue is empty. */
  lemma NoReceiverWakeupLost(length: nat, itemSize: nat, count: nat, steps: seq<Step>)
    requires length >= 1 && count <= length
    requires Run(Initial(length, itemSize, count), steps).Some?
    ensures var w := Run(Initial(length, itemSize, count), steps).value;
            && (w.q.waitRx != [] && w.q.txLock == UNLOCKED ==> w.q.count <= |w.wokenRx|)
            && (w.q.waitRx != [] && w.q.txLock == UNLOCKED && w.wokenRx == {} ==> w.q.count == 0)
            && w.q.count <= w.q.length
  {
    RunServesReceivers(Initial(length, itemSize, count), steps);
  }

  /** Nor of a sender, in runs without a reset. */
  lemma NoSenderWakeupLost(length: nat, itemSize: nat, count: nat, steps: seq<Step>)
    requires length >= 1 && count <= length && NoReset(steps)
    requires Run(Initial(length, itemSize, count), steps).Some?
    ensures var w := Run(Initial(length, itemSize, count), steps).value;
            && (w.q.waitTx != [] && w.q.rxLock == UNLOCKED ==> w.q.length - w.q.count <= |w.wokenTx|)
            && (w.q.waitTx != [] && w.q.rxLock == UNLOCKED && w.wokenTx == {} ==> w.q.count == w.q.length)
  {
    RunServesSenders(Initial(length, itemSize, count), steps);
  }

  /** With a reset the second claim fails: two tasks block on a full queue of two, a
      reset empties it and wakes one of them, which sends; the other stays blocked
      beside a free slot with nobody left to wake it. */
  lemma SenderLostAfterReset()
    ensures var r := Run(Initial(2, 4, 2), Blocking(1) + Blocking(2) + [TaskReset(3), TaskSend(1, ToBack)]);
            r == Some(World(Sync(2, 4, 1, UNLOCKED, UNLOCKED, [], [Entry(5, 2)]), Running, {}, {}))
  {
    var w0 := Initial(2, 4, 2);
    var w1 := BlockSender(w0, 1);
    assert w1.q.waitTx == [Entry(5, 1)];
    var w2 := BlockSender(w1, 2);
    assert w2.q.waitTx == [Entry(5, 1), Entry(5, 2)] by { assert w1.q.waitTx[1..] == []; }
    RunAppend(w0, Blocking(1), Blocking(2));
    RunAppend(w0, Blocking(1) + Blocking(2), [TaskReset(3), TaskSend(1, ToBack)]);
    ResetThenSend(w2);
  }

  lemma ResetThenSend(w: World)
    requires w == World(Sync(2, 4, 2, UNLOCKED, UNLOCKED, [], [Entry(5, 1), Entry(5, 2)]), Running, {}, {})
    ensures Run(w, [TaskReset(3), TaskSend(1, ToBack)]) ==
            Some(World(Sync(2, 4, 1, UNLOCKED, UNLOCKED, [], [Entry(5, 2)]), Running, {}, {}))
  {
    var wait := w.q.waitTx;
    assert wait[1..] == [Entry(5, 2)];
    assert Drain(wait, 1) == ([1], [Entry(5, 2)]) by {
      assert Drain(wait[1..], 0) == ([], wait[1..]);
      assert [1] + [] == [1];
    }
    assert Owners(wait) == {1, 2} by { assert wait[1..][1..] == []; }
    var w1 := Next(w, TaskReset(3));
    assert w1 == World(Sync(2, 4, 0, UNLOCKED, UNLOCKED, [], [Entry(5, 2)]), Running, {}, {1}) by {
      assert AddAll({}, [1]) == {1};
    }
    assert Owners(w1.q.waitTx) == {2};
    var rest := [TaskReset(3), TaskSend(1, ToBack)][1..];
    assert rest == [TaskSend(1, ToBack)] && rest[1..] == [];
    assert Run(w1, rest) == Run(Next(w1, rest[0]), rest[1..]);
  }

  function Blocking(t: TaskId): seq<Step> {
    [SuspendAndLock(t), CheckFull(t, false), PlaceSender(t, 5), UnlockTxStep(t), UnlockRxStep(t), ResumeAll(t)]
  }

  /** An uninterrupted pass through the blocking path puts the task on the list. */
  lemma BlockSender(w: World, t: TaskId) returns (w': World)
    requires w.stage == Running && Fresh(w, t) && w.q.count == w.q.length
    requires w.q.txLock == UNLOCKED && w.q.rxLock == UNLOCKED
    ensures w' == w.(q := w.q.(waitTx := InsertSorted(w.q.waitTx, Entry(5, t))))
    ensures Run(w, Blocking(t)) == Some(w')
  {
    var steps := Blocking(t);
    var w1 := Next(w, steps[0]);
    var w2 := Next(w1, steps[1]);
    var w3 := Next(w2, steps[2]);
    var w4 := Next(w3, steps[3]);
    var w5 := Next(w4, steps[4]);
    w' := Next(w5, steps[5]);
    assert Run(w5, steps[5..]) == Some(w');
    assert Run(w4, steps[4..]) == Run(w5, steps[5..]);
    assert Run(w3, steps[3..]) == Run(w4, steps[4..]);
    assert Run(w2, steps[2..]) == Run(w3, steps[3..]);
    assert Run(w1, steps[1..]) == Run(w2, steps[2..]);
  }

  lemma {:induction false} RunAppend(w: World, a: seq<Step>, b: seq<Step>)
    requires Run(w, a).Some?
    ensures Run(w, a + b) == Run(Run(w, a).value, b)
    decreases |a|
  {
    if a == [] {
      assert a + b == b;
    } else {
      RunAppend(Next(w, a[0]), a[1..], b);
      assert (a + b)[1..] == a[1..] + b;
    }
  }
}
