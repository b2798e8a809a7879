/** The agent's work queue.  Posters put a job in a ring and then give a semaphore; the
    agent task takes the semaphore and then a job.  The four halves are separate steps, so
    tasks and interrupts may come in between.  Proved over every interleaving: no job is
    left in the queue with nobody to fetch it, even after a flush; without a flush,
    semaphore and queue agree exactly, no give fails, and every accepted job is run once,
    in order. */
module Agents {
  import opened Common

  const AGENT_QUEUE_SIZE: nat := 32

  type Job = nat

  /** `gives` counts posts that have queued their job and not yet given the semaphore, and
      `taken` says that the agent has taken it and not yet a job.  `accepted`, `run` and
      `flushed` are what has happened so far. */
  datatype Agent = Agent(queue: seq<Job>, sem: nat, gives: nat, taken: bool,
                         accepted: seq<Job>, run: seq<Job>, flushed: bool)

  datatype Step = Enqueue(job: Job) | Give | Take | Dequeue | Flush

  predicate Enabled(a: Agent, s: Step) {
    match s
    case Enqueue(_) => true
    case Give => a.gives > 0
    case Take => a.sem > 0 && !a.taken
    case Dequeue => a.taken
    case Flush => true
  }

  /** What a post or half of one returns, when it returns. */
  datatype Return = Pending | Posted | Refused

  function Next(a: Agent, s: Step): (Agent, Return)
    requires Enabled(a, s)
  {
    match s
    case Enqueue(job) =>
      if |a.queue| == AGENT_QUEUE_SIZE then (a, Refused)
      else (a.(queue := a.queue + [job], gives := a.gives + 1, accepted := a.accepted + [job]), Pending)
    case Give =>
      if a.sem < AGENT_QUEUE_SIZE then (a.(sem := a.sem + 1, gives := a.gives - 1), Posted)
      else (a.(gives := a.gives - 1), Refused)
    case Take => (a.(sem := a.sem - 1, taken := true), Pending)
    case Dequeue =>
      if a.queue == [] then (a.(taken := false), Pending)
      else (a.(queue := a.queue[1..], taken := false, run := a.run + [a.queue[0]]), Pending)
    case Flush => (a.(queue := [], flushed := true), Pending)
  }

  /** What is still to come for the queued jobs. */
  function Wakeups(a: Agent): nat { a.sem + a.gives + if a.taken then 1 else 0 }

  ghost predicate Inv(a: Agent) {
    && |a.queue| <= AGENT_QUEUE_SIZE && a.sem <= AGENT_QUEUE_SIZE
    && |a.queue| <= Wakeups(a)
    && (!a.flushed ==> |a.queue| == Wakeups(a) && a.accepted == a.run + a.queue)
  }

  lemma NextInv(a: Agent, s: Step)
    requires Inv(a) && Enabled(a, s)
    ensures Inv(Next(a, s).0)
  {
    if s.Enqueue? && |a.queue| < AGENT_QUEUE_SIZE { assert a.run + (a.queue + [s.job]) == a.run + a.queue + [s.job]; }
    if s.Dequeue? && a.queue != [] { assert a.run + [a.queue[0]] + a.queue[1..] == a.run + a.queue; }
  }

  function Run(a: Agent, steps: seq<Step>): (bool, Agent)
    decreases |steps|
  {
    if steps == [] then (true, a)
    else if !Enabled(a, steps[0]) then (false, a)
    else Run(Next(a, steps[0]).0, steps[1..])
  }

  function NewAgent(): Agent { Agent([], 0, 0, false, [], [], false) }

  lemma {:induction false} RunInv(a: Agent, steps: seq<Step>)
    requires Inv(a) && Run(a, steps).0
    ensures Inv(Run(a, steps).1)
    ensures !a.flushed && (forall i | 0 <= i < |steps| :: !steps[i].Flush?) ==> !Run(a, steps).1.flushed
    decreases |steps|
  {
    if steps != [] {
      NextInv(a, steps[0]);
      RunInv(Next(a, steps[0]).0, steps[1..]);
      assert forall i | 0 <= i < |steps[1..]| :: steps[1..][i] == steps[i + 1];
    }
  }

  /** Whatever has happened, flushes included: if a job is queued, then a give is on its
      way, or the agent is about to fetch a job, or it can take the semaphore. */
  lemma NoJobStranded(steps: seq<Step>)
    requires Run(NewAgent(), steps).0
    ensures var a := Run(NewAgent(), steps).1;
            a.queue != [] ==> a.gives > 0 || a.taken || Enabled(a, Take)
  {
    RunInv(NewAgent(), steps);
  }

  /** Without a flush: the jobs run so far and those queued are the accepted ones, in
      order; no give finds the semaphore full; and so a post is refused only when the
      queue is full. */
  lemma ExactlyOnceInOrder(steps: seq<Step>)
    requires Run(NewAgent(), steps).0 && forall i | 0 <= i < |steps| :: !steps[i].Flush?
    ensures var a := Run(NewAgent(), steps).1;
            && a.accepted == a.run + a.queue
            && |a.queue| == a.sem + a.gives + (if a.taken then 1 else 0)
            && (Enabled(a, Give) ==> Next(a, Give).1 == Posted)
            && (forall s | Enabled(a, s) && Next(a, s).1 == Refused :: s.Enqueue? && |a.queue| == AGENT_QUEUE_SIZE)
  {
    RunInv(NewAgent(), steps);
  }

  /** After a flush the semaphore may be ahead of the queue, and then a post can be refused
      although its job is queued, and will be run. */
  lemma RefusedButQueued(a: Agent)
    requires Inv(a) && a.gives > 0
    ensures Next(a, Give).1 == Refused <==> a.sem == AGENT_QUEUE_SIZE
    ensures Next(a, Give).1 == Refused ==> a.flushed && Next(a, Give).0.queue == a.queue
  {
  }

  /** Such a state can be reached: fill the queue, flush it, and post once more. */
  lemma RefusedAfterFlush(job: Job)
    ensures var a := Agent([job], AGENT_QUEUE_SIZE, 1, false, Repeat(job, 33), [], true);
            && Run(NewAgent(), Rounds(job, 32) + [Flush, Enqueue(job)]) == (true, a)
            && Next(a, Give).1 == Refused && a.queue == [job]
  {
    RoundsFill(job, 32);
    RunAppend(NewAgent(), Rounds(job, 32), [Flush, Enqueue(job)]);
    var filled := Repeat(job, 32);
    var full := Agent(filled, 32, 0, false, filled, [], false);
    RepeatLength(job, 32);
    PostAfterFlush(full, job);
  }

  lemma PostAfterFlush(a: Agent, job: Job)
    ensures Run(a, [Flush, Enqueue(job)]) ==
              (true, a.(queue := [job], flushed := true, gives := a.gives + 1, accepted := a.accepted + [job]))
  {
    var flushed := a.(queue := [], flushed := true);
    assert [Flush, Enqueue(job)][1..] == [Enqueue(job)];
    assert [Enqueue(job)][1..] == [];
    assert Run(flushed, [Enqueue(job)]) == Run(Next(flushed, Enqueue(job)).0, []);
    assert Run(a, [Flush, Enqueue(job)]) == Run(flushed, [Enqueue(job)]);
    assert [] + [job] == [job];
  }

  function Repeat(job: Job, n: nat): seq<Job> { if n == 0 then [] else Repeat(job, n - 1) + [job] }

  /** `n` posts, one after the other. */
  function Rounds(job: Job, n: nat): seq<Step> {
    if n == 0 then [] else Rounds(job, n - 1) + [Enqueue(job), Give]
  }

  lemma {:induction false} RepeatLength(job: Job, n: nat)
    ensures |Repeat(job, n)| == n
  {
    if n > 0 { RepeatLength(job, n - 1); }
  }

  lemma {:induction false} RunAppend(a: Agent, x: seq<Step>, y: seq<Step>)
    requires Run(a, x).0
    ensures Run(a, x + y) == Run(Run(a, x).1, y)
    decreases |x|
  {
    if x == [] {
      assert x + y == y;
    } else {
      assert (x + y)[1..] == x[1..] + y;
      RunAppend(Next(a, x[0]).0, x[1..], y);
    }
  }

  lemma {:induction false} RoundsFill(job: Job, n: nat)
    requires n <= AGENT_QUEUE_SIZE
    ensures Run(NewAgent(), Rounds(job, n)) == (true, Agent(Repeat(job, n), n, 0, false, Repeat(job, n), [], false))
  {
    if n > 0 {
      RoundsFill(job, n - 1);
      RepeatLength(job, n - 1);
      RunAppend(NewAgent(), Rounds(job, n - 1), [Enqueue(job), Give]);
      assert [Enqueue(job), Give][1..] == [Give];
      assert [Give][1..] == [];
    }
  }

  // ---------------------------------------------------------------- the ring

  function Wrapped(i: nat): nat { if i >= AGENT_QUEUE_SIZE then i - AGENT_QUEUE_SIZE else i }

  /** The queue itself: an array with a head, a tail and a count, each moved under a lock. */
  class AgentQueue {
    const slots: array<Job>
    var head: nat
    var tail: nat
    var count: nat

    ghost predicate Valid()
      reads this
    {
      && slots.Length == AGENT_QUEUE_SIZE && head < AGENT_QUEUE_SIZE && count <= AGENT_QUEUE_SIZE
      && tail == Wrapped(head + count)
    }

    ghost function Contents(): (s: seq<Job>)
      requires Valid()
      reads this, slots
      ensures |s| == count && forall i | 0 <= i < count :: s[i] == slots[Wrapped(head + i)]
    {
      seq(count, i requires 0 <= i < count && Valid() reads this, slots => slots[Wrapped(head + i)])
    }

    constructor ()
      ensures Valid() && fresh(slots) && Contents() == []
    {
      slots := new Job[AGENT_QUEUE_SIZE](_ => 0);
      head, tail, count := 0, 0, 0;
    }

    /** The first half of a post. */
    method Add(job: Job) returns (added: bool)
      requires Valid()
      modifies this`tail, this`count, slots
      ensures Valid() && (added <==> |old(Contents())| < AGENT_QUEUE_SIZE)
      ensures Contents() == if added then old(Contents()) + [job] else old(Contents())
    {
      if count == AGENT_QUEUE_SIZE { return false; }
      slots[tail] := job;
      tail := tail + 1;
      if tail == AGENT_QUEUE_SIZE {
        tail := 0;
      }
      count := count + 1;
      added := true;
    }

    /** The second half of the agent's turn. */
    method Fetch() returns (job: Option<Job>)
      requires Valid()
      modifies this`head, this`count
      ensures Valid()
      ensures old(Contents()) == [] ==> job == None && Contents() == []
      ensures old(Contents()) != [] ==> job == Some(old(Contents())[0]) && Contents() == old(Contents())[1..]
    {
      job := None;
      if count > 0 {
        job := Some(slots[head]);
        head := head + 1;
        if head == AGENT_QUEUE_SIZE {
          head := 0;
        }
        count := count - 1;
      }
    }

    method Flush()
      requires Valid()
      modifies this
      ensures Valid() && Contents() == []
    {
      count := 0;
      head, tail := 0, 0;
    }
  }
}
