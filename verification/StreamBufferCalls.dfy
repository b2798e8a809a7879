/** What becomes of one call on a stream or message buffer, whatever the other side does in
    the meantime: a send of what fits when it begins is never refused, and a receive that
    finds a message takes it, or leaves it if it is too long for the caller. */
module StreamBufferCalls {
  import opened Common
  import opened StreamBuffers

  predicate OfWriter(s: Step) {
    s.BeginSend? || s.ComputeSpace? || s.CheckTail? || s.LookAgain? || s.StartCopy? || s.WriteByte? || s.PublishHead?
  }

  function Free(v: World): nat
    requires v.InRing()
  {
    SpacesIn(|v.storage|, v.head, v.tail)
  }

  // ---------------------------------------------------------------- what the other side changes

  /** The reader touches neither the writer's side nor what has been sent, and only makes
      room. */
  lemma ReaderMakesRoom(v: World, s: Step)
    requires Inv(v) && Enabled(v, s) && !OfWriter(s)
    ensures var r := Next(v, s);
            && Inv(r) && r.w == v.w && r.sent == v.sent && r.head == v.head && r.framed == v.framed
            && |r.storage| == |v.storage| && Free(r) >= Free(v)
  {
    StepInv(v, s);
    var r := Next(v, s);
    UsedAndFree(|v.storage|, v.head, v.tail);
    UsedAndFree(|v.storage|, r.head, r.tail);
    if s.PublishTail? { PublishTailOrder(v); }
  }

  /** The writer touches nothing of the reader's, and only adds to what has been sent. */
  lemma WriterAdds(v: World, s: Step)
    requires Inv(v) && Enabled(v, s) && OfWriter(s)
    ensures var r := Next(v, s);
            Inv(r) && r.r == v.r && r.received == v.received && r.tail == v.tail && r.framed == v.framed && v.sent <= r.sent
  {
    StepInv(v, s);
  }

  // ---------------------------------------------------------------- sending

  /** A call that sends `data`, begun when `free` bytes were free and `sent` had been sent:
      how far it has come. */
  ghost predicate Sends(v: World, data: seq<Byte>, free: nat, sent: seq<seq<Byte>>)
    requires v.InRing() && Sendable(data)
  {
    match v.w
    case WTail(d, _) => d == data && v.sent == sent && Free(v) >= free
    case WSpace(d, _, space) => d == data && v.sent == sent && Free(v) >= free && space >= free
    case WReady(d, space) => d == data && v.sent == sent && Free(v) >= free && space >= free
    case WCopy(d, frame, _) => d == data && v.sent == sent
    case WIdle => v.sent == sent + [data]
  }

  lemma SendGoesOn(v: World, s: Step, data: seq<Byte>, free: nat, sent: seq<seq<Byte>>)
    requires Inv(v) && Enabled(v, s) && !s.BeginSend? && Sendable(data) && data != [] && Sends(v, data, free, sent)
    requires |Frame(v.framed, data)| <= free
    ensures Inv(Next(v, s)) && Next(v, s).framed == v.framed && Sends(Next(v, s), data, free, sent)
  {
    StepInv(v, s);
    if !OfWriter(s) {
      ReaderMakesRoom(v, s);
    } else {
      WriterAdds(v, s);
      if s.StartCopy? { assert v.w.data[..|v.w.data|] == v.w.data; }
    }
  }

  predicate NoSend(steps: seq<Step>) { forall i | 0 <= i < |steps| :: !steps[i].BeginSend? }

  lemma {:induction false} SendGoesThrough(v: World, steps: seq<Step>, data: seq<Byte>, free: nat, sent: seq<seq<Byte>>)
    requires Inv(v) && NoSend(steps) && Sendable(data) && data != [] && Sends(v, data, free, sent)
    requires |Frame(v.framed, data)| <= free
    ensures Run(v, steps).0 ==> Inv(Run(v, steps).1) && Sends(Run(v, steps).1, data, free, sent)
    decreases |steps|
  {
    if steps != [] && Enabled(v, steps[0]) {
      SendGoesOn(v, steps[0], data, free, sent);
      SendGoesThrough(Next(v, steps[0]), steps[1..], data, free, sent);
    }
  }

  /** What fits when the call begins is sent whole by the time it ends, however the reader
      comes in between. */
  lemma FitsIsSent(v: World, data: seq<Byte>, rest: seq<Step>)
    requires Inv(v) && v.w.WIdle? && Sendable(data) && data != [] && |Frame(v.framed, data)| <= Free(v)
    requires Inv(Next(v, BeginSend(data))) && NoSend(rest) && Run(Next(v, BeginSend(data)), rest).0
    ensures var r := Run(Next(v, BeginSend(data)), rest).1; r.w.WIdle? ==> r.sent == v.sent + [data]
  {
    SendGoesThrough(Next(v, BeginSend(data)), rest, data, Free(v), v.sent);
  }

  // ---------------------------------------------------------------- receiving

  /** A call that receives from a message buffer with `first` next in line: how far it has
      come. */
  ghost predicate Receives(v: World, first: seq<Byte>, capacity: nat, received: seq<seq<Byte>>) {
    && v.framed && |received| < |v.sent| && v.sent[|received|] == first
    && match v.r
       case RReady(c, available) => c == capacity && available > 0 && v.received == received
       case RHeader(c, _, _) => c == capacity && v.received == received
       case RCopy(_, _, _) => |first| <= capacity && v.received == received
       case RIdle => v.received == if |first| <= capacity then received + [first] else received
  }

  lemma WriterLeavesReceive(v: World, s: Step, first: seq<Byte>, capacity: nat, received: seq<seq<Byte>>)
    requires Inv(v) && Enabled(v, s) && OfWriter(s) && Receives(v, first, capacity, received)
    ensures Inv(Next(v, s)) && Receives(Next(v, s), first, capacity, received)
  {
    WriterAdds(v, s);
  }

  lemma StartsReading(v: World, first: seq<Byte>, capacity: nat, received: seq<seq<Byte>>)
    requires Inv(v) && Enabled(v, StartRead) && Receives(v, first, capacity, received)
    ensures Receives(Next(v, StartRead), first, capacity, received)
  {
    assert NextWhole(v, v.r.available);
    assert v.sent[|v.received|] != [];
  }

  lemma ReadsHeader(v: World, first: seq<Byte>, capacity: nat, received: seq<seq<Byte>>)
    requires Inv(v) && Enabled(v, ReadHeaderByte) && Receives(v, first, capacity, received)
    ensures Receives(Next(v, ReadHeaderByte), first, capacity, received)
  {
    if |v.r.header| == LENGTH_BYTES - 1 { TooSmallTakesNothing(v); }
  }

  lemma TakesMessage(v: World, first: seq<Byte>, capacity: nat, received: seq<seq<Byte>>)
    requires Inv(v) && Enabled(v, PublishTail) && Receives(v, first, capacity, received)
    ensures Receives(Next(v, PublishTail), first, capacity, received)
  {
    StepInv(v, PublishTail);
    var r := Next(v, PublishTail);
    assert r.received <= r.sent;
    assert r.received[|received|] == r.sent[|received|];
  }

  lemma ReceiveGoesOn(v: World, s: Step, first: seq<Byte>, capacity: nat, received: seq<seq<Byte>>)
    requires Inv(v) && Enabled(v, s) && !s.BeginReceive? && Receives(v, first, capacity, received)
    ensures Inv(Next(v, s)) && Receives(Next(v, s), first, capacity, received)
  {
    StepInv(v, s);
    if OfWriter(s) { WriterLeavesReceive(v, s, first, capacity, received); }
    else if s.StartRead? { StartsReading(v, first, capacity, received); }
    else if s.ReadHeaderByte? { ReadsHeader(v, first, capacity, received); }
    else if s.PublishTail? { TakesMessage(v, first, capacity, received); }
  }

  predicate NoReceive(steps: seq<Step>) { forall i | 0 <= i < |steps| :: !steps[i].BeginReceive? }

  lemma {:induction false} ReceiveGoesThrough(v: World, steps: seq<Step>, first: seq<Byte>, capacity: nat, received: seq<seq<Byte>>)
    requires Inv(v) && NoReceive(steps) && Receives(v, first, capacity, received)
    ensures Run(v, steps).0 ==> Receives(Run(v, steps).1, first, capacity, received)
    decreases |steps|
  {
    if steps != [] && Enabled(v, steps[0]) {
      ReceiveGoesOn(v, steps[0], first, capacity, received);
      ReceiveGoesThrough(Next(v, steps[0]), steps[1..], first, capacity, received);
    }
  }

  /** A receive from a message buffer in which there is a message when the call begins: it
      takes that message, whole and no other, if the caller has room for it, and nothing if
      not, however the writer comes in between. */
  lemma NextIsReceived(v: World, capacity: nat, rest: seq<Step>)
    requires Inv(v) && v.framed && v.r.RIdle? && |v.received| < |v.sent|
    requires Inv(Next(v, BeginReceive(capacity))) && NoReceive(rest) && Run(Next(v, BeginReceive(capacity)), rest).0
    ensures var r, first := Run(Next(v, BeginReceive(capacity)), rest).1, v.sent[|v.received|];
            r.r.RIdle? ==> r.received == if |first| <= capacity then v.received + [first] else v.received
  {
    var first := v.sent[|v.received|];
    SomethingUnread(v);
    ReceiveGoesThrough(Next(v, BeginReceive(capacity)), rest, first, capacity, v.received);
  }

  lemma SomethingUnread(v: World)
    requires Inv(v) && v.framed && |v.received| < |v.sent|
    ensures BytesIn(|v.storage|, v.head, v.tail) > 0
  {
    assert v.sent[..|v.received|] == v.received;
    NextFrame(v.sent, |v.received|);
  }
}
