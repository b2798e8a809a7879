/** Stream and message buffers.  One writer and one reader share a ring of bytes without
    a lock: the writer moves only the head, the reader only the tail, and each moves its
    index once, after all of its bytes have been copied.  Here every byte copied and
    every index read or moved is a step of its own, so that a run may interleave writer
    and reader in any way.  Proved over every run: no unread byte is ever overwritten,
    what has been read is a prefix of what has been written, and messages come out whole,
    in order, or not at all. */
module StreamBuffers {
  import opened Common

  /** How many bytes a message's length takes in the buffer. */
  const LENGTH_BYTES: nat := 4

  // ---------------------------------------------------------------- the ring

  /** An index less than two turns round, brought back into the ring. */
  function Wrap(i: nat, length: nat): nat
  {
    if i >= length then i - length else i
  }

  function BytesIn(length: nat, head: nat, tail: nat): nat
    requires head < length && tail < length
  {
    Wrap(length + head - tail, length)
  }

  function SpacesIn(length: nat, head: nat, tail: nat): nat
    requires head < length && tail < length
  {
    Wrap(length + tail - head - 1, length)
  }

  /** Used and free bytes always make up all but one of the ring. */
  lemma UsedAndFree(length: nat, head: nat, tail: nat)
    requires head < length && tail < length
    ensures BytesIn(length, head, tail) + SpacesIn(length, head, tail) == length - 1
    ensures BytesIn(length, head, tail) < length
    ensures Wrap(tail + BytesIn(length, head, tail), length) == head
  {
  }

  /** The bytes of `s` lie in the ring from index `from` on. */
  ghost predicate Holds(storage: seq<Byte>, from: nat, s: seq<Byte>)
    requires from < |storage| && |s| <= |storage|
  {
    forall i | 0 <= i < |s| :: storage[Wrap(from + i, |storage|)] == s[i]
  }

  lemma HoldsLater(storage: seq<Byte>, from: nat, s: seq<Byte>, k: nat)
    requires from < |storage| && |s| < |storage| && k <= |s| && Holds(storage, from, s)
    ensures Wrap(from + k, |storage|) < |storage| && Holds(storage, Wrap(from + k, |storage|), s[k..])
  {
    forall i | 0 <= i < |s[k..]| ensures storage[Wrap(Wrap(from + k, |storage|) + i, |storage|)] == s[k..][i] {
      assert Wrap(Wrap(from + k, |storage|) + i, |storage|) == Wrap(from + (k + i), |storage|);
    }
  }

  lemma HoldsAppend(storage: seq<Byte>, from: nat, s: seq<Byte>, t: seq<Byte>)
    requires from < |storage| && |s| + |t| < |storage| && Holds(storage, from, s)
    requires Holds(storage, Wrap(from + |s|, |storage|), t)
    ensures Holds(storage, from, s + t)
  {
    forall i | 0 <= i < |s + t| ensures storage[Wrap(from + i, |storage|)] == (s + t)[i] {
      if i >= |s| {
        assert Wrap(Wrap(from + |s|, |storage|) + (i - |s|), |storage|) == Wrap(from + i, |storage|);
      }
    }
  }

  // ---------------------------------------------------------------- frames

  /** A length as it lies in memory, low byte first. */
  function EncodeLength(n: nat): (s: seq<Byte>)
    requires n < 0x1_0000_0000
    ensures |s| == LENGTH_BYTES
  {
    [n % 256, n / 256 % 256, n / 0x1_0000 % 256, n / 0x100_0000]
  }

  function DecodeLength(s: seq<Byte>): nat
    requires |s| == LENGTH_BYTES
  {
    (s[0] as nat) + 256 * (s[1] as nat) + 0x1_0000 * (s[2] as nat) + 0x100_0000 * (s[3] as nat)
  }

  lemma LengthRoundTrip(n: nat)
    requires n < 0x1_0000_0000
    ensures DecodeLength(EncodeLength(n)) == n
  {
    var a := n / 256;
    var b := a / 256;
    assert n / 0x1_0000 == b && n / 0x100_0000 == b / 256;
    assert n == 256 * a + n % 256 && a == 256 * b + a % 256 && b == 256 * (b / 256) + b % 256;
  }

  predicate Sendable(m: seq<Byte>) { |m| < 0x1_0000_0000 }

  /** What one send puts in the buffer: a message behind its length, or bare bytes. */
  function Frame(framed: bool, m: seq<Byte>): seq<Byte>
    requires Sendable(m)
  {
    if framed then EncodeLength(|m|) + m else m
  }

  predicate AllSendable(ms: seq<seq<Byte>>) { forall i | 0 <= i < |ms| :: Sendable(ms[i]) }

  /** What a sequence of sends puts in the buffer. */
  function Wire(framed: bool, ms: seq<seq<Byte>>): seq<Byte>
    requires AllSendable(ms)
  {
    if ms == [] then [] else Frame(framed, ms[0]) + Wire(framed, ms[1..])
  }

  lemma {:induction false} WireAppend(framed: bool, a: seq<seq<Byte>>, b: seq<seq<Byte>>)
    requires AllSendable(a) && AllSendable(b)
    ensures AllSendable(a + b) && Wire(framed, a + b) == Wire(framed, a) + Wire(framed, b)
  {
    if a == [] {
      assert a + b == b;
    } else {
      assert (a + b)[1..] == a[1..] + b;
      WireAppend(framed, a[1..], b);
      Associative(Frame(framed, a[0]), Wire(framed, a[1..]), Wire(framed, b));
    }
  }

  lemma Associative(a: seq<Byte>, b: seq<Byte>, c: seq<Byte>)
    ensures a + (b + c) == (a + b) + c
  {
  }

  lemma WireOne(framed: bool, m: seq<Byte>)
    requires Sendable(m)
    ensures Wire(framed, [m]) == Frame(framed, m)
  {
    assert [m][1..] == [];
  }

  /** Behind the messages taken so far lies the frame of the next one. */
  lemma NextFrame(ms: seq<seq<Byte>>, k: nat)
    requires AllSendable(ms) && k < |ms|
    ensures AllSendable(ms[..k]) && AllSendable(ms[k..]) && AllSendable(ms[k + 1..])
    ensures Wire(true, ms) == Wire(true, ms[..k]) + (EncodeLength(|ms[k]|) + ms[k]) + Wire(true, ms[k + 1..])
  {
    assert ms == ms[..k] + ms[k..];
    WireAppend(true, ms[..k], ms[k..]);
    assert ms[k..][1..] == ms[k + 1..];
    assert Wire(true, ms[..k]) + (Frame(true, ms[k]) + Wire(true, ms[k + 1..])) ==
           Wire(true, ms[..k]) + Frame(true, ms[k]) + Wire(true, ms[k + 1..]);
  }

  // ---------------------------------------------------------------- the machine

  /** Where the writer is: working out the space (reading the tail, computing, reading
      the tail again), or copying a frame, `done` bytes of which are in place. */
  datatype Writer =
    | WIdle
    | WTail(data: seq<Byte>, original: nat)
    | WSpace(data: seq<Byte>, original: nat, space: nat)
    | WReady(data: seq<Byte>, space: nat)
    | WCopy(data: seq<Byte>, frame: seq<Byte>, done: nat)

  /** Where the reader is: it has worked out how many bytes are available, or is reading
      a message's length, or copying. */
  datatype Reader =
    | RIdle
    | RReady(capacity: nat, available: nat)
    | RHeader(capacity: nat, available: nat, header: seq<Byte>)
    | RCopy(skip: nat, count: nat, got: seq<Byte>)

  /** `sent` is what has been published, send by send, and `received` what the reader has
      taken, call by call. */
  datatype World = World(framed: bool, storage: seq<Byte>, head: nat, tail: nat, w: Writer, r: Reader,
                         sent: seq<seq<Byte>>, received: seq<seq<Byte>>)
  {
    predicate InRing() { head < |storage| && tail < |storage| }

    function Length(): nat { |storage| }

    /** The number of bytes in front of the data of one message. */
    function Overhead(): nat { if framed then LENGTH_BYTES else 0 }
  }

  datatype Step =
    | BeginSend(data: seq<Byte>)
    | ComputeSpace
    | CheckTail
    | LookAgain
    | StartCopy
    | WriteByte
    | PublishHead
    | BeginReceive(capacity: nat)
    | StartRead
    | ReadHeaderByte
    | ReadByte
    | PublishTail

  function Min(a: nat, b: nat): nat { if a < b then a else b }

  predicate Enabled(v: World, s: Step) {
    match s
    case BeginSend(data) => v.w.WIdle? && Sendable(data)
    case ComputeSpace => v.w.WTail?
    case CheckTail => v.w.WSpace?
    case LookAgain => v.w.WReady?
    case StartCopy => v.w.WReady?
    case WriteByte => v.w.WCopy? && v.w.done < |v.w.frame|
    case PublishHead => v.w.WCopy? && v.w.done == |v.w.frame|
    case BeginReceive(_) => v.r.RIdle?
    case StartRead => v.r.RReady?
    case ReadHeaderByte => v.r.RHeader? && |v.r.header| < LENGTH_BYTES
    case ReadByte => v.r.RCopy? && |v.r.got| < v.r.count
    case PublishTail => v.r.RCopy? && |v.r.got| == v.r.count
  }

  /** What the writer goes on to do once it has settled on a figure for the space: it
      copies a whole message or none of it, or as many bytes as fit. */
  function AfterSpace(framed: bool, data: seq<Byte>, space: nat): Writer
    requires Sendable(data)
  {
    var plan := if framed then data else data[..Min(|data|, space)];
    if framed && space < |data| + LENGTH_BYTES then WIdle
    else if !framed && plan == [] then WIdle
    else WCopy(plan, Frame(framed, plan), 0)
  }

  /** What the reader does with the length it has read. */
  function AfterHeader(v: World, header: seq<Byte>): Reader
    requires v.r.RHeader? && |header| == LENGTH_BYTES && v.r.available >= LENGTH_BYTES
  {
    var length := DecodeLength(header);
    var count := Min(if length > v.r.capacity then 0 else length, v.r.available - LENGTH_BYTES);
    if count == 0 then RIdle else RCopy(LENGTH_BYTES, count, [])
  }

  ghost predicate WellFormed(v: World) {
    && v.InRing() && |v.storage| < 0x1_0000_0000
    && (v.w.WTail? || v.w.WSpace? || v.w.WReady? || v.w.WCopy? ==> Sendable(v.w.data))
    && (v.r.RHeader? ==> |v.r.header| < LENGTH_BYTES < v.r.available < |v.storage|)
    && (v.r.RCopy? ==> |v.r.got| <= v.r.count && v.r.skip + v.r.count < |v.storage|)
    && (v.w.WCopy? ==> v.w.done <= |v.w.frame| < |v.storage|)
  }

  function Next(v: World, s: Step): World
    requires WellFormed(v) && Enabled(v, s)
  {
    match s
    case BeginSend(data) => v.(w := WTail(data, v.tail))
    case ComputeSpace => v.(w := WSpace(v.w.data, v.w.original, SpacesIn(v.Length(), v.head, v.tail)))
    case CheckTail =>
      if v.w.original == v.tail then v.(w := WReady(v.w.data, v.w.space)) else v.(w := WTail(v.w.data, v.tail))
    case LookAgain => v.(w := WTail(v.w.data, v.tail))
    case StartCopy =>
      v.(w := AfterSpace(v.framed, v.w.data, v.w.space))
    case WriteByte =>
      v.(storage := v.storage[Wrap(v.head + v.w.done, v.Length()) := v.w.frame[v.w.done]], w := v.w.(done := v.w.done + 1))
    case PublishHead =>
      // the length of an empty message is written but never published
      if v.w.data == [] then v.(w := WIdle)
      else v.(head := Wrap(v.head + |v.w.frame|, v.Length()), sent := v.sent + [v.w.data], w := WIdle)
    case BeginReceive(capacity) => v.(r := RReady(capacity, BytesIn(v.Length(), v.head, v.tail)))
    case StartRead =>
      if v.r.available <= v.Overhead() then v.(r := RIdle)
      else if v.framed then v.(r := RHeader(v.r.capacity, v.r.available, []))
      else if v.r.capacity == 0 then v.(r := RIdle)
      else v.(r := RCopy(0, Min(v.r.capacity, v.r.available), []))
    case ReadHeaderByte =>
      var header := v.r.header + [v.storage[Wrap(v.tail + |v.r.header|, v.Length())]];
      if |header| == LENGTH_BYTES then v.(r := AfterHeader(v, header)) else v.(r := v.r.(header := header))
    case ReadByte =>
      v.(r := v.r.(got := v.r.got + [v.storage[Wrap(v.tail + v.r.skip + |v.r.got|, v.Length())]]))
    case PublishTail =>
      v.(tail := Wrap(v.tail + v.r.skip + v.r.count, v.Length()), received := v.received + [v.r.got], r := RIdle)
  }

  // ---------------------------------------------------------------- the invariant

  /** The bytes published and not yet taken. */
  ghost function Unread(v: World): seq<Byte>
    requires AllSendable(v.sent) && AllSendable(v.received) && |Wire(v.framed, v.received)| <= |Wire(v.framed, v.sent)|
  {
    Wire(v.framed, v.sent)[|Wire(v.framed, v.received)|..]
  }

  /** What has been taken is a prefix of what has been published; messages are taken
      whole. */
  ghost predicate InOrder(framed: bool, sent: seq<seq<Byte>>, received: seq<seq<Byte>>) {
    && AllSendable(sent) && AllSendable(received)
    && Wire(framed, received) <= Wire(framed, sent)
    && (framed ==> received <= sent && forall i | 0 <= i < |sent| :: sent[i] != [])
  }

  /** The first message not taken yet is available in whole. */
  ghost predicate NextWhole(v: World, available: nat) {
    v.framed && available > 0 ==>
      |v.received| < |v.sent| && available >= LENGTH_BYTES + |v.sent[|v.received|]|
  }

  ghost predicate WriterOk(v: World, unread: nat)
    requires v.InRing() && |v.storage| > 0
  {
    match v.w
    case WSpace(_, _, space) => space + unread < |v.storage|
    case WReady(_, space) => space + unread < |v.storage|
    case WCopy(data, frame, done) =>
      && Sendable(data) && frame == Frame(v.framed, data) && (data == [] ==> v.framed)
      && |frame| + unread < |v.storage| && done <= |frame|
      && Holds(v.storage, v.head, frame[..done])
    case _ => true
  }

  ghost predicate ReaderOk(v: World, unread: seq<Byte>) {
    match v.r
    case RReady(_, available) => available <= |unread| && NextWhole(v, available)
    case RHeader(_, available, header) =>
      && v.framed && LENGTH_BYTES < available <= |unread| && NextWhole(v, available)
      && |header| < LENGTH_BYTES && header <= unread
    case RCopy(skip, count, got) =>
      && skip == v.Overhead() && skip + count <= |unread| && 0 < count && |got| <= count
      && got <= unread[skip..]
      && (v.framed ==> |v.received| < |v.sent| && count == |v.sent[|v.received|]|)
    case _ => true
  }

  /** `u` are the unread bytes, and both sides are in order with them. */
  ghost predicate Holding(v: World, u: seq<Byte>) {
    && WellFormed(v)
    && |u| == BytesIn(|v.storage|, v.head, v.tail) && |u| < |v.storage| && Holds(v.storage, v.tail, u)
    && WriterOk(v, |u|) && ReaderOk(v, u)
  }

  ghost predicate Inv(v: World) {
    InOrder(v.framed, v.sent, v.received) && Holding(v, Unread(v))
  }

  // ---------------------------------------------------------------- each step keeps it

  /** A slot the writer fills lies behind every unread byte. */
  lemma FreeSlot(length: nat, head: nat, tail: nat, done: nat, i: nat)
    requires head < length && tail < length
    requires i < BytesIn(length, head, tail) && done + BytesIn(length, head, tail) < length
    ensures Wrap(tail + i, length) != Wrap(head + done, length)
  {
  }

  /** Filling it leaves the unread bytes alone. */
  lemma WriteKeepsUnread(storage: seq<Byte>, head: nat, tail: nat, done: nat, b: Byte, u: seq<Byte>)
    requires head < |storage| && tail < |storage| && |u| == BytesIn(|storage|, head, tail) && done + |u| < |storage|
    requires Holds(storage, tail, u)
    ensures Holds(storage[Wrap(head + done, |storage|) := b], tail, u)
  {
    var n := |storage|;
    forall i | 0 <= i < |u| ensures storage[Wrap(head + done, n) := b][Wrap(tail + i, n)] == u[i] {
      FreeSlot(n, head, tail, done, i);
    }
  }

  /** And adds one byte to the frame being built. */
  lemma WriteExtends(storage: seq<Byte>, head: nat, done: nat, frame: seq<Byte>)
    requires head < |storage| && done < |frame| < |storage| && Holds(storage, head, frame[..done])
    ensures Holds(storage[Wrap(head + done, |storage|) := frame[done]], head, frame[..done + 1])
  {
    var n := |storage|;
    var r := storage[Wrap(head + done, n) := frame[done]];
    var f := frame[..done + 1];
    forall i | 0 <= i < |f| ensures r[Wrap(head + i, n)] == f[i] {
      if i < done { assert frame[..done][i] == frame[i]; }
    }
  }

  lemma WriteByteWriterOk(v: World, unread: nat)
    requires WellFormed(v) && WriterOk(v, unread) && Enabled(v, WriteByte)
    ensures WriterOk(Next(v, WriteByte), unread)
  {
    WriteExtends(v.storage, v.head, v.w.done, v.w.frame);
  }

  lemma WriteByteInv(v: World, u: seq<Byte>)
    requires Holding(v, u) && Enabled(v, WriteByte)
    ensures Holding(Next(v, WriteByte), u)
  {
    WriteKeepsUnread(v.storage, v.head, v.tail, v.w.done, v.w.frame[v.w.done], u);
    WriteByteWriterOk(v, |u|);
    ReaderStillOk(v, Next(v, WriteByte), u, u);
  }

  /** Publishing a frame keeps the order. */
  lemma SendInOrder(framed: bool, sent: seq<seq<Byte>>, received: seq<seq<Byte>>, m: seq<Byte>)
    requires InOrder(framed, sent, received) && Sendable(m) && m != []
    ensures InOrder(framed, sent + [m], received) && Wire(framed, sent + [m]) == Wire(framed, sent) + Frame(framed, m)
  {
    WireAppend(framed, sent, [m]);
    WireOne(framed, m);
  }

  /** Publishing adds the frame to the unread bytes. */
  lemma PublishHolds(storage: seq<Byte>, head: nat, tail: nat, u: seq<Byte>, frame: seq<Byte>)
    requires head < |storage| && tail < |storage| && |u| == BytesIn(|storage|, head, tail)
    requires |u| + |frame| < |storage| && Holds(storage, tail, u) && Holds(storage, head, frame)
    ensures var h := Wrap(head + |frame|, |storage|);
            && h < |storage| && |u + frame| == BytesIn(|storage|, h, tail) && Holds(storage, tail, u + frame)
  {
    UsedAndFree(|storage|, head, tail);
    HoldsAppend(storage, tail, u, frame);
  }

  lemma PublishHeadInv(v: World, u: seq<Byte>)
    requires Holding(v, u) && Enabled(v, PublishHead) && v.w.data != []
    ensures Holding(Next(v, PublishHead), u + v.w.frame)
  {
    assert v.w.frame[..v.w.done] == v.w.frame;
    PublishHolds(v.storage, v.head, v.tail, u, v.w.frame);
    ReaderStillOk(v, Next(v, PublishHead), u, u + v.w.frame);
  }

  /** More unread bytes do not disturb the reader. */
  lemma ReaderStillOk(v: World, r: World, u: seq<Byte>, more: seq<Byte>)
    requires ReaderOk(v, u) && u <= more && r.framed == v.framed && r.r == v.r && r.received == v.received && v.sent <= r.sent
    ensures ReaderOk(r, more)
  {
    if v.r.RCopy? { assert u[v.r.skip..] <= more[v.r.skip..]; }
  }

  /** The first frame is whole, since only whole frames are published. */
  lemma FirstFrame(sent: seq<seq<Byte>>, received: seq<seq<Byte>>, u: seq<Byte>)
    requires InOrder(true, sent, received) && u == Wire(true, sent)[|Wire(true, received)|..] && |u| > 0
    ensures |received| < |sent| && EncodeLength(|sent[|received|]|) + sent[|received|] <= u
  {
    var k := |received|;
    assert sent[..k] == received;
    assert sent[..|sent|] == sent;
    if k < |sent| { NextFrame(sent, k); }
  }

  /** The reader gets the unread bytes one after the other. */
  lemma ReadsNext(storage: seq<Byte>, tail: nat, u: seq<Byte>, i: nat)
    requires tail < |storage| && i < |u| < |storage| && Holds(storage, tail, u)
    ensures storage[Wrap(tail + i, |storage|)] == u[i]
  {
  }

  /** The length read is that of the next message. */
  lemma HeaderIsLength(m: seq<Byte>, header: seq<Byte>, u: seq<Byte>)
    requires Sendable(m) && EncodeLength(|m|) + m <= u && header <= u && |header| == LENGTH_BYTES
    ensures DecodeLength(header) == |m|
  {
    assert header == EncodeLength(|m|);
    LengthRoundTrip(|m|);
  }

  lemma ReadHeaderInv(v: World, u: seq<Byte>)
    requires Holding(v, u) && Enabled(v, ReadHeaderByte)
    requires v.framed && |v.received| < |v.sent| && Sendable(v.sent[|v.received|]) && v.sent[|v.received|] != []
    requires EncodeLength(|v.sent[|v.received|]|) + v.sent[|v.received|] <= u
    ensures Holding(Next(v, ReadHeaderByte), u)
  {
    var header := v.r.header + [v.storage[Wrap(v.tail + |v.r.header|, |v.storage|)]];
    ReadsNext(v.storage, v.tail, u, |v.r.header|);
    assert header <= u;
    if |header| == LENGTH_BYTES {
      HeaderIsLength(v.sent[|v.received|], header, u);
      LengthReadOk(v, u, header);
    }
    ReaderMoved(v, u, Next(v, ReadHeaderByte));
  }

  /** What the reader goes on to do with the length of the next message. */
  lemma LengthReadOk(v: World, u: seq<Byte>, header: seq<Byte>)
    requires Holding(v, u) && v.r.RHeader? && v.framed && |header| == LENGTH_BYTES
    requires |v.received| < |v.sent| && DecodeLength(header) == |v.sent[|v.received|]| && v.sent[|v.received|] != []
    ensures WellFormed(v.(r := AfterHeader(v, header))) && ReaderOk(v.(r := AfterHeader(v, header)), u)
  {
  }

  lemma ReaderMoved(v: World, u: seq<Byte>, r: World)
    requires Holding(v, u) && r == v.(r := r.r) && WellFormed(r) && ReaderOk(r, u)
    ensures Holding(r, u)
  {
  }

  lemma ReadByteInv(v: World, u: seq<Byte>)
    requires Holding(v, u) && Enabled(v, ReadByte)
    ensures Holding(Next(v, ReadByte), u)
  {
    ReadsNext(v.storage, v.tail, u, v.r.skip + |v.r.got|);
    assert u[v.r.skip..][|v.r.got|] == u[v.r.skip + |v.r.got|];
  }

  /** Taking bytes from the front of the unread ones, a whole message if framed, keeps
      the order. */
  lemma TakeInOrder(framed: bool, sent: seq<seq<Byte>>, received: seq<seq<Byte>>, u: seq<Byte>, got: seq<Byte>)
    requires InOrder(framed, sent, received) && u == Wire(framed, sent)[|Wire(framed, received)|..]
    requires Sendable(got) && got != [] && Frame(framed, got) <= u
    requires framed ==> |received| < |sent| && got == sent[|received|]
    ensures InOrder(framed, sent, received + [got])
    ensures Wire(framed, received + [got]) == Wire(framed, received) + Frame(framed, got)
    ensures u[|Frame(framed, got)|..] == Wire(framed, sent)[|Wire(framed, received + [got])|..]
  {
    WireAppend(framed, received, [got]);
    WireOne(framed, got);
    Peel(Wire(framed, sent), Wire(framed, received), u, Frame(framed, got));
  }

  lemma Peel(whole: seq<Byte>, front: seq<Byte>, u: seq<Byte>, f: seq<Byte>)
    requires front <= whole && u == whole[|front|..] && f <= u
    ensures front + f <= whole && u[|f|..] == whole[|front + f|..]
  {
  }

  /** What the reader has copied, when it has copied everything, is the data of the
      first frame. */
  lemma GotFrame(v: World)
    requires Inv(v) && Enabled(v, PublishTail)
    ensures Sendable(v.r.got) && v.r.got != [] && Frame(v.framed, v.r.got) <= Unread(v)
    ensures |Frame(v.framed, v.r.got)| == v.r.skip + v.r.count
    ensures v.framed ==> |v.received| < |v.sent| && v.r.got == v.sent[|v.received|]
  {
    var u := Unread(v);
    if v.framed {
      FirstFrame(v.sent, v.received, u);
      var m := v.sent[|v.received|];
      assert u[LENGTH_BYTES..][..|m|] == m;
    }
  }

  /** Moving the tail over bytes takes them from the unread ones. */
  lemma TakeHolds(storage: seq<Byte>, head: nat, tail: nat, u: seq<Byte>, c: nat)
    requires head < |storage| && tail < |storage| && |u| == BytesIn(|storage|, head, tail) && c <= |u|
    requires Holds(storage, tail, u)
    ensures var t := Wrap(tail + c, |storage|);
            t < |storage| && |u[c..]| == BytesIn(|storage|, head, t) && Holds(storage, t, u[c..])
  {
    HoldsLater(storage, tail, u, c);
  }

  lemma PublishTailInv(v: World, u: seq<Byte>, c: nat)
    requires Holding(v, u) && Enabled(v, PublishTail) && c == v.r.skip + v.r.count
    ensures c <= |u| && Holding(Next(v, PublishTail), u[c..])
  {
    TakeHolds(v.storage, v.head, v.tail, u, c);
    assert Next(v, PublishTail).tail == Wrap(v.tail + c, |v.storage|);
    WriterStillOk(v, Next(v, PublishTail), |u|, |u| - c);
  }

  lemma WriterStillOk(v: World, r: World, unread: nat, fewer: nat)
    requires v.InRing() && r.InRing() && WriterOk(v, unread) && fewer <= unread
    requires r.framed == v.framed && r.storage == v.storage && r.head == v.head && r.w == v.w
    ensures WriterOk(r, fewer)
  {
  }

  /** The writer works out the space and what to copy. */
  lemma WriterLookInv(v: World, u: seq<Byte>, s: Step)
    requires Holding(v, u) && Enabled(v, s)
    requires s.BeginSend? || s.ComputeSpace? || s.CheckTail? || s.LookAgain? || s.StartCopy?
    ensures Holding(Next(v, s), u)
  {
    UsedAndFree(|v.storage|, v.head, v.tail);
    ReaderStillOk(v, Next(v, s), u, u);
  }

  /** The reader works out what is available. */
  lemma ReaderLookInv(v: World, u: seq<Byte>, s: Step)
    requires Holding(v, u) && Enabled(v, s) && (s.BeginReceive? || s.StartRead?)
    requires v.framed && |u| > 0 ==> |v.received| < |v.sent| && |u| >= LENGTH_BYTES + |v.sent[|v.received|]|
    ensures Holding(Next(v, s), u)
  {
    UsedAndFree(|v.storage|, v.head, v.tail);
    WriterStillOk(v, Next(v, s), |u|, |u|);
  }

  lemma WriterStepInv(v: World, s: Step)
    requires Inv(v) && Enabled(v, s) && (s.WriteByte? || s.PublishHead?)
    ensures Inv(Next(v, s))
  {
    if s.WriteByte? {
      WriteByteInv(v, Unread(v));
    } else if v.w.data != [] {
      PublishHeadOrder(v);
      PublishHeadInv(v, Unread(v));
    }
  }

  lemma ReadStepInv(v: World)
    requires Inv(v) && Enabled(v, ReadByte)
    ensures Inv(Next(v, ReadByte))
  {
    assert Unread(Next(v, ReadByte)) == Unread(v);
    ReadByteInv(v, Unread(v));
  }

  lemma TakeStepInv(v: World)
    requires Inv(v) && Enabled(v, PublishTail)
    ensures Inv(Next(v, PublishTail))
  {
    PublishTailOrder(v);
    PublishTailInv(v, Unread(v), v.r.skip + v.r.count);
    LookTaken(Next(v, PublishTail), Unread(v)[v.r.skip + v.r.count..]);
  }

  lemma LookTaken(r: World, u: seq<Byte>)
    requires Holding(r, u) && InOrder(r.framed, r.sent, r.received) && u == Unread(r)
    ensures Inv(r)
  {
  }

  lemma HeaderStepInv(v: World)
    requires Inv(v) && Enabled(v, ReadHeaderByte)
    ensures Inv(Next(v, ReadHeaderByte))
  {
    FirstFrame(v.sent, v.received, Unread(v));
    ReadHeaderInv(v, Unread(v));
  }

  predicate IsLook(s: Step) {
    s.BeginSend? || s.ComputeSpace? || s.CheckTail? || s.LookAgain? || s.StartCopy? || s.BeginReceive? || s.StartRead?
  }

  lemma LookStepInv(v: World, s: Step)
    requires Inv(v) && Enabled(v, s) && IsLook(s)
    ensures Inv(Next(v, s))
  {
    if v.framed && |Unread(v)| > 0 { FirstFrame(v.sent, v.received, Unread(v)); }
    if s.BeginReceive? || s.StartRead? { ReaderLookInv(v, Unread(v), s); } else { WriterLookInv(v, Unread(v), s); }
    LooksOnly(v, s, Next(v, s));
    NothingMoved(v, Next(v, s));
  }

  lemma LooksOnly(v: World, s: Step, r: World)
    requires WellFormed(v) && Enabled(v, s) && IsLook(s) && r == Next(v, s)
    ensures r.framed == v.framed && r.sent == v.sent && r.received == v.received
  {
  }

  lemma NothingMoved(v: World, r: World)
    requires Inv(v) && Holding(r, Unread(v)) && r.framed == v.framed && r.sent == v.sent && r.received == v.received
    ensures Inv(r)
  {
  }

  /** Every step of either side keeps the invariant. */
  lemma StepInv(v: World, s: Step)
    requires Inv(v) && Enabled(v, s)
    ensures Inv(Next(v, s))
  {
    if IsLook(s) { LookStepInv(v, s); }
    else if s.WriteByte? || s.PublishHead? { WriterStepInv(v, s); }
    else if s.ReadHeaderByte? { HeaderStepInv(v); }
    else if s.ReadByte? { ReadStepInv(v); }
    else { TakeStepInv(v); }
  }

  lemma PublishHeadOrder(v: World)
    requires Inv(v) && Enabled(v, PublishHead) && v.w.data != []
    ensures InOrder(v.framed, v.sent + [v.w.data], v.received)
    ensures Unread(Next(v, PublishHead)) == Unread(v) + v.w.frame
  {
    SendInOrder(v.framed, v.sent, v.received, v.w.data);
  }

  lemma PublishTailOrder(v: World)
    requires Inv(v) && Enabled(v, PublishTail)
    ensures InOrder(v.framed, v.sent, v.received + [v.r.got])
    ensures v.r.skip + v.r.count <= |Unread(v)| && Unread(Next(v, PublishTail)) == Unread(v)[v.r.skip + v.r.count..]
  {
    GotFrame(v);
    TakeInOrder(v.framed, v.sent, v.received, Unread(v), v.r.got);
  }

  // ---------------------------------------------------------------- whole runs

  function Empty(framed: bool, storage: seq<Byte>): World {
    World(framed, storage, 0, 0, WIdle, RIdle, [], [])
  }

  lemma EmptyInv(framed: bool, storage: seq<Byte>)
    requires 0 < |storage| < 0x1_0000_0000
    ensures Inv(Empty(framed, storage))
  {
  }

  ghost function Run(v: World, steps: seq<Step>): (r: (bool, World))
    requires Inv(v)
    decreases |steps|
  {
    if steps == [] then (true, v)
    else if !Enabled(v, steps[0]) then (false, v)
    else (StepInv(v, steps[0]); Run(Next(v, steps[0]), steps[1..]))
  }

  lemma {:induction false} RunInv(v: World, steps: seq<Step>)
    requires Inv(v) && Run(v, steps).0
    ensures Inv(Run(v, steps).1) && Run(v, steps).1.framed == v.framed
    decreases |steps|
  {
    if steps != [] {
      StepInv(v, steps[0]);
      RunInv(Next(v, steps[0]), steps[1..]);
    }
  }

  /** From an empty buffer, under every interleaving: the bytes read are a prefix of the
      bytes written; those not yet read are all still in the ring; and of a message
      buffer each receive has returned exactly the next message sent. */
  lemma NothingLostOrTorn(framed: bool, storage: seq<Byte>, steps: seq<Step>)
    requires 0 < |storage| < 0x1_0000_0000
    ensures Inv(Empty(framed, storage))
    ensures Run(Empty(framed, storage), steps).0 ==>
            var v := Run(Empty(framed, storage), steps).1;
            && v.InRing() && v.framed == framed && AllSendable(v.sent) && AllSendable(v.received)
            && Wire(framed, v.received) <= Wire(framed, v.sent)
            && |Wire(framed, v.sent)| - |Wire(framed, v.received)| < |v.storage|
            && Holds(v.storage, v.tail, Wire(framed, v.sent)[|Wire(framed, v.received)|..])
            && (framed ==> v.received <= v.sent)
  {
    EmptyInv(framed, storage);
    if Run(Empty(framed, storage), steps).0 { RunInv(Empty(framed, storage), steps); }
  }

  /** A receive whose buffer is too small for the next message takes nothing, and one
      whose buffer is large enough takes it. */
  lemma TooSmallTakesNothing(v: World)
    requires Inv(v) && Enabled(v, ReadHeaderByte) && |v.r.header| == LENGTH_BYTES - 1
    ensures |v.received| < |v.sent|
    ensures var m, r := v.sent[|v.received|], Next(v, ReadHeaderByte);
            && r.tail == v.tail && r.received == v.received
            && (|m| > v.r.capacity ==> r.r == RIdle)
            && (|m| <= v.r.capacity ==> r.r == RCopy(LENGTH_BYTES, |m|, []))
  {
    var u := Unread(v);
    var header := v.r.header + [v.storage[Wrap(v.tail + |v.r.header|, |v.storage|)]];
    ReadsNext(v.storage, v.tail, u, |v.r.header|);
    assert header <= u;
    FirstFrame(v.sent, v.received, u);
    HeaderIsLength(v.sent[|v.received|], header, u);
  }

  /** The writer's figure for the space is never more than there is, however stale. */
  lemma SpaceIsSafe(v: World)
    requires Inv(v) && v.w.WReady?
    ensures v.w.space <= SpacesIn(|v.storage|, v.head, v.tail)
  {
    UsedAndFree(|v.storage|, v.head, v.tail);
  }
}
