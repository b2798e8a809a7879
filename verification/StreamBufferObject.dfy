/** The stream buffer as an object: the copying routines of stream_buffer.c over a byte
    array, and what a send or a receive that is not interrupted does.  The steps that
    these routines take, and their interleavings, are in StreamBuffers. */
module StreamBufferObjects {
  import opened Common
  import opened StreamBuffers

  class StreamBuffer {
    const buffer: array<Byte>
    const isMessageBuffer: bool
    var head: nat
    var tail: nat

    ghost predicate Valid()
      reads this
    {
      head < buffer.Length && tail < buffer.Length
    }

    /** The unread bytes. */
    ghost function Contents(): (s: seq<Byte>)
      requires Valid()
      reads this, buffer
      ensures |s| == BytesIn(buffer.Length, head, tail) < buffer.Length
      ensures Holds(buffer[..], tail, s)
    {
      UsedAndFree(buffer.Length, head, tail);
      var n := BytesIn(buffer.Length, head, tail);
      seq(n, i requires 0 <= i < n && Wrap(tail + i, buffer.Length) < buffer.Length reads this, buffer =>
        buffer[Wrap(tail + i, buffer.Length)])
    }

    /** One byte is given up so that a full ring can be told from an empty one. */
    constructor (size: nat, messages: bool)
      requires size > 0
      ensures Valid() && fresh(buffer) && buffer.Length == size + 1 && isMessageBuffer == messages && Contents() == []
    {
      buffer := new Byte[size + 1](_ => 0);
      isMessageBuffer := messages;
      head, tail := 0, 0;
    }

    method BytesInBuffer() returns (count: nat)
      requires Valid()
      ensures count == |Contents()|
    {
      count := buffer.Length + head - tail;
      if count >= buffer.Length {
        count := count - buffer.Length;
      }
    }

    /** The space as the writer works it out when nothing interferes; the loop that reads
        the tail again is in StreamBuffers. */
    method SpacesAvailable() returns (space: nat)
      requires Valid()
      ensures space + |Contents()| == buffer.Length - 1
    {
      space := buffer.Length + tail - head - 1;
      if space >= buffer.Length {
        space := space - buffer.Length;
      }
    }

    /** Copies bytes into the ring, in one piece or in two. */
    method WriteBytesToBuffer(data: seq<Byte>, from: nat) returns (next: nat)
      requires 0 < |data| <= buffer.Length && from < buffer.Length
      modifies buffer
      ensures next == Wrap(from + |data|, buffer.Length) && next < buffer.Length
      ensures Holds(buffer[..], from, data)
      ensures OnlyWritten(old(buffer[..]), buffer[..], from, |data|)
    {
      var first := Min(buffer.Length - from, |data|);
      forall i | 0 <= i < first { buffer[from + i] := data[i]; }
      if |data| > first {
        forall i | 0 <= i < |data| - first { buffer[i] := data[first + i]; }
      }
      next := from + |data|;
      if next >= buffer.Length {
        next := next - buffer.Length;
      }
    }

    /** Copies bytes out of the ring. */
    method ReadBytesFromBuffer(count: nat, from: nat) returns (data: seq<Byte>, next: nat)
      requires 0 < count <= buffer.Length && from < buffer.Length
      ensures |data| == count && Holds(buffer[..], from, data)
      ensures next == Wrap(from + count, buffer.Length) && next < buffer.Length
    {
      var first := Min(buffer.Length - from, count);
      data := buffer[from..from + first];
      if count > first {
        data := data + buffer[..count - first];
      }
      next := from + count;
      if next >= buffer.Length {
        next := next - buffer.Length;
      }
    }

    /** Writes a message's length at the head without publishing it. */
    method WriteLength(length: nat) returns (next: nat)
      requires Valid() && length < 0x1_0000_0000 && |Contents()| + LENGTH_BYTES < buffer.Length
      modifies buffer
      ensures Contents() == old(Contents())
      ensures next == Wrap(head + LENGTH_BYTES, buffer.Length) && Holds(buffer[..], head, EncodeLength(length))
    {
      ghost var u := Contents();
      UsedAndFree(buffer.Length, head, tail);
      next := WriteBytesToBuffer(EncodeLength(length), head);
      Kept(old(buffer[..]), buffer[..], tail, u, |u|, head, LENGTH_BYTES);
      Unique(u);
    }

    /** Writes bytes behind `written`, which is at the head, and publishes both. */
    method WriteAndPublish(data: seq<Byte>, from: nat, ghost written: seq<Byte>)
      requires Valid() && data != [] && |Contents()| + |written| + |data| < buffer.Length
      requires from == Wrap(head + |written|, buffer.Length) && Holds(buffer[..], head, written)
      modifies this`head, buffer
      ensures Valid() && Contents() == old(Contents()) + (written + data)
    {
      ghost var u := Contents();
      UsedAndFree(buffer.Length, head, tail);
      var nextHead := WriteBytesToBuffer(data, from);
      Kept(old(buffer[..]), buffer[..], tail, u, |u| + |written|, from, |data|);
      Kept(old(buffer[..]), buffer[..], head, written, |written|, from, |data|);
      HoldsAppend(buffer[..], head, written, data);
      PublishHolds(buffer[..], head, tail, u, written + data);
      head := nextHead;
      Unique(u + (written + data));
    }

    /** Writes a whole message or none of it, or as many bytes as there is space for, and
        publishes them all at once. */
    method WriteMessageToBuffer(data: seq<Byte>, space: nat) returns (sent: nat)
      requires Valid() && Sendable(data) && space + |Contents()| < buffer.Length
      modifies this`head, buffer
      ensures Valid()
      ensures sent == if isMessageBuffer then (if space >= |data| + LENGTH_BYTES then |data| else 0) else Min(|data|, space)
      ensures Contents() == old(Contents()) + if sent > 0 then Frame(isMessageBuffer, data[..sent]) else []
    {
      var nextHead := head;
      ghost var written: seq<Byte> := [];
      sent := |data|;
      if isMessageBuffer {
        if space >= |data| + LENGTH_BYTES {
          nextHead := WriteLength(|data|);
          written := EncodeLength(|data|);
        } else {
          sent := 0;
        }
      } else {
        sent := Min(|data|, space);
      }
      if sent != 0 {
        assert written + data[..sent] == Frame(isMessageBuffer, data[..sent]);
        WriteAndPublish(data[..sent], nextHead, written);
      }
    }

    /** Reads the next message if it fits the caller's buffer, or as many bytes as there
        are and fit. */
    method ReadMessageFromBuffer(capacity: nat, available: nat) returns (data: seq<Byte>)
      requires Valid() && available == |Contents()| > if isMessageBuffer then LENGTH_BYTES else 0
      modifies this`tail
      ensures Valid() && (data, Contents()) == Taken(isMessageBuffer, old(Contents()), capacity)
    {
      ghost var u := Contents();
      var nextTail := tail;
      var wanted := capacity;
      var left := available;
      if isMessageBuffer {
        var header;
        header, nextTail := ReadBytesFromBuffer(LENGTH_BYTES, nextTail);
        HeldPrefix(buffer[..], tail, u, header);
        left := left - LENGTH_BYTES;
        wanted := Fitting(DecodeLength(header), capacity);
      }
      var count := Min(wanted, left);
      data := [];
      if count != 0 {
        data := TakeBytes(count, nextTail, available - left);
      }
    }

    /** Reads bytes that lie `skip` bytes behind the tail and moves the tail over all. */
    method TakeBytes(count: nat, from: nat, ghost skip: nat) returns (data: seq<Byte>)
      requires Valid() && 0 < count && skip + count <= |Contents()| && from == Wrap(tail + skip, buffer.Length)
      modifies this`tail
      ensures Valid() && data == old(Contents())[skip..][..count] && Contents() == old(Contents())[skip + count..]
    {
      ghost var u := Contents();
      HoldsLater(buffer[..], tail, u, skip);
      var nextTail;
      data, nextTail := ReadBytesFromBuffer(count, from);
      HeldPrefix(buffer[..], from, u[skip..], data);
      TakeHolds(buffer[..], head, tail, u, skip + count);
      assert nextTail == Wrap(tail + (skip + count), buffer.Length);
      tail := nextTail;
      Unique(u[skip + count..]);
    }

    /** Sends without waiting. */
    method Send(data: seq<Byte>) returns (sent: nat)
      requires Valid() && Sendable(data)
      modifies this`head, buffer
      ensures Valid()
      ensures var free := buffer.Length - 1 - |old(Contents())|;
              sent == if !isMessageBuffer then Min(|data|, free) else if |data| + LENGTH_BYTES <= free then |data| else 0
      ensures Contents() == old(Contents()) + if sent > 0 then Frame(isMessageBuffer, data[..sent]) else []
    {
      var space := SpacesAvailable();
      sent := WriteMessageToBuffer(data, space);
    }

    /** Receives without waiting. */
    method Receive(capacity: nat) returns (data: seq<Byte>)
      requires Valid()
      modifies this`tail
      ensures Valid() && (data, Contents()) == Taken(isMessageBuffer, old(Contents()), capacity)
    {
      var available := BytesInBuffer();
      data := [];
      if available > if isMessageBuffer then LENGTH_BYTES else 0 {
        data := ReadMessageFromBuffer(capacity, available);
      }
    }

    lemma Unique(s: seq<Byte>)
      requires Valid() && |s| == BytesIn(buffer.Length, head, tail) && |s| <= buffer.Length && Holds(buffer[..], tail, s)
      ensures Contents() == s
    {
      forall i | 0 <= i < |s| ensures Contents()[i] == s[i] { }
    }
  }

  /** No bytes at all of a message that does not fit. */
  function Fitting(length: nat, capacity: nat): nat { if length > capacity then 0 else length }

  /** What a receive returns from unread bytes `u`, and what it leaves. */
  function Taken(framed: bool, u: seq<Byte>, capacity: nat): (seq<Byte>, seq<Byte>) {
    var skip := if framed then LENGTH_BYTES else 0;
    if |u| <= skip then ([], u) else
      var wanted := if framed then Fitting(DecodeLength(u[..LENGTH_BYTES]), capacity) else capacity;
      var count := Min(wanted, |u| - skip);
      if count == 0 then ([], u) else (u[skip..][..count], u[skip + count..])
  }

  /** A message that was sent is received whole if it fits, and left alone if not. */
  lemma TakenWhole(m: seq<Byte>, rest: seq<Byte>, capacity: nat)
    requires Sendable(m) && m != []
    ensures Taken(true, Frame(true, m) + rest, capacity) ==
              if |m| <= capacity then (m, rest) else ([], Frame(true, m) + rest)
  {
    var u := Frame(true, m) + rest;
    LengthRoundTrip(|m|);
    assert u[..LENGTH_BYTES] == EncodeLength(|m|);
    assert u[LENGTH_BYTES..][..|m|] == m && u[LENGTH_BYTES + |m|..] == rest;
  }

  /** Only `n` bytes from `from` on have been written. */
  ghost predicate OnlyWritten(a: seq<Byte>, b: seq<Byte>, from: nat, n: nat)
    requires from < |a| == |b|
  {
    forall j | 0 <= j < |a| && BytesIn(|a|, j, from) >= n :: b[j] == a[j]
  }

  /** Bytes held in front of what is written are still held. */
  lemma Kept(a: seq<Byte>, b: seq<Byte>, at: nat, s: seq<Byte>, d: nat, from: nat, n: nat)
    requires at < |a| == |b| && |s| <= d && d + n <= |a| && from < |a| && from == Wrap(at + d, |a|)
    requires Holds(a, at, s) && OnlyWritten(a, b, from, n)
    ensures Holds(b, at, s)
  {
    forall i | 0 <= i < |s| ensures b[Wrap(at + i, |b|)] == s[i] {
      var j := Wrap(at + i, |a|);
      assert n > 0 ==> BytesIn(|a|, j, from) >= n;
    }
  }

  lemma HeldPrefix(storage: seq<Byte>, at: nat, u: seq<Byte>, got: seq<Byte>)
    requires at < |storage| && |got| <= |u| <= |storage| && Holds(storage, at, u) && Holds(storage, at, got)
    ensures got == u[..|got|]
  {
    forall i | 0 <= i < |got| ensures got[i] == u[i] { }
  }
}
