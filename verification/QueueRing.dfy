/** The queue object itself: a byte buffer written and read through two offsets that
    wrap, beside the counts and wait lists.  Its methods are the critical sections of
    the queue operations; each is proved to do to the stored items what the same
    operation does to a plain sequence, and to everything else what Queues.Sync says. */
module QueueRing {
  import opened Common
  import opened Lists
  import opened Queues

  // ---------------------------------------------------------------- slots in a byte buffer

  /** Slot `k` of a buffer of `size`-byte slots lies inside the buffer. */
  lemma SlotInside(k: nat, length: nat, size: nat)
    requires k < length
    ensures 0 <= k * size && k * size + size <= length * size
    ensures (k + 1) * size == k * size + size
    ensures k + 1 < length && size > 0 ==> k * size + size < length * size
  {
    var d := length - k - 1;
    assert length * size == (k + 1) * size + d * size;
    assert k + 1 < length && size > 0 ==> d * size >= size;
  }

  /** Different slots do not overlap. */
  lemma SlotsApart(j: nat, k: nat, size: nat)
    requires j != k
    ensures j * size + size <= k * size || k * size + size <= j * size
  {
    if j < k { SlotInside(j, k, size); } else { SlotInside(k, j, size); }
  }

  function Slot(bytes: seq<Byte>, length: nat, size: nat, k: nat): (item: seq<Byte>)
    requires |bytes| == length * size && k < length
    ensures |item| == size
  {
    SlotInside(k, length, size);
    bytes[k * size..k * size + size]
  }

  /** The i-th slot after slot `r`, wrapping. */
  function After(r: nat, i: nat, length: nat): nat {
    if r + 1 + i < length then r + 1 + i
    else if r + 1 + i < length + length then r + 1 + i - length
    else r + 1 + i - length - length
  }

  /** The items held when slot `r` was the last one read and `n` items are stored. */
  function Items(bytes: seq<Byte>, length: nat, size: nat, r: nat, n: nat): (s: seq<seq<Byte>>)
    requires |bytes| == length * size && r < length && n <= length
    ensures |s| == n
    ensures forall i | 0 <= i < n :: s[i] == Slot(bytes, length, size, After(r, i, length))
  {
    seq(n, i requires 0 <= i < n => Slot(bytes, length, size, After(r, i, length)))
  }

  /** `b` is `a` with slot `k` overwritten. */
  predicate SlotWritten(a: seq<Byte>, b: seq<Byte>, length: nat, size: nat, k: nat, item: seq<Byte>) {
    && |a| == length * size == |b| && k < length && Slot(b, length, size, k) == item
    && forall i | 0 <= i < |a| && !(k * size <= i < k * size + size) :: b[i] == a[i]
  }

  lemma OtherSlotKept(a: seq<Byte>, b: seq<Byte>, length: nat, size: nat, k: nat, item: seq<Byte>, j: nat)
    requires SlotWritten(a, b, length, size, k, item) && j < length && j != k
    ensures Slot(b, length, size, j) == Slot(a, length, size, j)
  {
    SlotInside(j, length, size);
    SlotsApart(j, k, size);
  }

  /** Writing the slot after the last item appends. */
  lemma WriteBack(a: seq<Byte>, b: seq<Byte>, length: nat, size: nat, r: nat, n: nat, item: seq<Byte>)
    requires r < length && n < length
    requires SlotWritten(a, b, length, size, After(r, n, length), item)
    ensures Items(b, length, size, r, n + 1) == Items(a, length, size, r, n) + [item]
  {
    forall i | 0 <= i < n ensures Items(b, length, size, r, n + 1)[i] == Items(a, length, size, r, n)[i] {
      OtherSlotKept(a, b, length, size, After(r, n, length), item, After(r, i, length));
    }
  }

  /** The slot before slot `r`, wrapping. */
  function Before(r: nat, length: nat): (b: int)
  {
    if r == 0 then length - 1 else r - 1
  }

  /** Writing the last slot read and stepping back prepends. */
  lemma WriteFront(a: seq<Byte>, b: seq<Byte>, length: nat, size: nat, r: nat, n: nat, item: seq<Byte>)
    requires r < length && n < length
    requires SlotWritten(a, b, length, size, r, item)
    ensures Items(b, length, size, Before(r, length), n + 1) == [item] + Items(a, length, size, r, n)
  {
    var l := Before(r, length);
    assert After(l, 0, length) == r;
    forall i | 0 <= i < n ensures Items(b, length, size, l, n + 1)[i + 1] == Items(a, length, size, r, n)[i] {
      assert After(l, i + 1, length) == After(r, i, length);
      OtherSlotKept(a, b, length, size, r, item, After(r, i, length));
    }
  }

  /** Stepping forward drops the first item. */
  lemma ReadFront(a: seq<Byte>, length: nat, size: nat, r: nat, n: nat)
    requires |a| == length * size && r < length && 0 < n <= length
    ensures Items(a, length, size, After(r, 0, length), n - 1) == Items(a, length, size, r, n)[1..]
  {
    assert forall i | 0 <= i < n - 1 :: After(After(r, 0, length), i, length) == After(r, i + 1, length);
  }

  /** What each way in does to the sequence of stored items. */
  function Put(s: seq<seq<Byte>>, item: seq<Byte>, position: Position): seq<seq<Byte>> {
    match position
    case ToBack => s + [item]
    case ToFront => [item] + s
    case Overwrite => [item]
  }

  // ---------------------------------------------------------------- the queue object

  class Queue {
    const storage: array<Byte>
    const length: nat
    const itemSize: nat
    var writeTo: int
    var readFrom: int
    var messagesWaiting: nat
    var rxLock: int
    var txLock: int
    var waitingToReceive: seq<Entry<TaskId>>
    var waitingToSend: seq<Entry<TaskId>>
    /** The slot `readFrom` stands at. */
    ghost var readSlot: nat

    ghost predicate Valid()
      reads this
    {
      && length >= 1 && storage.Length == length * itemSize
      && messagesWaiting <= length
      && UNLOCKED <= rxLock <= INT8_MAX && UNLOCKED <= txLock <= INT8_MAX
      && readSlot < length
      && (itemSize > 0 ==>
            && readFrom == readSlot * itemSize
            && writeTo == After(readSlot, messagesWaiting, length) * itemSize)
    }

    ghost function Contents(): (s: seq<seq<Byte>>)
      requires Valid()
      reads this, storage
    {
      Items(storage[..], length, itemSize, readSlot, messagesWaiting)
    }

    ghost function View(): Sync
      reads this
    {
      Sync(length, itemSize, messagesWaiting, rxLock, txLock, waitingToReceive, waitingToSend)
    }

    constructor (length: nat, itemSize: nat)
      requires length >= 1
      ensures Valid() && View() == Initial(length, itemSize, 0).q && Contents() == [] && fresh(storage)
    {
      this.length, this.itemSize := length, itemSize;
      storage := new Byte[length * itemSize];
      messagesWaiting, rxLock, txLock := 0, UNLOCKED, UNLOCKED;
      waitingToReceive, waitingToSend := [], [];
      writeTo, readFrom, readSlot := 0, (length - 1) * itemSize, length - 1;
    }

    /** The wrapped offset one slot on from slot `k`. */
    static lemma StepOn(k: nat, length: nat, size: nat)
      requires k < length && size > 0
      ensures After(k, 0, length) * size == if k * size + size >= length * size then 0 else k * size + size
    {
      SlotInside(k, length, size);
      if k + 1 == length { assert After(k, 0, length) == 0; }
    }

    static lemma StepBack(k: nat, length: nat, size: nat)
      requires k < length && size > 0
      ensures Before(k, length) * size == if k * size - size < 0 then length * size - size else k * size - size
    {
      if k > 0 { SlotInside(k - 1, length, size); } else { SlotInside(length - 1, length, size); }
    }

    /** Copies an item's bytes into slot `k`. */
    method Store(offset: int, item: seq<Byte>, ghost k: nat)
      requires storage.Length == length * itemSize && |item| == itemSize && k < length
      requires offset == k * itemSize
      modifies storage
      ensures SlotWritten(old(storage[..]), storage[..], length, itemSize, k, item)
    {
      SlotInside(k, length, itemSize);
      forall i | 0 <= i < itemSize { storage[offset + i] := item[i]; }
    }

    /** Stores at the write offset and steps it on. */
    method StoreBack(item: seq<Byte>)
      requires Valid() && |item| == itemSize > 0 && messagesWaiting < length
      modifies this`writeTo, storage
      ensures writeTo == After(readSlot, messagesWaiting + 1, length) * itemSize
      ensures Items(storage[..], length, itemSize, readSlot, messagesWaiting + 1) == old(Contents()) + [item]
    {
      ghost var a, w := storage[..], After(readSlot, messagesWaiting, length);
      Store(writeTo, item, w);
      StepOn(w, length, itemSize);
      writeTo := writeTo + itemSize;
      if writeTo >= storage.Length { writeTo := 0; }
      WriteBack(a, storage[..], length, itemSize, readSlot, messagesWaiting, item);
    }

    /** Stores at the read offset and steps it back. */
    method StoreFront(item: seq<Byte>)
      requires Valid() && |item| == itemSize > 0
      modifies this`readFrom, this`readSlot, storage
      ensures readSlot == Before(old(readSlot), length) && readFrom == readSlot * itemSize
      ensures SlotWritten(old(storage[..]), storage[..], length, itemSize, old(readSlot), item)
    {
      Store(readFrom, item, readSlot);
      StepBack(readSlot, length, itemSize);
      readFrom := readFrom - itemSize;
      if readFrom < 0 { readFrom := storage.Length - itemSize; }
      readSlot := Before(readSlot, length);
    }

    method CopyDataToQueue(item: seq<Byte>, position: Position)
      requires Valid() && |item| == itemSize
      requires messagesWaiting < length || position.Overwrite?
      requires position.Overwrite? ==> length == 1 && itemSize > 0
      modifies this`writeTo, this`readFrom, this`messagesWaiting, this`readSlot, storage
      ensures Valid() && View() == old(View()).Added(position)
      ensures Contents() == Put(old(Contents()), item, position)
    {
      var count := messagesWaiting;
      if itemSize == 0 {
      } else if position.ToBack? {
        StoreBack(item);
      } else {
        StoreFront(item);
        if position.Overwrite? {
          if count > 0 { count := count - 1; }
        }
        WriteFront(old(storage[..]), storage[..], length, itemSize, old(readSlot), count, item);
        assert After(readSlot, count + 1, length) == After(old(readSlot), messagesWaiting, length);
      }
      messagesWaiting := count + 1;
    }

    /** Steps to the next slot to read and copies it out; the caller decides whether
        the step is kept. */
    method CopyDataFromQueue() returns (item: seq<Byte>)
      requires Valid() && messagesWaiting > 0
      modifies this`readFrom, this`readSlot
      ensures item == old(Contents())[0]
      ensures readSlot == After(old(readSlot), 0, length)
      ensures itemSize > 0 ==> readFrom == readSlot * itemSize
    {
      item := [];
      if itemSize != 0 {
        StepOn(readSlot, length, itemSize);
        readFrom := readFrom + itemSize;
        if readFrom >= storage.Length { readFrom := 0; }
      }
      readSlot := After(readSlot, 0, length);
      if itemSize != 0 {
        SlotInside(readSlot, length, itemSize);
        item := storage[readFrom..readFrom + itemSize];
      }
    }

    /** The head of a wait list is moved to the ready state. */
    method WakeReceiver() returns (woken: seq<TaskId>)
      modifies this`waitingToReceive
      ensures (View(), woken) == old(View()).WakeReceiver()
    {
      woken := [];
      if waitingToReceive != [] {
        woken := [waitingToReceive[0].owner];
        waitingToReceive := waitingToReceive[1..];
        assert Drain(waitingToReceive, 0) == ([], waitingToReceive) && woken + [] == woken;
      }
    }

    method WakeSender() returns (woken: seq<TaskId>)
      modifies this`waitingToSend
      ensures (View(), woken) == old(View()).WakeSender()
    {
      woken := [];
      if waitingToSend != [] {
        woken := [waitingToSend[0].owner];
        waitingToSend := waitingToSend[1..];
        assert Drain(waitingToSend, 0) == ([], waitingToSend) && woken + [] == woken;
      }
    }

    /** The critical section of a task's send.  A refusal changes nothing. */
    method TrySend(item: seq<Byte>, position: Position) returns (done: bool, woken: seq<TaskId>)
      requires Valid() && |item| == itemSize
      requires position.Overwrite? ==> length == 1 && itemSize > 0
      modifies this, storage
      ensures Valid() && (View(), done, woken) == old(View()).TrySend(position)
      ensures done <==> (old(messagesWaiting) < length || position.Overwrite?)
      ensures Contents() == if done then Put(old(Contents()), item, position) else old(Contents())
    {
      done, woken := false, [];
      if messagesWaiting < length || position.Overwrite? {
        CopyDataToQueue(item, position);
        woken := WakeReceiver();
        done := true;
      }
    }

    /** The critical section of a task's receive. */
    method TryReceive() returns (done: bool, item: seq<Byte>, woken: seq<TaskId>)
      requires Valid()
      modifies this
      ensures Valid() && (View(), done, woken) == old(View()).TryReceive()
      ensures done <==> old(Contents()) != []
      ensures done ==> item == old(Contents())[0] && Contents() == old(Contents())[1..]
      ensures !done ==> Contents() == old(Contents())
    {
      done, item, woken := false, [], [];
      if messagesWaiting > 0 {
        ReadFront(storage[..], length, itemSize, readSlot, messagesWaiting);
        item := CopyDataFromQueue();
        messagesWaiting := messagesWaiting - 1;
        woken := WakeSender();
        done := true;
      }
    }

    /** The critical section of a peek: the read offset is put back afterwards. */
    method TryPeek() returns (done: bool, item: seq<Byte>, woken: seq<TaskId>)
      requires Valid()
      modifies this
      ensures Valid() && (View(), done, woken) == old(View()).TryPeek()
      ensures Contents() == old(Contents())
      ensures done <==> Contents() != []
      ensures done ==> item == Contents()[0]
    {
      done, item, woken := false, [], [];
      if messagesWaiting > 0 {
        var original := readFrom;
        ghost var slot := readSlot;
        item := CopyDataFromQueue();
        readFrom := original;
        readSlot := slot;
        woken := WakeReceiver();
        done := true;
      }
    }

    /** An interrupt's send.  The lock count must not be exhausted. */
    method SendFromIsr(item: seq<Byte>, position: Position) returns (done: bool, woken: seq<TaskId>)
      requires Valid() && |item| == itemSize && txLock < INT8_MAX
      requires position.Overwrite? ==> length == 1 && itemSize > 0
      modifies this, storage
      ensures Valid() && (View(), done, woken) == old(View()).IsrSend(position)
      ensures Contents() == if done then Put(old(Contents()), item, position) else old(Contents())
    {
      done, woken := false, [];
      if messagesWaiting < length || position.Overwrite? {
        var lock := txLock;
        CopyDataToQueue(item, position);
        if lock == UNLOCKED {
          woken := WakeReceiver();
        } else {
          txLock := lock + 1;
        }
        done := true;
      }
    }

    /** An interrupt's receive. */
    method ReceiveFromIsr() returns (done: bool, item: seq<Byte>, woken: seq<TaskId>)
      requires Valid() && rxLock < INT8_MAX
      modifies this
      ensures Valid() && (View(), done, woken) == old(View()).IsrReceive()
      ensures done <==> old(Contents()) != []
      ensures done ==> item == old(Contents())[0] && Contents() == old(Contents())[1..]
      ensures !done ==> Contents() == old(Contents())
    {
      done, item, woken := false, [], [];
      if messagesWaiting > 0 {
        var lock := rxLock;
        ReadFront(storage[..], length, itemSize, readSlot, messagesWaiting);
        item := CopyDataFromQueue();
        messagesWaiting := messagesWaiting - 1;
        if lock == UNLOCKED {
          woken := WakeSender();
        } else {
          rxLock := lock + 1;
        }
        done := true;
      }
    }

    method Lock()
      requires Valid()
      modifies this`rxLock, this`txLock
      ensures Valid() && View() == old(View()).Lock() && Contents() == old(Contents())
    {
      if rxLock == UNLOCKED { rxLock := LOCKED_UNMODIFIED; }
      if txLock == UNLOCKED { txLock := LOCKED_UNMODIFIED; }
    }

    /** The first half of unlocking: wake one receiver for each post counted while
        the queue was locked, as long as there are any. */
    method UnlockTx() returns (woken: seq<TaskId>)
      requires Valid()
      modifies this`txLock, this`waitingToReceive
      ensures Valid() && (View(), woken) == old(View()).UnlockTx() && Contents() == old(Contents())
    {
      var lock := txLock;
      woken := [];
      while lock > LOCKED_UNMODIFIED
        invariant woken + Drain(waitingToReceive, lock).0 == Drain(old(waitingToReceive), old(txLock)).0
        invariant Drain(waitingToReceive, lock).1 == Drain(old(waitingToReceive), old(txLock)).1
        invariant Valid() && Contents() == old(Contents())
        decreases lock
      {
        if waitingToReceive == [] { break; }
        woken := woken + [waitingToReceive[0].owner];
        waitingToReceive := waitingToReceive[1..];
        lock := lock - 1;
      }
      assert woken + [] == woken;
      txLock := UNLOCKED;
    }

    /** The second half: wake one sender for each receive counted. */
    method UnlockRx() returns (woken: seq<TaskId>)
      requires Valid()
      modifies this`rxLock, this`waitingToSend
      ensures Valid() && (View(), woken) == old(View()).UnlockRx() && Contents() == old(Contents())
    {
      var lock := rxLock;
      woken := [];
      while lock > LOCKED_UNMODIFIED
        invariant woken + Drain(waitingToSend, lock).0 == Drain(old(waitingToSend), old(rxLock)).0
        invariant Drain(waitingToSend, lock).1 == Drain(old(waitingToSend), old(rxLock)).1
        invariant Valid() && Contents() == old(Contents())
        decreases lock
      {
        if waitingToSend == [] { break; }
        woken := woken + [waitingToSend[0].owner];
        waitingToSend := waitingToSend[1..];
        lock := lock - 1;
      }
      assert woken + [] == woken;
      rxLock := UNLOCKED;
    }

    /** Empties the queue; refused when the storage size would not fit in a word. */
    method Reset(newQueue: bool) returns (done: bool, woken: seq<TaskId>)
      requires Valid()
      modifies this
      ensures Valid()
      ensures done <==> SIZE_MAX / length >= itemSize
      ensures done ==> Contents() == []
      ensures done && !newQueue ==> (View(), woken) == old(View()).Reset()
      ensures done && newQueue ==> View() == Initial(length, itemSize, 0).q && woken == []
      ensures !done ==> View() == old(View()) && Contents() == old(Contents())
    {
      done, woken := false, [];
      if SIZE_MAX / length >= itemSize {
        messagesWaiting := 0;
        writeTo := 0;
        readFrom := (length - 1) * itemSize;
        readSlot := length - 1;
        rxLock, txLock := UNLOCKED, UNLOCKED;
        if !newQueue {
          woken := WakeSender();
        } else {
          waitingToSend, waitingToReceive := [], [];
        }
        done := true;
      }
    }
  }
}
