/** The event group as an object, over 32-bit words.  Each method is one critical section
    of event_groups.c, its walk along the wait list included, and does to the fields what
    the function of the same purpose in EventGroups does to the sets of bits that the
    words stand for. */
module EventGroupObjects {
  import opened Common
  import opened EventGroups
  import opened EventGroupWords

  /** A task's event item, whose value says what it waits for and how. */
  datatype Item = Item(task: TaskId, value: bv32)

  function WaiterOf(x: Item): Waiter { Waiter(x.task, WishOf(x.value)) }

  function Mapped<A, B>(f: A -> B, s: seq<A>): (r: seq<B>)
    ensures |r| == |s|
  {
    if s == [] then [] else [f(s[0])] + Mapped(f, s[1..])
  }

  lemma {:induction false} MappedAt<A, B>(f: A -> B, s: seq<A>, i: nat)
    requires i < |s|
    ensures Mapped(f, s)[i] == f(s[i])
  {
    if i > 0 { MappedAt(f, s[1..], i - 1); }
  }

  lemma {:induction false} MappedJoin<A, B>(f: A -> B, s: seq<A>, t: seq<A>)
    ensures Mapped(f, s + t) == Mapped(f, s) + Mapped(f, t)
  {
    if s == [] {
      assert s + t == t;
    } else {
      assert (s + t)[1..] == s[1..] + t;
      MappedJoin(f, s[1..], t);
    }
  }

  /** Taking a list apart at an element. */
  lemma MappedSplit<A, B>(f: A -> B, s: seq<A>, i: nat)
    requires i < |s|
    ensures Mapped(f, s)[i] == f(s[i])
    ensures Mapped(f, s[..i]) == Mapped(f, s)[..i] && Mapped(f, s[i + 1..]) == Mapped(f, s)[i + 1..]
    ensures Mapped(f, s[..i] + s[i + 1..]) == Without(Mapped(f, s), i)
  {
    assert s == s[..i] + s[i..] && s == s[..i + 1] + s[i + 1..];
    MappedAt(f, s, i);
    MappedJoin(f, s[..i], s[i..]);
    MappedJoin(f, s[..i + 1], s[i + 1..]);
    MappedJoin(f, s[..i], s[i + 1..]);
  }

  function Waiters(s: seq<Item>): seq<Waiter> { Mapped(WaiterOf, s) }

  lemma WaitersSplit(s: seq<Item>, i: nat)
    requires i < |s|
    ensures Waiters(s)[i] == WaiterOf(s[i])
    ensures Waiters(s[..i] + s[i + 1..]) == Without(Waiters(s), i)
  {
    MappedSplit(WaiterOf, s, i);
  }

  lemma WaitersMore(s: seq<Item>, x: Item)
    ensures Waiters(s + [x]) == Waiters(s) + [WaiterOf(x)]
  {
    MappedJoin(WaiterOf, s, [x]);
  }

  function Outcomes(m: map<TaskId, bv32>): map<TaskId, Option<set<Bit>>> { map t | t in m :: OutcomeOf(m[t]) }

  lemma OutcomesUpdate(m: map<TaskId, bv32>, t: TaskId, value: bv32)
    ensures Outcomes(m[t := value]) == Outcomes(m)[t := OutcomeOf(value)]
  {
  }

  lemma OutcomesLess(m: map<TaskId, bv32>, t: TaskId)
    ensures Outcomes(m - {t}) == Outcomes(m) - {t}
  {
  }

  /** The item does not look like one that has been woken. */
  predicate Asleep(value: bv32) { value & UNBLOCKED_DUE_TO_BIT_SET == 0 }

  predicate Plain(bits: bv32) { bits & CONTROL_BYTES == 0 }

  lemma AsleepOutcome(value: bv32)
    requires Asleep(value)
    ensures OutcomeOf(value) == None
  {
  }

  // the two operations on words, and the test for all bits of a rendezvous

  method Or(a: bv32, b: bv32) returns (r: bv32)
    requires Plain(a) && Plain(b)
    ensures Plain(r) && BitsOf(r) == BitsOf(a) + BitsOf(b)
  {
    BitsOr(a, b);
    NoControlBits(a, b);
    r := a | b;
  }

  method AndNot(a: bv32, b: bv32) returns (r: bv32)
    requires Plain(a)
    ensures Plain(r) && BitsOf(r) == BitsOf(a) - BitsOf(b)
  {
    BitsClear(a, b);
    NoControlBits(a, b);
    r := a & !b;
  }

  method HasAll(a: bv32, wanted: bv32) returns (met: bool)
    ensures met <==> BitsOf(wanted) <= BitsOf(a)
  {
    AllBits(a, wanted);
    met := a & wanted == wanted;
  }

  /** What an item value says of how its task came to run. */
  method Unblocked(value: bv32) returns (byBits: bool, bits: bv32)
    ensures OutcomeOf(value) == if byBits then Some(BitsOf(bits)) else None
  {
    byBits, bits := value & UNBLOCKED_DUE_TO_BIT_SET != 0, value & !CONTROL_BYTES;
  }

  lemma ItemAsleep(wanted: bv32, clear: bool, all: bool, value: bv32)
    requires Plain(wanted) && value == ItemValue(wanted, clear, all)
    ensures Asleep(value) && WishOf(value) == Wish(BitsOf(wanted), clear, all)
  {
    ItemValueDecodes(wanted, clear, all);
  }

  class EventGroup {
    var eventBits: bv32
    var tasksWaitingForBits: seq<Item>
    /** The item values of tasks that have been taken off the list. */
    var itemValues: map<TaskId, bv32>
    ghost var asked: map<TaskId, Wish>

    ghost function View(): Group
      reads this
    {
      Group(BitsOf(eventBits), Waiters(tasksWaitingForBits), Outcomes(itemValues), asked)
    }

    /** The kernel's control bits are never among the event bits. */
    ghost predicate Valid()
      reads this
    {
      Plain(eventBits) && forall i | 0 <= i < |tasksWaitingForBits| :: Asleep(tasksWaitingForBits[i].value)
    }

    constructor ()
      ensures Valid() && View() == Group({}, [], map[], map[])
    {
      eventBits, tasksWaitingForBits, itemValues, asked := 0, [], map[], map[];
      NoBits(0);
    }

    /** Takes a waiting task off the list and leaves a value in its item. */
    method RemoveFromUnorderedEventList(i: nat, value: bv32)
      requires Valid() && i < |tasksWaitingForBits|
      modifies this`tasksWaitingForBits, this`itemValues
      ensures Valid() && tasksWaitingForBits == old(tasksWaitingForBits)[..i] + old(tasksWaitingForBits)[i + 1..]
      ensures Outcomes(itemValues) == old(Outcomes(itemValues))[old(tasksWaitingForBits)[i].task := OutcomeOf(value)]
    {
      OutcomesUpdate(itemValues, tasksWaitingForBits[i].task, value);
      itemValues := itemValues[tasksWaitingForBits[i].task := value];
      tasksWaitingForBits := tasksWaitingForBits[..i] + tasksWaitingForBits[i + 1..];
    }

    /** Walks the list and takes off every task whose condition holds; returns the bits
        that those tasks want cleared. */
    method UnblockMatching() returns (bitsToClear: bv32)
      requires Valid()
      modifies this`tasksWaitingForBits, this`itemValues
      ensures Valid() && Waiters(tasksWaitingForBits) == Left(old(Waiters(tasksWaitingForBits)), BitsOf(eventBits))
      ensures Outcomes(itemValues) ==
              Wake(old(Outcomes(itemValues)), Matched(old(Waiters(tasksWaitingForBits)), BitsOf(eventBits)), BitsOf(eventBits))
      ensures BitsOf(bitsToClear) == ClearMask(old(Waiters(tasksWaitingForBits)), BitsOf(eventBits))
    {
      bitsToClear := 0;
      NoBits(0);
      var i: nat := 0;
      ghost var b, all, before := BitsOf(eventBits), Waiters(tasksWaitingForBits), Outcomes(itemValues);
      ghost var kept: seq<Waiter>, rest := [], all;
      while i < |tasksWaitingForBits|
        invariant Valid() && i <= |tasksWaitingForBits|
        invariant Waiters(tasksWaitingForBits)[..i] == kept && Waiters(tasksWaitingForBits)[i..] == rest
        invariant Walked(all, before, kept, rest, Outcomes(itemValues), BitsOf(bitsToClear), b)
        decreases |rest|
      {
        WalkOn(all, before, kept, rest, Outcomes(itemValues), BitsOf(bitsToClear), b);
        kept, rest := kept + (if rest[0].wish.Met(b) then [] else [rest[0]]), rest[1..];
        var mask;
        i, mask := VisitItem(i);
        BitsOr(bitsToClear, mask);
        bitsToClear := bitsToClear | mask;
      }
      WalkDone(all, before, kept, Outcomes(itemValues), BitsOf(bitsToClear), b);
    }

    /** Tests one item of the list, and goes on to the next. */
    method VisitItem(i: nat) returns (next: nat, mask: bv32)
      requires Valid() && i < |tasksWaitingForBits|
      modifies this`tasksWaitingForBits, this`itemValues
      ensures Valid() && next <= |tasksWaitingForBits|
      ensures var w, b := old(Waiters(tasksWaitingForBits))[i], BitsOf(eventBits);
              && Waiters(tasksWaitingForBits)[next..] == old(Waiters(tasksWaitingForBits))[i + 1..]
              && Waiters(tasksWaitingForBits)[..next] == old(Waiters(tasksWaitingForBits))[..i] + (if w.wish.Met(b) then [] else [w])
              && Outcomes(itemValues) == (if w.wish.Met(b) then old(Outcomes(itemValues))[w.task := Some(b)] else old(Outcomes(itemValues)))
              && BitsOf(mask) == Mask(w, b)
    {
      WaitersSplit(tasksWaitingForBits, i);
      var matches;
      matches, mask := TestItem(eventBits, tasksWaitingForBits[i].value);
      if matches {
        WakeValueDecodes(eventBits);
        RemoveFromUnorderedEventList(i, eventBits | UNBLOCKED_DUE_TO_BIT_SET | ITEM_VALUE_IN_USE);
        next := i;
      } else {
        next := i + 1;
      }
    }

    method SetBits(bitsToSet: bv32)
      requires Valid() && Plain(bitsToSet)
      modifies this
      ensures Valid() && View() == old(View()).SetBits(BitsOf(bitsToSet))
    {
      eventBits := Or(eventBits, bitsToSet);
      var bitsToClear := UnblockMatching();
      eventBits := AndNot(eventBits, bitsToClear);
    }

    /** The value before clearing is returned. */
    method ClearBits(bitsToClear: bv32) returns (before: bv32)
      requires Valid()
      modifies this`eventBits
      ensures Valid() && View() == old(View()).ClearBits(BitsOf(bitsToClear)) && before == old(eventBits)
    {
      before := eventBits;
      eventBits := AndNot(eventBits, bitsToClear);
    }

    method PlaceOnUnorderedEventList(t: TaskId, wanted: bv32, clearOnExit: bool, waitForAll: bool)
      requires Valid() && Plain(wanted)
      modifies this`tasksWaitingForBits, this`asked
      ensures Valid() && View() == old(View()).Block(t, Wish(BitsOf(wanted), clearOnExit, waitForAll))
    {
      var value := ItemValue(wanted, clearOnExit, waitForAll);
      ItemAsleep(wanted, clearOnExit, waitForAll, value);
      WaitersMore(tasksWaitingForBits, Item(t, value));
      tasksWaitingForBits := tasksWaitingForBits + [Item(t, value)];
      asked := asked[t := Wish(BitsOf(wanted), clearOnExit, waitForAll)];
    }

    /** The second result is false when the task blocks. */
    method WaitBits(t: TaskId, wanted: bv32, clearOnExit: bool, waitForAll: bool, mayBlock: bool) returns (value: bv32, done: bool)
      requires Valid() && Plain(wanted)
      modifies this
      ensures Valid()
      ensures (View(), if done then Some(BitsOf(value)) else None) ==
              old(View()).WaitBits(t, Wish(BitsOf(wanted), clearOnExit, waitForAll), mayBlock)
    {
      value, done := eventBits, true;
      var met := TestWaitCondition(eventBits, wanted, waitForAll);
      assert met <==> Wish(BitsOf(wanted), clearOnExit, waitForAll).Met(BitsOf(eventBits));
      if met {
        if clearOnExit {
          eventBits := AndNot(eventBits, wanted);
        }
      } else if mayBlock {
        PlaceOnUnorderedEventList(t, wanted, clearOnExit, waitForAll);
        done := false;
      }
    }

    method Sync(t: TaskId, bitsToSet: bv32, wanted: bv32, mayBlock: bool) returns (value: bv32, done: bool)
      requires Valid() && Plain(bitsToSet) && Plain(wanted)
      modifies this
      ensures Valid()
      ensures (View(), if done then Some(BitsOf(value)) else None) ==
              old(View()).Sync(t, BitsOf(bitsToSet), BitsOf(wanted), mayBlock)
    {
      value := Or(eventBits, bitsToSet);
      SetBits(bitsToSet);
      done := HasAll(value, wanted);
      if done {
        eventBits := AndNot(eventBits, wanted);
      } else if mayBlock {
        PlaceOnUnorderedEventList(t, wanted, true, true);
      } else {
        value, done := eventBits, true;
      }
    }

    /** The tick takes a task off the list that has waited long enough; its item value
        stays as it was. */
    method TimeOut(i: nat)
      requires Valid() && i < |tasksWaitingForBits|
      modifies this`tasksWaitingForBits, this`itemValues
      ensures Valid() && View() == old(View()).Expire(i)
    {
      WaitersSplit(tasksWaitingForBits, i);
      AsleepOutcome(tasksWaitingForBits[i].value);
      RemoveFromUnorderedEventList(i, tasksWaitingForBits[i].value);
    }

    /** The item value is taken and looked at. */
    method ResetEventItemValue(t: TaskId) returns (byBits: bool, bits: bv32)
      requires Valid() && t in itemValues
      modifies this`itemValues, this`asked
      ensures Valid() && View() == old(View()).(woken := old(View()).woken - {t}, asked := old(asked) - {t})
      ensures old(View()).woken[t] == if byBits then Some(BitsOf(bits)) else None
    {
      byBits, bits := Unblocked(itemValues[t]);
      OutcomesLess(itemValues, t);
      itemValues := itemValues - {t};
      asked := asked - {t};
    }

    /** A blocked call goes on when its task runs again. */
    method FinishWait(t: TaskId, wanted: bv32, clearOnExit: bool, waitForAll: bool) returns (value: bv32)
      requires Valid() && t in itemValues && t in asked && asked[t] == Wish(BitsOf(wanted), clearOnExit, waitForAll)
      modifies this
      ensures Valid() && (View(), BitsOf(value)) == old(View()).Resume(t)
    {
      var byBits;
      byBits, value := ResetEventItemValue(t);
      if !byBits {
        value := eventBits;
        var met := TestWaitCondition(value, wanted, waitForAll);
        assert met <==> Wish(BitsOf(wanted), clearOnExit, waitForAll).Met(BitsOf(value));
        if met {
          if clearOnExit {
            eventBits := AndNot(eventBits, wanted);
          }
        }
      }
    }
  }
}
