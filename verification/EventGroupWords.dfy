/** The 32-bit words behind the sets of bits in EventGroups.  Or, and-not and the two tests
    on words are union, difference and the two tests on sets; and the top byte of a waiting
    task's item value, which says how it waits, never gets mixed up with the bits below,
    which say what it waits for. */
module EventGroupWords {
  import opened Common
  import opened EventGroups

  const CLEAR_EVENTS_ON_EXIT_BIT: bv32 := 0x0100_0000
  const UNBLOCKED_DUE_TO_BIT_SET: bv32 := 0x0200_0000
  const WAIT_FOR_ALL_BITS: bv32 := 0x0400_0000
  const CONTROL_BYTES: bv32 := 0xff00_0000
  const ITEM_VALUE_IN_USE: bv32 := 0x8000_0000

  // ---------------------------------------------------------------- words as sets of bits

  predicate HasBit(v: bv32, i: Bit) { (v >> i) & 1 == 1 }

  function BitNumbers(): set<Bit> {
    {0, 1, 2, 3, 4, 5, 6, 7, 8, 9, 10, 11, 12, 13, 14, 15, 16, 17, 18, 19, 20, 21, 22, 23, 24, 25, 26, 27, 28, 29, 30, 31}
  }

  function BitsOf(v: bv32): set<Bit> { set i | i in BitNumbers() && HasBit(v, i) }

  lemma InBits(v: bv32, i: Bit)
    ensures i in BitsOf(v) <==> HasBit(v, i)
  {
    assert i in BitNumbers();
  }

  lemma BitsOr(a: bv32, b: bv32)
    ensures BitsOf(a | b) == BitsOf(a) + BitsOf(b)
  {
    forall i: Bit ensures HasBit(a | b, i) <==> HasBit(a, i) || HasBit(b, i) { OrBit(a, b, i); }
  }

  lemma OrBit(a: bv32, b: bv32, i: Bit)
    ensures HasBit(a | b, i) <==> HasBit(a, i) || HasBit(b, i)
  {
  }

  lemma BitsClear(a: bv32, b: bv32)
    ensures BitsOf(a & !b) == BitsOf(a) - BitsOf(b)
  {
    forall i: Bit ensures HasBit(a & !b, i) <==> HasBit(a, i) && !HasBit(b, i) { ClearBit(a, b, i); }
  }

  lemma ClearBit(a: bv32, b: bv32, i: Bit)
    ensures HasBit(a & !b, i) <==> HasBit(a, i) && !HasBit(b, i)
  {
  }

  lemma AndBit(a: bv32, b: bv32, i: Bit)
    ensures HasBit(a & b, i) <==> HasBit(a, i) && HasBit(b, i)
  {
  }

  lemma BitsAnd(a: bv32, b: bv32)
    ensures BitsOf(a & b) == BitsOf(a) * BitsOf(b)
  {
    forall i: Bit ensures HasBit(a & b, i) <==> HasBit(a, i) && HasBit(b, i) { AndBit(a, b, i); }
  }

  predicate LowHalf(v: bv32) {
    HasBit(v, 0) || HasBit(v, 1) || HasBit(v, 2) || HasBit(v, 3) || HasBit(v, 4) || HasBit(v, 5) || HasBit(v, 6) || HasBit(v, 7) ||
    HasBit(v, 8) || HasBit(v, 9) || HasBit(v, 10) || HasBit(v, 11) || HasBit(v, 12) || HasBit(v, 13) || HasBit(v, 14) || HasBit(v, 15)
  }

  predicate HighHalf(v: bv32) {
    HasBit(v, 16) || HasBit(v, 17) || HasBit(v, 18) || HasBit(v, 19) || HasBit(v, 20) || HasBit(v, 21) || HasBit(v, 22) || HasBit(v, 23) ||
    HasBit(v, 24) || HasBit(v, 25) || HasBit(v, 26) || HasBit(v, 27) || HasBit(v, 28) || HasBit(v, 29) || HasBit(v, 30) || HasBit(v, 31)
  }

  /** Only the zero word has no bits. */
  lemma NoBits(v: bv32)
    ensures BitsOf(v) == {} <==> v == 0
  {
    if v != 0 {
      assert LowHalf(v) || HighHalf(v);
      var i: Bit :| HasBit(v, i);
      InBits(v, i);
    }
  }

  lemma AnyBits(a: bv32, wanted: bv32)
    ensures a & wanted != 0 <==> BitsOf(a) * BitsOf(wanted) != {}
  {
    BitsAnd(a, wanted);
    NoBits(a & wanted);
  }

  lemma AllBits(a: bv32, wanted: bv32)
    ensures a & wanted == wanted <==> BitsOf(wanted) <= BitsOf(a)
  {
    BitsClear(wanted, a);
    NoBits(wanted & !a);
    MissingBits(a, wanted);
  }

  lemma MissingBits(a: bv32, wanted: bv32)
    ensures a & wanted == wanted <==> wanted & !a == 0
  {
    if a & wanted == wanted { NothingMissing(a, wanted); }
    if wanted & !a == 0 { NothingElse(a, wanted); }
  }

  lemma NothingMissing(a: bv32, wanted: bv32)
    requires a & wanted == wanted
    ensures wanted & !a == 0
  {
  }

  lemma NothingElse(a: bv32, wanted: bv32)
    requires wanted & !a == 0
    ensures a & wanted == wanted
  {
  }

  // ---------------------------------------------------------------- item values

  /** What an item value asks for. */
  function WishOf(value: bv32): Wish {
    Wish(BitsOf(value & !CONTROL_BYTES), value & CLEAR_EVENTS_ON_EXIT_BIT != 0, value & WAIT_FOR_ALL_BITS != 0)
  }

  /** What the item value of a task that runs again says. */
  function OutcomeOf(value: bv32): Option<set<Bit>> {
    if value & UNBLOCKED_DUE_TO_BIT_SET != 0 then Some(BitsOf(value & !CONTROL_BYTES)) else None
  }

  function ItemValue(wanted: bv32, clear: bool, all: bool): bv32 {
    wanted | (if clear then CLEAR_EVENTS_ON_EXIT_BIT else 0) | (if all then WAIT_FOR_ALL_BITS else 0) | ITEM_VALUE_IN_USE
  }

  /** What a task asks for is what is read back, and does not look like a wake-up. */
  lemma ItemValueDecodes(wanted: bv32, clear: bool, all: bool)
    requires wanted & CONTROL_BYTES == 0
    ensures WishOf(ItemValue(wanted, clear, all)) == Wish(BitsOf(wanted), clear, all)
    ensures OutcomeOf(ItemValue(wanted, clear, all)) == None
  {
    assert ItemValue(wanted, clear, all) & !CONTROL_BYTES == wanted;
  }

  /** The value a task is woken with is read back as the bits that woke it. */
  lemma WakeValueDecodes(bits: bv32)
    requires bits & CONTROL_BYTES == 0
    ensures OutcomeOf(bits | UNBLOCKED_DUE_TO_BIT_SET | ITEM_VALUE_IN_USE) == Some(BitsOf(bits))
  {
    assert (bits | UNBLOCKED_DUE_TO_BIT_SET | ITEM_VALUE_IN_USE) & !CONTROL_BYTES == bits;
  }

  // ---------------------------------------------------------------- the tests

  /** Whether bits meet a condition. */
  method TestWaitCondition(current: bv32, wanted: bv32, waitForAll: bool) returns (met: bool)
    ensures forall clear :: met <==> Wish(BitsOf(wanted), clear, waitForAll).Met(BitsOf(current))
  {
    if waitForAll {
      AllBits(current, wanted);
      met := current & wanted == wanted;
    } else {
      AnyBits(current, wanted);
      met := current & wanted != 0;
    }
  }

  /** Splits an item value and tests it; if it matches, `mask` are the bits to clear. */
  method TestItem(current: bv32, value: bv32) returns (matches: bool, mask: bv32)
    ensures matches <==> WishOf(value).Met(BitsOf(current))
    ensures BitsOf(mask) == if matches then WishOf(value).Mask() else {}
  {
    var controlBits := value & CONTROL_BYTES;
    var bitsWaitedFor := value & !CONTROL_BYTES;
    ControlBits(value);
    matches := TestWaitCondition(current, bitsWaitedFor, controlBits & WAIT_FOR_ALL_BITS != 0);
    mask := 0;
    NoBits(0);
    if matches {
      if controlBits & CLEAR_EVENTS_ON_EXIT_BIT != 0 {
        mask := bitsWaitedFor;
      }
    }
  }

  lemma ControlBits(value: bv32)
    ensures (value & CONTROL_BYTES) & WAIT_FOR_ALL_BITS == value & WAIT_FOR_ALL_BITS
    ensures (value & CONTROL_BYTES) & CLEAR_EVENTS_ON_EXIT_BIT == value & CLEAR_EVENTS_ON_EXIT_BIT
  {
  }

  /** Setting and clearing event bits never touches the kernel's control bits. */
  lemma NoControlBits(a: bv32, b: bv32)
    requires a & CONTROL_BYTES == 0
    ensures (a & !b) & CONTROL_BYTES == 0 && a & !CONTROL_BYTES == a
    ensures b & CONTROL_BYTES == 0 ==> (a | b) & CONTROL_BYTES == 0
  {
  }
}
