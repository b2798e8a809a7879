/** The CRC unit and the routine that feeds it.  The routine works on whole words; of an
    incomplete last word it masks the LOW bytes away, so that what it feeds are the bytes
    that end the word in memory, and some or all of those lie behind the data.  The unit
    is any function of its state and the next word; the one that is built in, CRC-32 with
    polynomial 0x04C11DB7, is shown to tell all words and all states apart. */
module CrcUnits {
  import opened Common

  const TWO_TO_THE_32: nat := 0x1_0000_0000

  type U32 = n: nat | n < 0x1_0000_0000

  /** `start` is the state after a reset, and `beyond` what is read behind the end of
      memory. */
  datatype Unit = Unit(start: U32, feed: (U32, U32) -> U32, beyond: nat -> Byte)

  function ByteAt(u: Unit, s: seq<Byte>, at: nat): Byte { if at < |s| then s[at] else u.beyond(at) }

  function Peek(u: Unit, s: seq<Byte>, at: nat, i: nat): Byte { ByteAt(u, s, at + i) }

  function WordOf(b0: Byte, b1: Byte, b2: Byte, b3: Byte): (w: U32) {
    b0 + 0x100 * b1 + 0x1_0000 * b2 + 0x100_0000 * b3
  }

  /** The word at an address, with all but its last `keep` bytes masked out, and reversed
      if the data is big-endian. */
  function Fed(u: Unit, s: seq<Byte>, at: nat, keep: nat, big: bool): U32
    requires 1 <= keep <= 4
  {
    var b0: Byte := if keep < 4 then 0 else ByteAt(u, s, at);
    var b1: Byte := if keep < 3 then 0 else ByteAt(u, s, at + 1);
    var b2: Byte := if keep < 2 then 0 else ByteAt(u, s, at + 2);
    var b3 := ByteAt(u, s, at + 3);
    if big then WordOf(b3, b2, b1, b0) else WordOf(b0, b1, b2, b3)
  }

  function CrcFrom(u: Unit, state: U32, s: seq<Byte>, at: nat, len: nat, big: bool): U32
    decreases len
  {
    if len == 0 then state
    else if len < 4 then u.feed(state, Fed(u, s, at, len, big))
    else CrcFrom(u, u.feed(state, Fed(u, s, at, 4, big)), s, at + 4, len - 4, big)
  }

  /** The length is a signed parameter: a length of 2^31 or more reads as none. */
  function Crc32(u: Unit, s: seq<Byte>, at: nat, len: U32, big: bool): U32 {
    CrcFrom(u, u.start, s, at, if len < 0x8000_0000 then len else 0, big)
  }

  /** The routine. */
  method CalculateCrc32(u: Unit, s: seq<Byte>, start: nat, length: U32, big: bool) returns (crc: U32)
    ensures crc == Crc32(u, s, start, length, big)
  {
    crc := u.start;
    var addr := start;
    var len: int := if length < 0x8000_0000 then length else length - TWO_TO_THE_32;
    while len >= 4
      invariant addr >= 0 && (len < 0 <==> length >= 0x8000_0000) && (len < 0 ==> crc == u.start)
      invariant len >= 0 ==> CrcFrom(u, crc, s, addr, len, big) == Crc32(u, s, start, length, big)
      decreases len
    {
      crc := u.feed(crc, Fed(u, s, addr, 4, big));
      addr := addr + 4;
      len := len - 4;
    }
    if len > 0 {
      crc := u.feed(crc, Fed(u, s, addr, len, big));
    }
  }

  // ---------------------------------------------------------------- what the CRC depends on

  /** A length rounded up to whole words. */
  function RoundUp(len: nat): nat { if len % 4 == 0 then len else len + 4 - len % 4 }

  ghost predicate SameBytes(u: Unit, s: seq<Byte>, at: nat, t: seq<Byte>, bt: nat, len: nat) {
    forall i | 0 <= i < len :: Peek(u, s, at, i) == Peek(u, t, bt, i)
  }

  lemma SameFed(u: Unit, s: seq<Byte>, at: nat, t: seq<Byte>, bt: nat, keep: nat, big: bool)
    requires 1 <= keep <= 4 && SameBytes(u, s, at, t, bt, 4)
    ensures Fed(u, s, at, keep, big) == Fed(u, t, bt, keep, big)
  {
    assert Peek(u, s, at, 0) == Peek(u, t, bt, 0) && Peek(u, s, at, 1) == Peek(u, t, bt, 1);
    assert Peek(u, s, at, 2) == Peek(u, t, bt, 2) && Peek(u, s, at, 3) == Peek(u, t, bt, 3);
  }

  /** Bytes that agree up to the end of the last word have one CRC. */
  lemma CrcSame(u: Unit, state: U32, s: seq<Byte>, at: nat, t: seq<Byte>, bt: nat, len: nat, big: bool)
    requires SameBytes(u, s, at, t, bt, RoundUp(len))
    ensures CrcFrom(u, state, s, at, len, big) == CrcFrom(u, state, t, bt, len, big)
  {
    var words := RoundUp(len) / 4;
    assert RoundUp(len) == 4 * words;
    WordsSame(u, state, s, at, t, bt, len, words, big);
  }

  lemma {:induction false} WordsSame(u: Unit, state: U32, s: seq<Byte>, at: nat, t: seq<Byte>, bt: nat, len: nat, words: nat, big: bool)
    requires SameBytes(u, s, at, t, bt, 4 * words) && len <= 4 * words
    ensures CrcFrom(u, state, s, at, len, big) == CrcFrom(u, state, t, bt, len, big)
    decreases words
  {
    if len > 0 {
      SameFed(u, s, at, t, bt, if len < 4 then len else 4, big);
      if len >= 4 {
        SameRest(u, s, at, t, bt, 4 * words);
        WordsSame(u, u.feed(state, Fed(u, s, at, 4, big)), s, at + 4, t, bt + 4, len - 4, words - 1, big);
      }
    }
  }

  lemma SameRest(u: Unit, s: seq<Byte>, at: nat, t: seq<Byte>, bt: nat, len: nat)
    requires len >= 4 && SameBytes(u, s, at, t, bt, len)
    ensures SameBytes(u, s, at + 4, t, bt + 4, len - 4)
  {
    var a4, b4 := at + 4, bt + 4;
    forall i | 0 <= i < len - 4 ensures Peek(u, s, a4, i) == Peek(u, t, b4, i) {
      assert Peek(u, s, at, i + 4) == Peek(u, t, bt, i + 4);
    }
  }

  /** Whole words first, and then the rest. */
  lemma {:induction false} CrcSplit(u: Unit, state: U32, s: seq<Byte>, at: nat, whole: nat, rest: nat, big: bool)
    requires whole % 4 == 0
    ensures CrcFrom(u, state, s, at, whole + rest, big) ==
            CrcFrom(u, CrcFrom(u, state, s, at, whole, big), s, at + whole, rest, big)
    decreases whole
  {
    if whole > 0 {
      CrcSplit(u, u.feed(state, Fed(u, s, at, 4, big)), s, at + 4, whole - 4, rest, big);
    }
  }

  // ---------------------------------------------------------------- telling words apart

  /** The unit tells words apart that come in one state, and states that meet one word. */
  ghost predicate Tells(u: Unit) {
    && (forall a: U32, w: U32, v: U32 :: u.feed(a, w) == u.feed(a, v) ==> w == v)
    && (forall a: U32, b: U32, w: U32 :: u.feed(a, w) == u.feed(b, w) ==> a == b)
  }

  /** Then states stay apart whatever is fed. */
  lemma {:induction false} StatesApart(u: Unit, a: U32, b: U32, s: seq<Byte>, at: nat, len: nat, big: bool)
    requires Tells(u) && a != b
    ensures CrcFrom(u, a, s, at, len, big) != CrcFrom(u, b, s, at, len, big)
    decreases len
  {
    if len > 0 {
      var w := Fed(u, s, at, if len < 4 then len else 4, big);
      assert u.feed(a, w) != u.feed(b, w);
      if len >= 4 { StatesApart(u, u.feed(a, w), u.feed(b, w), s, at + 4, len - 4, big); }
    }
  }

  /** Every state can be reached: by some word from a given state, and from some state by a
      given word. */
  lemma SomeWord(u: Unit, a: U32, b: U32) returns (w: U32)
    requires Tells(u)
    ensures u.feed(a, w) == b
  {
    Onto((v: U32) => u.feed(a, v), b);
    w :| u.feed(a, w) == b;
  }

  lemma SomeState(u: Unit, w: U32, b: U32) returns (a: U32)
    requires Tells(u)
    ensures u.feed(a, w) == b
  {
    Onto((c: U32) => u.feed(c, w), b);
    a :| u.feed(a, w) == b;
  }

  ghost predicate OneToOne(f: U32 -> U32) { forall a: U32, b: U32 :: f(a) == f(b) ==> a == b }

  function Below(n: nat): (r: set<nat>)
    ensures forall i: nat :: i in r <==> i < n
  {
    if n == 0 then {} else Below(n - 1) + {n - 1}
  }

  /** A function on the words that tells them apart reaches every word. */
  lemma Onto(f: U32 -> U32, y: U32)
    requires OneToOne(f)
    ensures exists x: U32 :: f(x) == y
  {
    OntoBelow(f, y, TWO_TO_THE_32);
  }

  lemma OntoBelow(f: U32 -> U32, y: U32, n: nat)
    requires OneToOne(f) && n == TWO_TO_THE_32
    ensures exists x: U32 :: f(x) == y
  {
    if forall x: U32 :: f(x) != y {
      var image := Values(f, n);
      BelowSize(n);
      SubsetSize(image, Below(n) - {y});
    }
  }

  /** The first `n` values of such a function are `n`. */
  lemma {:induction false} Values(f: U32 -> U32, n: nat) returns (image: set<nat>)
    requires OneToOne(f) && n <= TWO_TO_THE_32
    ensures |image| == n && image <= Below(TWO_TO_THE_32)
    ensures forall v | v in image :: exists x: U32 :: x < n && f(x) == v
    decreases n
  {
    if n == 0 {
      image := {};
    } else {
      var fewer := Values(f, n - 1);
      var last: U32 := n - 1;
      assert f(last) !in fewer;
      image := fewer + {f(last)};
    }
  }

  lemma {:induction false} BelowSize(n: nat)
    ensures |Below(n)| == n
    decreases n
  {
    if n > 0 { BelowSize(n - 1); }
  }

  lemma SubsetSize(a: set<nat>, b: set<nat>)
    requires a <= b
    ensures |a| <= |b|
  {
    assert b == a + (b - a);
  }

  lemma WordsApart(a0: Byte, a1: Byte, a2: Byte, a3: Byte, b0: Byte, b1: Byte, b2: Byte, b3: Byte)
    requires WordOf(a0, a1, a2, a3) == WordOf(b0, b1, b2, b3)
    ensures a0 == b0 && a1 == b1 && a2 == b2 && a3 == b3
  {
    LowByte(a0, a1 + 0x100 * a2 + 0x1_0000 * a3, b0, b1 + 0x100 * b2 + 0x1_0000 * b3);
    LowByte(a1, a2 + 0x100 * a3, b1, b2 + 0x100 * b3);
    LowByte(a2, a3, b2, b3);
  }

  lemma LowByte(a: Byte, p: nat, b: Byte, q: nat)
    requires a + 0x100 * p == b + 0x100 * q
    ensures a == b && p == q
  {
  }

  /** What is fed agrees exactly when the bytes that are kept do. */
  lemma FedIff(u: Unit, s: seq<Byte>, at: nat, t: seq<Byte>, bt: nat, keep: nat, big: bool)
    requires 1 <= keep <= 4
    ensures Fed(u, s, at, keep, big) == Fed(u, t, bt, keep, big) <==>
            forall i | 4 - keep <= i < 4 :: Peek(u, s, at, i) == Peek(u, t, bt, i)
  {
    if Fed(u, s, at, keep, big) == Fed(u, t, bt, keep, big) {
      FedApart(u, s, at, t, bt, keep, big);
    }
    if forall i | 4 - keep <= i < 4 :: Peek(u, s, at, i) == Peek(u, t, bt, i) {
      assert keep == 4 ==> Peek(u, s, at, 0) == Peek(u, t, bt, 0);
      assert keep >= 3 ==> Peek(u, s, at, 1) == Peek(u, t, bt, 1);
      assert keep >= 2 ==> Peek(u, s, at, 2) == Peek(u, t, bt, 2);
      assert Peek(u, s, at, 3) == Peek(u, t, bt, 3);
    }
  }

  lemma FedApart(u: Unit, s: seq<Byte>, at: nat, t: seq<Byte>, bt: nat, keep: nat, big: bool)
    requires 1 <= keep <= 4 && Fed(u, s, at, keep, big) == Fed(u, t, bt, keep, big)
    ensures forall i | 4 - keep <= i < 4 :: Peek(u, s, at, i) == Peek(u, t, bt, i)
  {
    var a0: Byte, b0: Byte := if keep < 4 then 0 else Peek(u, s, at, 0), if keep < 4 then 0 else Peek(u, t, bt, 0);
    var a1: Byte, b1: Byte := if keep < 3 then 0 else Peek(u, s, at, 1), if keep < 3 then 0 else Peek(u, t, bt, 1);
    var a2: Byte, b2: Byte := if keep < 2 then 0 else Peek(u, s, at, 2), if keep < 2 then 0 else Peek(u, t, bt, 2);
    var a3, b3 := Peek(u, s, at, 3), Peek(u, t, bt, 3);
    if big { WordsApart(a3, a2, a1, a0, b3, b2, b1, b0); } else { WordsApart(a0, a1, a2, a3, b0, b1, b2, b3); }
  }

  // ---------------------------------------------------------------- the built-in unit

  /** Exclusive or, bit by bit. */
  function Xor(a: nat, b: nat): nat {
    if a == 0 && b == 0 then 0 else (a + b) % 2 + 2 * Xor(a / 2, b / 2)
  }

  function Power(n: nat): nat { if n == 0 then 1 else 2 * Power(n - 1) }

  lemma {:induction false} XorBounded(a: nat, b: nat, n: nat)
    requires a < Power(n) && b < Power(n)
    ensures Xor(a, b) < Power(n)
  {
    if n > 0 && !(a == 0 && b == 0) { XorBounded(a / 2, b / 2, n - 1); }
  }

  lemma {:induction false} XorCommutes(a: nat, b: nat)
    ensures Xor(a, b) == Xor(b, a)
  {
    if a != 0 || b != 0 { XorCommutes(a / 2, b / 2); }
  }

  lemma {:induction false} XorApart(a: nat, b: nat, w: nat)
    requires Xor(a, w) == Xor(b, w)
    ensures a == b
  {
    XorLastBit(a, w);
    XorLastBit(b, w);
    if a != 0 || b != 0 {
      XorApart(a / 2, b / 2, w / 2);
      SameHalves(a, b, w);
    }
  }

  lemma XorLastBit(a: nat, w: nat)
    ensures Xor(a, w) % 2 == (a + w) % 2 && Xor(a, w) / 2 == Xor(a / 2, w / 2)
  {
    if a != 0 || w != 0 { Halves((a + w) % 2, Xor(a / 2, w / 2)); }
  }

  lemma Halves(bit: nat, half: nat)
    requires bit < 2
    ensures (bit + 2 * half) % 2 == bit && (bit + 2 * half) / 2 == half
  {
  }

  lemma SameHalves(a: nat, b: nat, w: nat)
    requires (a + w) % 2 == (b + w) % 2 && a / 2 == b / 2
    ensures a == b
  {
  }

  const POLYNOMIAL: U32 := 0x04C1_1DB7

  lemma Power32()
    ensures Power(32) == TWO_TO_THE_32
  {
    assert Power(8) == 0x100;
    assert Power(16) == 0x1_0000;
    assert Power(24) == 0x100_0000;
  }

  /** One bit of the division. */
  function Divide(v: U32): U32 {
    if v < 0x8000_0000 then 2 * v
    else (Power32(); XorBounded(2 * v - TWO_TO_THE_32, POLYNOMIAL, 32); Xor(2 * v - TWO_TO_THE_32, POLYNOMIAL))
  }

  lemma DivideOdd(v: U32)
    ensures Divide(v) % 2 == 1 <==> v >= 0x8000_0000
  {
    if v >= 0x8000_0000 {
      XorLastBit(2 * v - TWO_TO_THE_32, POLYNOMIAL);
      var half: nat := v - 0x8000_0000 + 0x0260_8EDB;
      assert 2 * v - TWO_TO_THE_32 + POLYNOMIAL == 1 + 2 * half;
      Halves(1, half);
    } else {
      Halves(0, v);
    }
  }

  lemma DivideApart(v: U32, w: U32)
    requires Divide(v) == Divide(w)
    ensures v == w
  {
    DivideOdd(v);
    DivideOdd(w);
    if v >= 0x8000_0000 && w >= 0x8000_0000 {
      XorApart(2 * v - TWO_TO_THE_32, 2 * w - TWO_TO_THE_32, POLYNOMIAL);
    }
  }

  function Divides(v: U32, n: nat): U32
    decreases n
  {
    if n == 0 then v else Divides(Divide(v), n - 1)
  }

  lemma {:induction false} DividesApart(v: U32, w: U32, n: nat)
    requires v != w
    ensures Divides(v, n) != Divides(w, n)
    decreases n
  {
    if n > 0 {
      if Divide(v) == Divide(w) { DivideApart(v, w); }
      DividesApart(Divide(v), Divide(w), n - 1);
    }
  }

  function Mix(a: U32, w: U32): U32 {
    Power32();
    XorBounded(a, w, 32);
    Xor(a, w)
  }

  function Feed(a: U32, w: U32): U32 { Divides(Mix(a, w), 32) }

  function BuiltIn(beyond: nat -> Byte): Unit { Unit(0xFFFF_FFFF, Feed, beyond) }

  lemma BuiltInTells(beyond: nat -> Byte)
    ensures Tells(BuiltIn(beyond))
  {
    forall a: U32, w: U32, v: U32 | w != v ensures Feed(a, w) != Feed(a, v) {
      XorCommutes(a, w);
      XorCommutes(a, v);
      if Mix(a, w) == Mix(a, v) { XorApart(w, v, a); }
      DividesApart(Mix(a, w), Mix(a, v), 32);
    }
    forall a: U32, b: U32, w: U32 | a != b ensures Feed(a, w) != Feed(b, w) {
      if Mix(a, w) == Mix(b, w) { XorApart(a, b, w); }
      DividesApart(Mix(a, w), Mix(b, w), 32);
    }
  }
}
