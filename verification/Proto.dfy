/** The binary protocol: a nine-byte header with its own CRC, and data with another.  The
    CRC is CRC-16/MODBUS, as in section 6.2.2 of the MODBUS over Serial Line Specification
    V1.02.  Proved: a sequence with its CRC behind it checks to zero; a packet with data
    that is built is found again, whatever follows it; and a buffer of packets is taken
    apart into those packets, in order.  The length of an instruction is kept in 16 bits,
    and it is said exactly when that is too few. */
module Protocol {
  import opened Common

  type Octet = bv8

  // ---------------------------------------------------------------- the CRC

  const POLYNOMIAL: bv16 := 0xA001
  const INITIAL: bv16 := 0xFFFF

  function Shift(crc: bv16): bv16 { if crc & 1 == 1 then (crc >> 1) ^ POLYNOMIAL else crc >> 1 }

  function Shifts(crc: bv16, n: nat): bv16
    decreases n
  {
    if n == 0 then crc else Shifts(Shift(crc), n - 1)
  }

  function Feed(crc: bv16, byte: Octet): bv16 { Shifts(crc ^ (byte as bv16), 8) }

  function CrcFrom(crc: bv16, data: seq<Octet>): bv16
    decreases |data|
  {
    if data == [] then crc else CrcFrom(Feed(crc, data[0]), data[1..])
  }

  function Crc(data: seq<Octet>): bv16 { CrcFrom(INITIAL, data) }

  function Low(v: bv16): Octet { (v & 0xFF) as bv8 }
  function High(v: bv16): Octet { (v >> 8) as bv8 }

  /** A 16-bit field, low byte first. */
  function Field(v: bv16): (s: seq<Octet>)
    ensures |s| == 2
  {
    [Low(v), High(v)]
  }

  function Joined(low: Octet, high: Octet): bv16 { (low as bv16) | ((high as bv16) << 8) }

  lemma JoinedSplit(v: bv16)
    ensures Joined(Low(v), High(v)) == v
  {
  }

  lemma {:induction false} CrcAppend(crc: bv16, a: seq<Octet>, b: seq<Octet>)
    ensures CrcFrom(crc, a + b) == CrcFrom(CrcFrom(crc, a), b)
    decreases |a|
  {
    if a == [] {
      assert a + b == b;
    } else {
      assert (a + b)[1..] == a[1..] + b;
      CrcAppend(Feed(crc, a[0]), a[1..], b);
    }
  }

  /** Eight shifts of a word whose low byte is clear only move the high byte down. */
  lemma ShiftsClear(v: bv16)
    requires v & 0xFF == 0
    ensures Shifts(v, 8) == v >> 8
  {
    Nibbles(v);
    FourShifts(v, 4);
    FourShifts(v >> 4, 0);
  }

  lemma Nibbles(v: bv16)
    requires v & 0xFF == 0
    ensures v & 0xF == 0 && (v >> 4) & 0xF == 0 && (v >> 4) >> 4 == v >> 8
  {
  }

  lemma OneShift(v: bv16, n: nat)
    requires v & 1 == 0
    ensures Shifts(v, n + 1) == Shifts(v >> 1, n)
  {
    ShiftEven(v);
  }

  lemma FourShifts(v: bv16, n: nat)
    requires v & 0xF == 0
    ensures Shifts(v, n + 4) == Shifts(v >> 4, n)
  {
    FourBits(v);
    OneShift(v, n + 3);
    OneShift(v >> 1, n + 2);
    OneShift(v >> 2, n + 1);
    OneShift(v >> 3, n);
  }

  lemma FourBits(v: bv16)
    requires v & 0xF == 0
    ensures v & 1 == 0 && (v >> 1) & 1 == 0 && (v >> 2) & 1 == 0 && (v >> 3) & 1 == 0
    ensures (v >> 1) >> 1 == v >> 2 && (v >> 2) >> 1 == v >> 3 && (v >> 3) >> 1 == v >> 4
  {
  }

  lemma ShiftEven(v: bv16)
    ensures v & 1 == 0 ==> Shift(v) == v >> 1
  {
  }

  /** Feeding a word its own two bytes, low byte first, brings it to zero. */
  lemma FeedItself(v: bv16)
    ensures CrcFrom(v, Field(v)) == 0
  {
    TwoFeeds(v, Low(v), High(v));
    LowCancels(v);
    ShiftsClear(v ^ (Low(v) as bv16));
    assert Feed(v, Low(v)) == v >> 8;
    HighCancels(v);
    ShiftsClear(0);
  }

  lemma LowCancels(v: bv16)
    ensures (v ^ (Low(v) as bv16)) & 0xFF == 0 && (v ^ (Low(v) as bv16)) >> 8 == v >> 8
  {
  }

  lemma HighCancels(v: bv16)
    ensures (v >> 8) ^ (High(v) as bv16) == 0 && (0 as bv16) & 0xFF == 0 && (0 as bv16) >> 8 == 0
  {
  }

  /** The residue: a sequence followed by its CRC has CRC zero. */
  lemma Residue(data: seq<Octet>)
    ensures Crc(data + Field(Crc(data))) == 0
  {
    CrcAppend(INITIAL, data, Field(Crc(data)));
    FeedItself(Crc(data));
  }

  /** And only its CRC, of all two-byte endings, gives zero. */
  lemma ResidueOnly(data: seq<Octet>, low: Octet, high: Octet)
    ensures Crc(data + [low, high]) == 0 <==> [low, high] == Field(Crc(data))
  {
    if [low, high] == Field(Crc(data)) { Residue(data); }
    if Crc(data + [low, high]) == 0 {
      CrcAppend(INITIAL, data, [low, high]);
      TwoFeeds(Crc(data), low, high);
      FeedsBack(Crc(data), low, high);
    }
  }

  lemma TwoFeeds(v: bv16, low: Octet, high: Octet)
    ensures CrcFrom(v, [low, high]) == Feed(Feed(v, low), high)
  {
    var s := [low, high];
    assert s[1..] == [high] && s[1..][1..] == [];
    assert CrcFrom(v, s) == CrcFrom(Feed(v, low), s[1..]);
    assert CrcFrom(Feed(v, low), [high]) == CrcFrom(Feed(Feed(v, low), high), [high][1..]);
  }

  /** A shift loses nothing: its result tells whether the polynomial was added. */
  lemma ShiftZero(v: bv16)
    ensures Shift(v) == 0 <==> v == 0
  {
  }

  lemma {:induction false} ShiftsZero(v: bv16, n: nat)
    ensures Shifts(v, n) == 0 <==> v == 0
    decreases n
  {
    if n > 0 {
      ShiftZero(v);
      ShiftsZero(Shift(v), n - 1);
    }
  }

  lemma ShiftInjective(v: bv16, w: bv16)
    requires Shift(v) == Shift(w)
    ensures v == w
  {
  }

  lemma {:induction false} ShiftsInjective(v: bv16, w: bv16, n: nat)
    requires Shifts(v, n) == Shifts(w, n)
    ensures v == w
    decreases n
  {
    if n > 0 {
      ShiftsInjective(Shift(v), Shift(w), n - 1);
      ShiftInjective(v, w);
    }
  }

  lemma FeedsBack(v: bv16, low: Octet, high: Octet)
    requires Feed(Feed(v, low), high) == 0
    ensures low == Low(v) && high == High(v)
  {
    FedToZero(Feed(v, low), high);
    FedTo(v, low, high);
  }

  lemma FedToZero(w: bv16, high: Octet)
    requires Feed(w, high) == 0
    ensures w == high as bv16
  {
    ShiftsZero(w ^ (high as bv16), 8);
    XorZero(w, high as bv16);
  }

  /** What was fed before is what eight shifts take to `high`. */
  lemma FedTo(v: bv16, low: Octet, high: Octet)
    requires Feed(v, low) == high as bv16
    ensures low == Low(v) && high == High(v)
  {
    var x := v ^ (low as bv16);
    var y := (high as bv16) << 8;
    HighOnly(high);
    ShiftsClear(y);
    assert Shifts(x, 8) == Shifts(y, 8);
    ShiftsInjective(x, y, 8);
    BytesOf(v, low, high);
  }

  lemma XorZero(a: bv16, b: bv16)
    requires a ^ b == 0
    ensures a == b
  {
  }

  lemma HighOnly(high: Octet)
    ensures ((high as bv16) << 8) & 0xFF == 0 && ((high as bv16) << 8) >> 8 == high as bv16
  {
  }

  lemma BytesOf(v: bv16, low: Octet, high: Octet)
    requires v ^ (low as bv16) == (high as bv16) << 8
    ensures low == Low(v) && high == High(v)
  {
  }

  /** The CRC as the upgrade tool computes it, bit by bit. */
  method ModbusCrc(data: seq<Octet>) returns (crc: bv16)
    ensures crc == Crc(data)
  {
    crc := INITIAL;
    var i := 0;
    while i < |data|
      invariant i <= |data| && CrcFrom(crc, data[i..]) == Crc(data)
    {
      ghost var fed := Feed(crc, data[i]);
      crc := crc ^ (data[i] as bv16);
      var n: nat := 0;
      while n < 8
        invariant n <= 8 && Shifts(crc, 8 - n) == fed
      {
        if crc & 1 == 1 {
          crc := (crc >> 1) ^ POLYNOMIAL;
        } else {
          crc := crc >> 1;
        }
        n := n + 1;
      }
      assert data[i..][1..] == data[i + 1..];
      i := i + 1;
    }
  }

  // ---------------------------------------------------------------- the CRC as the firmware computes it

  /** The table, by the low four bits. */
  function TableEntry(idx: bv16): bv16 {
    if idx == 0 then 0x0000
    else if idx == 1 then 0xCC01
    else if idx == 2 then 0xD801
    else if idx == 3 then 0x1400
    else if idx == 4 then 0xF001
    else if idx == 5 then 0x3C00
    else if idx == 6 then 0x2800
    else if idx == 7 then 0xE401
    else if idx == 8 then 0xA001
    else if idx == 9 then 0x6C00
    else if idx == 10 then 0x7800
    else if idx == 11 then 0xB401
    else if idx == 12 then 0x5000
    else if idx == 13 then 0x9C01
    else if idx == 14 then 0x8801
    else 0x4400
  }

  function Sum(a: bv16, b: bv16): bv16 { a ^ b }

  ghost predicate Additive(f: bv16 -> bv16) { forall a, b {:trigger f(Sum(a, b))} :: f(Sum(a, b)) == Sum(f(a), f(b)) }

  function Iterate(f: bv16 -> bv16, v: bv16, n: nat): bv16
    decreases n
  {
    if n == 0 then v else Iterate(f, f(v), n - 1)
  }

  lemma {:induction false} IterateAdds(f: bv16 -> bv16, a: bv16, b: bv16, n: nat)
    requires Additive(f)
    ensures Iterate(f, Sum(a, b), n) == Sum(Iterate(f, a, n), Iterate(f, b, n))
    decreases n
  {
    if n > 0 {
      assert f(Sum(a, b)) == Sum(f(a), f(b));
      IterateAdds(f, f(a), f(b), n - 1);
    }
  }

  lemma {:induction false} ShiftsIterate(v: bv16, n: nat)
    ensures Shifts(v, n) == Iterate(Shift, v, n)
    decreases n
  {
    if n > 0 { ShiftsIterate(Shift(v), n - 1); }
  }

  lemma {:induction false} ShiftsTwice(v: bv16, m: nat, n: nat)
    ensures Shifts(v, m + n) == Shifts(Shifts(v, m), n)
    decreases m
  {
    if m > 0 { ShiftsTwice(Shift(v), m - 1, n); }
  }

  lemma SplitBits(a: bv16, b: bv16)
    ensures (a ^ b) >> 1 == (a >> 1) ^ (b >> 1) && (a ^ b) & 1 == (a & 1) ^ (b & 1)
  {
  }

  lemma LastBit(a: bv16)
    ensures a & 1 == 0 || a & 1 == 1
  {
  }

  lemma XorMoves(a: bv16, b: bv16, c: bv16)
    ensures (a ^ b) ^ c == (a ^ c) ^ b == a ^ (b ^ c)
    ensures (a ^ c) ^ (b ^ c) == a ^ b
  {
  }

  lemma ShiftXor(a: bv16, b: bv16)
    ensures Shift(a ^ b) == Shift(a) ^ Shift(b)
  {
    SplitBits(a, b);
    LastBit(a);
    LastBit(b);
    XorMoves(a >> 1, b >> 1, POLYNOMIAL);
  }

  lemma ShiftAdds(a: bv16, b: bv16)
    ensures Shift(Sum(a, b)) == Sum(Shift(a), Shift(b))
  {
    var c, d := Shift(a), Shift(b);
    assert Sum(a, b) == a ^ b && Sum(c, d) == c ^ d;
    assert Shift(a ^ b) == c ^ d by { ShiftXor(a, b); }
  }

  lemma ShiftAdditive()
    ensures Additive(Shift)
  {
    forall a, b ensures Shift(Sum(a, b)) == Sum(Shift(a), Shift(b)) { ShiftAdds(a, b); }
  }

  /** Shifts of a sum are the sum of the shifts. */
  lemma ShiftsAdd(a: bv16, b: bv16, n: nat)
    ensures Shifts(Sum(a, b), n) == Sum(Shifts(a, n), Shifts(b, n))
  {
    ShiftAdditive();
    ShiftsIterate(a, n);
    ShiftsIterate(b, n);
    ShiftsIterate(Sum(a, b), n);
    IterateAdds(Shift, a, b, n);
  }

  lemma FourClear(v: bv16, n: nat)
    requires v & 0xF == 0 && n == 4
    ensures Shifts(v, n) == v >> 4
  {
    FourShifts(v, 0);
  }

  /** The entries are what four shifts make of four bits.  Here and below `n` is always
      four. */
  lemma EntryIs(i: bv16, n: nat)
    requires i < 16 && n == 4
    ensures TableEntry(i) == Shifts(i, n)
  {
    var a := Shift(i);
    var b := Shift(a);
    var c := Shift(b);
    assert Shifts(i, 4) == Shifts(a, 3);
    assert Shifts(a, 3) == Shifts(b, 2);
    assert Shifts(b, 2) == Shifts(c, 1);
    assert Shifts(c, 1) == Shift(c);
  }

  method LookUp(idx: bv16, ghost n: nat) returns (entry: bv16)
    requires idx < 16 && n == 4
    ensures entry == Shifts(idx, n)
  {
    EntryIs(idx, n);
    entry := TableEntry(idx);
  }

  /** A word in two parts, and what of it is left when four bits are shifted out. */
  ghost predicate InParts(v: bv16, high: bv16, low: bv16, high4: bv16) {
    v == high ^ low && high & 0xF == 0 && high >> 4 == high4
  }

  lemma Parts(a: bv16, b: bv16)
    ensures InParts(a ^ b, (a ^ b) & 0xFFF0, (a & 0xF) ^ (b & 0xF), (a >> 4) ^ (b >> 4))
  {
  }

  lemma LowNibbles(a: bv16, b: bv16, low: bv16)
    requires low == (a & 0xF) ^ (b & 0xF)
    ensures low < 16
  {
  }

  lemma OfParts(v: bv16, high: bv16, low: bv16, high4: bv16, n: nat, fromLow: bv16, whole: bv16)
    requires n == 4 && InParts(v, high, low, high4) && fromLow == Shifts(low, n) && whole == Shifts(v, n)
    ensures whole == Sum(high4, fromLow)
  {
    ShiftsAdd(high, low, n);
    FourClear(high, n);
  }

  lemma SumMoves(a: bv16, b: bv16, c: bv16)
    ensures Sum(Sum(a, b), c) == Sum(Sum(a, c), b)
  {
  }

  lemma Combine(whole: bv16, entry: bv16, crc4: bv16, b4: bv16, next: bv16)
    requires whole == Sum(Sum(crc4, b4), entry) && next == Sum(crc4, entry)
    ensures whole == Sum(next, b4)
  {
    SumMoves(crc4, b4, entry);
  }

  lemma Mixed(crc: bv16, b: bv16, n: nat, entry: bv16, next: bv16)
    requires n == 4 && entry == Shifts((crc & 0xF) ^ (b & 0xF), n) && next == Sum(crc >> 4, entry)
    ensures Shifts(crc ^ b, n) == Sum(next, b >> 4)
  {
    Parts(crc, b);
    OfParts(crc ^ b, (crc ^ b) & 0xFFF0, (crc & 0xF) ^ (b & 0xF), Sum(crc >> 4, b >> 4), n, entry, Shifts(crc ^ b, n));
    Combine(Shifts(crc ^ b, n), entry, crc >> 4, b >> 4, next);
  }

  method Xor(a: bv16, b: bv16) returns (c: bv16)
    ensures c == Sum(a, b)
  {
    c := a ^ b;
  }

  /** One step with the table: a nibble is mixed with the low bits when its turn comes, and
      the rest of `b` is still to be mixed in. */
  method RtuNibble(crc: bv16, b: bv16, ghost n: nat, ghost v: bv16, ghost b4: bv16) returns (next: bv16)
    requires n == 4 && v == crc ^ b && b4 == b >> 4
    ensures Shifts(v, n) == Sum(next, b4)
  {
    var idx := (crc & 0xF) ^ (b & 0xF);
    LowNibbles(crc, b, idx);
    var entry := LookUp(idx, n);
    var crc4 := crc >> 4;
    next := Xor(crc4, entry);
    Mixed(crc, b, n, entry, next);
  }

  lemma HighNibble(byte: Octet, b: bv16)
    requires b == byte as bv16
    ensures (b >> 4) >> 4 == 0
  {
  }

  lemma NothingLeft(a: bv16, b: bv16, c: bv16)
    requires b == 0 && c == Sum(a, b)
    ensures c == a
  {
  }

  lemma SumIs(a: bv16, b: bv16, c: bv16)
    requires c == Sum(a, b)
    ensures c == a ^ b
  {
  }

  method RtuNibbles(crc: bv16, byte: Octet, ghost v: bv16, ghost n: nat) returns (next: bv16)
    requires n == 4 && v == crc ^ (byte as bv16)
    ensures next == Shifts(Shifts(v, n), n)
  {
    var b := byte as bv16;
    var high := b >> 4;
    HighNibble(byte, b);
    var first := RtuNibble(crc, b, n, v, high);
    ghost var w := Shifts(v, n);
    SumIs(first, high, w);
    next := RtuNibble(first, high, n, w, 0);
    NothingLeft(next, 0, Shifts(w, n));
  }

  lemma TwoFours(crc: bv16, byte: Octet, v: bv16, n: nat)
    requires v == crc ^ (byte as bv16) && n == 4
    ensures Feed(crc, byte) == Shifts(Shifts(v, n), n)
  {
    ShiftsTwice(v, n, n);
  }

  /** The loop's body. */
  method RtuByte(crc: bv16, byte: Octet) returns (next: bv16)
    ensures next == Feed(crc, byte)
  {
    ghost var v, n := crc ^ (byte as bv16), 4;
    TwoFours(crc, byte, v, n);
    next := RtuNibbles(crc, byte, v, n);
  }

  /** The routine that packets are checked with: nibble by nibble, with the table. */
  method Crc16Rtu(data: seq<Octet>) returns (crc: bv16)
    ensures crc == Crc(data)
  {
    crc := INITIAL;
    var i := 0;
    while i < |data|
      invariant 0 <= i <= |data| && CrcFrom(crc, data[i..]) == Crc(data)
    {
      var next := RtuByte(crc, data[i]);
      FedOn(crc, data, i, next);
      crc := next;
      i := i + 1;
    }
  }

  lemma FedOn(crc: bv16, data: seq<Octet>, i: nat, next: bv16)
    requires i < |data| && next == Feed(crc, data[i])
    ensures CrcFrom(crc, data[i..]) == CrcFrom(next, data[i + 1..])
  {
    assert data[i..][1..] == data[i + 1..];
  }

  // ---------------------------------------------------------------- packets

  const SOP: Octet := 0x23
  const HEADER: nat := 9

  /** The number that the lowest `bits` bits of a word stand for. */
  function Value(v: bv16, bits: nat): nat
    decreases bits
  {
    if bits == 0 then 0 else (if v & 1 == 1 then 1 else 0) + 2 * Value(v >> 1, bits - 1)
  }

  function Power(n: nat): nat { if n == 0 then 1 else 2 * Power(n - 1) }

  lemma {:induction false} ValueBound(v: bv16, bits: nat)
    ensures Value(v, bits) < Power(bits) && Power(16) == 0x1_0000
    decreases bits
  {
    assert Power(8) == 256;
    if bits > 0 { ValueBound(v >> 1, bits - 1); }
  }

  datatype Header = Header(devId: bv16, cmd: Octet, opType: Octet, dataLen: bv16)
  {
    /** The header without its CRC. */
    function Front(): (s: seq<Octet>)
      ensures |s| == 7
    {
      [SOP] + Field(devId) + [cmd, opType] + Field(dataLen)
    }

    function Bytes(): (s: seq<Octet>)
      ensures |s| == HEADER
    {
      Front() + Field(Crc(Front()))
    }

    function Len(): (n: nat)
      ensures n < 0x1_0000
    {
      ValueBound(dataLen, 16);
      Value(dataLen, 16)
    }
  }

  datatype Packet = Packet(header: Header, data: seq<Octet>)
  {
    /** The header says how much data there is. */
    predicate Fits() { |data| == header.Len() }
  }

  /** A packet as it is built: a packet without data has no second CRC. */
  function Build(p: Packet): seq<Octet> {
    p.header.Bytes() + if p.data == [] then [] else p.data + Field(Crc(p.data))
  }

  function HeaderOf(buf: seq<Octet>): Header
    requires |buf| >= HEADER
  {
    Header(Joined(buf[1], buf[2]), buf[3], buf[4], Joined(buf[5], buf[6]))
  }

  /** The length of a whole instruction, in the 16 bits it is kept in. */
  function InstrLen(dataLen: nat): nat { (HEADER + dataLen + 2) % 0x1_0000 }

  /** What a check reports: 0 for a good packet, 1 for a wrong CRC, 2 for too little for a
      header, 3 for a wrong first byte, 4 for too little for the data; and how far it got. */
  datatype Report = Report(error: nat, consumed: nat)

  predicate HeaderOk(buf: seq<Octet>)
    requires |buf| >= HEADER
  {
    Crc(buf[..HEADER]) == 0
  }

  predicate DataOk(buf: seq<Octet>, len: nat)
    requires |buf| >= HEADER + len + 2
  {
    Crc(buf[HEADER..HEADER + len + 2]) == 0
  }

  function Check(buf: seq<Octet>): Report {
    if |buf| < HEADER then Report(2, 0)
    else if buf[0] != SOP then Report(3, 0)
    else if !HeaderOk(buf) then Report(1, HEADER)
    else
      var len := HeaderOf(buf).Len();
      if |buf| - HEADER < len + 2 then Report(4, HEADER)
      else if len > 0 then Report(if DataOk(buf, len) then 0 else 1, InstrLen(len))
      else Report(0, HEADER)
  }

  /** The same from what is known of the buffer: its length, whether the first byte and the
      CRCs are right, and the length in the header. */
  function Judge(size: nat, sop: bool, headerOk: bool, len: nat, dataOk: bool): Report {
    if size < HEADER then Report(2, 0)
    else if !sop then Report(3, 0)
    else if !headerOk then Report(1, HEADER)
    else if size - HEADER < len + 2 then Report(4, HEADER)
    else if len > 0 then Report(if dataOk then 0 else 1, InstrLen(len))
    else Report(0, HEADER)
  }

  lemma CheckJudges(buf: seq<Octet>, len: nat)
    requires |buf| >= HEADER && len == HeaderOf(buf).Len()
    ensures Check(buf) == Judge(|buf|, buf[0] == SOP, HeaderOk(buf), len, |buf| >= HEADER + len + 2 && DataOk(buf, len))
  {
  }

  lemma JudgeMoves(size: nat, sop: bool, headerOk: bool, len: nat, dataOk: bool)
    requires GoesOn(Judge(size, sop, headerOk, len, dataOk)) && len < 0x1_0000
    ensures var moved := Judge(size, sop, headerOk, len, dataOk).consumed;
            && size >= HEADER && moved <= size
            && (!headerOk || len == 0 ==> moved == HEADER)
            && (headerOk && len > 0 ==> moved == InstrLen(len) && size >= HEADER + len + 2)
            && (size < 0x1_0000 ==> moved >= HEADER)
  {
  }

  /** The packet in front of a buffer that has passed the check. */
  function PacketOf(buf: seq<Octet>): Packet
    requires Check(buf).error == 0
  {
    Packet(HeaderOf(buf), buf[HEADER..HEADER + HeaderOf(buf).Len()])
  }

  // ---- round trips

  lemma HeaderRoundTrip(h: Header, rest: seq<Octet>)
    ensures |h.Bytes() + rest| >= HEADER && HeaderOf(h.Bytes() + rest) == h
    ensures (h.Bytes() + rest)[0] == SOP && HeaderOk(h.Bytes() + rest)
  {
    Residue(h.Front());
    JoinedSplit(h.devId);
    JoinedSplit(h.dataLen);
    var b := h.Bytes() + rest;
    assert b[..HEADER] == h.Bytes();
    FrontBytes(h);
    assert forall i | 0 <= i < 7 :: b[i] == h.Front()[i];
  }

  lemma FrontBytes(h: Header)
    ensures h.Front() == [SOP, Low(h.devId), High(h.devId), h.cmd, h.opType, Low(h.dataLen), High(h.dataLen)]
  {
  }

  /** A packet with data is accepted whatever follows it, and gives back its header and its
      data. */
  lemma BuildCheck(p: Packet, rest: seq<Octet>)
    requires p.Fits() && p.data != []
    ensures Check(Build(p) + rest) == Report(0, InstrLen(p.header.Len()))
    ensures PacketOf(Build(p) + rest) == p
  {
    var b := Build(p) + rest;
    Regroup(p.header.Bytes(), p.data + Field(Crc(p.data)), rest);
    HeaderRoundTrip(p.header, (p.data + Field(Crc(p.data))) + rest);
    Residue(p.data);
    Behind(p.header.Bytes(), p.data, Field(Crc(p.data)), rest, b);
    CheckFinds(b, p.header, p.data);
  }

  lemma Behind<T>(head: seq<T>, data: seq<T>, end: seq<T>, rest: seq<T>, b: seq<T>)
    requires b == head + ((data + end) + rest)
    ensures |b| >= |head| + |data| + |end|
    ensures b[|head|..|head| + |data| + |end|] == data + end && b[|head|..|head| + |data|] == data
  {
  }

  lemma CheckFinds(b: seq<Octet>, h: Header, data: seq<Octet>)
    requires |b| >= HEADER + |data| + 2 && b[0] == SOP && HeaderOk(b) && HeaderOf(b) == h && h.Len() == |data| > 0
    requires Crc(b[HEADER..HEADER + |data| + 2]) == 0 && b[HEADER..HEADER + |data|] == data
    ensures Check(b) == Report(0, InstrLen(h.Len())) && PacketOf(b) == Packet(h, data)
  {
  }

  /** One without data is accepted if and only if at least two more bytes follow. */
  lemma BuildCheckEmpty(p: Packet, rest: seq<Octet>)
    requires p.Fits() && p.data == []
    ensures Check(Build(p) + rest) == if |rest| >= 2 then Report(0, HEADER) else Report(4, HEADER)
    ensures |rest| >= 2 ==> PacketOf(Build(p) + rest) == p
  {
    assert Build(p) + rest == p.header.Bytes() + rest;
    HeaderRoundTrip(p.header, rest);
  }

  /** A sequence that checks to zero ends in the CRC of what comes before. */
  lemma EndsInCrc(s: seq<Octet>)
    requires |s| >= 2 && Crc(s) == 0
    ensures s == s[..|s| - 2] + Field(Crc(s[..|s| - 2]))
  {
    var d := s[..|s| - 2];
    assert s == d + [s[|s| - 2], s[|s| - 1]];
    ResidueOnly(d, s[|s| - 2], s[|s| - 1]);
  }

  lemma HeaderSound(buf: seq<Octet>)
    requires |buf| >= HEADER && buf[0] == SOP && HeaderOk(buf)
    ensures HeaderOf(buf).Bytes() == buf[..HEADER]
  {
    var h := buf[..HEADER];
    EndsInCrc(h);
    assert h[..7] == buf[..7];
    HeaderFront(buf);
  }

  /** A report of success means that the bytes are those of the packet, as built. */
  lemma CheckSound(buf: seq<Octet>)
    requires Check(buf).error == 0 && HeaderOf(buf).Len() > 0
    ensures PacketOf(buf).Fits() && Build(PacketOf(buf)) <= buf
  {
    var p := PacketOf(buf);
    var n := p.header.Len();
    HeaderSound(buf);
    var t := buf[HEADER..HEADER + n + 2];
    EndsInCrc(t);
    Slices(buf, HEADER, n, p.data, t);
  }

  lemma Slices<T>(buf: seq<T>, h: nat, n: nat, d: seq<T>, t: seq<T>)
    requires h + n + 2 <= |buf| && t == buf[h..h + n + 2] && d == buf[h..h + n]
    ensures t[..n] == d && buf[..h] + t == buf[..h + n + 2]
  {
  }

  lemma HeaderFront(buf: seq<Octet>)
    requires |buf| >= HEADER && buf[0] == SOP
    ensures HeaderOf(buf).Front() == buf[..7]
  {
    FrontBytes(HeaderOf(buf));
    SplitJoined(buf[1], buf[2]);
    SplitJoined(buf[5], buf[6]);
  }

  lemma SplitJoined(low: Octet, high: Octet)
    ensures Low(Joined(low, high)) == low && High(Joined(low, high)) == high
  {
  }

  // ---------------------------------------------------------------- a buffer of packets

  /** What becomes of a buffer: the packets handed on, and whether the loop goes on for
      ever at one of them. */
  datatype Outcome = Outcome(packets: seq<Packet>, stuck: bool)

  /** The loop goes on after a good packet and after a wrong CRC. */
  predicate GoesOn(r: Report) { r.error == 0 || r.error == 1 }

  lemma CheckBounds(buf: seq<Octet>)
    requires GoesOn(Check(buf))
    ensures |buf| >= HEADER && Check(buf).consumed <= |buf|
    ensures |buf| < 0x1_0000 ==> Check(buf).consumed >= HEADER
  {
    var len := HeaderOf(buf).Len();
    CheckJudges(buf, len);
    JudgeMoves(|buf|, buf[0] == SOP, HeaderOk(buf), len, |buf| >= HEADER + len + 2 && DataOk(buf, len));
  }

  function Process(buf: seq<Octet>): Outcome
    decreases |buf|
  {
    var r := Check(buf);
    if buf == [] || !GoesOn(r) then Outcome([], false)
    else
      CheckBounds(buf);
      var here := if r.error == 0 then [PacketOf(buf)] else [];
      if r.consumed == 0 then Outcome(here, true)
      else
        var rest := Process(buf[r.consumed..]);
        Outcome(here + rest.packets, rest.stuck)
  }

  lemma InstrLenIs(len: nat)
    requires len < 0x1_0000
    ensures InstrLen(len) == (if len < 65525 then HEADER + len + 2 else len - 65525)
  {
  }

  /** How far the loop moves: past the header if the header's CRC is wrong or there is no
      data, and otherwise by the instruction length; which is all of the packet if and only
      if that fits in 16 bits, and nothing at all for just one length. */
  lemma MovesBy(buf: seq<Octet>)
    requires GoesOn(Check(buf))
    ensures var n, moved := HeaderOf(buf).Len(), Check(buf).consumed;
            && (!HeaderOk(buf) || n == 0 ==> moved == HEADER)
            && (HeaderOk(buf) && n > 0 ==> (moved == HEADER + n + 2 <==> n < 65525) && (moved == 0 <==> n == 65525))
  {
    var n := HeaderOf(buf).Len();
    CheckJudges(buf, n);
    JudgeMoves(|buf|, buf[0] == SOP, HeaderOk(buf), n, |buf| >= HEADER + n + 2 && DataOk(buf, n));
    InstrLenIs(n);
  }

  /** A buffer that is shorter than the largest packet is worked through in steps of at
      least one header. */
  lemma {:induction false} ShortNeverStuck(buf: seq<Octet>)
    requires |buf| < 0x1_0000
    ensures !Process(buf).stuck
    ensures GoesOn(Check(buf)) ==> HEADER <= Check(buf).consumed <= |buf|
    decreases |buf|
  {
    if GoesOn(Check(buf)) {
      CheckBounds(buf);
      ShortNeverStuck(buf[Check(buf).consumed..]);
    }
  }

  /** A packet that claims 65525 bytes of data, and has them, is met again and again. */
  lemma StuckForEver(devId: bv16, cmd: Octet, opType: Octet, rest: seq<Octet>)
    requires |rest| >= 65527
    ensures var b := Header(devId, cmd, opType, 0xFFF5).Bytes() + rest;
            GoesOn(Check(b)) && Check(b).consumed == 0 && Process(b).stuck
  {
    var h := Header(devId, cmd, opType, 0xFFF5);
    HeaderRoundTrip(h, rest);
    LongestLen(h);
  }

  lemma LongestLen(h: Header)
    requires h.dataLen == 0xFFF5
    ensures h.Len() == 65525
  {
    assert Value(0xF, 4) == 15;
    assert Value(0xFF, 8) == 15 + 16 * Value(0xF, 4);
    assert Value(0xFFF, 12) == 15 + 16 * Value(0xFF, 8);
    assert Value(0xFFF5, 16) == 5 + 16 * Value(0xFFF, 12);
  }

  function BuildAll(ps: seq<Packet>): seq<Octet> { if ps == [] then [] else Build(ps[0]) + BuildAll(ps[1..]) }

  /** Packets that can be told apart: their lengths fit, and the last of them has data or
      at least two bytes behind it. */
  predicate Found(ps: seq<Packet>, rest: seq<Octet>) {
    && (forall i | 0 <= i < |ps| :: ps[i].Fits() && |ps[i].data| < 65525)
    && (ps != [] && ps[|ps| - 1].data == [] ==> |rest| >= 2)
  }

  /** A buffer of such packets is taken apart into those packets, once each and in order;
      then comes whatever follows. */
  lemma {:induction false} ProcessBuilt(ps: seq<Packet>, rest: seq<Octet>)
    requires Found(ps, rest)
    ensures Process(BuildAll(ps) + rest) == Outcome(ps + Process(rest).packets, Process(rest).stuck)
    decreases |ps|
  {
    if ps == [] {
      assert BuildAll(ps) + rest == rest;
      assert [] + Process(rest).packets == Process(rest).packets;
    } else {
      ProcessBuilt(ps[1..], rest);
      ProcessFirst(ps, rest, Process(rest));
    }
  }

  /** If the last packet has no data and less than two bytes follow, it is lost, and so is
      what follows. */
  lemma LastEmptyLost(ps: seq<Packet>, rest: seq<Octet>)
    requires forall i | 0 <= i < |ps| :: ps[i].Fits() && |ps[i].data| < 65525
    requires ps != [] && ps[|ps| - 1].data == [] && |rest| < 2
    ensures Process(BuildAll(ps) + rest) == Outcome(ps[..|ps| - 1], false)
  {
    var front, last := ps[..|ps| - 1], ps[|ps| - 1];
    assert ps == front + [last];
    BuildJoin(front, last);
    Regroup(BuildAll(front), Build(last), rest);
    BuildCheckEmpty(last, rest);
    ProcessStep(Build(last) + rest, Process(Build(last) + rest));
    ProcessBuilt(front, Build(last) + rest);
    assert front + [] == front;
  }

  lemma {:induction false} BuildJoin(front: seq<Packet>, last: Packet)
    ensures BuildAll(front + [last]) == BuildAll(front) + Build(last)
  {
    if front == [] {
      assert [last][1..] == [] && front + [last] == [last];
    } else {
      assert (front + [last])[1..] == front[1..] + [last];
      BuildJoin(front[1..], last);
      Regroup(Build(front[0]), BuildAll(front[1..]), Build(last));
    }
  }

  lemma ProcessFirst(ps: seq<Packet>, rest: seq<Octet>, last: Outcome)
    requires ps != [] && Found(ps, rest)
    requires Process(BuildAll(ps[1..]) + rest) == Outcome(ps[1..] + last.packets, last.stuck)
    ensures Process(BuildAll(ps) + rest) == Outcome(ps + last.packets, last.stuck)
  {
    var after := BuildAll(ps[1..]) + rest;
    FirstSplit(ps, rest, after);
    EnoughBehind(ps, rest, BuildAll(ps[1..]));
    ProcessOne(ps[0], after);
    FirstJoin(ps, last.packets);
  }

  lemma FirstSplit(ps: seq<Packet>, rest: seq<Octet>, after: seq<Octet>)
    requires ps != [] && after == BuildAll(ps[1..]) + rest
    ensures BuildAll(ps) + rest == Build(ps[0]) + after
  {
    Regroup(Build(ps[0]), BuildAll(ps[1..]), rest);
  }

  lemma FirstJoin<T>(ps: seq<T>, more: seq<T>)
    requires ps != []
    ensures [ps[0]] + (ps[1..] + more) == ps + more
  {
  }

  lemma EnoughBehind(ps: seq<Packet>, rest: seq<Octet>, more: seq<Octet>)
    requires ps != [] && Found(ps, rest) && more == BuildAll(ps[1..])
    ensures ps[0].Fits() && |ps[0].data| < 65525 && (ps[0].data == [] ==> |more + rest| >= 2)
  {
    if |ps| > 1 { assert |Build(ps[1..][0])| >= HEADER; }
  }

  lemma Regroup<T>(a: seq<T>, b: seq<T>, c: seq<T>)
    ensures (a + b) + c == a + (b + c)
  {
  }

  lemma ProcessOne(p: Packet, after: seq<Octet>)
    requires p.Fits() && |p.data| < 65525 && (p.data == [] ==> |after| >= 2)
    ensures Process(Build(p) + after) == Outcome([p] + Process(after).packets, Process(after).stuck)
  {
    var b := Build(p) + after;
    if p.data == [] { BuildCheckEmpty(p, after); } else { BuildCheck(p, after); }
    InstrLenIs(p.header.Len());
    ProcessStep(b, Process(b));
    assert b[|Build(p)|..] == after;
  }

  /** One turn of the loop. */
  lemma ProcessStep(buf: seq<Octet>, all: Outcome)
    requires all == Process(buf)
    ensures buf == [] || !GoesOn(Check(buf)) ==> all == Outcome([], false)
    ensures buf != [] && GoesOn(Check(buf)) ==>
              var here := if Check(buf).error == 0 then [PacketOf(buf)] else [];
              && Check(buf).consumed <= |buf|
              && all == if Check(buf).consumed == 0 then Outcome(here, true)
                        else Outcome(here + Process(buf[Check(buf).consumed..]).packets, Process(buf[Check(buf).consumed..]).stuck)
  {
    if GoesOn(Check(buf)) { CheckBounds(buf); }
  }

  // ---------------------------------------------------------------- the routines

  /** What a check fills in. */
  class Parse {
    var header: Option<Header>
    var instrLen: nat
    var error: nat
    var data: seq<Octet>

    constructor ()
      ensures header == None && instrLen == 0 && error == 0 && data == []
    {
      header, instrLen, error, data := None, 0, 0, [];
    }

    /** Checks one packet at the start of a buffer. */
    method CheckPacket(inbuf: seq<Octet>) returns (found: bool)
      requires instrLen == 0 && error == 0
      modifies this
      ensures Report(error, instrLen) == Check(inbuf) && (found <==> error == 0)
      ensures found ==> header == Some(PacketOf(inbuf).header) && PacketOf(inbuf).data <= data
    {
      if |inbuf| < HEADER {
        error := 2;
        return false;
      } else if inbuf[0] != SOP {
        error := 3;
        return false;
      }
      header := Some(HeaderOf(inbuf));
      instrLen := HEADER;
      data := inbuf[HEADER..];
      var headerCrc := Crc16Rtu(inbuf[..HEADER]);
      if headerCrc != 0 {
        error := 1;
        header := None;
        return false;
      }
      var len := header.value.Len();
      if |inbuf| - instrLen < len + 2 {
        error := 4;
        return false;
      }
      if len > 0 {
        instrLen := (instrLen + len + 2) % 0x1_0000;
        var dataCrc := Crc16Rtu(inbuf[HEADER..HEADER + len + 2]);
        if dataCrc != 0 {
          error := 1;
          header := None;
          return false;
        }
      }
      return true;
    }
  }

  /** Works through a buffer and hands on each packet.  It must not be one on which that
      never ends. */
  method ProcessPackets(inbuf: seq<Octet>) returns (handled: seq<Packet>)
    requires !Process(inbuf).stuck
    ensures handled == Process(inbuf).packets
  {
    handled := [];
    var left := inbuf;
    ghost var all, ahead := Process(inbuf).packets, Process(inbuf);
    while left != []
      invariant ahead == Process(left) && !ahead.stuck && handled + ahead.packets == all
      decreases |left|
    {
      ProcessStep(left, ahead);
      var goesOn, packet, moved := HandleOne(left);
      if !goesOn { break; }
      left := left[moved..];
      ahead := Process(left);
      Regroup(handled, packet, ahead.packets);
      handled := handled + packet;
    }
    ProcessStep(left, ahead);
  }

  /** One turn of the loop: at most one packet is handed on. */
  method HandleOne(buf: seq<Octet>) returns (goesOn: bool, packet: seq<Packet>, moved: nat)
    ensures goesOn <==> GoesOn(Check(buf))
    ensures packet == if Check(buf).error == 0 then [PacketOf(buf)] else []
    ensures moved == Check(buf).consumed
  {
    var parse := new Parse();
    var found := parse.CheckPacket(buf);
    packet := [];
    if found {
      packet := [Packet(parse.header.value, parse.data[..parse.header.value.Len()])];
      assert packet[0].data == PacketOf(buf).data;
    }
    goesOn := found || parse.error == 1;
    moved := parse.instrLen;
  }

  /** Builds a packet; the header's CRC is computed first, and data, if there is any, is
      followed by its own. */
  method BuildPacket(header: Header, data: seq<Octet>) returns (outbuf: seq<Octet>)
    requires Packet(header, data).Fits()
    ensures outbuf == Build(Packet(header, data))
  {
    var headerCrc := Crc16Rtu(header.Front());
    outbuf := header.Front() + Field(headerCrc);
    if data != [] {
      var dataCrc := Crc16Rtu(data);
      outbuf := outbuf + data + Field(dataCrc);
      assert outbuf == header.Bytes() + (data + Field(dataCrc));
    }
  }
}
