/** Installing firmware.  The boot loader copies a staged image over the application and
    must survive a reset, or a failing flash, at any point.  Flash here is one sequence of
    bytes; an erase or a write may leave anything behind in the range it works on, and
    power may go at any time.  Proved over every run: if the image accepted last fits, the
    application region matches it, or the loader will install that image again; and so the
    application is never started half installed.  A larger image can end in just that, and
    it is proved which ones do. */
module Boots {
  import opened Common
  import opened CrcUnits

  /** Offsets from the start of flash, and sizes, in bytes. */
  const FLASH_SIZE: nat := 0x80000
  const FW_INFO: nat := 0x04000
  const APP: nat := 0x10000
  const APP_SECTOR_2: nat := 0x20000
  const APP_SIZE: nat := 0x30000
  const FW_DATA: nat := 0x40000
  const PAGE: nat := 0x1000
  const HEADER_SIZE: nat := 32
  /** The copy buffer: 1024 words. */
  const CHUNK: nat := 4096

  const CHECK_PASS: Byte := 6
  const FINISHED: Byte := 7

  type Flash = f: seq<Byte> | |f| == FLASH_SIZE witness seq(FLASH_SIZE, _ => 0)

  function Word(s: seq<Byte>, at: nat): U32
    requires at + 4 <= |s|
  {
    WordOf(s[at], s[at + 1], s[at + 2], s[at + 3])
  }

  function HeaderBytes(f: Flash): (s: seq<Byte>)
    ensures |s| == HEADER_SIZE
  {
    f[FW_INFO..FW_INFO + HEADER_SIZE]
  }

  // the fields of the packed header
  function ImageSize(h: seq<Byte>): U32 requires |h| == HEADER_SIZE { Word(h, 3) }
  function ImageCrc(h: seq<Byte>): U32 requires |h| == HEADER_SIZE { Word(h, 11) }
  function Status(h: seq<Byte>): Byte requires |h| == HEADER_SIZE { h[15] }
  function HeaderCrc(h: seq<Byte>): U32 requires |h| == HEADER_SIZE { Word(h, 28) }

  /** The checks before an installation, in their order. */
  predicate HeaderPasses(u: Unit, h: seq<Byte>)
    requires |h| == HEADER_SIZE
  {
    && Crc32(u, h, 0, 28, false) == HeaderCrc(h)
    && ImageSize(h) != 0
    && Status(h) == CHECK_PASS
  }

  /** The check of an image, staged or installed. */
  predicate ImagePasses(u: Unit, f: Flash, at: nat, size: U32, crc: U32) { Crc32(u, f, at, size, true) == crc }

  predicate Accepts(u: Unit, f: Flash) {
    && HeaderPasses(u, HeaderBytes(f))
    && ImagePasses(u, f, FW_DATA, ImageSize(HeaderBytes(f)), ImageCrc(HeaderBytes(f)))
  }

  // ---------------------------------------------------------------- the machine

  /** What the loader is doing.  What it knows is lost in a reset. */
  datatype Pc =
    | Starting
    | Erasing(second: bool, size: U32, crc: U32)
    | Copying(done: nat, size: U32, crc: U32)
    | Checking(size: U32, crc: U32)
    | Marking
    | Running

  datatype Image = Original(bytes: seq<Byte>) | Accepted(size: U32, crc: U32)

  /** `good` is what the application region ought to hold: the bytes it has held since the
      last good boot, or the image accepted last. */
  datatype Machine = Machine(flash: Flash, pc: Pc, good: Image)

  datatype Step =
    | Reset
    | Check
    | EraseSector(after: Flash)
    | CopyChunk(after: Flash)
    | CheckApp
    | Mark(after: Flash, finished: bool)
    | AppWrites(after: Flash)

  /** Nothing has changed outside a range. */
  predicate Only(before: Flash, after: Flash, low: nat, high: nat)
    requires low <= high <= FLASH_SIZE
  {
    before[..low] == after[..low] && before[high..] == after[high..]
  }

  function ChunkEnd(done: nat, size: nat): nat { if done + CHUNK < size then done + CHUNK else size }

  /** Where the whole words of a chunk end; only those are programmed. */
  function WordsEnd(done: nat, size: nat): nat
    requires done < size
  {
    ChunkEnd(done, size) - (ChunkEnd(done, size) - done) % 4
  }

  /** Addresses behind the end of flash are not written. */
  function Clip(at: nat): nat { if at < FLASH_SIZE then at else FLASH_SIZE }

  /** A step may leave any bytes in the range it works on. */
  predicate Enabled(u: Unit, m: Machine, s: Step) {
    match s
    case Reset => true
    case Check => m.pc.Starting?
    case EraseSector(after) =>
      m.pc.Erasing? &&
      if m.pc.second then Only(m.flash, after, APP_SECTOR_2, APP + APP_SIZE) else Only(m.flash, after, APP, APP_SECTOR_2)
    case CopyChunk(after) =>
      m.pc.Copying? && m.pc.done < m.pc.size &&
      Only(m.flash, after, Clip(APP + m.pc.done), Clip(APP + WordsEnd(m.pc.done, m.pc.size)))
    case CheckApp => m.pc.Checking?
    case Mark(after, _) => m.pc.Marking? && Only(m.flash, after, FW_INFO, FW_INFO + PAGE)
    case AppWrites(after) => m.pc.Running? && m.flash[APP..APP + APP_SIZE] == after[APP..APP + APP_SIZE]
  }

  function Next(u: Unit, m: Machine, s: Step): Machine
    requires Enabled(u, m, s)
  {
    match s
    case Reset => m.(pc := Starting)
    case Check =>
      var h := HeaderBytes(m.flash);
      if Accepts(u, m.flash)
      then m.(pc := Erasing(false, ImageSize(h), ImageCrc(h)), good := Accepted(ImageSize(h), ImageCrc(h)))
      else m.(pc := Running)
    case EraseSector(after) =>
      m.(flash := after, pc := if m.pc.second then Copying(0, m.pc.size, m.pc.crc) else m.pc.(second := true))
    case CopyChunk(after) =>
      var end := ChunkEnd(m.pc.done, m.pc.size);
      m.(flash := after, pc := if end == m.pc.size then Checking(m.pc.size, m.pc.crc) else m.pc.(done := end))
    case CheckApp =>
      if ImagePasses(u, m.flash, APP, m.pc.size, m.pc.crc) then m.(pc := Marking) else m.(pc := Starting)
    case Mark(after, finished) => m.(flash := after, pc := if finished then Running else Marking)
    case AppWrites(after) => m.(flash := after)
  }

  // ---------------------------------------------------------------- the invariant

  /** The application region holds what it ought to. */
  predicate AppOk(u: Unit, f: Flash, good: Image) {
    match good
    case Original(bytes) => f[APP..APP + APP_SIZE] == bytes
    case Accepted(size, crc) => ImagePasses(u, f, APP, size, crc)
  }

  /** The loader would accept that same image now: its header and the staged bytes are
      intact. */
  predicate Repeatable(u: Unit, f: Flash, good: Image) {
    && good.Accepted? && Accepts(u, f) && 0 < good.size
    && ImageSize(HeaderBytes(f)) == good.size && ImageCrc(HeaderBytes(f)) == good.crc
  }

  /** The image accepted last fits the application region, which the loader does not
      check. */
  predicate Fitting(good: Image) { good.Accepted? ==> good.size <= APP_SIZE }

  predicate Inv(u: Unit, m: Machine) {
    Fitting(m.good) ==>
       match m.pc
       case Starting => AppOk(u, m.flash, m.good) || Repeatable(u, m.flash, m.good)
       case Erasing(_, size, crc) => Repeatable(u, m.flash, m.good) && m.good == Accepted(size, crc)
       case Copying(done, size, crc) =>
         Repeatable(u, m.flash, m.good) && m.good == Accepted(size, crc) && done < size
       case Checking(size, crc) => Repeatable(u, m.flash, m.good) && m.good == Accepted(size, crc)
       case Marking => AppOk(u, m.flash, m.good)
       case Running => AppOk(u, m.flash, m.good)
  }

  lemma SliceOfDrop(f: seq<Byte>, from: nat, low: nat, high: nat)
    requires from <= low <= high <= |f|
    ensures f[from..][low - from..high - from] == f[low..high]
  {
  }

  lemma SliceOfTake(f: seq<Byte>, to: nat, low: nat, high: nat)
    requires low <= high <= to <= |f|
    ensures f[..to][low..high] == f[low..high]
  {
  }

  /** A range outside the one that is worked on keeps its bytes. */
  lemma Untouched(f: Flash, after: Flash, low: nat, high: nat, from: nat, to: nat)
    requires low <= high <= FLASH_SIZE && Only(f, after, low, high)
    requires from <= to <= low || high <= from <= to <= FLASH_SIZE
    ensures f[from..to] == after[from..to]
  {
    if to <= low {
      SliceOfTake(f, low, from, to);
      SliceOfTake(after, low, from, to);
    } else {
      SliceOfDrop(f, high, from, to);
      SliceOfDrop(after, high, from, to);
    }
  }

  /** An image passes or not by the bytes up to the end of its last word. */
  lemma ImageKept(u: Unit, f: Flash, after: Flash, at: nat, size: U32, crc: U32)
    requires at + RoundUp(size) <= FLASH_SIZE && f[at..at + RoundUp(size)] == after[at..at + RoundUp(size)]
    ensures ImagePasses(u, f, at, size, crc) <==> ImagePasses(u, after, at, size, crc)
  {
    forall i | 0 <= i < RoundUp(size) ensures Peek(u, f, at, i) == Peek(u, after, at, i) {
      assert f[at + i] == f[at..at + RoundUp(size)][i] && after[at + i] == after[at..at + RoundUp(size)][i];
    }
    CrcSame(u, u.start, f, at, after, at, size, true);
  }

  lemma RoundFits(size: nat)
    requires size <= APP_SIZE
    ensures size <= RoundUp(size) <= APP_SIZE
  {
  }

  /** Work inside the application region leaves header and staged image alone. */
  lemma AppWork(f: Flash, after: Flash, low: nat, high: nat, size: nat)
    requires APP <= low <= high <= APP + APP_SIZE && Only(f, after, low, high) && size <= APP_SIZE
    ensures HeaderBytes(after) == HeaderBytes(f) && after[FW_DATA..FW_DATA + size] == f[FW_DATA..FW_DATA + size]
  {
    Untouched(f, after, low, high, FW_INFO, FW_INFO + HEADER_SIZE);
    Untouched(f, after, low, high, FW_DATA, FW_DATA + size);
  }

  lemma AppWorkRepeatable(u: Unit, f: Flash, after: Flash, good: Image, low: nat, high: nat)
    requires Repeatable(u, f, good) && good.size <= APP_SIZE
    requires APP <= low <= high <= APP + APP_SIZE && Only(f, after, low, high)
    ensures Repeatable(u, after, good)
  {
    RoundFits(good.size);
    AppWork(f, after, low, high, RoundUp(good.size));
    ImageKept(u, f, after, FW_DATA, good.size, good.crc);
  }

  /** Work on the header leaves the application region alone. */
  lemma MarkAppOk(u: Unit, f: Flash, after: Flash, good: Image)
    requires AppOk(u, f, good) && Fitting(good) && Only(f, after, FW_INFO, FW_INFO + PAGE)
    ensures AppOk(u, after, good)
  {
    Untouched(f, after, FW_INFO, FW_INFO + PAGE, APP, APP + APP_SIZE);
    AppOnly(u, f, after, good);
  }

  lemma AppOnly(u: Unit, f: Flash, after: Flash, good: Image)
    requires AppOk(u, f, good) && Fitting(good)
    requires f[APP..APP + APP_SIZE] == after[APP..APP + APP_SIZE]
    ensures AppOk(u, after, good)
  {
    if good.Accepted? {
      RoundFits(good.size);
      SliceOfSlice(f, RoundUp(good.size));
      SliceOfSlice(after, RoundUp(good.size));
      ImageKept(u, f, after, APP, good.size, good.crc);
    }
  }

  lemma SliceOfSlice(f: Flash, size: nat)
    requires size <= APP_SIZE
    ensures f[APP..APP + APP_SIZE][..size] == f[APP..APP + size]
  {
  }

  lemma CopyInv(u: Unit, m: Machine, after: Flash)
    requires Fitting(m.good) && Inv(u, m) && Enabled(u, m, CopyChunk(after))
    ensures Inv(u, Next(u, m, CopyChunk(after)))
  {
    ChunkInside(m.pc.done, m.pc.size);
    AppWorkRepeatable(u, m.flash, after, m.good, APP + m.pc.done, APP + WordsEnd(m.pc.done, m.pc.size));
  }

  lemma ChunkInside(done: nat, size: nat)
    requires done < size <= APP_SIZE
    ensures done <= WordsEnd(done, size) <= APP_SIZE
    ensures ChunkEnd(done, size) < size ==> ChunkEnd(done, size) == done + CHUNK
  {
  }

  lemma StepInv(u: Unit, m: Machine, s: Step)
    requires Inv(u, m) && Enabled(u, m, s)
    ensures Inv(u, Next(u, m, s))
  {
    if Fitting(m.good) { FittingStep(u, m, s); }
  }

  lemma FittingStep(u: Unit, m: Machine, s: Step)
    requires Fitting(m.good) && Inv(u, m) && Enabled(u, m, s)
    ensures Inv(u, Next(u, m, s))
  {
    match s
    case EraseSector(after) =>
      if m.pc.second { AppWorkRepeatable(u, m.flash, after, m.good, APP_SECTOR_2, APP + APP_SIZE); }
      else { AppWorkRepeatable(u, m.flash, after, m.good, APP, APP_SECTOR_2); }
    case CopyChunk(after) => CopyInv(u, m, after);
    case Mark(after, _) => MarkAppOk(u, m.flash, after, m.good);
    case AppWrites(after) => AppOnly(u, m.flash, after, m.good);
    case _ =>
  }

  /** A run: whether it is possible, and its end. */
  function Run(u: Unit, m: Machine, steps: seq<Step>): (bool, Machine)
    decreases |steps|
  {
    if steps == [] then (true, m)
    else if !Enabled(u, m, steps[0]) then (false, m)
    else Run(u, Next(u, m, steps[0]), steps[1..])
  }

  /** After any run, with resets and failures anywhere, if the image accepted last fits:
      the application region is as it ought to be, or the loader has what it needs to make
      it so; and while the application runs, it is as it ought to be. */
  lemma {:induction false} CrashSafe(u: Unit, m: Machine, steps: seq<Step>)
    requires Inv(u, m)
    ensures var (ok, r) := Run(u, m, steps);
            && (ok ==> Inv(u, r))
            && (ok && Fitting(r.good) ==> AppOk(u, r.flash, r.good) || Repeatable(u, r.flash, r.good))
            && (ok && Fitting(r.good) && r.pc.Running? ==> AppOk(u, r.flash, r.good))
    decreases |steps|
  {
    if steps != [] && Enabled(u, m, steps[0]) {
      StepInv(u, m, steps[0]);
      CrashSafe(u, Next(u, m, steps[0]), steps[1..]);
    }
  }

  /** A device that has just been programmed. */
  lemma FactoryInv(u: Unit, f: Flash)
    ensures Inv(u, Machine(f, Starting, Original(f[APP..APP + APP_SIZE])))
  {
  }

  // ---------------------------------------------------------------- images that do not fit

  /** Every chunk of an image of this size is written inside the application region. */
  predicate WritesInside(size: nat) {
    forall done: nat | done < size && done % CHUNK == 0 :: APP + WordsEnd(done, size) <= APP + APP_SIZE
  }

  /** Nothing in the loader keeps an image to the size of the region, and the region ends
      where the staging area begins: an image with a word too many is written over its own
      source. */
  lemma FitsIff(size: nat)
    ensures WritesInside(size) <==> size < APP_SIZE + 4
    ensures size >= APP_SIZE + 4 ==> APP + APP_SIZE == FW_DATA && FW_DATA + 4 <= APP + WordsEnd(APP_SIZE, size)
  {
    var full: nat := 0x30000;
    if size >= APP_SIZE + 4 {
      assert full % CHUNK == 0 && APP + WordsEnd(full, size) > APP + APP_SIZE;
    }
  }

  /** Two memories that differ in one byte, which ends a word of the image. */
  ghost predicate OneByteApart(u: Unit, f: seq<Byte>, g: seq<Byte>, at: nat, pos: nat) {
    && Peek(u, f, at, pos) != Peek(u, g, at, pos)
    && forall i: nat | i != pos :: Peek(u, f, at, i) == Peek(u, g, at, i)
  }

  /** Their CRCs differ, if the unit tells words apart. */
  lemma {:induction false} ByteMatters(u: Unit, state: U32, f: seq<Byte>, g: seq<Byte>, at: nat, len: nat, words: nat, big: bool)
    requires Tells(u) && OneByteApart(u, f, g, at, 4 * words + 3) && 4 * words < len
    ensures CrcFrom(u, state, f, at, len, big) != CrcFrom(u, state, g, at, len, big)
    decreases words
  {
    if words == 0 {
      FirstWordMatters(u, state, f, g, at, len, big);
    } else {
      FedIff(u, f, at, g, at, 4, big);
      Shifted(u, f, g, at, 4 * words + 3);
      ByteMatters(u, u.feed(state, Fed(u, f, at, 4, big)), f, g, at + 4, len - 4, words - 1, big);
    }
  }

  lemma FirstWordMatters(u: Unit, state: U32, f: seq<Byte>, g: seq<Byte>, at: nat, len: nat, big: bool)
    requires Tells(u) && OneByteApart(u, f, g, at, 3) && 0 < len
    ensures CrcFrom(u, state, f, at, len, big) != CrcFrom(u, state, g, at, len, big)
  {
    var keep := if len < 4 then len else 4;
    FedIff(u, f, at, g, at, keep, big);
    var v, w := Fed(u, f, at, keep, big), Fed(u, g, at, keep, big);
    assert u.feed(state, v) != u.feed(state, w);
    if len >= 4 {
      SameBehind(u, f, g, at, RoundUp(len - 4));
      CrcSame(u, u.feed(state, w), f, at + 4, g, at + 4, len - 4, big);
      StatesApart(u, u.feed(state, v), u.feed(state, w), f, at + 4, len - 4, big);
    }
  }

  lemma Shifted(u: Unit, f: seq<Byte>, g: seq<Byte>, at: nat, pos: nat)
    requires OneByteApart(u, f, g, at, pos) && pos >= 4
    ensures OneByteApart(u, f, g, at + 4, pos - 4)
  {
    var a4 := at + 4;
    assert Peek(u, f, a4, pos - 4) == Peek(u, f, at, pos) && Peek(u, g, a4, pos - 4) == Peek(u, g, at, pos);
    forall i: nat | i != pos - 4 ensures Peek(u, f, a4, i) == Peek(u, g, a4, i) {
      assert Peek(u, f, at, i + 4) == Peek(u, g, at, i + 4);
    }
  }

  lemma SameBehind(u: Unit, f: seq<Byte>, g: seq<Byte>, at: nat, len: nat)
    requires OneByteApart(u, f, g, at, 3)
    ensures SameBytes(u, f, at + 4, g, at + 4, len)
  {
    var a4 := at + 4;
    forall i | 0 <= i < len ensures Peek(u, f, a4, i) == Peek(u, g, a4, i) {
      assert Peek(u, f, at, i + 4) == Peek(u, g, at, i + 4);
    }
  }

  // ---------------------------------------------------------------- which images can be lost

  /** What the header asks for. */
  function Asked(f: Flash): Image { Accepted(ImageSize(HeaderBytes(f)), ImageCrc(HeaderBytes(f))) }

  /** A run that ends with the application started and its region not matching the image
      that was staged at first, which is not staged any more either. */
  ghost predicate Loses(u: Unit, f: Flash, good: Image, steps: seq<Step>) {
    var (ok, r) := Run(u, Machine(f, Starting, good), steps);
    ok && r.pc.Running? && r.good == Asked(f) && !AppOk(u, r.flash, r.good) && !Repeatable(u, r.flash, r.good)
  }

  /** Whatever the flash holds, an accepted image can be lost exactly when it is larger
      than the application region, by a byte or by more, but below 2^31 bytes; from there
      on no byte is checked, and anything matches. */
  lemma LostIff(u: Unit, f: Flash, good: Image)
    requires Tells(u) && Accepts(u, f)
    ensures (exists steps :: Loses(u, f, good, steps)) <==> APP_SIZE < Asked(f).size < 0x8000_0000
  {
    var size := Asked(f).size;
    if exists steps :: Loses(u, f, good, steps) {
      var steps :| Loses(u, f, good, steps);
      NotLost(u, f, good, steps);
    }
    if APP_SIZE < size < APP_SIZE + 4 {
      var steps := BytesTooMany(u, f, good);
    } else if APP_SIZE + 4 <= size < 0x8000_0000 {
      var steps := WordsTooMany(u, f, good);
    }
  }

  lemma NotLost(u: Unit, f: Flash, good: Image, steps: seq<Step>)
    requires Accepts(u, f) && Loses(u, f, good, steps)
    ensures APP_SIZE < Asked(f).size < 0x8000_0000
  {
    if Asked(f).size <= APP_SIZE { AcceptedSafe(u, Machine(f, Starting, good), steps); }
  }

  /** The loader is about to accept an image, or has kept the invariant since. */
  lemma {:induction false} AcceptedSafe(u: Unit, m: Machine, steps: seq<Step>)
    requires m.pc.Starting? && Accepts(u, m.flash)
    ensures var (ok, r) := Run(u, m, steps); ok && Fitting(r.good) && r.pc.Running? ==> AppOk(u, r.flash, r.good)
    decreases |steps|
  {
    if steps != [] && Enabled(u, m, steps[0]) {
      var next := Next(u, m, steps[0]);
      if steps[0].Reset? { AcceptedSafe(u, next, steps[1..]); } else { CrashSafe(u, next, steps[1..]); }
    }
  }

  // ---------------------------------------------------------------- a word or more too many

  /** The sectors are erased and `n` chunks written without effect, as by a flash that
      fails. */
  function Idle(f: Flash, n: nat): seq<Step> { if n == 0 then [] else [CopyChunk(f)] + Idle(f, n - 1) }

  /** And then the first chunk behind the region, and a reset. */
  function LossRun(f: Flash, after: Flash): seq<Step> {
    [Check, EraseSector(f), EraseSector(f)] + Idle(f, 48) + [CopyChunk(after), Reset, Check]
  }

  lemma RunStep(u: Unit, m: Machine, s: Step, rest: seq<Step>, r: Machine)
    requires Enabled(u, m, s) && r == Next(u, m, s)
    ensures Run(u, m, [s] + rest) == Run(u, r, rest)
  {
    assert ([s] + rest)[1..] == rest;
  }

  lemma {:induction false} IdleRuns(u: Unit, m: Machine, n: nat, rest: seq<Step>, steps: seq<Step>, r: Machine)
    requires m.pc.Copying? && m.pc.done + n * CHUNK < m.pc.size && r == m.(pc := m.pc.(done := m.pc.done + n * CHUNK))
    requires steps == Idle(m.flash, n) + rest
    ensures Run(u, m, steps) == Run(u, r, rest)
    decreases n
  {
    if n == 0 {
      assert steps == rest;
    } else {
      var fewer := Idle(m.flash, n - 1) + rest;
      assert steps == [CopyChunk(m.flash)] + fewer;
      var next := m.(pc := m.pc.(done := m.pc.done + CHUNK));
      IdleStep(u, m, next);
      RunStep(u, m, CopyChunk(m.flash), fewer, next);
      IdleRuns(u, next, n - 1, rest, fewer, r);
    }
  }

  lemma IdleStep(u: Unit, m: Machine, r: Machine)
    requires m.pc.Copying? && m.pc.done + CHUNK < m.pc.size && r == m.(pc := m.pc.(done := m.pc.done + CHUNK))
    ensures Enabled(u, m, CopyChunk(m.flash)) && Next(u, m, CopyChunk(m.flash)) == r
  {
  }

  /** The last byte of the first staged word is overwritten. */
  function Patched(f: Flash, b: Byte): Flash { f[FW_DATA + 3 := b] }

  lemma WordsTooMany(u: Unit, f: Flash, good: Image) returns (steps: seq<Step>)
    requires Tells(u) && Accepts(u, f) && APP_SIZE + 4 <= Asked(f).size < 0x8000_0000
    ensures Loses(u, f, good, steps)
  {
    var b, c := TwoOthers(f[FW_DATA + 3]);
    var size, crc := Asked(f).size, Asked(f).crc;
    AppsDiffer(u, f, b, c, size, crc);
    steps := LostBy(u, f, good, if ImagePasses(u, Patched(f, b), APP, size, crc) then c else b);
  }

  lemma TwoOthers(a: Byte) returns (b: Byte, c: Byte)
    ensures b != a && c != a && b != c
  {
    b, c := if a == 0 then 1 else 0, if a == 2 then 1 else 2;
  }

  lemma LostBy(u: Unit, f: Flash, good: Image, b: Byte) returns (steps: seq<Step>)
    requires Tells(u) && Accepts(u, f) && APP_SIZE + 4 <= Asked(f).size < 0x8000_0000
    requires f[FW_DATA + 3] != b && !ImagePasses(u, Patched(f, b), APP, Asked(f).size, Asked(f).crc)
    ensures Loses(u, f, good, steps)
  {
    Damaged(u, f, b, Asked(f).size, Asked(f).crc);
    LossRuns(u, f, Patched(f, b), good);
    steps := LossRun(f, Patched(f, b));
  }

  lemma Damaged(u: Unit, f: Flash, b: Byte, size: U32, crc: U32)
    requires Tells(u) && 4 <= size < 0x8000_0000 && ImagePasses(u, f, FW_DATA, size, crc) && f[FW_DATA + 3] != b
    ensures !ImagePasses(u, Patched(f, b), FW_DATA, size, crc)
  {
    ByteMatters(u, u.start, f, Patched(f, b), FW_DATA, size, 0, true);
  }

  lemma AppsDiffer(u: Unit, f: Flash, b: Byte, c: Byte, size: U32, crc: U32)
    requires Tells(u) && APP_SIZE + 4 <= size < 0x8000_0000 && b != c
    ensures !(ImagePasses(u, Patched(f, b), APP, size, crc) && ImagePasses(u, Patched(f, c), APP, size, crc))
  {
    ByteMatters(u, u.start, Patched(f, b), Patched(f, c), APP, size, 0xC000, true);
  }

  lemma LossRuns(u: Unit, f: Flash, after: Flash, good: Image)
    requires Accepts(u, f) && APP_SIZE + 4 <= ImageSize(HeaderBytes(f))
    requires after == f[FW_DATA + 3 := after[FW_DATA + 3]]
    requires !ImagePasses(u, after, FW_DATA, ImageSize(HeaderBytes(f)), ImageCrc(HeaderBytes(f)))
    ensures Run(u, Machine(f, Starting, good), LossRun(f, after)) == (true, Machine(after, Running, Asked(f)))
    ensures HeaderBytes(after) == HeaderBytes(f) && !Accepts(u, after)
  {
    var size, crc := ImageSize(HeaderBytes(f)), ImageCrc(HeaderBytes(f));
    var now := Accepted(size, crc);
    var rest := [CopyChunk(after), Reset, Check];
    assert HeaderBytes(after) == HeaderBytes(f);
    var m1, m2 := Machine(f, Erasing(false, size, crc), now), Machine(f, Erasing(true, size, crc), now);
    var m3 := Machine(f, Copying(0, size, crc), now);
    var s3 := Idle(f, 48) + rest;
    var s2 := [EraseSector(f)] + s3;
    var s1 := [EraseSector(f)] + s2;
    assert LossRun(f, after) == [Check] + s1;
    RunStep(u, Machine(f, Starting, good), Check, s1, m1);
    RunStep(u, m1, EraseSector(f), s2, m2);
    RunStep(u, m2, EraseSector(f), s3, m3);
    IdleRuns(u, m3, 48, rest, s3, Machine(f, Copying(APP_SIZE, size, crc), now));
    LastChunk(u, f, after, size, crc, now);
  }

  lemma LastChunk(u: Unit, f: Flash, after: Flash, size: U32, crc: U32, good: Image)
    requires size >= APP_SIZE + 4 && after == f[FW_DATA + 3 := after[FW_DATA + 3]] && !Accepts(u, after)
    ensures Run(u, Machine(f, Copying(APP_SIZE, size, crc), good), [CopyChunk(after), Reset, Check]) ==
            (true, Machine(after, Running, good))
  {
    var m0 := Machine(f, Copying(APP_SIZE, size, crc), good);
    FitsIff(size);
    var high := Clip(APP + WordsEnd(APP_SIZE, size));
    assert f[..FW_DATA] == after[..FW_DATA] && f[high..] == after[high..];
    var m1 := Next(u, m0, CopyChunk(after));
    var m2, m3 := Machine(after, Starting, good), Machine(after, Running, good);
    assert [CopyChunk(after), Reset, Check] == [CopyChunk(after)] + ([Reset] + ([Check] + []));
    RunStep(u, m0, CopyChunk(after), [Reset] + ([Check] + []), m1);
    RunStep(u, m1, Reset, [Check] + [], m2);
    RunStep(u, m2, Check, [], m3);
  }

  // ---------------------------------------------------------------- one to three bytes too many

  // the last word of the application region
  const LAST_WORD: nat := APP + APP_SIZE - 4

  predicate LastOnly(f: Flash, g: Flash) {
    forall i: nat | i < FLASH_SIZE && !(LAST_WORD <= i < LAST_WORD + 4) :: g[i] == f[i]
  }

  function WithLast(f: Flash, b0: Byte, b1: Byte, b2: Byte, b3: Byte): (g: Flash)
    ensures LastOnly(f, g)
  {
    f[LAST_WORD := b0][LAST_WORD + 1 := b1][LAST_WORD + 2 := b2][LAST_WORD + 3 := b3]
  }

  /** Whatever is staged, there is a last word with which the region passes the check of
      an image that ends behind it. */
  lemma SomeApp(u: Unit, f: Flash, size: U32, crc: U32) returns (g: Flash)
    requires Tells(u) && APP_SIZE < size < APP_SIZE + 4
    ensures ImagePasses(u, g, APP, size, crc)
    ensures LastOnly(f, g)
  {
    var before := CrcFrom(u, u.start, f, APP, APP_SIZE - 4, true);
    var tail := Fed(u, f, FW_DATA, size - APP_SIZE, true);
    var state := SomeState(u, tail, crc);
    var w := SomeWord(u, before, state);
    var b3, b2, b1, b0 := Bytes(w);
    g := WithLast(f, b0, b1, b2, b3);
    LastFed(u, f, g, before, state, w, size, crc);
  }

  lemma Bytes(w: U32) returns (b0: Byte, b1: Byte, b2: Byte, b3: Byte)
    ensures WordOf(b0, b1, b2, b3) == w
  {
    var q := w / 0x100;
    var r := q / 0x100;
    b0, b1, b2, b3 := w % 0x100, q % 0x100, r % 0x100, r / 0x100;
  }

  lemma LastFed(u: Unit, f: Flash, g: Flash, before: U32, state: U32, w: U32, size: U32, crc: U32)
    requires APP_SIZE < size < APP_SIZE + 4
    requires before == CrcFrom(u, u.start, f, APP, APP_SIZE - 4, true)
    requires LastOnly(f, g)
    requires Fed(u, g, LAST_WORD, 4, true) == w && u.feed(before, w) == state
    requires u.feed(state, Fed(u, f, FW_DATA, size - APP_SIZE, true)) == crc
    ensures ImagePasses(u, g, APP, size, crc)
  {
    var whole: nat := 0x2FFFC;
    assert RoundUp(whole) == whole && APP + whole == LAST_WORD && LAST_WORD + 4 == FW_DATA;
    forall i | 0 <= i < whole ensures Peek(u, f, APP, i) == Peek(u, g, APP, i) { assert g[APP + i] == f[APP + i]; }
    CrcSame(u, u.start, f, APP, g, APP, whole, true);
    forall i | 0 <= i < 4 ensures Peek(u, f, FW_DATA, i) == Peek(u, g, FW_DATA, i) { assert g[FW_DATA + i] == f[FW_DATA + i]; }
    SameFed(u, f, FW_DATA, g, FW_DATA, size - APP_SIZE, true);
    CrcSplit(u, u.start, g, APP, whole, size - whole, true);
  }

  /** The second erase leaves the right word, nothing else changes, and the application
      then writes in the staging area. */
  function TailRun(f: Flash, g: Flash, after: Flash): seq<Step> {
    [Check, EraseSector(f), EraseSector(g)] + Idle(g, 48) + [CopyChunk(g), CheckApp, Mark(g, true), AppWrites(after)]
  }

  lemma BytesTooMany(u: Unit, f: Flash, good: Image) returns (steps: seq<Step>)
    requires Tells(u) && Accepts(u, f) && APP_SIZE < Asked(f).size < APP_SIZE + 4
    ensures Loses(u, f, good, steps)
  {
    var size, crc := Asked(f).size, Asked(f).crc;
    var g := SomeApp(u, f, size, crc);
    steps := TailLoses(u, f, g, good, size, crc);
  }

  lemma TailLoses(u: Unit, f: Flash, g: Flash, good: Image, size: U32, crc: U32) returns (steps: seq<Step>)
    requires Tells(u) && Accepts(u, f) && APP_SIZE < size < APP_SIZE + 4 && Asked(f) == Accepted(size, crc)
    requires LastOnly(f, g) && ImagePasses(u, g, APP, size, crc)
    ensures Loses(u, f, good, steps)
  {
    var b, _ := TwoOthers(g[FW_DATA + 3]);
    var after := Patched(g, b);
    steps := TailRun(f, g, after);
    StagedSame(u, f, g, size, crc);
    Damaged(u, g, b, size, crc);
    AppDamaged(u, g, b, size, crc);
    TailRuns(u, f, g, after, size, crc, good);
    assert HeaderBytes(after) == HeaderBytes(g);
    Lost(u, f, good, steps, after);
  }

  lemma AppDamaged(u: Unit, g: Flash, b: Byte, size: U32, crc: U32)
    requires Tells(u) && APP_SIZE < size < APP_SIZE + 4 && ImagePasses(u, g, APP, size, crc) && g[FW_DATA + 3] != b
    ensures !ImagePasses(u, Patched(g, b), APP, size, crc)
  {
    ByteMatters(u, u.start, g, Patched(g, b), APP, size, 0xC000, true);
  }

  lemma Lost(u: Unit, f: Flash, good: Image, steps: seq<Step>, after: Flash)
    requires Run(u, Machine(f, Starting, good), steps) == (true, Machine(after, Running, Asked(f)))
    requires HeaderBytes(after) == HeaderBytes(f)
    requires !ImagePasses(u, after, APP, Asked(f).size, Asked(f).crc) && !ImagePasses(u, after, FW_DATA, Asked(f).size, Asked(f).crc)
    ensures Loses(u, f, good, steps)
  {
  }

  lemma StagedSame(u: Unit, f: Flash, g: Flash, size: U32, crc: U32)
    requires ImagePasses(u, f, FW_DATA, size, crc) && size < APP_SIZE + 4
    requires LastOnly(f, g)
    ensures ImagePasses(u, g, FW_DATA, size, crc) && HeaderBytes(g) == HeaderBytes(f)
  {
    assert RoundUp(size) <= APP_SIZE + 4;
    forall i | 0 <= i < RoundUp(size) ensures Peek(u, f, FW_DATA, i) == Peek(u, g, FW_DATA, i) {
      if FW_DATA + i < FLASH_SIZE { assert g[FW_DATA + i] == f[FW_DATA + i]; }
    }
    CrcSame(u, u.start, f, FW_DATA, g, FW_DATA, size, true);
  }

  lemma TailRuns(u: Unit, f: Flash, g: Flash, after: Flash, size: U32, crc: U32, good: Image)
    requires Accepts(u, f) && APP_SIZE < size < APP_SIZE + 4 && Asked(f) == Accepted(size, crc) && LastOnly(f, g)
    requires ImagePasses(u, g, APP, size, crc) && after == Patched(g, after[FW_DATA + 3])
    ensures Run(u, Machine(f, Starting, good), TailRun(f, g, after)) == (true, Machine(after, Running, Asked(f)))
  {
    var now := Asked(f);
    var rest := [CopyChunk(g), CheckApp, Mark(g, true), AppWrites(after)];
    var s3 := Idle(g, 48) + rest;
    TailErases(u, f, g, s3, size, crc, good);
    TailCopies(u, g, rest, s3, size, crc, now);
    AfterCopy(u, g, after, size, crc, now);
    TailIs(f, g, after, s3);
  }

  lemma TailIs(f: Flash, g: Flash, after: Flash, s3: seq<Step>)
    requires s3 == Idle(g, 48) + [CopyChunk(g), CheckApp, Mark(g, true), AppWrites(after)]
    ensures TailRun(f, g, after) == [Check] + ([EraseSector(f)] + ([EraseSector(g)] + s3))
  {
  }

  lemma TailCopies(u: Unit, g: Flash, rest: seq<Step>, steps: seq<Step>, size: U32, crc: U32, good: Image)
    requires APP_SIZE < size && steps == Idle(g, 48) + rest
    ensures Run(u, Machine(g, Copying(0, size, crc), good), steps) == Run(u, Machine(g, Copying(APP_SIZE, size, crc), good), rest)
  {
    IdleRuns(u, Machine(g, Copying(0, size, crc), good), 48, rest, steps, Machine(g, Copying(APP_SIZE, size, crc), good));
  }

  lemma TailErases(u: Unit, f: Flash, g: Flash, rest: seq<Step>, size: U32, crc: U32, good: Image)
    requires Accepts(u, f) && Asked(f) == Accepted(size, crc) && LastOnly(f, g)
    ensures Run(u, Machine(f, Starting, good), [Check] + ([EraseSector(f)] + ([EraseSector(g)] + rest))) ==
            Run(u, Machine(g, Copying(0, size, crc), Asked(f)), rest)
  {
    var now := Asked(f);
    var m1, m2 := Machine(f, Erasing(false, size, crc), now), Machine(f, Erasing(true, size, crc), now);
    var s2 := [EraseSector(g)] + rest;
    RunStep(u, Machine(f, Starting, good), Check, [EraseSector(f)] + s2, m1);
    RunStep(u, m1, EraseSector(f), s2, m2);
    assert Only(f, g, APP_SECTOR_2, APP + APP_SIZE);
    RunStep(u, m2, EraseSector(g), rest, Machine(g, Copying(0, size, crc), now));
  }

  lemma AfterCopy(u: Unit, g: Flash, after: Flash, size: U32, crc: U32, good: Image)
    requires APP_SIZE < size < APP_SIZE + 4 && ImagePasses(u, g, APP, size, crc) && after == Patched(g, after[FW_DATA + 3])
    ensures Run(u, Machine(g, Copying(APP_SIZE, size, crc), good), [CopyChunk(g), CheckApp, Mark(g, true), AppWrites(after)]) ==
            (true, Machine(after, Running, good))
  {
    var m0, m1 := Machine(g, Copying(APP_SIZE, size, crc), good), Machine(g, Checking(size, crc), good);
    var m2, m3 := Machine(g, Marking, good), Machine(g, Running, good);
    var s3 := [AppWrites(after)] + [];
    var s2 := [Mark(g, true)] + s3;
    var s1 := [CheckApp] + s2;
    assert [CopyChunk(g), CheckApp, Mark(g, true), AppWrites(after)] == [CopyChunk(g)] + s1;
    RunStep(u, m0, CopyChunk(g), s1, m1);
    RunStep(u, m1, CheckApp, s2, m2);
    RunStep(u, m2, Mark(g, true), s3, m3);
    assert g[APP..APP + APP_SIZE] == after[APP..APP + APP_SIZE];
    RunStep(u, m3, AppWrites(after), [], Machine(after, Running, good));
  }
}
