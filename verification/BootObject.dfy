/** The boot loader's upgrade routine over a flash that works: two sectors are erased, the
    image is copied chunk by chunk, checked, and its header marked.  Proved: what the copy
    leaves, exactly; when the check passes, exactly; and that the two are not the same for
    an image whose size is no multiple of four.  Such an image can be marked as installed
    with its last bytes missing, and one that is not is copied again after every reset. */
module BootObjects {
  import opened Common
  import opened CrcUnits
  import opened Boots

  const BLANK: Byte := 0xFF

  function Whole(size: nat): nat { size - size % 4 }

  /** The application region after a copy: the whole words of the image, and blank. */
  ghost predicate Copied(f: Flash, after: Flash, size: nat)
    requires size <= APP_SIZE
  {
    forall i | APP <= i < APP + APP_SIZE :: after[i] == if i < APP + Whole(size) then f[i + APP_SIZE] else BLANK
  }

  /** What one pass through the routine does; it ends in a reset if the outcome is to
      retry. */
  ghost predicate Upgrades(u: Unit, f: Flash, outcome: Outcome, after: Flash)
    requires Accepts(u, f) ==> ImageSize(HeaderBytes(f)) <= APP_SIZE
  {
    if !Accepts(u, f) then outcome.NothingToDo? && after == f
    else
      var h := HeaderBytes(f);
      && Copied(f, after, ImageSize(h))
      && after[APP + APP_SIZE..] == f[APP + APP_SIZE..] && after[FW_INFO + PAGE..APP] == f[FW_INFO + PAGE..APP]
      && outcome == (if ImagePasses(u, after, APP, ImageSize(h), ImageCrc(h)) then Finished else Retry)
      && HeaderBytes(after) == (if outcome.Finished? then h[15 := FINISHED] else h)
  }

  datatype Outcome = NothingToDo | Finished | Retry

  class BootLoader {
    const flash: array<Byte>

    ghost predicate Valid() { flash.Length == FLASH_SIZE }

    constructor (contents: Flash)
      ensures Valid() && fresh(flash) && flash[..] == contents
    {
      flash := new Byte[FLASH_SIZE](i requires 0 <= i < FLASH_SIZE => contents[i]);
    }

    method SectorErase(low: nat, high: nat)
      requires Valid() && low <= high <= FLASH_SIZE
      modifies flash
      ensures forall i | 0 <= i < FLASH_SIZE :: flash[i] == if low <= i < high then BLANK else old(flash[i])
    {
      forall i | low <= i < high { flash[i] := BLANK; }
    }

    /** Programs the whole words of a buffer; an incomplete one at the end is left out. */
    method WriteByWord(addr: nat, buff: seq<Byte>)
      requires Valid() && addr + |buff| <= FLASH_SIZE
      modifies flash
      ensures forall i | 0 <= i < FLASH_SIZE ::
                flash[i] == if addr <= i < addr + |buff| - |buff| % 4 then buff[i - addr] else old(flash[i])
    {
      var words := |buff| / 4;
      var n := 0;
      while n < words
        invariant 0 <= n <= words
        invariant forall i | 0 <= i < FLASH_SIZE ::
                    flash[i] == if addr <= i < addr + 4 * n then buff[i - addr] else old(flash[i])
      {
        var at := addr + 4 * n;
        flash[at], flash[at + 1], flash[at + 2], flash[at + 3] := buff[4 * n], buff[4 * n + 1], buff[4 * n + 2], buff[4 * n + 3];
        n := n + 1;
      }
    }

    /** Copies the staged image to the erased region in chunks. */
    method CopyImage(size: nat)
      requires Valid() && size <= APP_SIZE
      requires forall i | APP <= i < APP + APP_SIZE :: flash[i] == BLANK
      modifies flash
      ensures Copied(old(flash[..]), flash[..], size)
      ensures Only(old(flash[..]), flash[..], APP, APP + APP_SIZE)
    {
      var imgAddr, appAddr, len := FW_DATA, APP, size;
      while len != 0
        invariant 0 <= len <= size && imgAddr == FW_DATA + (size - len) && appAddr == APP + (size - len)
        invariant len == 0 || (size - len) % 4 == 0
        invariant forall i | 0 <= i < FLASH_SIZE && !(APP <= i < APP + size) :: flash[i] == old(flash[i])
        invariant forall i | APP <= i < appAddr :: flash[i] == if i < APP + Whole(size) then old(flash[i + APP_SIZE]) else BLANK
        invariant forall i | appAddr <= i < APP + size :: flash[i] == BLANK
        decreases len
      {
        var n := if len < CHUNK then len else CHUNK;
        var buffer := flash[imgAddr..imgAddr + n];
        WholeWords(size - len, n, size);
        assert forall k | 0 <= k < n :: buffer[k] == old(flash[..])[imgAddr + k];
        WriteByWord(appAddr, buffer);
        imgAddr := imgAddr + n;
        appAddr := appAddr + n;
        len := len - n;
      }
    }

    /** Only the last chunk can end in an incomplete word. */
    static lemma WholeWords(done: nat, n: nat, size: nat)
      requires done % 4 == 0 && done + n <= size && (n == CHUNK || done + n == size)
      ensures done + n < size ==> n % 4 == 0 && (done + n) % 4 == 0 && done + n <= size - size % 4
      ensures done + n == size ==> done + n - n % 4 == size - size % 4
    {
    }

    /** Erases the page of the header and writes the header back, with a new status. */
    method MarkFinished()
      requires Valid()
      modifies flash
      ensures Only(old(flash[..]), flash[..], FW_INFO, FW_INFO + PAGE)
      ensures HeaderBytes(flash[..]) == old(HeaderBytes(flash[..]))[15 := FINISHED]
    {
      var header := flash[FW_INFO..FW_INFO + HEADER_SIZE];
      header := header[15 := FINISHED];
      SectorErase(FW_INFO, FW_INFO + PAGE);
      WriteByWord(FW_INFO, header);
      forall k | 0 <= k < HEADER_SIZE ensures HeaderBytes(flash[..])[k] == header[k] { }
    }

    /** The whole routine. */
    method Upgrade(u: Unit) returns (outcome: Outcome)
      requires Valid() && (Accepts(u, flash[..]) ==> ImageSize(HeaderBytes(flash[..])) <= APP_SIZE)
      modifies flash
      ensures Upgrades(u, old(flash[..]), outcome, flash[..])
    {
      var h := flash[FW_INFO..FW_INFO + HEADER_SIZE];
      var size := ImageSize(h);
      var check := CalculateCrc32(u, h, 0, 28, false);
      if check != HeaderCrc(h) { return NothingToDo; }
      if size == 0 { return NothingToDo; }
      if Status(h) != CHECK_PASS { return NothingToDo; }
      check := CalculateCrc32(u, flash[..], FW_DATA, size, true);
      if check != ImageCrc(h) { return NothingToDo; }
      Install(size);
      check := CalculateCrc32(u, flash[..], APP, size, true);
      if check == ImageCrc(h) {
        outcome := Finished;
        ghost var copied := flash[..];
        MarkFinished();
        MarkedElsewhere(u, old(flash[..]), copied, flash[..], size, ImageCrc(h));
      } else {
        outcome := Retry;
      }
    }

    /** Erases the application's two sectors and copies the staged image there. */
    method Install(size: nat)
      requires Valid() && size <= APP_SIZE
      modifies flash
      ensures Copied(old(flash[..]), flash[..], size)
      ensures flash[APP + APP_SIZE..] == old(flash[APP + APP_SIZE..]) && flash[..APP] == old(flash[..APP])
      ensures flash[FW_INFO + PAGE..APP] == old(flash[FW_INFO + PAGE..APP])
      ensures HeaderBytes(flash[..]) == old(HeaderBytes(flash[..]))
    {
      SectorErase(APP, APP_SECTOR_2);
      SectorErase(APP_SECTOR_2, APP + APP_SIZE);
      CopyImage(size);
    }
  }

  /** Marking the header changes neither the application nor anything behind its page. */
  lemma MarkedElsewhere(u: Unit, f: Flash, copied: Flash, after: Flash, size: U32, crc: U32)
    requires Only(copied, after, FW_INFO, FW_INFO + PAGE) && size <= APP_SIZE && Copied(f, copied, size)
    ensures Copied(f, after, size) && after[APP + APP_SIZE..] == copied[APP + APP_SIZE..]
    ensures after[FW_INFO + PAGE..APP] == copied[FW_INFO + PAGE..APP]
    ensures ImagePasses(u, after, APP, size, crc) <==> ImagePasses(u, copied, APP, size, crc)
  {
    Untouched(copied, after, FW_INFO, FW_INFO + PAGE, FW_INFO + PAGE, APP);
    Untouched(copied, after, FW_INFO, FW_INFO + PAGE, APP + APP_SIZE, FLASH_SIZE);
    Untouched(copied, after, FW_INFO, FW_INFO + PAGE, APP, APP + APP_SIZE);
    forall i | APP <= i < APP + APP_SIZE ensures after[i] == copied[i] {
      assert after[i] == after[APP..APP + APP_SIZE][i - APP] && copied[i] == copied[APP..APP + APP_SIZE][i - APP];
    }
    RoundFits(size);
    Untouched(copied, after, FW_INFO, FW_INFO + PAGE, APP, APP + RoundUp(size));
    ImageKept(u, copied, after, APP, size, crc);
  }

  // ---------------------------------------------------------------- what the outcomes mean

  function StagedTail(size: nat): nat { FW_DATA + Whole(size) }

  function AppTail(size: nat): nat { APP + Whole(size) }

  /** The bytes of the image behind its last whole word are blank. */
  predicate TailBlank(f: Flash, size: nat)
    requires size <= APP_SIZE
  {
    forall i | StagedTail(size) <= i < FW_DATA + size :: f[i] == BLANK
  }

  /** The region holds the image that is staged. */
  predicate Exact(f: Flash, after: Flash, size: nat)
    requires size <= APP_SIZE
  {
    after[APP..APP + size] == f[FW_DATA..FW_DATA + size]
  }

  /** The copy is exact if and only if the bytes behind the last whole word are blank; so
      it is for every image of whole words. */
  lemma CopyExactIff(f: Flash, after: Flash, size: nat)
    requires size <= APP_SIZE && Copied(f, after, size)
    ensures Exact(f, after, size) <==> TailBlank(f, size)
  {
    if Exact(f, after, size) {
      forall i | StagedTail(size) <= i < FW_DATA + size ensures f[i] == BLANK {
        assert after[i - APP_SIZE] == after[APP..APP + size][i - FW_DATA] == f[FW_DATA..FW_DATA + size][i - FW_DATA];
      }
    }
    if TailBlank(f, size) {
      var now, was := after[APP..APP + size], f[FW_DATA..FW_DATA + size];
      forall i | 0 <= i < size ensures now[i] == was[i] {
        assert after[APP + i] == f[APP + i + APP_SIZE];
      }
    }
  }

  /** What the CRC sees of an incomplete last word: as many bytes as are left, but those
      that END the word. */
  ghost predicate SeesBlank(u: Unit, f: Flash, size: nat) {
    size % 4 != 0 ==> forall i | 4 - size % 4 <= i < 4 :: Peek(u, f, StagedTail(size), i) == BLANK
  }

  /** The CRC of an image in two parts. */
  lemma CrcIs(u: Unit, f: Flash, at: nat, size: U32, state: U32)
    requires size < 0x8000_0000 && state == CrcFrom(u, u.start, f, at, Whole(size), true)
    ensures size % 4 == 0 ==> Crc32(u, f, at, size, true) == state
    ensures size % 4 != 0 ==> Crc32(u, f, at, size, true) == u.feed(state, Fed(u, f, at + Whole(size), size % 4, true))
  {
    CrcSplit(u, u.start, f, at, Whole(size), size % 4, true);
  }

  /** What is fed last, of the staged image and of its copy. */
  lemma LastFed(u: Unit, f: Flash, after: Flash, size: nat)
    requires size <= APP_SIZE && size % 4 != 0 && Copied(f, after, size)
    ensures Fed(u, f, StagedTail(size), size % 4, true) == Fed(u, after, AppTail(size), size % 4, true) <==> SeesBlank(u, f, size)
  {
    FedIff(u, f, StagedTail(size), after, AppTail(size), size % 4, true);
    BlankPart(u, f, after, size);
  }

  /** Staged image and copy have one CRC if the bytes that it sees of an incomplete last
      word are blank; and otherwise they differ, if the unit tells words apart. */
  lemma CheckPassesIff(u: Unit, f: Flash, after: Flash, size: U32, crc: U32)
    requires size <= APP_SIZE && Copied(f, after, size) && ImagePasses(u, f, FW_DATA, size, crc)
    ensures SeesBlank(u, f, size) ==> ImagePasses(u, after, APP, size, crc)
    ensures Tells(u) && ImagePasses(u, after, APP, size, crc) ==> SeesBlank(u, f, size)
  {
    var state := CrcFrom(u, u.start, f, FW_DATA, Whole(size), true);
    WholePart(u, f, after, size);
    CrcIs(u, f, FW_DATA, size, state);
    CrcIs(u, after, APP, size, state);
    if size % 4 != 0 {
      LastFed(u, f, after, size);
      FeedIff(u, state, Fed(u, f, StagedTail(size), size % 4, true), Fed(u, after, AppTail(size), size % 4, true), crc,
              Crc32(u, after, APP, size, true));
    }
  }

  lemma FeedIff(u: Unit, state: U32, v: U32, w: U32, a: U32, b: U32)
    requires a == u.feed(state, v) && b == u.feed(state, w)
    ensures v == w ==> a == b
    ensures Tells(u) && a == b ==> v == w
  {
  }

  lemma WholePart(u: Unit, f: Flash, after: Flash, size: nat)
    requires size <= APP_SIZE && Copied(f, after, size)
    ensures CrcFrom(u, u.start, f, FW_DATA, Whole(size), true) == CrcFrom(u, u.start, after, APP, Whole(size), true)
  {
    forall i | 0 <= i < RoundUp(Whole(size)) ensures Peek(u, f, FW_DATA, i) == Peek(u, after, APP, i) {
      assert after[APP + i] == f[APP + i + APP_SIZE];
    }
    CrcSame(u, u.start, f, FW_DATA, after, APP, Whole(size), true);
  }

  lemma BlankPart(u: Unit, f: Flash, after: Flash, size: nat)
    requires size <= APP_SIZE && size % 4 != 0 && Copied(f, after, size)
    ensures forall i | 0 <= i < 4 :: Peek(u, after, AppTail(size), i) == BLANK
  {
  }

  /** When the routine reports success: if and only if the bytes that the CRC sees of an
      incomplete last word are blank. */
  lemma FinishedIff(u: Unit, f: Flash, outcome: Outcome, after: Flash)
    requires Accepts(u, f) && ImageSize(HeaderBytes(f)) <= APP_SIZE && Upgrades(u, f, outcome, after)
    ensures Tells(u) ==> (outcome.Finished? <==> SeesBlank(u, f, ImageSize(HeaderBytes(f))))
    ensures SeesBlank(u, f, ImageSize(HeaderBytes(f))) ==> outcome.Finished?
  {
    CheckPassesIff(u, f, after, ImageSize(HeaderBytes(f)), ImageCrc(HeaderBytes(f)));
  }

  /** What it reports can be wrong both ways: success for an image with bytes missing, and
      failure for one that is complete.  Neither happens to an image of whole words. */
  lemma ReportTrueIff(u: Unit, f: Flash, outcome: Outcome, after: Flash, size: U32)
    requires Tells(u) && Accepts(u, f) && size == ImageSize(HeaderBytes(f)) <= APP_SIZE && Upgrades(u, f, outcome, after)
    ensures outcome.Finished? && !Exact(f, after, size) <==> SeesBlank(u, f, size) && !TailBlank(f, size)
    ensures !outcome.Finished? && Exact(f, after, size) <==> !SeesBlank(u, f, size) && TailBlank(f, size)
    ensures size % 4 == 0 ==> outcome.Finished? && Exact(f, after, size)
  {
    FinishedIff(u, f, outcome, after);
    CopyExactIff(f, after, size);
  }

  /** A pass that fails leaves everything as it takes to fail again: once, and so for
      ever. */
  lemma RetriesForEver(u: Unit, f: Flash, after: Flash, outcome: Outcome, later: Flash)
    requires Accepts(u, f) && ImageSize(HeaderBytes(f)) <= APP_SIZE && Upgrades(u, f, Retry, after)
    ensures Accepts(u, after) && HeaderBytes(after) == HeaderBytes(f)
    ensures Upgrades(u, after, outcome, later) ==> outcome == Retry
  {
    var size, crc := ImageSize(HeaderBytes(f)), ImageCrc(HeaderBytes(f));
    RoundFits(size);
    SliceOfDrop(f, APP + APP_SIZE, FW_DATA, FW_DATA + RoundUp(size));
    SliceOfDrop(after, APP + APP_SIZE, FW_DATA, FW_DATA + RoundUp(size));
    ImageKept(u, f, after, FW_DATA, size, crc);
    if Upgrades(u, after, outcome, later) {
      forall i | APP <= i < APP + APP_SIZE ensures later[i] == after[i] {
        assert f[APP + APP_SIZE..][i - APP] == after[APP + APP_SIZE..][i - APP];
      }
      assert later[APP..APP + RoundUp(size)] == after[APP..APP + RoundUp(size)];
      ImageKept(u, after, later, APP, size, crc);
    }
  }

  // ---------------------------------------------------------------- an image of five bytes

  function Bytes(w: U32): (s: seq<Byte>)
    ensures |s| == 4
  {
    [w % 0x100, w / 0x100 % 0x100, w / 0x100 / 0x100 % 0x100, w / 0x100 / 0x100 / 0x100]
  }

  lemma BytesWord(w: U32)
    ensures Word(Bytes(w), 0) == w
  {
    var a := w / 0x100;
    var b := a / 0x100;
    assert w == w % 0x100 + 0x100 * a && a == a % 0x100 + 0x100 * b && b == b % 0x100 + 0x100 * (b / 0x100);
  }

  lemma WordInside(h: seq<Byte>, at: nat, w: U32)
    requires at + 4 <= |h| && h[at..at + 4] == Bytes(w)
    ensures Word(h, at) == w
  {
    BytesWord(w);
    var s := h[at..at + 4];
    assert s[0] == h[at] && s[1] == h[at + 1] && s[2] == h[at + 2] && s[3] == h[at + 3];
  }

  /** Five zero bytes staged in an otherwise blank flash. */
  function FiveStaged(): Flash { seq(FLASH_SIZE, i => if FW_DATA <= i < FW_DATA + 5 then 0 else BLANK) }

  /** The first 28 bytes of its header. */
  function FiveHead(u: Unit): (s: seq<Byte>)
    ensures |s| == 28
  {
    [0, 0, 0] + Bytes(5) + [0, 0, 0, 0] + Bytes(Crc32(u, FiveStaged(), FW_DATA, 5, true)) + [CHECK_PASS] + seq(12, _ => 0)
  }

  function FiveHeader(u: Unit): (s: seq<Byte>)
    ensures |s| == HEADER_SIZE
  {
    FiveHead(u) + Bytes(Crc32(u, FiveHead(u), 0, 28, false))
  }

  function FiveFlash(u: Unit): Flash {
    FiveStaged()[..FW_INFO] + FiveHeader(u) + FiveStaged()[FW_INFO + HEADER_SIZE..]
  }

  lemma FiveFields(u: Unit, h: seq<Byte>)
    requires h == FiveHeader(u)
    ensures h[..28] == FiveHead(u) && ImageSize(h) == 5 && Status(h) == CHECK_PASS
    ensures ImageCrc(h) == Crc32(u, FiveStaged(), FW_DATA, 5, true) && HeaderCrc(h) == Crc32(u, FiveHead(u), 0, 28, false)
  {
    assert h[3..7] == Bytes(5);
    WordInside(h, 3, 5);
    assert h[11..15] == Bytes(Crc32(u, FiveStaged(), FW_DATA, 5, true));
    WordInside(h, 11, Crc32(u, FiveStaged(), FW_DATA, 5, true));
    assert h[28..32] == Bytes(Crc32(u, FiveHead(u), 0, 28, false));
    WordInside(h, 28, Crc32(u, FiveHead(u), 0, 28, false));
  }

  lemma FivePlaced(u: Unit, f: Flash)
    requires f == FiveFlash(u)
    ensures HeaderBytes(f) == FiveHeader(u)
    ensures f[FW_DATA..FW_DATA + 8] == FiveStaged()[FW_DATA..FW_DATA + 8] == [0, 0, 0, 0, 0, BLANK, BLANK, BLANK]
  {
  }

  lemma FiveAccepted(u: Unit, f: Flash)
    requires f == FiveFlash(u)
    ensures ImageSize(HeaderBytes(f)) == 5 && Accepts(u, f) && f[FW_DATA + 4] == 0 && SeesBlank(u, f, 5)
  {
    FivePlaced(u, f);
    FiveFields(u, HeaderBytes(f));
    HeadSame(u, HeaderBytes(f), FiveHead(u));
    FiveImage(u, FiveStaged(), f, ImageCrc(HeaderBytes(f)));
  }

  lemma FiveImage(u: Unit, g: Flash, f: Flash, crc: U32)
    requires f[FW_DATA..FW_DATA + 8] == g[FW_DATA..FW_DATA + 8] == [0, 0, 0, 0, 0, BLANK, BLANK, BLANK]
    requires crc == Crc32(u, g, FW_DATA, 5, true)
    ensures ImagePasses(u, f, FW_DATA, 5, crc) && f[FW_DATA + 4] == 0 && SeesBlank(u, f, 5)
  {
    ImageKept(u, g, f, FW_DATA, 5, crc);
    assert f[FW_DATA + 4] == f[FW_DATA..FW_DATA + 8][4] && f[FW_DATA + 7] == f[FW_DATA..FW_DATA + 8][7];
  }

  lemma HeadSame(u: Unit, h: seq<Byte>, head: seq<Byte>)
    requires |h| == HEADER_SIZE && |head| == 28 && h[..28] == head
    ensures Crc32(u, h, 0, 28, false) == Crc32(u, head, 0, 28, false)
  {
    forall i | 0 <= i < 28 ensures Peek(u, h, 0, i) == Peek(u, head, 0, i) { assert h[..28][i] == head[i]; }
    CrcSame(u, u.start, h, 0, head, 0, 28, false);
  }

  /** Success is reported and the last byte is missing, whatever the CRC. */
  lemma LastByteMissing(u: Unit)
    ensures Accepts(u, FiveFlash(u)) && ImageSize(HeaderBytes(FiveFlash(u))) == 5 && FiveFlash(u)[FW_DATA + 4] == 0
    ensures forall outcome, after | Upgrades(u, FiveFlash(u), outcome, after) :: outcome.Finished? && after[APP + 4] == BLANK
  {
    FiveAccepted(u, FiveFlash(u));
    forall outcome, after | Upgrades(u, FiveFlash(u), outcome, after) ensures outcome.Finished? && after[APP + 4] == BLANK {
      FinishedIff(u, FiveFlash(u), outcome, after);
    }
  }
}
