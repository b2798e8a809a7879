/** Writing to a serial flash chip.  The chip erases whole sectors to ones and programs
    pages by clearing bits; a write of any length at any offset reads each sector that it
    covers in part, changes it in memory, erases it and programs it again.  Proved: seen
    from outside this is a plain store of bytes; and when the chip fails, what the write
    reports is safely stored and only one more sector can have suffered. */
module SerialFlashes {
  import opened Common

  const SECTOR: nat := 4096
  const PAGE: nat := 256
  const PAGES: nat := 16
  /** The operations that it takes to store one sector: an erase, and its pages. */
  const OPS: nat := 17

  type Cell = bv8
  const BLANK: Cell := 0xFF

  /** Programming can only clear bits; on a blank cell it stores what it is given. */
  lemma ProgramBlank(x: Cell)
    ensures BLANK & x == x
  {
  }

  function Programmed(old_: seq<Cell>, data: seq<Cell>): (s: seq<Cell>)
    requires |old_| == |data|
    ensures |s| == |data|
  {
    seq(|data|, i requires 0 <= i < |data| => old_[i] & data[i])
  }

  lemma ProgrammedBlank(old_: seq<Cell>, data: seq<Cell>)
    requires |old_| == |data| && forall i | 0 <= i < |old_| :: old_[i] == BLANK
    ensures Programmed(old_, data) == data
  {
    forall i | 0 <= i < |data| ensures Programmed(old_, data)[i] == data[i] { ProgramBlank(data[i]); }
  }

  /** Whether a number of bytes is a whole number of sectors. */
  predicate Whole(n: nat) { n == 0 || (n >= SECTOR && Whole(n - SECTOR)) }

  /** The start of the sector that holds an address. */
  function SectorOf(addr: nat): (sect: nat)
    ensures Whole(sect) && sect <= addr < sect + SECTOR
  {
    if addr < SECTOR then 0 else SECTOR + SectorOf(addr - SECTOR)
  }

  /** That is what masking out the low bits of the address gives. */
  lemma {:induction false} SectorMasks(addr: nat)
    ensures SectorOf(addr) == addr - addr % 4096
  {
    if addr >= SECTOR { SectorMasks(addr - SECTOR); }
  }

  /** The sector that holds an address of the chip lies in the chip. */
  lemma {:induction false} SectorFits(sect: nat, off: nat, length: nat)
    requires Whole(sect) && Whole(length) && off < SECTOR && sect + off < length
    ensures sect + SECTOR <= length && SectorOf(sect + off) == sect
  {
    if sect > 0 { SectorFits(sect - SECTOR, off, length - SECTOR); }
  }

  /** Nothing has changed outside a range. */
  predicate Only(before: seq<Cell>, after: seq<Cell>, low: nat, high: nat) {
    |after| == |before| && forall i | 0 <= i < |before| && !(low <= i < high) :: after[i] == before[i]
  }

  /** The bytes from `at` on are `data`. */
  predicate Stored(cells: seq<Cell>, at: nat, data: seq<Cell>) {
    at + |data| <= |cells| && forall i | at <= i < at + |data| :: cells[i] == data[i - at]
  }

  /** Nothing has changed outside a range but the sector that holds the address behind it. */
  predicate OneSectorApart(before: seq<Cell>, after: seq<Cell>, low: nat, high: nat) {
    && |after| == |before|
    && forall i | 0 <= i < |before| && !(low <= i < high) && !(SectorOf(high) <= i < SectorOf(high) + SECTOR) ::
         after[i] == before[i]
  }

  /** A plain store of bytes with some of them replaced. */
  function Overlaid(cells: seq<Cell>, at: nat, data: seq<Cell>): seq<Cell>
    requires at + |data| <= |cells|
  {
    cells[..at] + data + cells[at + |data|..]
  }

  lemma OverlaidIs(before: seq<Cell>, after: seq<Cell>, at: nat, data: seq<Cell>)
    requires at + |data| <= |before| && Only(before, after, at, at + |data|) && Stored(after, at, data)
    ensures after == Overlaid(before, at, data)
  {
  }

  /** The first `done` bytes have been stored, and nothing else. */
  predicate Advanced(before: seq<Cell>, after: seq<Cell>, at: nat, data: seq<Cell>, done: nat) {
    done <= |data| && Only(before, after, at, at + done) && Stored(after, at, data[..done])
  }

  // ---------------------------------------------------------------- choosing a chip

  function Total(sizes: seq<nat>): nat { if sizes == [] then 0 else sizes[0] + Total(sizes[1..]) }

  /** Goes through the chips until the address lies in one. */
  method FindChip(sizes: seq<nat>, addr: nat) returns (chip: nat, local: nat)
    requires addr < Total(sizes)
    ensures chip < |sizes| && local < sizes[chip] && addr == Total(sizes[..chip]) + local
  {
    chip, local := 0, addr;
    assert sizes[0..] == sizes;
    while local >= sizes[chip]
      invariant chip < |sizes| && addr == Total(sizes[..chip]) + local && local < Total(sizes[chip..])
      decreases |sizes| - chip
    {
      local := local - sizes[chip];
      TotalStep(sizes, chip);
      chip := chip + 1;
    }
  }

  lemma {:induction false} TotalStep(sizes: seq<nat>, k: nat)
    requires k < |sizes|
    ensures Total(sizes[..k + 1]) == Total(sizes[..k]) + sizes[k] && Total(sizes[k..]) == sizes[k] + Total(sizes[k + 1..])
    ensures sizes[k + 1..] == [] ==> Total(sizes[k..]) == sizes[k]
  {
    assert sizes[k..][1..] == sizes[k + 1..];
    TotalAppend(sizes[..k], [sizes[k]]);
    assert sizes[..k] + [sizes[k]] == sizes[..k + 1];
    assert [sizes[k]][1..] == [];
  }

  lemma {:induction false} TotalAppend(a: seq<nat>, b: seq<nat>)
    ensures Total(a + b) == Total(a) + Total(b)
  {
    if a == [] {
      assert a + b == b;
    } else {
      assert (a + b)[1..] == a[1..] + b;
      TotalAppend(a[1..], b);
    }
  }

  // ---------------------------------------------------------------- one chip

  /** How many operations it takes to store `len` bytes that begin at an offset in a
      sector. */
  function OpsFrom(off: nat, len: nat): nat
    requires off < SECTOR
    decreases len
  {
    if len == 0 then 0 else if len <= SECTOR - off then OPS else OPS + OpsFrom(0, len - (SECTOR - off))
  }

  function OpsFor(addr: nat, len: nat): nat { OpsFrom(addr - SectorOf(addr), len) }

  /** `opsLeft` operations will still succeed.  The one that fails may leave anything in
      its sector: `junk`. */
  class Chip {
    const cells: array<Cell>
    var opsLeft: nat
    var junk: seq<Cell>

    ghost predicate Valid()
      reads this
    {
      |junk| == SECTOR && Whole(cells.Length)
    }

    constructor (size: nat, opsLeft: nat, junk: seq<Cell>)
      requires Whole(size) && |junk| == SECTOR
      ensures Valid() && fresh(cells) && cells.Length == size
    {
      cells := new Cell[size](_ => BLANK);
      this.opsLeft, this.junk := opsLeft, junk;
    }

    /** What is left of the operations after `n` of them. */
    static predicate Spent(before: nat, left: nat, n: nat) { left == if before >= n then before - n else 0 }

    /** An operation on a sector succeeds, or leaves junk there. */
    method Attempt(sect: nat) returns (ok: bool)
      requires Valid() && sect + SECTOR <= cells.Length
      modifies this`opsLeft, cells
      ensures Valid() && ok == (old(opsLeft) > 0) && Spent(old(opsLeft), opsLeft, 1)
      ensures ok ==> cells[..] == old(cells[..])
      ensures Only(old(cells[..]), cells[..], sect, sect + SECTOR)
    {
      ok := opsLeft > 0;
      if ok {
        opsLeft := opsLeft - 1;
      } else {
        forall i | sect <= i < sect + SECTOR { cells[i] := junk[i - sect]; }
      }
    }

    method EraseSector(sect: nat) returns (ok: bool)
      requires Valid() && sect + SECTOR <= cells.Length
      modifies this`opsLeft, cells
      ensures Valid() && ok == (old(opsLeft) > 0) && Spent(old(opsLeft), opsLeft, 1)
      ensures Only(old(cells[..]), cells[..], sect, sect + SECTOR)
      ensures ok ==> forall i | sect <= i < sect + SECTOR :: cells[i] == BLANK
    {
      ok := Attempt(sect);
      if ok {
        forall i | sect <= i < sect + SECTOR { cells[i] := BLANK; }
      }
    }

    /** Programs one page of a sector. */
    method ProgramPage(ghost sect: nat, addr: nat, data: seq<Cell>, at: nat) returns (ok: bool)
      requires Valid() && at == sect && sect <= addr && addr + PAGE <= sect + SECTOR <= cells.Length && |data| == PAGE
      modifies this`opsLeft, cells
      ensures Valid() && ok == (old(opsLeft) > 0) && Spent(old(opsLeft), opsLeft, 1)
      ensures Only(old(cells[..]), cells[..], sect, sect + SECTOR)
      ensures ok ==> Only(old(cells[..]), cells[..], addr, addr + PAGE)
      ensures ok ==> cells[addr..addr + PAGE] == Programmed(old(cells[addr..addr + PAGE]), data)
    {
      ok := Attempt(at);
      if ok {
        forall i | addr <= i < addr + PAGE { cells[i] := cells[i] & data[i - addr]; }
        assert cells[addr..addr + PAGE] == Programmed(old(cells[addr..addr + PAGE]), data);
      }
    }

    /** Programs an erased sector page by page. */
    method ProgramSector(sect: nat, buffer: seq<Cell>) returns (ok: bool)
      requires Valid() && sect + SECTOR <= cells.Length && |buffer| == SECTOR
      requires forall i | sect <= i < sect + SECTOR :: cells[i] == BLANK
      modifies this`opsLeft, cells
      ensures Valid() && ok == (old(opsLeft) >= PAGES) && Spent(old(opsLeft), opsLeft, PAGES)
      ensures Only(old(cells[..]), cells[..], sect, sect + SECTOR)
      ensures ok ==> Stored(cells[..], sect, buffer)
    {
      var done := 0;
      ok := true;
      ghost var pages := 0;
      while done < SECTOR
        invariant Valid() && done <= SECTOR && done == 256 * pages && ok && old(opsLeft) == opsLeft + pages
        invariant Only(old(cells[..]), cells[..], sect, sect + SECTOR)
        invariant forall i | sect <= i < sect + done :: cells[i] == buffer[i - sect]
        invariant forall i | sect + done <= i < sect + SECTOR :: cells[i] == BLANK
        decreases SECTOR - done
      {
        ok := ProgramBlankPage(sect, done, buffer);
        if !ok { return; }
        done := done + PAGE;
        pages := pages + 1;
      }
    }

    method ProgramBlankPage(sect: nat, done: nat, buffer: seq<Cell>) returns (ok: bool)
      requires Valid() && done + PAGE <= SECTOR && sect + SECTOR <= cells.Length && |buffer| == SECTOR
      requires forall i | sect + done <= i < sect + SECTOR :: cells[i] == BLANK
      modifies this`opsLeft, cells
      ensures Valid() && ok == (old(opsLeft) > 0) && Spent(old(opsLeft), opsLeft, 1)
      ensures Only(old(cells[..]), cells[..], sect, sect + SECTOR)
      ensures ok ==> Only(old(cells[..]), cells[..], sect + done, sect + done + PAGE)
      ensures ok ==> forall i | sect + done <= i < sect + done + PAGE :: cells[i] == buffer[i - sect]
    {
      var at := sect + done;
      var page := buffer[done..done + PAGE];
      ghost var before := cells[at..at + PAGE];
      ok := ProgramPage(sect, at, page, sect);
      if ok {
        ProgrammedBlank(before, page);
        assert forall i | at <= i < at + PAGE :: cells[i] == cells[at..at + PAGE][i - at];
      }
    }

    /** Changes part of a sector, or all of it. */
    method WriteInSector(sect: nat, off: nat, data: seq<Cell>) returns (ok: bool)
      requires Valid() && sect + SECTOR <= cells.Length && off + |data| <= SECTOR
      modifies this`opsLeft, cells
      ensures Valid() && ok == (old(opsLeft) >= OPS) && Spent(old(opsLeft), opsLeft, OPS)
      ensures Only(old(cells[..]), cells[..], sect, sect + SECTOR)
      ensures ok ==> Only(old(cells[..]), cells[..], sect + off, sect + off + |data|)
      ensures ok ==> Stored(cells[..], sect + off, data)
    {
      var buffer := if |data| < SECTOR then cells[sect..sect + SECTOR] else data;
      buffer := buffer[..off] + data + buffer[off + |data|..];
      ok := EraseSector(sect);
      if !ok { return; }
      ok := ProgramSector(sect, buffer);
    }

    /** Writes what belongs in the next sector, of a write that had `first` to begin with. */
    method WriteNext(ghost first: seq<Cell>, addr: nat, data: seq<Cell>, written: nat, sect: nat, off: nat)
      returns (ok: bool, size: nat)
      requires Valid() && addr + |data| <= |first| == cells.Length && written < |data|
      requires Whole(sect) && off < SECTOR && sect + off == addr + written && (written == 0 || off == 0)
      requires Advanced(first, cells[..], addr, data, written)
      modifies this`opsLeft, cells
      ensures Valid() && ok == (old(opsLeft) >= OPS) && Spent(old(opsLeft), opsLeft, OPS)
      ensures size == if |data| - written < SECTOR - off then |data| - written else SECTOR - off
      ensures ok ==> Advanced(first, cells[..], addr, data, written + size)
      ensures !ok ==> Stored(cells[..], addr, data[..written]) && OneSectorApart(first, cells[..], addr, addr + written)
    {
      size := if |data| - written < SECTOR - off then |data| - written else SECTOR - off;
      SectorFits(sect, off, cells.Length);
      ghost var before := cells[..];
      var piece := data[written..written + size];
      ok := WriteInSector(sect, off, piece);
      if ok {
        OneSectorMore(first, before, cells[..], addr, data, written, size, sect + off, piece);
      } else {
        OneSectorLost(first, before, cells[..], addr, data, written, sect);
      }
    }

    /** Writes bytes at any address; they must lie in this chip.  Returns how many were
        written: all of them, unless an operation failed, and they all are if and only if
        there are operations for every sector that the bytes lie in. */
    method Write(addr: nat, data: seq<Cell>) returns (written: nat)
      requires Valid() && addr + |data| <= cells.Length
      modifies this`opsLeft, cells
      ensures Valid() && written <= |data|
      ensures written == |data| <==> old(opsLeft) >= OpsFor(addr, |data|)
      ensures Chip.Spent(old(opsLeft), opsLeft, OpsFor(addr, |data|))
      ensures Stored(cells[..], addr, data[..written])
      ensures written == |data| ==> cells[..] == Overlaid(old(cells[..]), addr, data)
      ensures written < |data| ==> OneSectorApart(old(cells[..]), cells[..], addr, addr + written)
    {
      written := 0;
      var sect: nat := SectorOf(addr);
      var off: nat := addr - sect;
      ghost var first := cells[..];
      ghost var spent: nat := 0;
      while written < |data|
        invariant Valid() && written <= |data|
        invariant Whole(sect) && off < SECTOR
        invariant written < |data| ==> sect + off == addr + written && (written == 0 || off == 0)
        invariant Advanced(first, cells[..], addr, data, written)
        invariant old(opsLeft) == opsLeft + spent
        invariant OpsFor(addr, |data|) == spent + OpsFrom(off, |data| - written)
        decreases |data| - written
      {
        var ok, size := WriteNext(first, addr, data, written, sect, off);
        if !ok { return; }
        spent := spent + OPS;
        written := written + size;
        sect := sect + SECTOR;
        off := 0;
      }
      assert data[..written] == data;
      OverlaidIs(first, cells[..], addr, data);
    }

    /** Reads bytes back. */
    method Read(addr: nat, len: nat) returns (data: seq<Cell>)
      requires addr + len <= cells.Length
      ensures |data| == len && Stored(cells[..], addr, data)
    {
      data := cells[addr..addr + len];
    }
  }

  /** When a sector has been written, so has all that came before it. */
  lemma OneSectorMore(first: seq<Cell>, before: seq<Cell>, after: seq<Cell>, addr: nat, data: seq<Cell>,
                      written: nat, size: nat, at: nat, piece: seq<Cell>)
    requires written + size <= |data| && addr + |data| <= |first| && Advanced(first, before, addr, data, written)
    requires at == addr + written && piece == data[written..written + size]
    requires Only(before, after, at, at + |piece|) && Stored(after, at, piece)
    ensures Advanced(first, after, addr, data, written + size)
  {
  }

  /** When a sector fails, the bytes reported before it are in place, and beyond them only
      that sector has changed. */
  lemma OneSectorLost(first: seq<Cell>, before: seq<Cell>, after: seq<Cell>, addr: nat, data: seq<Cell>, written: nat, sect: nat)
    requires written < |data| && sect == SectorOf(addr + written) && |first| == |before| == |after|
    requires addr + |data| <= |first| && Advanced(first, before, addr, data, written)
    requires Only(before, after, sect, sect + SECTOR)
    requires written == 0 || sect == addr + written
    ensures Stored(after, addr, data[..written]) && OneSectorApart(first, after, addr, addr + written)
  {
  }
}
