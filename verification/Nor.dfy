/** NOR flash chip and its driver (main/drivers/w25q64.c).

    Programming can only clear bits, inside one 256-byte page; erasing sets a whole 4 KB sector to 0xFF. */
module Nor {
  import opened Types

  const PAGE_SIZE: nat := 256
  const SECTOR_SIZE: nat := 4096

  /** The `esp_err_t` values that the driver returns. */
  datatype Status = Ok | InvalidArg | InvalidSize

  /** Programming `buf` at `addr` as one flat write: every addressed cell is ANDed, no other cell changes. */
  ghost function Programmed(mem: Bytes, addr: nat, buf: Bytes): (r: Bytes)
    requires addr + |buf| <= |mem|
    ensures |r| == |mem|
  {
    seq(|mem|, i requires 0 <= i < |mem| => if addr <= i < addr + |buf| then mem[i] & buf[i - addr] else mem[i])
  }

  /** The place, in the data of a page program at `addr`, of the byte that reaches cell `i` of the same page: the
      chip's address counter wraps at the end of the page. */
  function DataIndex(addr: nat, i: nat): nat
    requires SamePage(addr, i)
  {
    if addr <= i then i - addr else i + PAGE_SIZE - addr
  }

  predicate SamePage(addr: nat, i: nat) {
    addr - addr % PAGE_SIZE <= i < addr - addr % PAGE_SIZE + PAGE_SIZE
  }

  /** What one page program of the chip does: the address counter wraps inside the page. */
  ghost function PageProgrammed(mem: Bytes, addr: nat, data: Bytes): (r: Bytes)
    requires addr < |mem| && |mem| % SECTOR_SIZE == 0 && |data| <= PAGE_SIZE
    ensures |r| == |mem|
  {
    seq(|mem|, i requires 0 <= i < |mem| =>
      if SamePage(addr, i) && DataIndex(addr, i) < |data| then mem[i] & data[DataIndex(addr, i)] else mem[i])
  }

  /** Erasing the sector that contains `addr`. */
  ghost function Erased(mem: Bytes, addr: nat): (r: Bytes)
    requires addr < |mem| && |mem| % SECTOR_SIZE == 0
    ensures |r| == |mem|
  {
    seq(|mem|, i requires 0 <= i < |mem| => if i / SECTOR_SIZE == addr / SECTOR_SIZE then 0xFF else mem[i])
  }

  /** A chunk that stays inside its page never meets the wrap of the address counter. */
  lemma ChunkInPage(mem: Bytes, addr: nat, data: Bytes)
    requires addr + |data| <= |mem| && |mem| % SECTOR_SIZE == 0
    requires 0 < |data| <= PAGE_SIZE - addr % PAGE_SIZE
    ensures PageProgrammed(mem, addr, data) == Programmed(mem, addr, data)
  {
  }

  /** A chunk that leaves its page wraps onto the cells before it: without the split the flat write would be lost. */
  lemma CrossingChunkWraps(mem: Bytes, addr: nat, data: Bytes)
    requires addr + |data| <= |mem| && |mem| % SECTOR_SIZE == 0
    requires PAGE_SIZE - addr % PAGE_SIZE < |data| < PAGE_SIZE
    ensures var page := addr - addr % PAGE_SIZE;
            var room := PAGE_SIZE - addr % PAGE_SIZE;
            && PageProgrammed(mem, addr, data)[page] == mem[page] & data[room]
            && PageProgrammed(mem, addr, data)[page + PAGE_SIZE] == mem[page + PAGE_SIZE]
            && Programmed(mem, addr, data)[page] == mem[page]
            && Programmed(mem, addr, data)[page + PAGE_SIZE] == mem[page + PAGE_SIZE] & data[room]
  {
  }

  /** Two adjacent flat writes are one. */
  lemma ProgrammedTwice(mem: Bytes, addr: nat, x: Bytes, y: Bytes)
    requires addr + |x| + |y| <= |mem|
    ensures Programmed(Programmed(mem, addr, x), addr + |x|, y) == Programmed(mem, addr, x + y)
  {
  }

  /** On erased cells a flat write stores the buffer, and a read gives it back. */
  lemma ErasedReadsBack(mem: Bytes, addr: nat, buf: Bytes)
    requires addr + |buf| <= |mem|
    requires forall i | addr <= i < addr + |buf| :: mem[i] == 0xFF
    ensures Programmed(mem, addr, buf)[addr..addr + |buf|] == buf
    ensures Programmed(mem, addr, buf)[..addr] == mem[..addr]
    ensures Programmed(mem, addr, buf)[addr + |buf|..] == mem[addr + |buf|..]
  {
  }

  /** One more byte of a page program changes one cell. */
  lemma CellDone(mem: Bytes, addr: nat, data: Bytes, k: nat, cell: nat)
    requires addr < |mem| && |mem| % SECTOR_SIZE == 0 && k < |data| <= PAGE_SIZE
    requires SamePage(addr, cell) && DataIndex(addr, cell) == k
    requires cell < |mem|
    ensures var m := PageProgrammed(mem, addr, data[..k]);
            PageProgrammed(mem, addr, data[..k + 1]) == m[cell := m[cell] & data[k]]
  {
    var m := PageProgrammed(mem, addr, data[..k]);
    var m' := PageProgrammed(mem, addr, data[..k + 1]);
    forall i: nat | i < |mem|
      ensures m'[i] == if i == cell then m[i] & data[k] else m[i]
    {
      OneCell(mem, addr, data, k, cell, i);
    }
    assert |m| == |m'| == |mem|;
  }

  lemma OneCell(mem: Bytes, addr: nat, data: Bytes, k: nat, cell: nat, i: nat)
    requires addr < |mem| && |mem| % SECTOR_SIZE == 0 && k < |data| <= PAGE_SIZE
    requires SamePage(addr, cell) && DataIndex(addr, cell) == k && i < |mem|
    ensures PageProgrammed(mem, addr, data[..k + 1])[i]
            == if i == cell then PageProgrammed(mem, addr, data[..k])[i] & data[k]
               else PageProgrammed(mem, addr, data[..k])[i]
  {
    if SamePage(addr, i) && i != cell {
      assert DataIndex(addr, i) != k;
    }
  }

  /** The cell that the address counter reaches after `k` steps. */
  function CellOf(addr: nat, k: nat): (cell: nat)
    requires k < PAGE_SIZE
    ensures SamePage(addr, cell) && DataIndex(addr, cell) == k
  {
    var offset := addr % PAGE_SIZE;
    addr - offset + if offset + k < PAGE_SIZE then offset + k else offset + k - PAGE_SIZE
  }

  /** Whole pages are inside the chip or outside it. */
  lemma PageInside(size: nat, addr: nat, i: nat)
    requires size % SECTOR_SIZE == 0 && addr < size && SamePage(addr, i)
    ensures i < size
  {
  }

  // ---------- addresses beyond the chip ----------

  /** The number of addresses that a command's three address bytes can name. */
  const COMMAND_ADDRESSES: nat := 0x100_0000

  function Folded(size: nat, a: nat): (cell: nat)
    requires size > 0
    ensures cell < size && (a < size ==> cell == a)
  {
    if a < size then a else Folded(size, a - size)
  }

  /** The cell that a command to a 32-bit address reaches: the upper byte is not sent, and the chip starts over at its
      end. */
  function CellAt(size: nat, addr: nat): (cell: nat)
    requires size > 0
    ensures cell < size
  {
    Folded(size, addr % COMMAND_ADDRESSES)
  }

  /** Programming a buffer byte by byte, wherever its addresses lead. */
  ghost function Poured(mem: Bytes, addr: nat, buf: Bytes): (r: Bytes)
    requires mem != []
    ensures |r| == |mem|
  {
    if buf == [] then mem else
      var k := |buf| - 1;
      var m := Poured(mem, addr, buf[..k]);
      var cell := CellAt(|mem|, addr + k);
      m[cell := m[cell] & buf[k]]
  }

  /** Dropping whole pages keeps the place in the page. */
  lemma SamePlace(a: nat, pages: nat, rest: nat)
    requires a == PAGE_SIZE * pages + rest
    ensures a % PAGE_SIZE == rest % PAGE_SIZE
  {
  }

  lemma {:induction false} FoldedInPage(size: nat, pages: nat, a: nat, k: nat)
    requires size == PAGE_SIZE * pages && pages > 0 && a % PAGE_SIZE + k < PAGE_SIZE
    ensures Folded(size, a + k) == Folded(size, a) + k && Folded(size, a) % PAGE_SIZE == a % PAGE_SIZE
    decreases a
  {
    if a >= size {
      SamePlace(a, pages, a - size);
      FoldedInPage(size, pages, a - size, k);
    } else {
      StaysBelow(pages, a, k);
    }
  }

  lemma StaysBelow(pages: nat, a: nat, k: nat)
    requires a < PAGE_SIZE * pages && a % PAGE_SIZE + k < PAGE_SIZE
    ensures a + k < PAGE_SIZE * pages
  {
    var q := a / PAGE_SIZE;
    assert q < pages;
    assert PAGE_SIZE * q + PAGE_SIZE <= PAGE_SIZE * pages;
  }

  lemma CommandInPage(addr: nat, q: nat, r: nat, k: nat)
    requires addr == COMMAND_ADDRESSES * q + r && r < COMMAND_ADDRESSES && addr % PAGE_SIZE + k < PAGE_SIZE
    ensures r % PAGE_SIZE == addr % PAGE_SIZE
    ensures r == addr % COMMAND_ADDRESSES && (addr + k) % COMMAND_ADDRESSES == r + k
  {
    SamePlace(addr, 0x1_0000 * q, r);
    StaysBelow(0x1_0000, r, k);
    Remainder(addr, q, r);
    Remainder(addr + k, q, r + k);
  }

  lemma Remainder(a: nat, q: nat, r: nat)
    requires a == COMMAND_ADDRESSES * q + r && r < COMMAND_ADDRESSES
    ensures a % COMMAND_ADDRESSES == r
  {
  }

  lemma SectorsArePages(size: nat)
    requires size > 0 && size % SECTOR_SIZE == 0
    ensures size == PAGE_SIZE * (16 * (size / SECTOR_SIZE)) && size / SECTOR_SIZE > 0
  {
  }

  /** Within a page, addresses and cells run in step. */
  lemma CellInPage(size: nat, addr: nat, k: nat)
    requires size > 0 && size % SECTOR_SIZE == 0 && addr % PAGE_SIZE + k < PAGE_SIZE
    ensures CellAt(size, addr + k) == CellAt(size, addr) + k && CellAt(size, addr) % PAGE_SIZE == addr % PAGE_SIZE
  {
    hide Folded;
    var q, r := addr / COMMAND_ADDRESSES, addr % COMMAND_ADDRESSES;
    CommandInPage(addr, q, r, k);
    SectorsArePages(size);
    FoldedInPage(size, 16 * (size / SECTOR_SIZE), r, k);
  }

  lemma PouredLast(mem: Bytes, addr: nat, x: Bytes, b: bv8)
    requires mem != []
    ensures var m := Poured(mem, addr, x);
            var cell := CellAt(|mem|, addr + |x|);
            Poured(mem, addr, x + [b]) == m[cell := m[cell] & b]
  {
    hide CellAt;
    assert (x + [b])[..|x|] == x;
  }

  lemma PouredNothing(mem: Bytes, addr: nat)
    requires mem != []
    ensures Poured(mem, addr, []) == mem
  {
  }

  lemma {:induction false} PouredTwice(mem: Bytes, addr: nat, x: Bytes, y: Bytes)
    requires mem != []
    ensures Poured(Poured(mem, addr, x), addr + |x|, y) == Poured(mem, addr, x + y)
    decreases |y|
  {
    hide Poured, CellAt;
    if y == [] {
      PouredNothing(Poured(mem, addr, x), addr + |x|);
      assert x + y == x;
    } else {
      var front, b := y[..|y| - 1], y[|y| - 1];
      PouredTwice(mem, addr, x, front);
      PouredLast(Poured(mem, addr, x), addr + |x|, front, b);
      PouredLast(mem, addr, x + front, b);
      assert y == front + [b] && x + y == (x + front) + [b];
      assert addr + |x| + |front| == addr + |x + front|;
    }
  }

  lemma OneByte(mem: Bytes, cell: nat, b: bv8)
    requires cell < |mem|
    ensures Programmed(mem, cell, [b]) == mem[cell := mem[cell] & b]
  {
  }

  lemma ProgrammedNothing(mem: Bytes, addr: nat)
    requires addr <= |mem|
    ensures Programmed(mem, addr, []) == mem
  {
  }

  /** One more byte of a flat write. */
  lemma ProgrammedLast(mem: Bytes, addr: nat, x: Bytes, b: bv8)
    requires addr + |x| < |mem|
    ensures var m := Programmed(mem, addr, x);
            Programmed(mem, addr, x + [b]) == m[addr + |x| := m[addr + |x|] & b]
  {
    hide Programmed;
    ProgrammedTwice(mem, addr, x, [b]);
    OneByte(Programmed(mem, addr, x), addr + |x|, b);
  }

  /** From `addr` on, `len` addresses reach cells one after the other. */
  ghost predicate InStep(size: nat, addr: nat, cell: nat, len: nat)
    requires size > 0
  {
    forall a: nat | addr <= a < addr + len :: CellAt(size, a) == cell + (a - addr)
  }

  /** Where addresses and cells run in step, byte by byte is one flat write. */
  lemma {:induction false} PouredInStep(mem: Bytes, addr: nat, cell: nat, data: Bytes)
    requires mem != [] && cell + |data| <= |mem|
    requires InStep(|mem|, addr, cell, |data|)
    ensures Poured(mem, addr, data) == Programmed(mem, cell, data)
    decreases |data|
  {
    hide Poured, Programmed, CellAt;
    if data == [] {
      PouredNothing(mem, addr);
      ProgrammedNothing(mem, cell);
    } else {
      var front, b := data[..|data| - 1], data[|data| - 1];
      PouredInStep(mem, addr, cell, front);
      assert data == front + [b];
      PouredLast(mem, addr, front, b);
      ProgrammedLast(mem, cell, front, b);
      assert CellAt(|mem|, addr + |front|) == cell + |front|;
    }
  }

  lemma CellsOfPage(size: nat, addr: nat, len: nat)
    requires size > 0 && size % SECTOR_SIZE == 0 && 0 < len <= PAGE_SIZE - addr % PAGE_SIZE
    ensures CellAt(size, addr) + len <= size
    ensures InStep(size, addr, CellAt(size, addr), len)
  {
    hide CellAt;
    forall a: nat | addr <= a < addr + len
      ensures CellAt(size, a) == CellAt(size, addr) + (a - addr)
    {
      CellInPage(size, addr, a - addr);
    }
    CellInPage(size, addr, len - 1);
  }

  /** Inside the chip, byte by byte is one flat write. */
  lemma PouredIsProgrammed(mem: Bytes, addr: nat, buf: Bytes)
    requires addr + |buf| <= |mem| && 0 < |mem| <= COMMAND_ADDRESSES
    ensures Poured(mem, addr, buf) == Programmed(mem, addr, buf)
  {
    hide Poured, Programmed, CellAt;
    forall a: nat | addr <= a < addr + |buf|
      ensures CellAt(|mem|, a) == addr + (a - addr)
    {
      CellInside(|mem|, a);
    }
    PouredInStep(mem, addr, addr, buf);
  }

  lemma CellInside(size: nat, addr: nat)
    requires addr < size <= COMMAND_ADDRESSES
    ensures CellAt(size, addr) == addr
  {
    Remainder(addr, 0, addr);
  }

  /** One turn of the driver's loop. */
  lemma ChunkPoured(mem0: Bytes, mem: Bytes, addr: nat, data: Bytes, off: nat, chunk: nat)
    requires mem0 != [] && |mem0| % SECTOR_SIZE == 0 && off + chunk <= |data|
    requires 0 < chunk <= PAGE_SIZE - (addr + off) % PAGE_SIZE
    requires mem == Poured(mem0, addr, data[..off])
    ensures PageProgrammed(mem, CellAt(|mem|, addr + off), data[off..off + chunk])
         == Poured(mem0, addr, data[..off + chunk])
  {
    hide Poured, Programmed, PageProgrammed, CellAt;
    var part := data[off..off + chunk];
    CellInPage(|mem|, addr + off, 0);
    CellsOfPage(|mem|, addr + off, chunk);
    PouredInStep(mem, addr + off, CellAt(|mem|, addr + off), part);
    ChunkInPage(mem, CellAt(|mem|, addr + off), part);
    PouredTwice(mem0, addr, data[..off], part);
    assert data[..off] + part == data[..off + chunk];
  }

  /** The driver's range check, on a sum that is 32 bits wide. */
  predicate InRange(size: nat, addr: nat, len: nat) {
    (addr + len) % U32 <= size
  }

  /** It lets through what is inside the chip, and besides exactly the calls whose sum passes 2^32 and ends inside. */
  lemma RangeCheckIsExact(size: nat, addr: nat, len: nat)
    requires size <= COMMAND_ADDRESSES && addr < U32 && len < U32
    ensures InRange(size, addr, len) <==> addr + len <= size || (U32 <= addr + len <= U32 + size)
  {
  }

  /** No buffer is refused as such; a call whose range is inside the chip, or passes 2^32 and ends inside, and one of no
      bytes are accepted; all others are refused for their size. */
  function WriteStatus(size: nat, addr: nat, buf: Option<Bytes>): (status: Status)
    requires size <= COMMAND_ADDRESSES && addr < U32 && (buf.Some? ==> |buf.value| < U32)
    ensures status == InvalidArg <==> buf == None
    ensures status == Ok <==>
              && buf.Some?
              && var end := addr + |buf.value|;
                 buf.value == [] || end <= size || 0x1_0000_0000 <= end <= 0x1_0000_0000 + size
  {
    if buf.None? then InvalidArg else if |buf.value| == 0 || InRange(size, addr, |buf.value|) then Ok else InvalidSize
  }

  lemma PouredPair(mem: Bytes, addr: nat, x: bv8, y: bv8)
    requires mem != []
    ensures var c, d := CellAt(|mem|, addr), CellAt(|mem|, addr + 1);
            var m := mem[c := mem[c] & x];
            Poured(mem, addr, [x, y]) == m[d := m[d] & y]
  {
    hide Poured, CellAt;
    PouredNothing(mem, addr);
    PouredLast(mem, addr, [], x);
    PouredLast(mem, addr, [x], y);
    assert [] + [x] == [x] && [x] + [y] == [x, y];
  }

  /** Two bytes for the last of all addresses, far beyond an 8 MB chip, are accepted, and change its last and its first
      cell. */
  lemma WrappedWriteAccepted(mem: Bytes, x: bv8, y: bv8)
    requires |mem| == 0x80_0000
    ensures WriteStatus(|mem|, 0xFFFF_FFFF, Some([x, y])) == Ok
    ensures Poured(mem, 0xFFFF_FFFF, [x, y]) == mem[0x7F_FFFF := mem[0x7F_FFFF] & x][0 := mem[0] & y]
  {
    hide Poured, CellAt;
    LastAddress();
    PouredPair(mem, 0xFFFF_FFFF, x, y);
  }

  lemma LastAddress()
    ensures CellAt(0x80_0000, 0xFFFF_FFFF) == 0x7F_FFFF && CellAt(0x80_0000, 0x1_0000_0000) == 0
  {
    hide Folded;
    Remainder(0xFFFF_FFFF, 0xFF, 0xFF_FFFF);
    Remainder(0x1_0000_0000, 0x100, 0);
    FoldedOnce(0x80_0000, 0xFF_FFFF);
    FoldedOnce(0x80_0000, 0);
  }

  lemma FoldedOnce(size: nat, a: nat)
    requires size > 0 && a < 2 * size
    ensures Folded(size, a) == if a < size then a else a - size
  {
  }

  /** What a read command returns: the chip counts on from the first cell and starts over at its end. */
  ghost function ReadOut(mem: Bytes, addr: nat, len: nat): (data: Bytes)
    requires mem != []
    ensures |data| == len
  {
    seq(len, k requires 0 <= k < len => mem[Folded(|mem|, CellAt(|mem|, addr) + k)])
  }

  lemma ReadInside(mem: Bytes, addr: nat, len: nat)
    requires 0 < len && addr + len <= |mem| <= COMMAND_ADDRESSES
    ensures ReadOut(mem, addr, len) == mem[addr..addr + len]
  {
    hide CellAt;
    CellInside(|mem|, addr);
    forall k: nat | k < len
      ensures ReadOut(mem, addr, len)[k] == mem[addr..addr + len][k]
    {
      assert Folded(|mem|, addr + k) == addr + k;
    }
  }

  class W25q64 {
    const mem: array<bv8>

    ghost predicate Valid() {
      mem.Length % SECTOR_SIZE == 0 && 0 < mem.Length <= COMMAND_ADDRESSES
    }

    /** A blank chip of `sectors` sectors. */
    constructor (sectors: nat)
      requires 0 < sectors <= 4096
      ensures Valid() && fresh(mem) && mem.Length == SECTOR_SIZE * sectors
      ensures mem[..] == seq(SECTOR_SIZE * sectors, _ => 0xFF)
    {
      mem := new bv8[SECTOR_SIZE * sectors](_ => 0xFF);
    }

    /** Page program command as the chip executes it. */
    method PageProgram(addr: nat, data: Bytes)
      requires Valid() && addr < mem.Length && |data| <= PAGE_SIZE
      modifies mem
      ensures mem[..] == PageProgrammed(old(mem[..]), addr, data)
    {
      ghost var mem0 := mem[..];
      var k := 0;
      while k < |data|
        invariant 0 <= k <= |data|
        invariant mem[..] == PageProgrammed(mem0, addr, data[..k])
      {
        var cell := CellOf(addr, k);
        PageInside(mem.Length, addr, cell);
        CellDone(mem0, addr, data, k, cell);
        mem[cell] := mem[cell] & data[k];
        k := k + 1;
      }
      assert data[..k] == data;
    }

    /** `w25q64_erase_sector`: the address is aligned down to its sector. */
    method EraseSector(addr: nat)
      requires Valid() && addr < mem.Length
      modifies mem
      ensures mem[..] == Erased(old(mem[..]), addr)
    {
      var base := addr - addr % SECTOR_SIZE;
      forall i | base <= i < base + SECTOR_SIZE {
        mem[i] := 0xFF;
      }
    }

    /** `w25q64_write`: splits at page boundaries, one page program per chunk. `None` is the null pointer. */
    method Write(addr: nat, buf: Option<Bytes>) returns (status: Status)
      requires Valid() && addr < U32 && (buf.Some? ==> |buf.value| < U32)
      modifies mem
      ensures status == WriteStatus(mem.Length, addr, buf)
      ensures status == Ok ==> mem[..] == Poured(old(mem[..]), addr, buf.value)
      ensures status == Ok && addr + |buf.value| <= mem.Length ==> mem[..] == Programmed(old(mem[..]), addr, buf.value)
      ensures status != Ok ==> mem[..] == old(mem[..])
    {
      if buf.None? {
        return InvalidArg;
      }
      var data := buf.value;
      if |data| == 0 {
        return Ok;
      }
      if (addr + |data|) % U32 > mem.Length {
        return InvalidSize;
      }
      Pour(addr, data);
      if addr + |data| <= mem.Length {
        PouredIsProgrammed(old(mem[..]), addr, data);
      }
      return Ok;
    }

    /** The loop of `w25q64_write`. */
    method Pour(addr: nat, data: Bytes)
      requires Valid() && addr < U32
      modifies mem
      ensures mem[..] == Poured(old(mem[..]), addr, data)
    {
      hide Poured, PageProgrammed, CellAt;
      ghost var mem0 := mem[..];
      PouredNothing(mem0, addr);
      assert data[..0] == [];
      var at, off, remaining := addr, 0, |data|;
      while remaining > 0
        invariant at == (addr + off) % U32 && off + remaining == |data| && off >= 0 && remaining >= 0
        invariant mem[..] == Poured(mem0, addr, data[..off])
      {
        var pageOffset := at % PAGE_SIZE;
        var spaceInPage := PAGE_SIZE - pageOffset;
        var chunk := if remaining < spaceInPage then remaining else spaceInPage;
        PourStep(mem0, mem[..], addr, data, off, at, chunk);
        PageProgram(CellAt(mem.Length, at), data[off..off + chunk]);
        at := (at + chunk) % U32;
        off := off + chunk;
        remaining := remaining - chunk;
      }
      assert data[..off] == data;
    }

    /** `w25q64_read`, with a buffer or without; the chip counts on from the first cell and starts over at its end. */
    method Read(addr: nat, len: nat, buffer: bool) returns (status: Status, data: Bytes)
      requires Valid() && addr < U32 && len + 4 < U32
      ensures status == if !buffer then InvalidArg
                        else if len == 0 || InRange(mem.Length, addr, len) then Ok else InvalidSize
      ensures status == Ok ==> data == ReadOut(mem[..], addr, len)
      ensures status == Ok && addr + len <= mem.Length ==> data == mem[addr..addr + len]
    {
      if !buffer {
        return InvalidArg, [];
      }
      if len == 0 {
        assert ReadOut(mem[..], addr, 0) == [];
        return Ok, [];
      }
      if (addr + len) % U32 > mem.Length {
        return InvalidSize, [];
      }
      data := [];
      var first := CellAt(mem.Length, addr);
      for k := 0 to len
        invariant |data| == k && forall j | 0 <= j < k :: data[j] == mem[Folded(mem.Length, first + j)]
      {
        data := data + [mem[Folded(mem.Length, first + k)]];
      }
      assert data == ReadOut(mem[..], addr, len);
      if addr + len <= mem.Length {
        ReadInside(mem[..], addr, len);
      }
      return Ok, data;
    }
  }

  /** The variable wraps at 2^32, which the three address bytes do not see. */
  lemma WrappedAddress(size: nat, addr: nat)
    requires size > 0
    ensures CellAt(size, addr % U32) == CellAt(size, addr) && addr % U32 % PAGE_SIZE == addr % PAGE_SIZE
  {
    hide Folded;
    var q, r := addr / U32, addr % U32;
    var p, c := r / COMMAND_ADDRESSES, r % COMMAND_ADDRESSES;
    Remainder(addr, 0x100 * q + p, c);
    SamePlace(addr, 0x100_0000 * q, r);
  }

  lemma WrappedSum(addr: nat, off: nat, at: nat, chunk: nat)
    requires at == (addr + off) % U32
    ensures (at + chunk) % U32 == (addr + (off + chunk)) % U32
  {
  }

  /** One turn of the loop, with the address variable wrapped. */
  lemma PourStep(mem0: Bytes, mem: Bytes, addr: nat, data: Bytes, off: nat, at: nat, chunk: nat)
    requires mem0 != [] && |mem0| % SECTOR_SIZE == 0 && off + chunk <= |data|
    requires at == (addr + off) % U32 && 0 < chunk <= PAGE_SIZE - at % PAGE_SIZE
    requires mem == Poured(mem0, addr, data[..off])
    ensures PageProgrammed(mem, CellAt(|mem|, at), data[off..off + chunk]) == Poured(mem0, addr, data[..off + chunk])
    ensures (at + chunk) % U32 == (addr + (off + chunk)) % U32
  {
    hide Poured, Programmed, PageProgrammed, CellAt;
    WrappedAddress(|mem|, addr + off);
    WrappedSum(addr, off, at, chunk);
    ChunkPoured(mem0, mem, addr, data, off, chunk);
  }
}
