/** main/storage/flash_storage.c: the storage layer over the byte-addressed chip.

    Each operation is proved to be the operation of the same name on the slot ring, `View()`. The mutex and `malloc`
    never fail here; writes to NVS may, as the `nvsOk` parameters say. */
module FlashStorage {
  import opened Nor
  import opened Slots
  import opened Ring
  import opened Recovery
  import opened Types

  const MAGIC_VALID: Bytes := [0xEF, 0xBE, 0xAD, 0xDE]
  const MAGIC_SENT: Bytes := [0, 0, 0, 0]
  const MAGIC_BLANK: Bytes := [0xFF, 0xFF, 0xFF, 0xFF]

  datatype Error = ErrOk | ErrTimeout | ErrNvs

  lemma SectorOfIndex(k: nat)
    ensures 256 * k % SECTOR_SIZE == 256 * (k % 16)
  {
    var q := k / 16;
    assert 256 * k == 4096 * q + 256 * (k % 16);
  }

  /** Byte addresses and slot numbers agree on sectors. */
  lemma SectorOfSlot(addr: nat)
    requires addr % 256 == 0
    ensures addr == 256 * (addr / 256)
    ensures addr - addr % SECTOR_SIZE == 256 * (addr / 256 - addr / 256 % 16)
    ensures addr % SECTOR_SIZE == 0 <==> addr / 256 % 16 == 0
  {
    var k := addr / 256;
    assert addr == 256 * k;
    SectorOfIndex(k);
  }

  lemma SlotsInChip(size: nat)
    requires size % SECTOR_SIZE == 0
    ensures size / 256 == 16 * (size / SECTOR_SIZE) && size / 256 % 16 == 0 && size == 256 * (size / 256)
    ensures size >= 2 * SECTOR_SIZE ==> size / 256 >= 32
  {
    var q := size / SECTOR_SIZE;
    assert size == 256 * (16 * q);
  }

  /** The slot that begins at an address. */
  lemma SlotInChip(size: nat, addr: nat)
    requires size % SECTOR_SIZE == 0 && addr % 256 == 0 && addr < size
    ensures addr == 256 * (addr / 256) && addr + 256 <= size && addr / 256 < size / 256
  {
    SlotsInChip(size);
  }

  /** The slot after it, or the first one at the chip's end. */
  lemma NextSlot(size: nat, addr: nat)
    requires size % SECTOR_SIZE == 0 && addr % 256 == 0 && addr < size
    ensures var next := if addr + 256 >= size then 0 else addr + 256;
            next % 256 == 0 && next < size && next / 256 == Wrap(addr / 256 + 1, size / 256)
  {
    SlotsInChip(size);
    SlotInChip(size, addr);
  }

  /** The write address after a scan that stopped at slot `i`. */
  lemma ScanStop(size: nat, i: nat)
    requires size % SECTOR_SIZE == 0 && 256 * i <= size && size > 0
    ensures var w := if 256 * i >= size then 0 else 256 * i;
            w % 256 == 0 && w < size && w / 256 == Wrap(i, size / 256)
  {
    SlotsInChip(size);
  }

  lemma HeadBytes(mem: Bytes, addr: nat)
    requires |mem| % SECTOR_SIZE == 0 && addr % 256 == 0 && addr < |mem|
    ensures addr / 256 < |SlotsOf(mem)| && addr + 256 <= |mem| && mem[addr..addr + 256] == SlotsOf(mem)[addr / 256]
  {
    SlotInChip(|mem|, addr);
  }

  lemma HeadZeroed(mem: Bytes, addr: nat)
    requires |mem| % SECTOR_SIZE == 0 && addr % 256 == 0 && addr < |mem|
    ensures addr / 256 < |SlotsOf(mem)| && addr + 256 <= |mem|
    ensures SlotsOf(Programmed(mem, addr, MAGIC_SENT)) == SlotsOf(mem)[addr / 256 := Zeroed(SlotsOf(mem)[addr / 256])]
  {
    hide SlotsOf, Programmed, Zeroed;
    SlotInChip(|mem|, addr);
    HeadBytes(mem, addr);
    ProgramMagic(mem, addr / 256);
  }

  lemma EntryProgrammed(mem: Bytes, addr: nat, t: Slot)
    requires |mem| % SECTOR_SIZE == 0 && addr % 256 == 0 && addr < |mem|
    ensures addr / 256 < |SlotsOf(mem)| && addr + 256 <= |mem|
    ensures SlotsOf(Programmed(mem, addr, t)) == SlotsOf(mem)[addr / 256 := AndSlot(SlotsOf(mem)[addr / 256], t)]
  {
    hide SlotsOf, Programmed, AndSlot;
    SlotInChip(|mem|, addr);
    HeadBytes(mem, addr);
    ProgramSlot(mem, addr / 256, t);
  }

  lemma NextSector(size: nat, q: nat, p: nat)
    requires size == SECTOR_SIZE * q && SECTOR_SIZE * p < size
    ensures var next := if SECTOR_SIZE * p + SECTOR_SIZE >= size then 0 else SECTOR_SIZE * p + SECTOR_SIZE;
            next == 256 * Wrap(16 * p + 16, 16 * q)
  {
  }

  lemma BaseOfSlot(k: nat)
    ensures k - k % 16 == 16 * (k / 16)
  {
  }

  lemma SectorAddress(size: nat, addr: nat)
    requires size % SECTOR_SIZE == 0 && addr % 256 == 0 && addr < size
    ensures var sector := addr - addr % SECTOR_SIZE;
            var base := addr / 256 - addr / 256 % 16;
            var next := if sector + SECTOR_SIZE >= size then 0 else sector + SECTOR_SIZE;
            && sector == 256 * base < size && next == 256 * Wrap(base + 16, size / 256)
  {
    hide Wrap;
    SlotsInChip(size);
    SectorOfSlot(addr);
    BaseOfSlot(addr / 256);
    NextSector(size, size / SECTOR_SIZE, addr / 256 / 16);
  }

  /** Erasing the sector that contains an address. */
  lemma SectorErased(mem: Bytes, addr: nat)
    requires |mem| % SECTOR_SIZE == 0 && addr % 256 == 0 && addr < |mem|
    ensures var sector := addr - addr % SECTOR_SIZE;
            var base := addr / 256 - addr / 256 % 16;
            var next := if sector + SECTOR_SIZE >= |mem| then 0 else sector + SECTOR_SIZE;
            && sector == 256 * base < |mem| && next == 256 * Wrap(base + 16, |mem| / 256)
            && SlotsOf(Erased(mem, sector)) == SectorBlank(SlotsOf(mem), base)
  {
    hide SlotsOf, Erased, SectorBlank, Wrap;
    SectorAddress(|mem|, addr);
    EraseSlots(mem, addr / 256 - addr / 256 % 16);
  }

  lemma FullRoom(g: Ring)
    requires Shape(g) && g.n == |g.slots|
    ensures var base := g.w - g.w % 16;
            MakeRoom(g) == Ring(SectorBlank(g.slots, base), Wrap(base + 16, |g.slots|), g.w, g.n - 16)
  {
    hide SectorBlank;
  }

  /** What the four bytes at the start of slot `i` say. */
  lemma MagicAt(mem: Bytes, i: nat)
    requires |mem| % SECTOR_SIZE == 0 && 256 * i < |mem|
    ensures i < |SlotsOf(mem)| && 256 * i + 256 <= |mem|
    ensures IsValid(SlotsOf(mem)[i]) <==> mem[256 * i..256 * i + 4] == MAGIC_VALID
    ensures IsBlank(SlotsOf(mem)[i]) <==> mem[256 * i..256 * i + 4] == MAGIC_BLANK
  {
    var s := SlotAt(mem, i);
    assert forall b | 0 <= b < 4 :: s[b] == mem[256 * i..256 * i + 4][b];
  }

  /** The scan's variables after `i` slots without a blank one. */
  ghost predicate ScanState(slots: seq<Slot>, i: nat, found: bool, read: nat, count: nat) {
    && i <= |slots| && FirstBlank(slots, i) == FirstBlank(slots, 0)
    && count == CountValid(slots, i)
    && (found <==> FirstValid(slots, i) < i)
    && (found ==> read == 256 * FirstValid(slots, i))
  }

  lemma ScanStep(slots: seq<Slot>, i: nat, found: bool, read: nat, count: nat)
    requires ScanState(slots, i, found, read, count) && i < |slots| && !IsBlank(slots[i])
    ensures IsValid(slots[i]) ==> ScanState(slots, i + 1, true, if found then read else 256 * i, count + 1)
    ensures !IsValid(slots[i]) ==> ScanState(slots, i + 1, found, read, count)
  {
  }

  /** The scan's variables at its end. */
  lemma ScanDone(slots: seq<Slot>, i: nat, found: bool, read: nat, count: nat)
    requires |slots| % 16 == 0 && 32 <= |slots|
    requires ScanState(slots, i, found, read, count) && (i == |slots| || IsBlank(slots[i]))
    ensures var w := Wrap(i, |slots|); Scan(slots) == Ring(slots, if found then read / 256 else w, w, count)
    ensures found ==> read % 256 == 0 && read < 256 * |slots|
  {
    NoValidBelow(slots, i);
  }

  class Storage {
    const chip: W25q64
    var readAddr: nat
    var writeAddr: nat
    var entryCount: nat
    var overflowCount: nat
    var nvs: Option<nat>          // the committed "ovf_cnt", None while NOT_FOUND

    ghost predicate Valid()
      reads this, chip.mem
    {
      && chip.Valid() && 2 * SECTOR_SIZE <= chip.mem.Length <= 0x80_0000
      && readAddr % 256 == 0 && readAddr < chip.mem.Length
      && writeAddr % 256 == 0 && writeAddr < chip.mem.Length
      && 256 * entryCount <= chip.mem.Length
      && overflowCount < U32 && (nvs.Some? ==> nvs.value < U32)
    }

    ghost function View(): (g: Ring)
      requires Valid()
      reads this, chip.mem
      ensures Shape(g)
    {
      SlotsInChip(chip.mem.Length);
      SlotInChip(chip.mem.Length, readAddr);
      SlotInChip(chip.mem.Length, writeAddr);
      Ring(SlotsOf(chip.mem[..]), readAddr / 256, writeAddr / 256, entryCount)
    }

    /** RAM as it is at power-on, over a chip and an NVS that kept their contents. */
    constructor (chip: W25q64, nvs: Option<nat>)
      requires chip.Valid() && 2 * SECTOR_SIZE <= chip.mem.Length <= 0x80_0000
      requires nvs.Some? ==> nvs.value < U32
      ensures Valid() && this.chip == chip && this.nvs == nvs
      ensures View() == Ring(SlotsOf(chip.mem[..]), 0, 0, 0) && overflowCount == 0
    {
      this.chip := chip;
      readAddr, writeAddr, entryCount, overflowCount := 0, 0, 0, 0;
      this.nvs := nvs;
    }

    /** `overflow_persist`. */
    method OverflowPersist(nvsOk: bool)
      requires overflowCount < U32
      modifies this`nvs
      ensures nvs == if nvsOk then Some(overflowCount) else old(nvs)
    {
      if nvsOk {
        nvs := Some(overflowCount);
      }
    }

    /** `flash_storage_take_overflow`. */
    method TakeOverflow(nvsOk: bool) returns (taken: nat)
      requires Valid()
      modifies this`overflowCount, this`nvs
      ensures Valid() && taken == old(overflowCount) && overflowCount == 0
      ensures nvs == if nvsOk then Some(0) else old(nvs)
    {
      taken := overflowCount;
      overflowCount := 0;
      OverflowPersist(nvsOk);
    }

    /** `flash_storage_giveback_overflow`. */
    method GivebackOverflow(count: nat, nvsOk: bool)
      requires Valid() && count < U32
      modifies this`overflowCount, this`nvs
      ensures Valid() && overflowCount == (old(overflowCount) + count) % U32
      ensures nvs == if nvsOk then Some(overflowCount) else old(nvs)
    {
      overflowCount := (overflowCount + count) % U32;
      OverflowPersist(nvsOk);
    }

    /** `flash_storage_pending_count`. */
    method PendingCount() returns (n: nat)
      requires Valid()
      ensures n == View().n
    {
      n := entryCount;
    }

    /** The overwrite of the head's magic word with `MAGIC_SENT`. */
    method ZeroHead()
      requires Valid()
      modifies chip.mem
      ensures Valid()
      ensures var g := old(View()); View() == g.(slots := g.slots[g.r := Zeroed(g.slots[g.r])])
    {
      hide SlotsOf, Zeroed, Programmed, Poured;
      HeadZeroed(chip.mem[..], readAddr);
      var status := chip.Write(readAddr, Some(MAGIC_SENT));
    }

    /** `s_read_addr += CACHE_ENTRY_SIZE`, back to the start at the end of the chip, and one entry fewer. */
    method AdvanceRead()
      requires Valid() && entryCount > 0
      modifies this`readAddr, this`entryCount
      ensures Valid() && View() == Skip(old(View()))
    {
      hide SlotsOf;
      NextSlot(chip.mem.Length, readAddr);
      readAddr := readAddr + 256;
      if readAddr >= chip.mem.Length {
        readAddr := 0;
      }
      entryCount := entryCount - 1;
    }

    /** `flash_storage_mark_sent`. */
    method MarkSent()
      requires Valid() && View().n > 0
      modifies this`readAddr, this`entryCount, chip.mem
      ensures Valid() && View() == Mark(old(View()))
      ensures old(Inv(View())) ==> Inv(View()) && Window(View()) == Window(old(View()))[1..]
    {
      ghost var g := View();
      ZeroHead();
      AdvanceRead();
      if Inv(g) {
        MarkInv(g);
        HeadDropped(g);
      }
    }

    /** The entry at the read address. */
    method ReadHead() returns (entry: Slot)
      requires Valid()
      ensures entry == View().slots[View().r]
    {
      hide Poured, ReadOut, SlotsOf;
      HeadBytes(chip.mem[..], readAddr);
      var status, data := chip.Read(readAddr, 256, true);
      entry := data;
    }

    /** `flash_storage_read` with a buffer of `size` bytes. */
    method ReadOldest(size: nat) returns (rc: int, data: Bytes, ts: Stamp)
      requires Valid()
      modifies this`readAddr, this`entryCount, chip.mem
      ensures Valid()
      ensures var (h, o) := Read(old(View()), size);
              && View() == h
              && rc == (if o.Some? then 0 else -1)
              && (o.Some? ==> o.value == Entry(ts, data))
    {
      hide Zeroed, SlotsOf, LenOf, IsValid;
      ghost var g := View();
      while entryCount > 0
        invariant Valid()
        invariant Read(View(), size) == Read(g, size)
      {
        var entry := ReadHead();
        if Decodable(entry) {
          var e := Decode(entry);
          if |e.data| <= size {
            return 0, e.data, e.ts;
          }
        } else {
          ZeroHead();
        }
        AdvanceRead();
      }
      return -1, [], [0, 0, 0, 0];
    }

    /** Erasing the sector of the write address. */
    method EraseHere() returns (sector: nat)
      requires Valid()
      modifies chip.mem
      ensures Valid() && sector == writeAddr - writeAddr % SECTOR_SIZE
      ensures View() == old(View()).(slots := SectorBlank(old(View()).slots, View().w - View().w % 16))
    {
      hide SectorBlank, SlotsOf, Erased;
      SectorErased(chip.mem[..], writeAddr);
      sector := writeAddr - writeAddr % SECTOR_SIZE;
      chip.EraseSector(sector);
    }

    /** The read address behind an erased sector, and sixteen entries fewer. */
    method SkipSector(sector: nat)
      requires Valid() && entryCount >= 16 && sector == writeAddr - writeAddr % SECTOR_SIZE
      modifies this`readAddr, this`entryCount
      ensures Valid()
      ensures var g := old(View()); View() == g.(r := Wrap(g.w - g.w % 16 + 16, |g.slots|), n := g.n - 16)
    {
      hide SlotsOf, Wrap;
      SectorAddress(chip.mem.Length, writeAddr);
      SlotsInChip(chip.mem.Length);
      readAddr := sector + SECTOR_SIZE;
      if readAddr >= chip.mem.Length {
        readAddr := 0;
      }
      var entriesErased := SECTOR_SIZE / 256;
      entryCount := entryCount - entriesErased;
    }

    /** The eviction branch of `flash_storage_write`. */
    method EvictSector(nvsOk: bool)
      requires Valid() && View().n == |View().slots|
      modifies this`readAddr, this`entryCount, this`overflowCount, this`nvs, chip.mem
      ensures Valid() && View() == MakeRoom(old(View()))
      ensures overflowCount == (old(overflowCount) + 16) % U32
      ensures nvs == if nvsOk then Some(overflowCount) else old(nvs)
    {
      hide SectorBlank, SlotsOf, MakeRoom, Wrap;
      FullRoom(View());
      var sector := EraseHere();
      SkipSector(sector);
      overflowCount := (overflowCount + SECTOR_SIZE / 256) % U32;
      OverflowPersist(nvsOk);
    }

    /** The refill branch of `flash_storage_write`. */
    method RefillSector()
      requires Valid() && View().n < |View().slots| && writeAddr % SECTOR_SIZE == 0
      modifies chip.mem
      ensures Valid() && View() == MakeRoom(old(View()))
    {
      hide SectorBlank, SlotsOf;
      SectorOfSlot(writeAddr);
      var sector := EraseHere();
    }

    method EraseAhead(nvsOk: bool)
      requires Valid()
      modifies this`readAddr, this`entryCount, this`overflowCount, this`nvs, chip.mem
      ensures Valid() && View() == MakeRoom(old(View()))
      ensures var g := old(View());
              overflowCount == if g.n == |g.slots| then (old(overflowCount) + 16) % U32 else old(overflowCount)
      ensures nvs == if old(View()).n == |old(View()).slots| && nvsOk then Some(overflowCount) else old(nvs)
    {
      SectorOfSlot(writeAddr);
      if entryCount == chip.mem.Length / 256 {
        EvictSector(nvsOk);
      } else if writeAddr % SECTOR_SIZE == 0 {
        RefillSector();
      }
    }

    /** Building the entry, programming it, and moving the write address and the count on. */
    method ProgramEntry(e: Entry)
      requires Valid() && |e.data| <= DATA_MAX && View().n < |View().slots|
      modifies this`writeAddr, this`entryCount, chip.mem
      ensures Valid() && View() == Program(old(View()), Encode(e))
    {
      hide SlotsOf, AndSlot, Programmed, Poured, Encode;
      NextSlot(chip.mem.Length, writeAddr);
      SlotsInChip(chip.mem.Length);
      EntryProgrammed(chip.mem[..], writeAddr, Encode(e));
      var entry := Encode(e);
      var status := chip.Write(writeAddr, Some(entry));
      writeAddr := writeAddr + 256;
      if writeAddr >= chip.mem.Length {
        writeAddr := 0;
      }
      entryCount := entryCount + 1;
    }

    /** `flash_storage_write`; `ts` is the clock in milliseconds, as it is stored. */
    method Write(data: Bytes, ts: Stamp, nvsOk: bool) returns (rc: int)
      requires Valid() && |data| < 0x1_0000
      modifies this, chip.mem
      ensures Valid()
      ensures rc == if |data| > DATA_MAX then -2 else 0
      ensures View() == if rc == 0 then Append(old(View()), Entry(ts, data)) else old(View())
      ensures var g := old(View());
              overflowCount
              == if rc == 0 && g.n == |g.slots| then (old(overflowCount) + 16) % U32 else old(overflowCount)
      ensures nvs == if rc == 0 && old(View()).n == |old(View()).slots| && nvsOk then Some(overflowCount) else old(nvs)
      ensures rc == 0 && Inv(old(View())) && Guard(old(View())) ==>
                && Inv(View())
                && (old(View()).n < |old(View()).slots| ==> Fifo(View()) == Fifo(old(View())) + [Entry(ts, data)])
    {
      if |data| > DATA_MAX {
        return -2;
      }
      ghost var g := View();
      EraseAhead(nvsOk);
      ProgramEntry(Entry(ts, data));
      if Inv(g) && Guard(g) {
        AppendRefines(g, Entry(ts, data));
      }
      return 0;
    }

    /** Reading one magic word. */
    method ReadMagic(addr: nat, ghost i: nat) returns (magic: Bytes)
      requires chip.Valid() && chip.mem.Length <= 0x80_0000 && addr == 256 * i < chip.mem.Length
      ensures i < |SlotsOf(chip.mem[..])|
      ensures magic == MAGIC_VALID <==> IsValid(SlotsOf(chip.mem[..])[i])
      ensures magic == MAGIC_BLANK <==> IsBlank(SlotsOf(chip.mem[..])[i])
    {
      MagicAt(chip.mem[..], i);
      var status, data := chip.Read(addr, 4, true);
      magic := data;
    }

    /** One slot of the scan: a blank one stops it, a valid one is counted. */
    method ScanSlot(addr: nat, found: bool, ghost i: nat) returns (blank: bool, firstValidFound: bool)
      requires chip.Valid() && chip.mem.Length <= 0x80_0000 && addr == 256 * i < chip.mem.Length
      requires ScanState(SlotsOf(chip.mem[..]), i, found, readAddr, entryCount)
      modifies this`readAddr, this`writeAddr, this`entryCount
      ensures i < |SlotsOf(chip.mem[..])|
      ensures blank <==> IsBlank(SlotsOf(chip.mem[..])[i])
      ensures blank ==> writeAddr == addr && ScanState(SlotsOf(chip.mem[..]), i, firstValidFound, readAddr, entryCount)
      ensures !blank ==> ScanState(SlotsOf(chip.mem[..]), i + 1, firstValidFound, readAddr, entryCount)
    {
      var magic := ReadMagic(addr, i);
      blank := magic == MAGIC_BLANK;
      firstValidFound := found;
      if blank {
        writeAddr := addr;
        return;
      }
      ScanStep(SlotsOf(chip.mem[..]), i, found, readAddr, entryCount);
      if magic == MAGIC_VALID {
        entryCount := entryCount + 1;
        if !firstValidFound {
          readAddr := addr;
          firstValidFound := true;
        }
      }
    }

    /** The scan loop of `flash_storage_init`: stops at the first blank slot, or at the end of the chip. */
    method ScanLoop() returns (addr: nat, firstValidFound: bool, ghost i: nat)
      requires Valid()
      modifies this`readAddr, this`writeAddr, this`entryCount
      ensures addr == 256 * i <= chip.mem.Length
      ensures ScanState(SlotsOf(chip.mem[..]), i, firstValidFound, readAddr, entryCount)
      ensures i < |SlotsOf(chip.mem[..])| ==> IsBlank(SlotsOf(chip.mem[..])[i]) && writeAddr == addr
    {
      addr := 0;
      firstValidFound := false;
      entryCount := 0;
      i := 0;
      while addr < chip.mem.Length
        invariant addr == 256 * i
        invariant ScanState(SlotsOf(chip.mem[..]), i, firstValidFound, readAddr, entryCount)
      {
        var blank;
        blank, firstValidFound := ScanSlot(addr, firstValidFound, i);
        if blank {
          break;
        }
        addr := addr + 256;
        i := i + 1;
      }
    }

    /** Rebuilding the two addresses and the count from the magic words. */
    method ScanFlash()
      requires Valid()
      modifies this`readAddr, this`writeAddr, this`entryCount
      ensures Valid() && View() == Scan(old(View()).slots)
    {
      hide Scan, ScanState, SlotsOf, Wrap;
      var addr, firstValidFound, i := ScanLoop();
      ScanDone(SlotsOf(chip.mem[..]), i, firstValidFound, readAddr, entryCount);
      ScanStop(chip.mem.Length, i);
      SlotsInChip(chip.mem.Length);
      if addr >= chip.mem.Length {
        writeAddr := 0;
      }
      if !firstValidFound {
        readAddr := writeAddr;
      }
    }

    /** `flash_storage_init` after power-on. */
    method Init(chipOk: bool, nvsOk: bool) returns (err: Error)
      requires Valid()
      modifies this`readAddr, this`writeAddr, this`entryCount, this`overflowCount
      ensures Valid()
      ensures err == if !chipOk then ErrTimeout else if !nvsOk then ErrNvs else ErrOk
      ensures View() == if err == ErrOk then Scan(old(View()).slots) else old(View())
      ensures overflowCount == if err != ErrOk then old(overflowCount) else if nvs.None? then 0 else nvs.value
    {
      if !chipOk {
        return ErrTimeout;
      }
      if !nvsOk {
        return ErrNvs;
      }
      overflowCount := if nvs.None? then 0 else nvs.value;
      ScanFlash();
      return ErrOk;
    }
  }
}
