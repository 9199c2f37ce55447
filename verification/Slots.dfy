/** Small numbers as bytes; kept apart so that no other proof mixes integers with bit vectors. */
module ByteValue {
  function ToByte(n: nat): (b: bv8)
    requires n < 256
    ensures b as nat == n
  {
    if n == 0 then 0 else ToByte(n - 1) + 1
  }
}

/** The chip seen as 256-byte slots that hold cache entries (`cache_entry_t` of main/storage/flash_storage.h). */
module Slots {
  import opened ByteValue
  import opened Nor
  import opened Types

  const SLOT_SIZE: nat := 256
  const SLOTS_PER_SECTOR: nat := 16
  const DATA_MAX: nat := 244

  type Slot = s: Bytes | |s| == 256 witness seq(256, _ => 0xFF)

  /** An erased slot. */
  function Blank(): Slot {
    seq(256, _ => 0xFF)
  }

  type Stamp = s: Bytes | |s| == 4 witness [0, 0, 0, 0]

  /** What an entry means: the time of its write, as the four bytes the processor stores, and its payload. */
  datatype Entry = Entry(ts: Stamp, data: Bytes)

  // ---------- the three magic words, little-endian as the processor stores them ----------

  predicate IsValid(s: Slot) {
    s[0] == 0xEF && s[1] == 0xBE && s[2] == 0xAD && s[3] == 0xDE
  }

  predicate IsBlank(s: Slot) {
    s[0] == 0xFF && s[1] == 0xFF && s[2] == 0xFF && s[3] == 0xFF
  }

  predicate IsSent(s: Slot) {
    s[0] == 0 && s[1] == 0 && s[2] == 0 && s[3] == 0
  }

  /** Four bytes as the word that a little-endian processor stores. */
  function Word(b0: bv8, b1: bv8, b2: bv8, b3: bv8): bv32 {
    (b0 as bv32) | ((b1 as bv32) << 8) | ((b2 as bv32) << 16) | ((b3 as bv32) << 24)
  }

  lemma ValidWord(b0: bv8, b1: bv8, b2: bv8, b3: bv8)
    ensures Word(b0, b1, b2, b3) == 0xDEADBEEF <==> b0 == 0xEF && b1 == 0xBE && b2 == 0xAD && b3 == 0xDE
  {
  }

  lemma BlankWord(b0: bv8, b1: bv8, b2: bv8, b3: bv8)
    ensures Word(b0, b1, b2, b3) == 0xFFFFFFFF <==> b0 == 0xFF && b1 == 0xFF && b2 == 0xFF && b3 == 0xFF
  {
  }

  lemma SentWord(b0: bv8, b1: bv8, b2: bv8, b3: bv8)
    ensures Word(b0, b1, b2, b3) == 0 <==> b0 == 0 && b1 == 0 && b2 == 0 && b3 == 0
  {
  }

  /** The three states of a slot are the three values of its magic word. */
  lemma MagicWords(s: Slot)
    ensures IsValid(s) <==> Word(s[0], s[1], s[2], s[3]) == 0xDEADBEEF
    ensures IsBlank(s) <==> Word(s[0], s[1], s[2], s[3]) == 0xFFFFFFFF
    ensures IsSent(s) <==> Word(s[0], s[1], s[2], s[3]) == 0
  {
    hide Word;
    ValidWord(s[0], s[1], s[2], s[3]);
    BlankWord(s[0], s[1], s[2], s[3]);
    SentWord(s[0], s[1], s[2], s[3]);
  }

  // ---------- field access ----------

  function LenOf(s: Slot): nat {
    s[8] as nat + 256 * s[9] as nat
  }

  predicate Decodable(s: Slot) {
    IsValid(s) && LenOf(s) <= DATA_MAX
  }

  function Decode(s: Slot): Entry
    requires Decodable(s)
  {
    Entry(s[4..8], s[12..12 + LenOf(s)])
  }

  /** The 256 bytes that `flash_storage_write` programs. */
  function Encode(e: Entry): (s: Slot)
    requires |e.data| <= DATA_MAX
  {
    [0xEF, 0xBE, 0xAD, 0xDE] + e.ts + [ToByte(|e.data|), 0, 0, 0] + e.data
    + seq(DATA_MAX - |e.data|, _ => 0)
  }

  lemma EncodeHeader(e: Entry)
    requires |e.data| <= DATA_MAX
    ensures var s := Encode(e);
            IsValid(s) && s[4..8] == e.ts && s[8] == ToByte(|e.data|) && s[9] == 0
  {
  }

  lemma EncodeData(e: Entry)
    requires |e.data| <= DATA_MAX
    ensures Encode(e)[12..12 + |e.data|] == e.data
  {
    var head := [0xEF, 0xBE, 0xAD, 0xDE] + e.ts + [ToByte(|e.data|), 0, 0, 0];
    var tail: Bytes := seq(DATA_MAX - |e.data|, _ => 0);
    assert |head| == 12 && Encode(e) == head + e.data + tail;
  }

  /** Reading back a written entry gives the same payload and time. */
  lemma {:induction false} EncodeDecode(e: Entry)
    requires |e.data| <= DATA_MAX
    ensures LenOf(Encode(e)) == |e.data|
    ensures Decodable(Encode(e)) && Decode(Encode(e)) == e
  {
    EncodeHeader(e);
    EncodeData(e);
  }

  /** Where the fields of a written entry are, and that the rest of it is zero. */
  lemma EncodedFields(e: Entry, k: nat)
    requires |e.data| <= DATA_MAX && k < 256
    ensures var s := Encode(e);
            && s[..4] == [0xEF, 0xBE, 0xAD, 0xDE] && s[4..8] == e.ts
            && s[8] as nat == |e.data| && s[9] == s[10] == s[11] == 0
            && (12 <= k ==> s[k] == if k < 12 + |e.data| then e.data[k - 12] else 0)
  {
    EncodeHeader(e);
  }

  // ---------- programming a slot ----------

  ghost function AndSlot(s: Slot, t: Slot): (r: Slot) {
    seq(256, i requires 0 <= i < 256 => s[i] & t[i])
  }

  /** Overwriting the magic word with `MAGIC_SENT`. */
  function Zeroed(s: Slot): (r: Slot)
    ensures IsSent(r) && r[4..] == s[4..]
  {
    s[0 := 0][1 := 0][2 := 0][3 := 0]
  }

  lemma AndBlank(t: Slot)
    ensures AndSlot(Blank(), t) == t
  {
  }

  // ---------- from bytes to slots ----------

  ghost function SlotAt(mem: Bytes, k: nat): (s: Slot)
    requires 256 * k + 256 <= |mem|
  {
    mem[256 * k..256 * k + 256]
  }

  ghost function SlotsOf(mem: Bytes): (r: seq<Slot>)
    requires |mem| % SECTOR_SIZE == 0
    ensures |r| == |mem| / SLOT_SIZE && |r| % SLOTS_PER_SECTOR == 0
  {
    seq(|mem| / SLOT_SIZE, i requires 0 <= i < |mem| / SLOT_SIZE => SlotAt(mem, i))
  }

  ghost function BlankWithin(slots: seq<Slot>, base: nat, i: nat): Slot
    requires i < |slots|
  {
    if base <= i < base + SLOTS_PER_SECTOR then Blank() else slots[i]
  }

  /** Erasing the sector whose first slot is `base`. */
  ghost function SectorBlank(slots: seq<Slot>, base: nat): (r: seq<Slot>)
    ensures |r| == |slots|
  {
    seq(|slots|, i requires 0 <= i < |slots| => BlankWithin(slots, base, i))
  }

  /** A flat write that stays inside slot `k` changes no other slot. */
  lemma OtherSlotKept(mem: Bytes, k: nat, buf: Bytes, i: nat)
    requires 256 * k + 256 <= |mem| && |buf| <= 256 && i != k && 256 * i + 256 <= |mem|
    ensures SlotAt(Programmed(mem, 256 * k, buf), i) == SlotAt(mem, i)
  {
    var m := Programmed(mem, 256 * k, buf);
    forall b | 0 <= b < 256
      ensures SlotAt(m, i)[b] == SlotAt(mem, i)[b]
    {
      assert m[256 * i + b] == mem[256 * i + b];
    }
  }

  /** One cell of a flat write into slot `k`. */
  lemma CellProgrammed(mem: Bytes, k: nat, buf: Bytes, b: nat)
    requires 256 * k + 256 <= |mem| && |buf| <= 256 && b < 256
    ensures SlotAt(Programmed(mem, 256 * k, buf), k)[b]
            == if b < |buf| then SlotAt(mem, k)[b] & buf[b] else SlotAt(mem, k)[b]
  {
    var i := 256 * k + b;
    assert SlotAt(mem, k)[b] == mem[i];
    assert SlotAt(Programmed(mem, 256 * k, buf), k)[b] == Programmed(mem, 256 * k, buf)[i];
  }

  lemma SlotProgrammed(mem: Bytes, k: nat, t: Slot)
    requires 256 * k + 256 <= |mem|
    ensures SlotAt(Programmed(mem, 256 * k, t), k) == AndSlot(SlotAt(mem, k), t)
  {
    forall b: nat | b < 256
      ensures SlotAt(Programmed(mem, 256 * k, t), k)[b] == SlotAt(mem, k)[b] & t[b]
    {
      CellProgrammed(mem, k, t, b);
    }
  }

  lemma AndZero(x: bv8)
    ensures x & 0 == 0
  {
  }

  lemma SlotZeroed(mem: Bytes, k: nat)
    requires 256 * k + 256 <= |mem|
    ensures SlotAt(Programmed(mem, 256 * k, [0, 0, 0, 0]), k) == Zeroed(SlotAt(mem, k))
  {
    forall b: nat | b < 256
      ensures SlotAt(Programmed(mem, 256 * k, [0, 0, 0, 0]), k)[b] == if b < 4 then 0 else SlotAt(mem, k)[b]
    {
      CellProgrammed(mem, k, [0, 0, 0, 0], b);
      AndZero(SlotAt(mem, k)[b]);
    }
  }

  /** Two memories whose slots agree except for slot `k`. */
  lemma OneSlotChanged(mem: Bytes, m: Bytes, k: nat)
    requires |mem| % SECTOR_SIZE == 0 && |m| == |mem| && 256 * k + 256 <= |mem|
    requires forall i: nat | 256 * i + 256 <= |mem| && i != k :: SlotAt(m, i) == SlotAt(mem, i)
    ensures SlotsOf(m) == SlotsOf(mem)[k := SlotAt(m, k)]
  {
  }

  lemma ProgramSlot(mem: Bytes, k: nat, t: Slot)
    requires |mem| % SECTOR_SIZE == 0 && 256 * k + 256 <= |mem|
    ensures SlotsOf(Programmed(mem, 256 * k, t)) == SlotsOf(mem)[k := AndSlot(SlotsOf(mem)[k], t)]
  {
    var m := Programmed(mem, 256 * k, t);
    forall i: nat | 256 * i + 256 <= |mem| && i != k
      ensures SlotAt(m, i) == SlotAt(mem, i)
    {
      OtherSlotKept(mem, k, t, i);
    }
    OneSlotChanged(mem, m, k);
    SlotProgrammed(mem, k, t);
  }

  lemma ProgramMagic(mem: Bytes, k: nat)
    requires |mem| % SECTOR_SIZE == 0 && 256 * k + 256 <= |mem|
    ensures SlotsOf(Programmed(mem, 256 * k, [0, 0, 0, 0])) == SlotsOf(mem)[k := Zeroed(SlotsOf(mem)[k])]
  {
    var m := Programmed(mem, 256 * k, [0, 0, 0, 0]);
    forall i: nat | 256 * i + 256 <= |mem| && i != k
      ensures SlotAt(m, i) == SlotAt(mem, i)
    {
      OtherSlotKept(mem, k, [0, 0, 0, 0], i);
    }
    OneSlotChanged(mem, m, k);
    SlotZeroed(mem, k);
  }

  lemma EraseSlot(mem: Bytes, k: nat, i: nat)
    requires |mem| % SECTOR_SIZE == 0 && 256 * k < |mem| && k % SLOTS_PER_SECTOR == 0 && 256 * i + 256 <= |mem|
    ensures SlotAt(Erased(mem, 256 * k), i) == if k <= i < k + SLOTS_PER_SECTOR then Blank() else SlotAt(mem, i)
  {
    var m := Erased(mem, 256 * k);
    forall b | 0 <= b < 256
      ensures SlotAt(m, i)[b] == if k <= i < k + SLOTS_PER_SECTOR then 0xFF else SlotAt(mem, i)[b]
    {
      assert m[256 * i + b] == if (256 * i + b) / 4096 == (256 * k) / 4096 then 0xFF else mem[256 * i + b];
      assert (256 * i + b) / 4096 == i / 16;
    }
  }

  lemma EraseSlots(mem: Bytes, k: nat)
    requires |mem| % SECTOR_SIZE == 0 && 256 * k < |mem| && k % SLOTS_PER_SECTOR == 0
    ensures SlotsOf(Erased(mem, 256 * k)) == SectorBlank(SlotsOf(mem), k)
  {
    forall i: nat | i < |mem| / 256
      ensures SlotAt(Erased(mem, 256 * k), i) == SectorBlank(SlotsOf(mem), k)[i]
    {
      EraseSlot(mem, k, i);
    }
  }
}
