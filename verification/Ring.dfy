/** The ring of entries that main/storage/flash_storage.c keeps on the chip: the specification of its operations at
    slot level, and the proof that guarded runs of them are a first-in first-out queue with eviction.

    A `Ring` is the chip's slots plus the three RAM variables, with slot numbers in place of byte addresses. */
module Ring {
  import opened Slots
  import opened Types

  datatype Ring = Ring(slots: seq<Slot>, r: nat, w: nat, n: nat)

  /** What holds in every state, guarded or not: whole sectors, addresses inside the chip, a count within capacity. */
  ghost predicate Shape(g: Ring) {
    |g.slots| % 16 == 0 && 32 <= |g.slots| && g.r < |g.slots| && g.w < |g.slots| && g.n <= |g.slots|
  }

  function Wrap(i: nat, m: nat): nat {
    if i >= m then i - m else i
  }

  /** The `k`-th oldest pending slot. */
  ghost function Pending(g: Ring, k: nat): Slot
    requires Shape(g) && k < g.n
  {
    g.slots[Wrap(g.r + k, |g.slots|)]
  }

  ghost function Window(g: Ring): (ws: seq<Slot>)
    requires Shape(g)
    ensures |ws| == g.n
  {
    seq(g.n, k requires 0 <= k < g.n => Pending(g, k))
  }

  /** What one slot delivers: an undecodable one delivers nothing. */
  ghost function Delivered(s: Slot): seq<Entry> {
    if Decodable(s) then [Decode(s)] else []
  }

  ghost function Decoded(ws: seq<Slot>): seq<Entry> {
    if ws == [] then [] else Delivered(ws[0]) + Decoded(ws[1..])
  }

  /** The queue that a ring represents. */
  ghost function Fifo(g: Ring): seq<Entry>
    requires Shape(g)
  {
    Decoded(Window(g))
  }

  // ---------- the operations ----------

  ghost function MakeRoom(g: Ring): (h: Ring)
    requires Shape(g)
    ensures Shape(h) && h.w == g.w && h.n < |h.slots| && |h.slots| == |g.slots|
  {
    if g.n == |g.slots| then
      var base := g.w - g.w % 16;
      Ring(SectorBlank(g.slots, base), Wrap(base + 16, |g.slots|), g.w, g.n - 16)
    else if g.w % 16 == 0 then
      g.(slots := SectorBlank(g.slots, g.w))
    else
      g
  }

  ghost function Program(g: Ring, t: Slot): Ring
    requires Shape(g) && g.n < |g.slots|
  {
    Ring(g.slots[g.w := AndSlot(g.slots[g.w], t)], g.r, Wrap(g.w + 1, |g.slots|), g.n + 1)
  }

  /** A slot's worth of bytes written behind the newest entry. */
  ghost function Place(g: Ring, t: Slot): (h: Ring)
    requires Shape(g)
    ensures Shape(h) && |h.slots| == |g.slots|
  {
    Program(MakeRoom(g), t)
  }

  /** `flash_storage_write` of an entry that fits. */
  ghost function Append(g: Ring, e: Entry): (h: Ring)
    requires Shape(g) && |e.data| <= DATA_MAX
    ensures Shape(h) && |h.slots| == |g.slots|
  {
    Place(g, Encode(e))
  }

  ghost function Skip(g: Ring): (h: Ring)
    requires Shape(g) && g.n > 0
    ensures Shape(h) && |h.slots| == |g.slots|
  {
    g.(r := Wrap(g.r + 1, |g.slots|), n := g.n - 1)
  }

  /** The head leaves the window, rewritten to `t`. */
  ghost function Retire(g: Ring, t: Slot): (h: Ring)
    requires Shape(g) && g.n > 0
    ensures Shape(h) && |h.slots| == |g.slots|
  {
    Skip(g.(slots := g.slots[g.r := t]))
  }

  /** `flash_storage_mark_sent`; also one healing step of `flash_storage_read`. */
  ghost function Mark(g: Ring): (h: Ring)
    requires Shape(g) && g.n > 0
    ensures Shape(h) && |h.slots| == |g.slots|
  {
    Retire(g, Zeroed(g.slots[g.r]))
  }

  /** `flash_storage_read` with a buffer of `size` bytes: the healed ring and the entry delivered, if any. */
  ghost function Read(g: Ring, size: nat): (res: (Ring, Option<Entry>))
    requires Shape(g)
    ensures Shape(res.0) && |res.0.slots| == |g.slots|
    decreases g.n
  {
    if g.n == 0 then (g, None)
    else if Decodable(g.slots[g.r]) then
      if LenOf(g.slots[g.r]) <= size then (g, Some(Decode(g.slots[g.r]))) else Read(Skip(g), size)
    else Read(Mark(g), size)
  }

  // ---------- the invariant of guarded runs ----------

  /** The rest of a partly filled sector is erased and holds no pending entry. */
  ghost predicate TailBlank(g: Ring)
    requires Shape(g)
  {
    g.w % 16 != 0 ==>
      g.n + 16 <= |g.slots| + g.w % 16 && forall i | g.w <= i < g.w - g.w % 16 + 16 :: g.slots[i] == Blank()
  }

  ghost predicate Inv(g: Ring) {
    Shape(g) && g.w == Wrap(g.r + g.n, |g.slots|) && TailBlank(g)
  }

  /** The lap guard: a write that starts a sector finds it free of pending entries, or the ring full. */
  ghost predicate Guard(g: Ring) {
    g.w % 16 == 0 ==> g.n + 16 <= |g.slots| || g.n == |g.slots|
  }

  /** The window is exactly the set of slots whose magic is `MAGIC_VALID`. */
  ghost predicate Marked(g: Ring)
    requires Shape(g)
  {
    && (forall k: nat | k < g.n :: IsValid(Pending(g, k)))
    && (forall i: nat | i < |g.slots| && !InWindow(g, i) :: !IsValid(g.slots[i]))
  }

  ghost predicate InWindow(g: Ring, i: nat) {
    g.r <= i < g.r + g.n || i + |g.slots| < g.r + g.n
  }

  // ---------- decoding ----------

  lemma ConcatAssociates<T>(x: seq<T>, y: seq<T>, z: seq<T>)
    ensures x + (y + z) == (x + y) + z
  {
  }

  lemma DecodedHead(s: Slot, ws: seq<Slot>)
    ensures Decoded([s] + ws) == Delivered(s) + Decoded(ws)
  {
    assert ([s] + ws)[1..] == ws;
  }

  lemma {:induction false} DecodedConcat(a: seq<Slot>, b: seq<Slot>)
    ensures Decoded(a + b) == Decoded(a) + Decoded(b)
  {
    if a == [] {
      assert a + b == b;
    } else {
      DecodedConcat(a[1..], b);
      assert a + b == [a[0]] + (a[1..] + b);
      DecodedHead(a[0], a[1..] + b);
      ConcatAssociates(Delivered(a[0]), Decoded(a[1..]), Decoded(b));
    }
  }

  lemma DecodedEncode(e: Entry)
    requires |e.data| <= DATA_MAX
    ensures Decoded([Encode(e)]) == [e]
  {
    EncodeDecode(e);
  }

  lemma DecodedAppend(ws: seq<Slot>, e: Entry)
    requires |e.data| <= DATA_MAX
    ensures Decoded(ws + [Encode(e)]) == Decoded(ws) + [e]
  {
    DecodedConcat(ws, [Encode(e)]);
    DecodedEncode(e);
  }

  lemma DecodedSplit(ws: seq<Slot>, c: nat)
    requires c <= |ws|
    ensures Decoded(ws) == Decoded(ws[..c]) + Decoded(ws[c..])
  {
    assert ws == ws[..c] + ws[c..];
    DecodedConcat(ws[..c], ws[c..]);
  }

  // ---------- append ----------

  lemma RoomPending(g: Ring, k: nat)
    requires Inv(g) && Guard(g) && k < MakeRoom(g).n
    ensures Pending(MakeRoom(g), k) == Pending(g, k + g.n - MakeRoom(g).n)
  {
    hide Blank;
  }

  lemma RoomInv(g: Ring)
    requires Inv(g) && Guard(g)
    ensures Inv(MakeRoom(g)) && MakeRoom(g).slots[g.w] == Blank()
    ensures g.w % 16 == 0 ==> MakeRoom(g).n + 16 <= |g.slots|
    ensures forall i | g.w <= i < g.w - g.w % 16 + 16 :: MakeRoom(g).slots[i] == Blank()
  {
    hide Blank;
  }

  lemma RoomCount(g: Ring)
    requires Shape(g)
    ensures MakeRoom(g).n == if g.n == |g.slots| then g.n - 16 else g.n
  {
  }

  lemma MakeRoomWindow(g: Ring)
    requires Inv(g) && Guard(g)
    ensures Inv(MakeRoom(g)) && MakeRoom(g).slots[g.w] == Blank()
    ensures g.w % 16 == 0 ==> MakeRoom(g).n + 16 <= |g.slots|
    ensures forall i | g.w <= i < g.w - g.w % 16 + 16 :: MakeRoom(g).slots[i] == Blank()
    ensures Window(MakeRoom(g)) == if g.n == |g.slots| then Window(g)[16..] else Window(g)
  {
    hide Guard, MakeRoom, Pending, Blank, TailBlank;
    RoomInv(g);
    RoomCount(g);
    var h := MakeRoom(g);
    var d := g.n - h.n;
    forall k: nat | k < h.n
      ensures Pending(h, k) == Pending(g, k + d)
    {
      RoomPending(g, k);
    }
    assert Window(h) == Window(g)[d..];
  }

  lemma ProgramInv(g: Ring, t: Slot)
    requires Inv(g) && g.n < |g.slots|
    requires g.w % 16 == 0 ==> g.n + 16 <= |g.slots|
    requires forall i | g.w <= i < g.w - g.w % 16 + 16 :: g.slots[i] == Blank()
    ensures Inv(Program(g, t))
  {
    hide AndSlot, Blank, Program;
    assert g.n + 16 <= |g.slots| + g.w % 16;
    ProgramShape(g, t);
    ProgramTail(g, t);
  }

  lemma ProgramShape(g: Ring, t: Slot)
    requires Shape(g) && g.n < |g.slots| && g.w == Wrap(g.r + g.n, |g.slots|)
    ensures var h := Program(g, t); Shape(h) && h.w == Wrap(h.r + h.n, |h.slots|)
  {
    hide AndSlot;
  }

  lemma ProgramTail(g: Ring, t: Slot)
    requires Shape(g) && g.n < |g.slots| && g.n + 16 <= |g.slots| + g.w % 16
    requires forall i | g.w <= i < g.w - g.w % 16 + 16 :: g.slots[i] == Blank()
    ensures TailBlank(Program(g, t))
  {
    hide AndSlot, Blank, Wrap;
    ProgramShapeOnly(g, t);
    NextInSector(g.w, |g.slots|);
  }

  lemma ProgramShapeOnly(g: Ring, t: Slot)
    requires Shape(g) && g.n < |g.slots|
    ensures Shape(Program(g, t))
  {
    hide AndSlot;
  }

  lemma NextInSector(w: nat, m: nat)
    requires m % 16 == 0 && w < m
    ensures var v := Wrap(w + 1, m); v % 16 != 0 ==> v == w + 1 && v % 16 == w % 16 + 1
  {
  }

  lemma ProgramPending(g: Ring, t: Slot, k: nat)
    requires Shape(g) && g.n < |g.slots| && g.w == Wrap(g.r + g.n, |g.slots|) && g.slots[g.w] == Blank()
    requires k <= g.n
    ensures Pending(Program(g, t), k) == if k < g.n then Pending(g, k) else t
  {
    hide AndSlot, Blank;
    AndBlank(t);
  }

  lemma ProgramWindow(g: Ring, t: Slot)
    requires Inv(g) && g.n < |g.slots| && g.slots[g.w] == Blank()
    requires g.w % 16 == 0 ==> g.n + 16 <= |g.slots|
    requires forall i | g.w <= i < g.w - g.w % 16 + 16 :: g.slots[i] == Blank()
    ensures Inv(Program(g, t))
    ensures Window(Program(g, t)) == Window(g) + [t]
  {
    hide AndSlot, Blank, Pending, TailBlank;
    ProgramInv(g, t);
    var h := Program(g, t);
    forall k: nat | k <= g.n
      ensures Pending(h, k) == if k < g.n then Pending(g, k) else t
    {
      ProgramPending(g, t, k);
    }
    assert Window(h) == Window(g) + [t];
  }

  lemma PlaceWindow(g: Ring, t: Slot)
    requires Inv(g) && Guard(g)
    ensures Inv(Place(g, t)) && MakeRoom(g).slots[g.w] == Blank()
    ensures Window(Place(g, t)) == (if g.n == |g.slots| then Window(g)[16..] else Window(g)) + [t]
    ensures Place(g, t).slots == MakeRoom(g).slots[g.w := t]
  {
    MakeRoomWindow(g);
    ProgramWindow(MakeRoom(g), t);
    AndBlank(t);
  }

  /** A guarded write appends exactly the given entry, after dropping the sixteen oldest slots of a full ring, and
      lands on an erased slot. */
  lemma AppendRefines(g: Ring, e: Entry)
    requires Inv(g) && Guard(g) && |e.data| <= DATA_MAX
    ensures Inv(Append(g, e)) && MakeRoom(g).slots[g.w] == Blank()
    ensures Window(Append(g, e)) == (if g.n == |g.slots| then Window(g)[16..] else Window(g)) + [Encode(e)]
    ensures g.n < |g.slots| ==> Fifo(Append(g, e)) == Fifo(g) + [e]
    ensures g.n == |g.slots| ==>
              && Fifo(g) == Decoded(Window(g)[..16]) + Decoded(Window(g)[16..])
              && Fifo(Append(g, e)) == Decoded(Window(g)[16..]) + [e]
  {
    hide Guard, Place, MakeRoom, Encode, TailBlank;
    PlaceWindow(g, Encode(e));
    DecodedAppend(if g.n == |g.slots| then Window(g)[16..] else Window(g), e);
    if g.n == |g.slots| {
      DecodedSplit(Window(g), 16);
    }
  }

  // ---------- mark_sent and read ----------

  lemma SkipInv(g: Ring)
    requires Inv(g) && g.n > 0
    ensures Inv(Skip(g))
  {
  }

  lemma RetireInv(g: Ring, t: Slot)
    requires Inv(g) && g.n > 0
    ensures Inv(Retire(g, t))
  {
  }

  lemma MarkInv(g: Ring)
    requires Inv(g) && g.n > 0
    ensures Inv(Mark(g))
  {
    hide Inv, Retire;
    InvShape(g);
    RetireInv(g, Zeroed(g.slots[g.r]));
  }

  lemma InvShape(g: Ring)
    requires Inv(g)
    ensures Shape(g)
  {
  }

  lemma NextPending(g: Ring, t: Slot, k: nat)
    requires Shape(g) && k + 1 < g.n
    ensures Pending(Retire(g, t), k) == Pending(g, k + 1) == Pending(Skip(g), k)
  {
  }

  lemma HeadSplit(g: Ring, t: Slot)
    requires Shape(g) && g.n > 0
    ensures Window(g) == [g.slots[g.r]] + Window(Retire(g, t))
    ensures Window(Skip(g)) == Window(Retire(g, t))
  {
    forall k: nat | k + 1 < g.n
      ensures Pending(Retire(g, t), k) == Pending(g, k + 1) == Pending(Skip(g), k)
    {
      NextPending(g, t, k);
    }
    assert Pending(g, 0) == g.slots[g.r];
  }

  /** Dropping the head slot, rewritten or not, drops exactly the oldest element of the window. */
  lemma HeadDropped(g: Ring)
    requires Inv(g) && g.n > 0
    ensures Window(g) == [g.slots[g.r]] + Window(Mark(g))
    ensures Window(Skip(g)) == Window(Mark(g))
    ensures Decoded(Window(g)) == Decoded([g.slots[g.r]]) + Decoded(Window(Mark(g)))
  {
    HeadSplit(g, Zeroed(g.slots[g.r]));
    DecodedConcat([g.slots[g.r]], Window(Mark(g)));
  }

  /** A queue without the leading entries that are too long for the reader's buffer. */
  ghost function DropLong(f: seq<Entry>, size: nat): seq<Entry> {
    if f == [] || |f[0].data| <= size then f else DropLong(f[1..], size)
  }

  /** `flash_storage_read` delivers the oldest decodable entry that fits the buffer, unchanged, and leaves it queued. */
  lemma {:induction false} ReadRefines(g: Ring, size: nat)
    requires Inv(g)
    ensures var (h, o) := Read(g, size);
            && Inv(h) && h.w == g.w && h.n <= g.n
            && Fifo(h) == DropLong(Fifo(g), size)
            && o == (if Fifo(h) == [] then None else Some(Fifo(h)[0]))
            && (o.None? <==> h.n == 0)
            && (o.Some? ==> Decodable(h.slots[h.r]) && o.value == Decode(h.slots[h.r]))
    decreases g.n
  {
    if g.n > 0 {
      HeadDropped(g);
      MarkInv(g);
      SkipInv(g);
      var s := g.slots[g.r];
      if !Decodable(s) {
        assert Fifo(g) == Fifo(Mark(g));
        ReadRefines(Mark(g), size);
      } else {
        assert Fifo(g) == [Decode(s)] + Fifo(Skip(g));
        if LenOf(s) > size {
          ReadRefines(Skip(g), size);
        }
      }
    }
  }

  // ---------- what a read does to the flash ----------

  /** How far slot `p` is behind the read address. */
  function Behind(g: Ring, p: nat): int {
    if p >= g.r then p - g.r else p + |g.slots| - g.r
  }

  /** Slot `p` when a read of `g` has passed `passed` slots: a passed one that cannot be decoded has its magic word
      overwritten and nothing else; every other slot is as it was. */
  ghost predicate HealedAt(g: Ring, slots: seq<Slot>, passed: nat, p: nat)
    requires p < |g.slots| == |slots|
  {
    if Behind(g, p) < passed && !Decodable(g.slots[p]) then IsSent(slots[p]) && slots[p][4..] == g.slots[p][4..]
    else slots[p] == g.slots[p]
  }

  lemma ZeroedIsSent(s: Slot)
    ensures IsSent(Zeroed(s)) && Zeroed(s)[4..] == s[4..]
  {
  }

  lemma BehindNext(g: Ring, h: Ring, p: nat)
    requires Shape(g) && g.n > 0 && p < |g.slots| == |h.slots| && h.r == Wrap(g.r + 1, |g.slots|)
    ensures Behind(h, p) == if p == g.r then |g.slots| - 1 else Behind(g, p) - 1
  {
  }

  /** One slot more in front of what the rest of a read passes. */
  lemma HealedNext(g: Ring, h: Ring, slots: seq<Slot>, passed: nat, p: nat)
    requires Shape(g) && g.n > 0 && p < |g.slots| == |h.slots| == |slots| && h.r == Wrap(g.r + 1, |g.slots|)
    requires h.slots == g.slots[g.r := if Decodable(g.slots[g.r]) then g.slots[g.r] else Zeroed(g.slots[g.r])]
    requires passed < |g.slots| && HealedAt(h, slots, passed, p)
    ensures HealedAt(g, slots, passed + 1, p)
  {
    hide Decodable, IsSent, Zeroed, Wrap;
    BehindNext(g, h, p);
    ZeroedIsSent(g.slots[g.r]);
    if p != g.r {
      assert h.slots[p] == g.slots[p];
    }
  }

  /** The entries that a read passes without overwriting them are too long for its buffer. */
  ghost predicate PassedOver(g: Ring, size: nat, passed: nat, p: nat)
    requires p < |g.slots|
  {
    Behind(g, p) < passed && Decodable(g.slots[p]) ==> LenOf(g.slots[p]) > size
  }

  lemma PassedOverNext(g: Ring, h: Ring, size: nat, passed: nat, p: nat)
    requires Shape(g) && g.n > 0 && p < |g.slots| == |h.slots| && h.r == Wrap(g.r + 1, |g.slots|)
    requires p != g.r ==> h.slots[p] == g.slots[p]
    requires Decodable(g.slots[g.r]) ==> LenOf(g.slots[g.r]) > size
    requires passed < |g.slots| && PassedOver(h, size, passed, p)
    ensures PassedOver(g, size, passed + 1, p)
  {
    hide Decodable, LenOf, Wrap;
    BehindNext(g, h, p);
  }

  /** Where a read stops. */
  lemma {:induction false} ReadStops(g: Ring, size: nat)
    requires Shape(g)
    ensures var (h, o) := Read(g, size);
            && h.n <= g.n && h.w == g.w && h.r == Wrap(g.r + (g.n - h.n), |g.slots|)
            && (o.Some? <==> h.n > 0)
            && (o.Some? ==> Decodable(h.slots[h.r]) && LenOf(h.slots[h.r]) <= size && o.value == Decode(h.slots[h.r]))
    decreases g.n
  {
    hide Decodable, LenOf, Decode, Zeroed;
    if g.n > 0 {
      if !Decodable(g.slots[g.r]) {
        ReadStops(Mark(g), size);
      } else if LenOf(g.slots[g.r]) > size {
        ReadStops(Skip(g), size);
      }
    }
  }

  lemma HealedNothing(g: Ring, size: nat, p: nat)
    requires Shape(g) && p < |g.slots|
    ensures HealedAt(g, g.slots, 0, p) && PassedOver(g, size, 0, p)
  {
  }

  /** The ring in front of which a read goes on, and what is left of it. */
  lemma ReadOnce(g: Ring, size: nat)
    requires Shape(g) && g.n > 0 && (Decodable(g.slots[g.r]) ==> LenOf(g.slots[g.r]) > size)
    ensures var d := if Decodable(g.slots[g.r]) then Skip(g) else Mark(g);
            && Read(g, size) == Read(d, size) && d.r == Wrap(g.r + 1, |g.slots|) && d.n == g.n - 1
            && d.slots == g.slots[g.r := if Decodable(g.slots[g.r]) then g.slots[g.r] else Zeroed(g.slots[g.r])]
  {
    hide Decodable, LenOf, Decode, Zeroed;
  }

  lemma {:induction false} ReadHealsAt(g: Ring, size: nat, p: nat)
    requires Shape(g) && p < |g.slots|
    ensures var h := Read(g, size).0;
            h.n <= g.n && HealedAt(g, h.slots, g.n - h.n, p) && PassedOver(g, size, g.n - h.n, p)
    decreases g.n
  {
    hide Read, Skip, Mark, Decodable, LenOf, HealedAt, PassedOver, Zeroed, Wrap;
    ReadStops(g, size);
    var h := Read(g, size).0;
    if g.n == 0 || (Decodable(g.slots[g.r]) && LenOf(g.slots[g.r]) <= size) {
      ReadNothing(g, size);
      HealedNothing(g, size, p);
    } else {
      var d := if Decodable(g.slots[g.r]) then Skip(g) else Mark(g);
      ReadOnce(g, size);
      ReadHealsAt(d, size, p);
      HealedNext(g, d, h.slots, d.n - h.n, p);
      PassedOverNext(g, d, size, d.n - h.n, p);
    }
  }

  lemma ReadNothing(g: Ring, size: nat)
    requires Shape(g) && (g.n == 0 || (Decodable(g.slots[g.r]) && LenOf(g.slots[g.r]) <= size))
    ensures Read(g, size).0 == g
  {
    hide Decodable, LenOf, Decode;
  }

  /** Exactly what a read does to any ring at all, damaged or lapped. Of the slots that it passes, those that cannot be
      decoded have their magic word overwritten with `MAGIC_SENT` and keep their other bytes; those that can are too
      long for the buffer and stay as they are. No other slot changes, nor does the write address. */
  lemma ReadHeals(g: Ring, size: nat)
    requires Shape(g)
    ensures var (h, o) := Read(g, size);
            && h.n <= g.n && h.w == g.w && h.r == Wrap(g.r + (g.n - h.n), |g.slots|)
            && (o.Some? <==> h.n > 0)
            && (o.Some? ==> Decodable(h.slots[h.r]) && LenOf(h.slots[h.r]) <= size && o.value == Decode(h.slots[h.r]))
            && (forall p: nat | p < |g.slots| && Behind(g, p) < g.n - h.n ::
                  if Decodable(g.slots[p]) then LenOf(g.slots[p]) > size && h.slots[p] == g.slots[p]
                  else IsSent(h.slots[p]) && h.slots[p][4..] == g.slots[p][4..])
            && (forall p: nat | p < |g.slots| && Behind(g, p) >= g.n - h.n :: h.slots[p] == g.slots[p])
  {
    hide Read, Decodable, LenOf, Decode, IsSent, Wrap, Behind;
    ReadStops(g, size);
    var h := Read(g, size).0;
    var passed := g.n - h.n;
    forall p: nat | p < |g.slots|
      ensures Behind(g, p) < passed ==>
                if Decodable(g.slots[p]) then LenOf(g.slots[p]) > size && h.slots[p] == g.slots[p]
                else IsSent(h.slots[p]) && h.slots[p][4..] == g.slots[p][4..]
      ensures Behind(g, p) >= passed ==> h.slots[p] == g.slots[p]
    {
      ReadHealsAt(g, size, p);
    }
  }

  /** Marking after a successful read removes exactly the entry that was delivered. */
  lemma MarkRefines(g: Ring)
    requires Inv(g) && g.n > 0 && Decodable(g.slots[g.r])
    ensures Inv(Mark(g))
    ensures Fifo(g) == [Decode(g.slots[g.r])] + Fifo(Mark(g))
  {
    HeadDropped(g);
    MarkInv(g);
  }

  /** No pending entry is too long for a buffer of `CACHE_DATA_MAX` bytes. */
  lemma {:induction false} NothingTooLong(ws: seq<Slot>, size: nat)
    requires size >= DATA_MAX
    ensures DropLong(Decoded(ws), size) == Decoded(ws)
  {
    if ws != [] {
      NothingTooLong(ws[1..], size);
      if Decodable(ws[0]) {
        assert Decoded(ws)[0] == Decode(ws[0]);
      } else {
        assert Decoded(ws) == Decoded(ws[1..]);
      }
    }
  }

  // ---------- the magic words of guarded runs ----------

  lemma PlacePendingValid(g: Ring, t: Slot, k: nat)
    requires Inv(g) && Guard(g) && Marked(g) && IsValid(t) && k < Place(g, t).n
    ensures IsValid(Pending(Place(g, t), k))
  {
    hide Place, MakeRoom, TailBlank, Guard, Pending, InWindow;
    var h := Place(g, t);
    PlaceWindow(g, t);
    assert Window(h)[k] == Pending(h, k);
    if k < h.n - 1 {
      var d := if g.n == |g.slots| then 16 else 0;
      assert Window(h)[k] == Window(g)[k + d] == Pending(g, k + d);
    }
  }

  lemma PlaceOthersInvalid(g: Ring, t: Slot, i: nat)
    requires Inv(g) && Guard(g) && Marked(g)
    requires i < |g.slots| && !InWindow(Place(g, t), i)
    ensures !IsValid(Place(g, t).slots[i])
  {
    assert !IsValid(Blank());
    assert i != g.w;
    assert Place(g, t).slots[i] == MakeRoom(g).slots[i];
    if MakeRoom(g).slots[i] != Blank() {
      assert MakeRoom(g).slots[i] == g.slots[i];
      assert !InWindow(g, i);
    }
  }

  lemma PlaceMarked(g: Ring, t: Slot)
    requires Inv(g) && Guard(g) && Marked(g) && IsValid(t)
    ensures Marked(Place(g, t))
  {
    forall k: nat | k < Place(g, t).n
      ensures IsValid(Pending(Place(g, t), k))
    {
      PlacePendingValid(g, t, k);
    }
    forall i: nat | i < |g.slots| && !InWindow(Place(g, t), i)
      ensures !IsValid(Place(g, t).slots[i])
    {
      PlaceOthersInvalid(g, t, i);
    }
  }

  lemma AppendMarked(g: Ring, e: Entry)
    requires Inv(g) && Guard(g) && Marked(g) && |e.data| <= DATA_MAX
    ensures Marked(Append(g, e))
  {
    hide Inv, Guard, Marked, Place;
    EncodeDecode(e);
    PlaceMarked(g, Encode(e));
  }

  lemma RetireMarked(g: Ring, t: Slot)
    requires Inv(g) && Marked(g) && g.n > 0 && !IsValid(t)
    ensures Marked(Retire(g, t))
  {
    var h := Retire(g, t);
    forall k: nat | k < h.n
      ensures IsValid(Pending(h, k))
    {
      NextPending(g, t, k);
    }
    forall i: nat | i < |h.slots| && !InWindow(h, i)
      ensures !IsValid(h.slots[i])
    {
    }
  }

  lemma MarkMarked(g: Ring)
    requires Inv(g) && Marked(g) && g.n > 0
    ensures Marked(Mark(g))
  {
    RetireMarked(g, Zeroed(g.slots[g.r]));
  }

  lemma {:induction false} ReadMarked(g: Ring, size: nat)
    requires Inv(g) && Marked(g) && size >= DATA_MAX
    ensures Marked(Read(g, size).0)
    decreases g.n
  {
    if g.n > 0 && !Decodable(g.slots[g.r]) {
      MarkInv(g);
      MarkMarked(g);
      ReadMarked(Mark(g), size);
    }
  }
}
