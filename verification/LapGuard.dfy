/** The refill branch of `flash_storage_write` (main/storage/flash_storage.c:196-199) erases the sector at the write
    address without looking at the read address. This module says exactly when that is harmless. */
module LapGuard {
  import opened Slots
  import opened Ring
  import opened Types

  ghost function Blanks(n: nat): (ws: seq<Slot>)
    ensures |ws| == n
  {
    seq(n, _ => Blank())
  }

  lemma {:induction false} BlanksDecodeToNothing(n: nat)
    ensures Decoded(Blanks(n)) == []
  {
    if n > 0 {
      assert Blanks(n)[1..] == Blanks(n - 1);
      assert !IsValid(Blank());
      BlanksDecodeToNothing(n - 1);
    }
  }

  lemma BlanksDropped(c: nat, ws: seq<Slot>)
    ensures Decoded(Blanks(c) + ws) == Decoded(ws)
  {
    DecodedConcat(Blanks(c), ws);
    BlanksDecodeToNothing(c);
  }

  /** Outside the guard one accepted write blanks exactly `n - (MAX - 16)` pending slots, the oldest ones, and counts
      none of them as evicted: the ring was not full. */
  lemma GuardIsTight(g: Ring, e: Entry)
    requires Inv(g) && !Guard(g) && |e.data| <= DATA_MAX
    ensures g.n < |g.slots| && 1 <= g.n + 16 - |g.slots| <= 15
    ensures var c := g.n + 16 - |g.slots|;
            && Append(g, e).n == g.n + 1
            && Window(Append(g, e)) == Blanks(c) + Window(g)[c..] + [Encode(e)]
            && Fifo(g) == Decoded(Window(g)[..c]) + Decoded(Window(g)[c..])
            && Fifo(Append(g, e)) == Decoded(Window(g)[c..]) + [e]
  {
    ClobberedWindow(g, e);
    var c := g.n + 16 - |g.slots|;
    DecodedAppend(Blanks(c) + Window(g)[c..], e);
    BlanksDropped(c, Window(g)[c..]);
    DecodedSplit(Window(g), c);
  }

  lemma ClobberedWindow(g: Ring, e: Entry)
    requires Inv(g) && !Guard(g) && |e.data| <= DATA_MAX
    ensures var c := g.n + 16 - |g.slots|;
            Window(Append(g, e)) == Blanks(c) + Window(g)[c..] + [Encode(e)]
  {
    hide Pending, Encode, TailBlank, AndSlot, Blank, Append;
    var c := g.n + 16 - |g.slots|;
    var h := Append(g, e);
    AppendCounts(g, e);
    forall k: nat | k < h.n
      ensures Pending(h, k) == if k < c then Blank() else if k < g.n then Pending(g, k) else Encode(e)
    {
      ClobberedPending(g, e, k);
    }
    assert Window(h) == Blanks(c) + Window(g)[c..] + [Encode(e)];
  }

  lemma AppendCounts(g: Ring, e: Entry)
    requires Inv(g) && !Guard(g) && |e.data| <= DATA_MAX
    ensures Append(g, e).n == g.n + 1
  {
    hide Encode, TailBlank;
  }

  lemma ClobberedPending(g: Ring, e: Entry, k: nat)
    requires Inv(g) && !Guard(g) && |e.data| <= DATA_MAX && k < Append(g, e).n
    ensures Pending(Append(g, e), k)
         == if k < g.n + 16 - |g.slots| then Blank() else if k < g.n then Pending(g, k) else Encode(e)
  {
    hide AndSlot, Blank, Encode, TailBlank;
    AndBlank(Encode(e));
  }

  /** The queue step of `flash_storage_write`: append, after dropping the sixteen oldest slots of a full ring. */
  ghost predicate QueueStep(g: Ring, e: Entry)
    requires Shape(g) && |e.data| <= DATA_MAX
  {
    Window(Append(g, e)) == (if g.n == |g.slots| then Window(g)[16..] else Window(g)) + [Encode(e)]
  }

  /** On every ring that guarded running can reach, a write is the queue step if and only if the guard holds. */
  lemma GuardIsExact(g: Ring, e: Entry)
    requires Inv(g) && Marked(g) && |e.data| <= DATA_MAX
    ensures QueueStep(g, e) <==> Guard(g)
  {
    if Guard(g) {
      AppendRefines(g, e);
    } else {
      GuardIsTight(g, e);
      assert Window(Append(g, e))[0] == Blank();
      assert Window(g)[0] == Pending(g, 0);
      assert !IsValid(Blank());
    }
  }

  // ---------- runs that only write ----------

  /** A chip of `sectors` erased sectors. */
  ghost function ErasedRing(sectors: nat): (g: Ring)
    requires sectors >= 2
    ensures Inv(g) && Marked(g) && g.n == 0
  {
    var g := Ring(Blanks(16 * sectors), 0, 0, 0);
    assert !IsValid(Blank());
    g
  }

  ghost predicate Fits(es: seq<Entry>) {
    forall i | 0 <= i < |es| :: |es[i].data| <= DATA_MAX
  }

  ghost function AppendAll(g: Ring, es: seq<Entry>): (h: Ring)
    requires Shape(g) && Fits(es)
    ensures Shape(h) && |h.slots| == |g.slots|
  {
    if es == [] then g else Append(AppendAll(g, es[..|es| - 1]), es[|es| - 1])
  }

  /** Entries held after `k` writes into an empty ring of `m` slots. */
  function Held(k: nat, m: nat): nat
    requires m >= 32
  {
    if k <= m then k else m - 15 + (k - m - 1) % 16
  }

  lemma HeldNext(k: nat, m: nat)
    requires m >= 32
    ensures Held(k + 1, m) == if Held(k, m) == m then m - 15 else Held(k, m) + 1
  {
  }

  ghost function Encoded(es: seq<Entry>): (ws: seq<Slot>)
    requires Fits(es)
    ensures |ws| == |es|
  {
    seq(|es|, i requires 0 <= i < |es| => Encode(es[i]))
  }

  lemma EncodedConcat(es: seq<Entry>, e: Entry)
    requires Fits(es) && |e.data| <= DATA_MAX
    ensures Fits(es + [e]) && Encoded(es + [e]) == Encoded(es) + [Encode(e)]
  {
  }

  lemma {:induction false} EncodedDecodes(es: seq<Entry>)
    requires Fits(es)
    ensures Decoded(Encoded(es)) == es
  {
    if es != [] {
      assert Encoded(es)[1..] == Encoded(es[1..]);
      EncodeDecode(es[0]);
      EncodedDecodes(es[1..]);
    }
  }

  /** The state after writing `es` into an empty ring: the newest entries, in order, from a sector boundary. */
  ghost predicate HoldsNewest(h: Ring, es: seq<Entry>)
    requires Fits(es)
  {
    && Inv(h) && Marked(h) && Guard(h) && h.r % 16 == 0
    && h.n == Held(|es|, |h.slots|) <= |es|
    && Window(h) == Encoded(es[|es| - h.n..])
  }

  lemma AlignedRead(p: Ring, e: Entry)
    requires Shape(p) && p.r % 16 == 0 && |e.data| <= DATA_MAX
    ensures Append(p, e).r % 16 == 0
  {
    hide Encode;
  }

  lemma AlignedStep(p: Ring, e: Entry)
    requires Inv(p) && p.r % 16 == 0 && |e.data| <= DATA_MAX && Inv(Append(p, e))
    ensures Guard(p) && Guard(Append(p, e))
    ensures var h := Append(p, e); h.r % 16 == 0 && h.n == if p.n == |p.slots| then p.n - 15 else p.n + 1
  {
    hide Inv, Guard, Append;
    InvShape(p);
    AlignedGuard(p);
    AlignedRead(p, e);
    AppendSize(p, e);
    AlignedGuard(Append(p, e));
  }

  lemma AlignedGuard(p: Ring)
    requires Inv(p) && p.r % 16 == 0
    ensures Guard(p)
  {
  }

  lemma NewestWindow(w: seq<Slot>, h: seq<Slot>, es: seq<Entry>, e: Entry, d: nat)
    requires Fits(es) && |e.data| <= DATA_MAX && d <= |w| <= |es|
    requires w == Encoded(es[|es| - |w|..]) && h == w[d..] + [Encode(e)]
    ensures Fits(es + [e]) && h == Encoded((es + [e])[|es| + 1 - |h|..])
  {
    var kept := es[|es| - |w| + d..];
    assert w[d..] == Encoded(kept);
    EncodedConcat(kept, e);
    assert (es + [e])[|es| + 1 - |h|..] == kept + [e];
  }

  lemma AppendSize(p: Ring, e: Entry)
    requires Shape(p) && |e.data| <= DATA_MAX
    ensures Append(p, e).n == if p.n == |p.slots| then p.n - 15 else p.n + 1
  {
    hide Encode;
  }

  lemma StepWindow(p: Ring, es: seq<Entry>, e: Entry)
    requires Fits(es) && Inv(p) && Guard(p) && |e.data| <= DATA_MAX
    requires p.n <= |es| && Window(p) == Encoded(es[|es| - p.n..])
    ensures Fits(es + [e]) && Append(p, e).n <= |es| + 1
    ensures Window(Append(p, e)) == Encoded((es + [e])[|es| + 1 - Append(p, e).n..])
  {
    hide Inv, Guard, Append, Encode, Fifo;
    InvShape(p);
    AppendRefines(p, e);
    AppendSize(p, e);
    var d := if p.n == |p.slots| then 16 else 0;
    assert Window(p)[d..] == if p.n == |p.slots| then Window(p)[16..] else Window(p);
    NewestWindow(Window(p), Window(Append(p, e)), es, e, d);
  }

  lemma WriteOnlyStep(p: Ring, es: seq<Entry>, e: Entry)
    requires Fits(es) && HoldsNewest(p, es) && |e.data| <= DATA_MAX
    ensures Fits(es + [e]) && HoldsNewest(Append(p, e), es + [e])
  {
    hide Inv, Guard, Marked, Append, Encode, Encoded, Held, Fifo;
    InvShape(p);
    AppendRefines(p, e);
    AlignedStep(p, e);
    AppendMarked(p, e);
    HeldNext(|es|, |p.slots|);
    StepWindow(p, es, e);
  }

  lemma NextHoldsNewest(g: Ring, es: seq<Entry>, e: Entry)
    requires Shape(g) && Fits(es) && HoldsNewest(AppendAll(g, es), es) && |e.data| <= DATA_MAX
    ensures Fits(es + [e]) && HoldsNewest(AppendAll(g, es + [e]), es + [e])
  {
    var p := AppendAll(g, es);
    WriteOnlyStep(p, es, e);
    assert (es + [e])[..|es|] == es;
  }

  lemma {:induction false} WritesHoldNewest(g: Ring, es: seq<Entry>)
    requires Inv(g) && Marked(g) && g.n == 0 && g.r % 16 == 0 && Fits(es)
    ensures HoldsNewest(AppendAll(g, es), es)
  {
    if es == [] {
      EmptyHoldsNothing(g);
    } else {
      var k := |es| - 1;
      var init, last := es[..k], es[k];
      WritesHoldNewest(g, init);
      assert init + [last] == es;
      NextHoldsNewest(g, init, last);
    }
  }

  /** Writing alone, for any number of entries, never violates the guard, and the queue is always the newest entries. */
  lemma WriteOnlyRuns(g: Ring, es: seq<Entry>)
    requires Inv(g) && Marked(g) && g.n == 0 && g.r % 16 == 0 && Fits(es)
    ensures var h := AppendAll(g, es);
            HoldsNewest(h, es) && Fifo(h) == es[|es| - h.n..]
  {
    WritesHoldNewest(g, es);
    NewestQueue(AppendAll(g, es), es);
  }

  lemma NewestQueue(h: Ring, es: seq<Entry>)
    requires Fits(es) && HoldsNewest(h, es)
    ensures Fifo(h) == es[|es| - h.n..]
  {
    EncodedDecodes(es[|es| - h.n..]);
  }

  lemma EmptyHoldsNothing(g: Ring)
    requires Inv(g) && Marked(g) && g.n == 0 && g.r % 16 == 0
    ensures HoldsNewest(g, [])
  {
    assert Window(g) == Encoded([]);
  }

  // ---------- one more write ----------

  lemma FirstRing(g: Ring, e: Entry)
    requires Inv(g) && !Guard(g) && |e.data| <= DATA_MAX
    ensures var h := Append(g, e);
            && h.r == g.r && h.w == g.w + 1 && h.n == g.n + 1
            && forall i | 0 <= i < |g.slots| && !(g.w <= i < g.w + 16) :: h.slots[i] == g.slots[i]
  {
    hide AndSlot, Blank, Encode, TailBlank;
  }

  lemma SectorBase(w: nat, base: nat)
    requires base % 16 == 0 && base < w < base + 15
    ensures w - w % 16 == base
  {
  }

  lemma FullRoom(g: Ring, base: nat)
    requires Shape(g) && g.n == |g.slots| && base % 16 == 0 && base < g.w < base + 15
    ensures MakeRoom(g) == Ring(SectorBlank(g.slots, base), Wrap(base + 16, |g.slots|), g.w, g.n - 16)
  {
    hide SectorBlank, Wrap;
    SectorBase(g.w, base);
  }

  /** A write to a full ring, wherever its write address is. */
  lemma FullRing(g: Ring, base: nat, e: Entry)
    requires Shape(g) && g.n == |g.slots| && base % 16 == 0 && base < g.w < base + 15 && |e.data| <= DATA_MAX
    ensures var h := Append(g, e);
            && h.r == Wrap(base + 16, |g.slots|) && h.w == g.w + 1 && h.n == g.n - 15 && h.slots[base] == Blank()
            && forall i | 0 <= i < |g.slots| && !(base <= i < base + 16) :: h.slots[i] == g.slots[i]
  {
    hide AndSlot, Blank, Encode, MakeRoom;
    FullRoom(g, base);
  }

  /** The ring after both writes, slot by slot outside the sector of the write address. */
  lemma SecondRing(g: Ring, e: Entry, f: Entry)
    requires Inv(g) && !Guard(g) && g.n + 1 == |g.slots| && |e.data| <= DATA_MAX && |f.data| <= DATA_MAX
    ensures var h := Append(Append(g, e), f);
            && h.r == Wrap(g.w + 16, |g.slots|) && h.w == g.w + 2 && h.n == g.n - 14 && h.slots[g.w] == Blank()
            && forall i | 0 <= i < |g.slots| && !(g.w <= i < g.w + 16) :: h.slots[i] == g.slots[i]
  {
    hide Append, TailBlank, Blank;
    FirstRing(g, e);
    FullRing(Append(g, e), g.w, f);
  }

  lemma SecondPending(g: Ring, h: Ring, k: nat)
    requires Shape(g) && Shape(h) && g.w % 16 == 0
    requires g.n + 1 == |g.slots| == |h.slots| && g.w == Wrap(g.r + g.n, |g.slots|)
    requires h.r == Wrap(g.w + 16, |g.slots|) && h.n == g.n - 14 && h.slots[g.w] == Blank()
    requires forall i | 0 <= i < |g.slots| && !(g.w <= i < g.w + 16) :: h.slots[i] == g.slots[i]
    ensures k < h.n ==> Pending(h, k) == if k + 15 < g.n then Pending(g, k + 15) else Blank()
  {
    hide Blank;
  }

  /** One entry short of full, two writes are worse: the second finds the ring full, erases the sector of the first,
      and leaves its own entry outside the window. Neither is in the queue, and the variables no longer fit together. */
  lemma TwoWritesLost(g: Ring, e: Entry, f: Entry)
    requires Inv(g) && !Guard(g) && g.n + 1 == |g.slots| && |e.data| <= DATA_MAX && |f.data| <= DATA_MAX
    ensures var h := Append(Append(g, e), f);
            && Window(h) == Window(g)[15..] + [Blank()]
            && Fifo(h) == Decoded(Window(g)[15..])
            && !Inv(h)
  {
    hide Append, Pending, TailBlank, Blank, IsValid;
    var h := Append(Append(g, e), f);
    SecondRing(g, e, f);
    forall k: nat | k < h.n
      ensures Pending(h, k) == if k + 15 < g.n then Pending(g, k + 15) else Blank()
    {
      SecondPending(g, h, k);
    }
    assert Window(h) == Window(g)[15..] + [Blank()];
    DecodedConcat(Window(g)[15..], [Blank()]);
    BlanksDecodeToNothing(1);
    assert Blanks(1) == [Blank()];
  }

  // ---------- a run that breaks the guard ----------

  lemma FullRun(sectors: nat, es: seq<Entry>)
    requires sectors >= 2 && Fits(es) && |es| == 16 * sectors
    ensures var full := AppendAll(ErasedRing(sectors), es);
            && Inv(full) && full.n == |full.slots| == |es| && full.r % 16 == 0
            && Window(full) == Encoded(es) && Fifo(full) == es
  {
    WriteOnlyRuns(ErasedRing(sectors), es);
    assert es[0..] == es;
  }

  lemma ReadsHead(g: Ring, e: Entry)
    requires Shape(g) && g.n > 0 && |e.data| <= DATA_MAX && g.slots[g.r] == Encode(e)
    ensures Read(g, DATA_MAX) == (g, Some(e))
  {
    hide Encode, Decode, LenOf, IsValid;
    EncodeDecode(e);
  }

  lemma OneShortUnguarded(full: Ring)
    requires Inv(full) && full.n == |full.slots| && full.r % 16 == 0
    ensures !Guard(Mark(full))
  {
    hide Zeroed, TailBlank;
  }

  lemma OneDelivered(full: Ring, es: seq<Entry>)
    requires Inv(full) && full.n == |full.slots| == |es| && full.r % 16 == 0 && Fits(es)
    requires Window(full) == Encoded(es)
    ensures Read(full, DATA_MAX) == (full, Some(es[0]))
    ensures var m := Mark(full); Inv(m) && Window(m) == Encoded(es[1..]) && Fifo(m) == es[1..] && !Guard(m)
  {
    hide Guard, Mark, Encode, Decoded, Read, TailBlank;
    assert full.slots[full.r] == Pending(full, 0) == Window(full)[0] == Encode(es[0]);
    ReadsHead(full, es[0]);
    MarkInv(full);
    HeadDropped(full);
    OneShortUnguarded(full);
    assert Window(Mark(full)) == Window(full)[1..] == Encoded(es[1..]);
    EncodedDecodes(es[1..]);
  }

  lemma EncodedDrop(es: seq<Entry>)
    requires Fits(es) && |es| >= 16
    ensures Encoded(es[1..])[15..] == Encoded(es[16..])
  {
    hide Encode;
  }

  lemma FifteenLost(m: Ring, es: seq<Entry>, e: Entry, f: Entry)
    requires Inv(m) && !Guard(m) && Fits(es) && |es| == |m.slots| == m.n + 1
    requires |e.data| <= DATA_MAX && |f.data| <= DATA_MAX
    requires Window(m) == Encoded(es[1..])
    ensures Fifo(Append(m, e)) == es[16..] + [e] && Fifo(Append(Append(m, e), f)) == es[16..]
  {
    hide Inv, Guard, Append, Encode, Pending, Decoded;
    InvShape(m);
    GuardIsTight(m, e);
    TwoWritesLost(m, e, f);
    EncodedDrop(es);
    EncodedDecodes(es[16..]);
  }

  /** Fill an erased chip, deliver one entry, write one more: fifteen undelivered entries vanish uncounted. Write
      another, and it vanishes itself, together with the one before it. */
  lemma GuardViolationIsReachable(sectors: nat, es: seq<Entry>, e: Entry, f: Entry)
    requires sectors >= 2 && Fits(es) && |es| == 16 * sectors && |e.data| <= DATA_MAX && |f.data| <= DATA_MAX
    ensures var full := AppendAll(ErasedRing(sectors), es);
            && full.n == |full.slots| && Fifo(full) == es
            && Read(full, DATA_MAX) == (full, Some(es[0]))
            && !Guard(Mark(full))
            && Fifo(Mark(full)) == es[1..]
            && Fifo(Append(Mark(full), e)) == es[16..] + [e]
            && Fifo(Append(Append(Mark(full), e), f)) == es[16..]
  {
    hide Guard, Append, Mark, Read, Inv, Encoded;
    FullRun(sectors, es);
    var full := AppendAll(ErasedRing(sectors), es);
    InvShape(full);
    OneDelivered(full, es);
    FifteenLost(Mark(full), es, e, f);
  }
}
