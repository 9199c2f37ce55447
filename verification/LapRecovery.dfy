/** The boot scan after the first lap of the chip. A cache that never overflowed, and never held more than one sector's
    worth of entries, can lose them all to a power loss between two operations. */
module LapRecovery {
  import opened LapGuard
  import opened Recovery
  import opened Ring
  import opened Slots

  /** One turn of the backfill with a publish that succeeds. */
  ghost function Deliver(g: Ring): (h: Ring)
    requires Shape(g)
    ensures Shape(h) && |h.slots| == |g.slots|
  {
    var h := Read(g, DATA_MAX).0;
    if h.n == 0 then h else Mark(h)
  }

  /** Each entry is stored and delivered before the next. */
  ghost function Circulate(g: Ring, es: seq<Entry>): (h: Ring)
    requires Shape(g) && Fits(es)
    ensures Shape(h) && |h.slots| == |g.slots|
  {
    if es == [] then g else Deliver(Append(Circulate(g, es[..|es| - 1]), es[|es| - 1]))
  }

  /** An empty queue whose write address is at slot `w`. */
  ghost predicate Idle(g: Ring, w: nat) {
    Laid(g) && g.n == 0 && g.w == w
  }

  lemma IdleGuard(g: Ring, w: nat)
    requires Idle(g, w)
    ensures Shape(g) && Guard(g) && g.n < |g.slots|
  {
  }

  lemma DeliverOne(g: Ring, e: Entry)
    requires Laid(g) && g.n == 1 && |e.data| <= DATA_MAX && g.slots[g.r] == Encode(e)
    ensures Laid(Deliver(g)) && Deliver(g).n == 0 && Deliver(g).w == g.w
    ensures FirstLap(g) ==> FirstLap(Deliver(g))
    ensures LaterLap(g) ==> LaterLap(Deliver(g))
  {
    hide Laid, FirstLap, LaterLap, Encode, Decodable, IsValid, IsBlank;
    LaidIsShaped(g);
    EncodeDecode(e);
    ZeroedIsNeither(g.slots[g.r]);
    RetireLaid(g, Zeroed(g.slots[g.r]));
  }

  lemma ZeroedIsNeither(s: Slot)
    ensures !IsValid(Zeroed(s)) && !IsBlank(Zeroed(s))
  {
  }

  /** Storing one entry in an empty queue and delivering it moves the write address on by one slot. */
  lemma CirculateOne(g: Ring, w: nat, e: Entry)
    requires Idle(g, w) && |e.data| <= DATA_MAX
    ensures Idle(Deliver(Append(g, e)), Wrap(w + 1, |g.slots|))
    ensures FirstLap(g) && w + 1 < |g.slots| ==> FirstLap(Deliver(Append(g, e)))
    ensures w + 1 == |g.slots| ==> LaterLap(Deliver(Append(g, e)))
  {
    hide Laid, Deliver, Encode, MakeRoom, Guard, IsBlank, IsValid;
    IdleGuard(g, w);
    var h := Append(g, e);
    AppendLaid(g, e);
    LaidIsShaped(g);
    LaidIsShaped(h);
    EncodeDecode(e);
    AppendRefines(g, e);
    PlaceVariables(g, Encode(e));
    WhichLap(g, e);
    assert Window(h)[0] == Pending(h, 0) == h.slots[h.r];
    DeliverOne(h, e);
  }

  lemma WhichLap(g: Ring, e: Entry)
    requires Laid(g) && g.n == 0 && |e.data| <= DATA_MAX
    ensures FirstLap(g) && g.w + 1 < |g.slots| ==> FirstLap(Append(g, e))
    ensures g.w + 1 == |g.slots| ==> LaterLap(Append(g, e))
  {
    hide TailBlank, Marked, IsValid;
    EncodeDecode(e);
    PlaceLaid(g, Encode(e)) by { LaidIsShaped(g); }
    PlaceVariables(g, Encode(e));
  }

  lemma ErasedIdle(sectors: nat)
    requires sectors >= 2
    ensures var g := ErasedRing(sectors); Idle(g, 0) && FirstLap(g)
  {
    assert IsBlank(Blank());
  }

  lemma {:induction false} FirstCirculation(g: Ring, es: seq<Entry>)
    requires Idle(g, 0) && FirstLap(g) && Fits(es) && |es| < |g.slots|
    ensures Idle(Circulate(g, es), |es|) && FirstLap(Circulate(g, es))
  {
    hide Idle, FirstLap, Deliver, Append;
    IdleGuard(g, 0);
    if es != [] {
      var k := |es| - 1;
      FirstCirculation(g, es[..k]);
      IdleGuard(Circulate(g, es[..k]), k);
      CirculateOne(Circulate(g, es[..k]), k, es[k]);
    }
  }

  lemma LastTurn(g: Ring, es: seq<Entry>, k: nat)
    requires Shape(g) && Fits(es) && |es| == k + 1
    ensures Circulate(g, es) == Deliver(Append(Circulate(g, es[..k]), es[k]))
  {
    hide Deliver, Append;
  }

  /** A lap of entries, each delivered before the next is stored, brings the write address back to the start, with no
      slot erased. */
  lemma WholeLap(g: Ring, es: seq<Entry>)
    requires Idle(g, 0) && FirstLap(g) && Fits(es) && |es| == |g.slots|
    ensures Idle(Circulate(g, es), 0) && LaterLap(Circulate(g, es))
  {
    hide Idle, FirstLap, LaterLap, Deliver, Append, Circulate;
    var k := |es| - 1;
    IdleGuard(g, 0);
    FirstCirculation(g, es[..k]);
    LastTurn(g, es, k);
    CirculateOne(Circulate(g, es[..k]), k, es[k]);
  }

  /** Appending to a ring with room keeps the read address and the lap. */
  lemma {:induction false} AppendsStay(g: Ring, es: seq<Entry>)
    requires Idle(g, 0) && LaterLap(g) && Fits(es) && |es| <= 16
    ensures var h := AppendAll(g, es); Laid(h) && LaterLap(h) && h.r == 0 && h.n == |es| && h.w == |es|
  {
    hide LaterLap, Laid, Guard, Encode, MakeRoom;
    IdleGuard(g, 0);
    if es != [] {
      var k := |es| - 1;
      AppendsStay(g, es[..k]);
      NextAppendStays(AppendAll(g, es[..k]), es[k]);
    } else {
      IdleStays(g);
    }
  }

  lemma IdleStays(g: Ring)
    requires Idle(g, 0)
    ensures Laid(g) && g.r == 0 && g.n == 0 && g.w == 0
  {
  }

  lemma NextAppendStays(h: Ring, e: Entry)
    requires Laid(h) && LaterLap(h) && h.r == 0 && h.n == h.w < 16 && |e.data| <= DATA_MAX
    ensures var d := Append(h, e); Laid(d) && LaterLap(d) && d.r == 0 && d.n == d.w == h.n + 1
  {
    hide LaterLap, FirstLap, Opened, Marked, TailBlank;
    LaidIsShaped(h);
    EncodeDecode(e);
    PlaceLaid(h, Encode(e));
    PlaceVariables(h, Encode(e));
  }

  /** The scan of a full first sector in a chip without an erased slot. */
  lemma ScanOfFullSector(h: Ring)
    requires Laid(h) && LaterLap(h) && h.r == 0 && h.n == h.w == 16
    ensures Scan(h.slots) == h.(w := 0)
  {
    hide Scan;
    LaidIsMarked(h);
    LaidFirstBlank(h);
    FirstBlankIs(h.slots, 16, 16);
    forall i: nat | i < |h.slots|
      ensures IsValid(h.slots[i]) <==> 0 <= i < 16
    {
      if i < 16 {
        assert IsValid(Pending(h, i));
      }
    }
    CountRange(h.slots, 0, 16, |h.slots|);
    ScanIs(h.slots, |h.slots|);
  }

  /** The next write after that scan starts a sector that it takes for free. */
  lemma WriteOverSector(g: Ring, e: Entry)
    requires Shape(g) && g.r == 0 && g.w == 0 && g.n == 16 && !IsValid(g.slots[16]) && |e.data| <= DATA_MAX
    ensures Fifo(Append(g, e)) == [e]
  {
    var h := Append(g, e);
    AndBlank(Encode(e));
    assert Window(h) == [Encode(e)] + (Blanks(15) + [g.slots[16]]);
    DecodedHead(Encode(e), Blanks(15) + [g.slots[16]]);
    DecodedConcat(Blanks(15), [g.slots[16]]);
    BlanksDecodeToNothing(15);
    EncodeDecode(e);
    assert Decoded([g.slots[16]]) == [];
  }

  /** Send a lap of entries through an erased chip one at a time, then store sixteen: the cache was never full, and held
      sixteen entries at most. A power loss now, and the scan puts the write address at the chip's start; the next write
      erases all sixteen, counting none. */
  lemma LappedQueueIsLost(sectors: nat, es: seq<Entry>, fs: seq<Entry>, e: Entry)
    requires sectors >= 2 && Fits(es) && |es| == 16 * sectors && Fits(fs) && |fs| == 16 && |e.data| <= DATA_MAX
    ensures var h := AppendAll(Circulate(ErasedRing(sectors), es), fs);
            && Laid(h) && h.n == 16 && Fifo(h) == fs && !Survives(h)
            && Scan(h.slots) == h.(w := 0)
            && Fifo(Append(Scan(h.slots), e)) == [e]
  {
    hide Laid, LaterLap, FirstLap, Scan, Append, Circulate, AppendAll, IsBlank;
    ErasedIdle(sectors);
    var lap := Circulate(ErasedRing(sectors), es);
    WholeLap(ErasedRing(sectors), es);
    IdleStays(lap);
    AppendsStay(lap, fs);
    var h := AppendAll(lap, fs);
    ScanOfFullSector(h);
    SixteenHeld(lap, fs);
    LaterLapAligned(h);
    SeventeenthInvalid(h);
    WriteOverSector(Scan(h.slots), e);
  }

  lemma SixteenHeld(g: Ring, fs: seq<Entry>)
    requires Idle(g, 0) && Fits(fs) && |fs| == 16
    ensures AppendAll(g, fs).n == 16 ==> Fifo(AppendAll(g, fs)) == fs
  {
    hide HoldsNewest;
    LaidIsMarked(g);
    WriteOnlyRuns(g, fs);
    assert fs[0..] == fs;
  }

  lemma LaterLapAligned(h: Ring)
    requires Shape(h) && LaterLap(h) && h.w == 16
    ensures !IsBlank(h.slots[16])
  {
  }

  lemma SeventeenthInvalid(h: Ring)
    requires Laid(h) && h.r == 0 && h.n == 16
    ensures !IsValid(h.slots[16])
  {
    assert !InWindow(h, 16);
  }
}
