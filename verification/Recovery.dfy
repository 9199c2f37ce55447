/** The boot scan of `flash_storage_init` (main/storage/flash_storage.c:267-312) and what it recovers. */
module Recovery {
  import opened Slots
  import opened Ring
  import opened Types

  // ---------- the scan, by its three questions ----------

  /** The first slot at or after `from` whose magic is `MAGIC_BLANK`, or the end of the chip. */
  ghost function FirstBlank(slots: seq<Slot>, from: nat): (f: nat)
    requires from <= |slots|
    ensures from <= f <= |slots|
    ensures forall i | from <= i < f :: !IsBlank(slots[i])
    ensures f < |slots| ==> IsBlank(slots[f])
    decreases |slots| - from
  {
    if from == |slots| || IsBlank(slots[from]) then from else FirstBlank(slots, from + 1)
  }

  /** How many of the first `k` slots carry `MAGIC_VALID`. */
  ghost function CountValid(slots: seq<Slot>, k: nat): (n: nat)
    requires k <= |slots|
    ensures n <= k
  {
    if k == 0 then 0 else CountValid(slots, k - 1) + if IsValid(slots[k - 1]) then 1 else 0
  }

  /** The first of the first `k` slots that carries `MAGIC_VALID`, or `k`. */
  ghost function FirstValid(slots: seq<Slot>, k: nat): (f: nat)
    requires k <= |slots|
    ensures f <= k
    ensures forall i | 0 <= i < f :: !IsValid(slots[i])
    ensures f < k ==> IsValid(slots[f])
  {
    if k == 0 then 0 else
      var f := FirstValid(slots, k - 1);
      if f < k - 1 then f else if IsValid(slots[k - 1]) then k - 1 else k
  }

  lemma {:induction false} NoValidBelow(slots: seq<Slot>, k: nat)
    requires k <= |slots|
    ensures CountValid(slots, k) == 0 <==> FirstValid(slots, k) == k
  {
    if k > 0 {
      NoValidBelow(slots, k - 1);
    }
  }

  ghost function Scan(slots: seq<Slot>): (g: Ring)
    requires |slots| % 16 == 0 && 32 <= |slots|
    ensures Shape(g) && g.slots == slots
  {
    var f := FirstBlank(slots, 0);
    var w := Wrap(f, |slots|);
    NoValidBelow(slots, f);
    Ring(slots, if CountValid(slots, f) == 0 then w else FirstValid(slots, f), w, CountValid(slots, f))
  }

  // ---------- when the scan rebuilds the state ----------

  lemma {:induction false} CountRange(slots: seq<Slot>, lo: nat, hi: nat, k: nat)
    requires lo <= hi && k <= |slots|
    requires forall i | 0 <= i < k :: IsValid(slots[i]) <==> lo <= i < hi
    ensures CountValid(slots, k) == if k <= lo then 0 else if k <= hi then k - lo else hi - lo
    ensures FirstValid(slots, k) == if k <= lo || lo == hi then k else lo
  {
    if k > 0 {
      CountRange(slots, lo, hi, k - 1);
    }
  }

  /** For any ring with pending entries the scan restores the lost RAM state if and only if the first blank slot is
      the one just behind the newest entry, the chip's end included. A window that wraps is never restored. */
  lemma ScanIsExact(g: Ring)
    requires Shape(g) && Marked(g) && g.w == Wrap(g.r + g.n, |g.slots|) && g.n > 0
    ensures Scan(g.slots) == g <==> FirstBlank(g.slots, 0) == g.r + g.n
  {
    var f := FirstBlank(g.slots, 0);
    if f == g.r + g.n {
      forall i: nat | i < f
        ensures IsValid(g.slots[i]) <==> g.r <= i < g.r + g.n
      {
        if InWindow(g, i) {
          assert IsValid(Pending(g, i - g.r));
        }
      }
      CountRange(g.slots, g.r, g.r + g.n, f);
    }
  }

  /** With nothing pending the scan reports nothing pending, whatever the layout. */
  lemma ScanOfEmpty(g: Ring)
    requires Shape(g) && Marked(g) && g.n == 0
    ensures var h := Scan(g.slots); h.n == 0 && h.r == h.w && Fifo(h) == []
  {
    var f := FirstBlank(g.slots, 0);
    CountRange(g.slots, 0, 0, f);
  }

  // ---------- the layouts that running produces ----------

  /** The slots that the scan takes for erased are those from `lo` on, up to `hi`. */
  ghost predicate BlankRun(slots: seq<Slot>, lo: nat, hi: nat) {
    forall i | 0 <= i < |slots| :: IsBlank(slots[i]) <==> lo <= i < hi
  }

  /** The end of a partly filled sector. */
  function TailEnd(w: nat): nat {
    if w % 16 == 0 then w else w - w % 16 + 16
  }

  /** Before the write address first reaches the end of the chip: everything from it on is erased. */
  ghost predicate FirstLap(g: Ring) {
    g.r + g.n == g.w && BlankRun(g.slots, g.w, |g.slots|)
  }

  /** Afterwards: only the rest of a partly filled sector is erased. */
  ghost predicate LaterLap(g: Ring) {
    BlankRun(g.slots, g.w, TailEnd(g.w))
  }

  /** After a power loss between the erasing of a sector and the first program into it. */
  ghost predicate Opened(g: Ring) {
    g.w % 16 == 0 && BlankRun(g.slots, g.w, g.w + 16)
  }

  /** Where a guarded run can be, power losses included. */
  ghost predicate Laid(g: Ring) {
    Inv(g) && Marked(g) && (FirstLap(g) || LaterLap(g) || Opened(g))
  }

  /** The queue survives a power loss: nothing is pending, or the pending slots do not pass the chip's end and the slot
      behind them is erased or is the first. */
  ghost predicate Survives(g: Ring)
    requires Shape(g)
  {
    g.n == 0 || if IsBlank(g.slots[g.w]) then g.r < g.w else g.w == 0
  }

  lemma FirstBlankIs(slots: seq<Slot>, lo: nat, hi: nat)
    requires BlankRun(slots, lo, hi) && lo < |slots|
    ensures FirstBlank(slots, 0) == if lo < hi then lo else |slots|
    ensures IsBlank(slots[lo]) <==> lo < hi
  {
    var f := FirstBlank(slots, 0);
    assert f < |slots| ==> IsBlank(slots[f]);
    assert f > lo ==> !IsBlank(slots[lo]);
  }

  lemma LaidFirstBlank(g: Ring)
    requires Laid(g)
    ensures FirstBlank(g.slots, 0) == if IsBlank(g.slots[g.w]) then g.w else |g.slots|
  {
    hide Inv, Marked, FirstBlank, IsBlank;
    LaidIsShaped(g);
    FirstBlankIs(g.slots, g.w, if FirstLap(g) then |g.slots| else if LaterLap(g) then TailEnd(g.w) else g.w + 16);
  }

  /** With entries pending, the scan rebuilds the state that was lost if and only if the queue survives. */
  lemma ScanIsExactWhenLaid(g: Ring)
    requires Laid(g) && g.n > 0
    ensures Scan(g.slots) == g <==> Survives(g)
  {
    hide FirstLap, LaterLap, Opened, Scan, Marked;
    LaidFirstBlank(g);
    ScanIsExact(g);
  }

  /** In the variables alone: on the first lap the state is always rebuilt, on a later one exactly if the write address
      is at the chip's start, or inside a sector and behind the read address. */
  lemma ScanIsExactInRam(g: Ring)
    requires Laid(g) && g.n > 0
    ensures FirstLap(g) ==> Scan(g.slots) == g
    ensures LaterLap(g) ==> (Scan(g.slots) == g <==> g.w == 0 || (g.w % 16 != 0 && g.r < g.w))
  {
    hide Inv, Marked, Scan;
    ScanIsExactWhenLaid(g);
    LaidIsShaped(g);
    if FirstLap(g) {
      FirstBlankIs(g.slots, g.w, |g.slots|);
    }
    if LaterLap(g) {
      FirstBlankIs(g.slots, g.w, TailEnd(g.w));
    }
  }

  /** With nothing pending the scan may move both addresses, but finds a sound empty queue. */
  lemma EmptyScanLaid(g: Ring)
    requires Laid(g) && g.n == 0
    ensures var h := Scan(g.slots); Laid(h) && h.n == 0
  {
    hide Scan, FirstLap, LaterLap, Opened, FirstBlank;
    ScanOfEmpty(g);
    LaidFirstBlank(g);
    ScanAddress(g.slots);
    var h := Scan(g.slots);
    if IsBlank(g.slots[g.w]) {
      assert h == g;
    } else {
      NoBlanks(g);
      EmptyAtStart(g, h);
    }
  }

  lemma ScanAddress(slots: seq<Slot>)
    requires |slots| % 16 == 0 && 32 <= |slots|
    ensures Scan(slots).w == Wrap(FirstBlank(slots, 0), |slots|)
  {
  }

  lemma NoBlanks(g: Ring)
    requires Laid(g) && !IsBlank(g.slots[g.w])
    ensures BlankRun(g.slots, 0, 0)
  {
    hide Inv, Marked;
    LaidIsShaped(g);
  }

  lemma EmptyAtStart(g: Ring, h: Ring)
    requires Inv(g) && Marked(g) && g.n == 0 && BlankRun(g.slots, 0, 0)
    requires h == Ring(g.slots, 0, 0, 0)
    ensures Laid(h)
  {
  }

  /** A power loss between operations loses nothing where the queue survives. */
  lemma SurvivesScan(g: Ring)
    requires Laid(g) && Survives(g)
    ensures var h := Scan(g.slots); Laid(h) && h.n == g.n && Window(h) == Window(g)
  {
    hide Laid, Survives, Scan;
    assert Shape(g) && Shape(Scan(g.slots)) by { LaidIsShaped(g); }
    if g.n > 0 {
      ScanIsExactWhenLaid(g);
    } else {
      EmptyScanLaid(g);
      assert Window(Scan(g.slots)) == Window(g) == [];
    }
  }

  lemma LaidIsShaped(g: Ring)
    requires Laid(g)
    ensures Inv(g) && Shape(g)
  {
  }

  // ---------- the operations keep the layout ----------

  lemma BlanksErased(slots: seq<Slot>, w: nat, hi: nat)
    requires w % 16 == 0 && w + 16 <= |slots| && BlankRun(slots, w, hi) && (hi == w || hi == w + 16 || hi == |slots|)
    ensures BlankRun(SectorBlank(slots, w), w, if hi == |slots| then hi else w + 16)
  {
  }

  lemma BlanksProgrammed(slots: seq<Slot>, w: nat, hi: nat, t: Slot)
    requires BlankRun(slots, w, hi) && w < hi && w < |slots| && !IsBlank(t)
    ensures BlankRun(slots[w := t], w + 1, hi)
  {
  }

  /** The slots that a guarded write finds after making room. */
  lemma RoomRun(g: Ring) returns (hi: nat)
    requires Laid(g) && Guard(g)
    ensures g.w < hi && BlankRun(MakeRoom(g).slots, g.w, hi)
    ensures hi == g.w - g.w % 16 + 16 || (hi == |g.slots| && MakeRoom(g).r + MakeRoom(g).n == g.w)
    ensures LaterLap(g) ==> hi == g.w - g.w % 16 + 16
  {
    hide Marked;
    LaidIsShaped(g);
    hi := if LaterLap(g) then TailEnd(g.w) else if FirstLap(g) then |g.slots| else g.w + 16;
    if g.w % 16 == 0 {
      BlanksErased(g.slots, g.w, hi);
      hi := if hi == |g.slots| then hi else g.w + 16;
    }
  }

  /** Where the erased slots are once the write address has moved on. */
  lemma PlacedRun(h: Ring, w: nat, hi: nat)
    requires Shape(h) && w < |h.slots| && h.w == Wrap(w + 1, |h.slots|) && BlankRun(h.slots, w + 1, hi)
    requires hi == w - w % 16 + 16 || (hi == |h.slots| && h.r + h.n == w + 1)
    ensures FirstLap(h) || LaterLap(h)
    ensures hi == w - w % 16 + 16 ==> LaterLap(h)
  {
    hide IsBlank;
  }

  /** A guarded write keeps the layout, whatever whole entry or torn one with a whole magic word it leaves. */
  lemma PlaceLaid(g: Ring, t: Slot)
    requires Laid(g) && Guard(g) && IsValid(t)
    ensures Laid(Place(g, t)) && (FirstLap(Place(g, t)) || LaterLap(Place(g, t)))
    ensures LaterLap(g) ==> LaterLap(Place(g, t))
  {
    hide Guard, Marked, TailBlank, BlankRun, MakeRoom, FirstLap, LaterLap, Opened, IsValid, IsBlank;
    LaidIsShaped(g);
    ValidIsNotBlank(t);
    var hi := RoomRun(g);
    PlaceWindow(g, t);
    PlaceMarked(g, t);
    PlaceVariables(g, t);
    BlanksProgrammed(MakeRoom(g).slots, g.w, hi, t);
    PlacedRun(Place(g, t), g.w, hi);
  }

  lemma ValidIsNotBlank(t: Slot)
    requires IsValid(t)
    ensures !IsBlank(t)
  {
  }

  lemma PlaceVariables(g: Ring, t: Slot)
    requires Shape(g)
    ensures Place(g, t).w == Wrap(g.w + 1, |g.slots|)
    ensures Place(g, t).r == MakeRoom(g).r && Place(g, t).n == MakeRoom(g).n + 1
  {
    hide MakeRoom;
  }

  lemma BlanksKept(slots: seq<Slot>, lo: nat, hi: nat, i: nat, t: Slot)
    requires BlankRun(slots, lo, hi) && i < |slots| && !IsBlank(slots[i]) && !IsBlank(t)
    ensures BlankRun(slots[i := t], lo, hi)
  {
  }

  /** Rewriting the head to anything that is neither erased nor valid, and moving on, keeps the layout. */
  lemma RetireLaid(g: Ring, t: Slot)
    requires Laid(g) && g.n > 0 && !IsValid(t) && !IsBlank(t)
    ensures Laid(Retire(g, t))
    ensures FirstLap(g) ==> FirstLap(Retire(g, t))
    ensures LaterLap(g) ==> LaterLap(Retire(g, t))
  {
    hide TailBlank, Marked, BlankRun, IsValid, IsBlank;
    LaidIsShaped(g);
    HeadIsValid(g);
    RetireInv(g, t);
    RetireMarked(g, t);
    if FirstLap(g) {
      BlanksKept(g.slots, g.w, |g.slots|, g.r, t);
    }
    if LaterLap(g) {
      BlanksKept(g.slots, g.w, TailEnd(g.w), g.r, t);
    }
    if Opened(g) {
      BlanksKept(g.slots, g.w, g.w + 16, g.r, t);
    }
  }

  lemma HeadIsValid(g: Ring)
    requires Inv(g) && Marked(g) && g.n > 0
    ensures IsValid(g.slots[g.r]) && !IsBlank(g.slots[g.r])
  {
    assert IsValid(Pending(g, 0));
  }

  lemma MarkLaid(g: Ring)
    requires Laid(g) && g.n > 0
    ensures Laid(Mark(g))
  {
    hide Laid, Retire;
    LaidIsShaped(g);
    RetireLaid(g, Zeroed(g.slots[g.r]));
  }

  lemma {:induction false} HealedLaid(g: Ring, size: nat)
    requires Laid(g) && size >= DATA_MAX
    ensures Laid(Read(g, size).0)
    decreases g.n
  {
    hide Laid, Zeroed;
    LaidIsShaped(g);
    if g.n > 0 && !Decodable(g.slots[g.r]) {
      MarkLaid(g);
      HealedLaid(Mark(g), size);
    }
  }

  /** A read with the buffer of the cache keeps the layout and the queue, and delivers the head of the queue. */
  lemma ReadLaid(g: Ring, size: nat)
    requires Laid(g) && size >= DATA_MAX
    ensures var (h, o) := Read(g, size);
            && Laid(h) && Fifo(h) == Fifo(g)
            && o == (if Fifo(g) == [] then None else Some(Fifo(g)[0]))
            && (o.Some? ==> h.n > 0 && Decodable(h.slots[h.r]) && Decode(h.slots[h.r]) == Fifo(g)[0])
  {
    hide Read, Laid, Decodable, Decode;
    LaidIsShaped(g);
    ReadRefines(g, size);
    NothingTooLong(Window(g), size);
    HealedLaid(g, size);
  }

  /** A write that overflows nothing keeps the layout and extends the queue. */
  lemma AppendLaid(g: Ring, e: Entry)
    requires Laid(g) && Guard(g) && |e.data| <= DATA_MAX
    ensures Laid(Append(g, e))
    ensures g.n < |g.slots| ==> Fifo(Append(g, e)) == Fifo(g) + [e]
  {
    hide Laid, Guard, Place, Encode, Decodable;
    LaidIsShaped(g);
    EncodeDecode(e);
    assert IsValid(Encode(e)) by { DecodableIsValid(Encode(e)); }
    PlaceLaid(g, Encode(e));
    AppendRefines(g, e);
  }

  lemma DecodableIsValid(s: Slot)
    requires Decodable(s)
    ensures IsValid(s)
  {
  }

  // ---------- a crash while the head is overwritten with MAGIC_SENT ----------

  /** The overwrite, interrupted, has cleared some of the bits of the magic word. */
  ghost predicate ClearsOnly(m: Bytes, s: Slot) {
    |m| == 4 && forall i | 0 <= i < 4 :: m[i] & s[i] == m[i]
  }

  ghost function TornMark(g: Ring, m: Bytes): (slots: seq<Slot>)
    requires Shape(g) && g.n > 0 && |m| == 4
    ensures |slots| == |g.slots|
  {
    g.slots[g.r := m + g.slots[g.r][4..]]
  }

  lemma NotBlank(m: Bytes, s: Slot)
    requires ClearsOnly(m, s) && IsValid(s)
    ensures !IsBlank(m + s[4..])
  {
    assert m[0] & s[0] == m[0];
  }

  lemma NothingCleared(m: Bytes, s: Slot)
    requires |m| == 4 && IsValid(s) && IsValid(m + s[4..])
    ensures m + s[4..] == s
  {
    var t := m + s[4..];
    assert forall i | 0 <= i < 4 :: t[i] == m[i] == s[i];
  }

  lemma RetireSurvives(g: Ring, t: Slot)
    requires Inv(g) && Marked(g) && g.n > 0 && Survives(g) && !IsBlank(t)
    ensures Survives(Retire(g, t))
  {
    HeadIsValid(g);
  }

  /** Where the queue survives, and whatever bits were cleared, the scan restores it without the head or, just when the
      magic word still reads `MAGIC_VALID`, with it. */
  lemma TornMarkRecovers(g: Ring, m: Bytes)
    requires Laid(g) && Survives(g) && g.n > 0 && ClearsOnly(m, g.slots[g.r])
    ensures var h := Scan(TornMark(g, m));
            Laid(h) && if IsValid(h.slots[g.r]) then h == g else Window(h) == Window(Mark(g)) && h.n == g.n - 1
  {
    hide Inv, Marked, FirstLap, LaterLap, Opened, IsValid, IsBlank, Survives, Scan;
    LaidIsShaped(g);
    HeadIsValid(g);
    var t: Slot := m + g.slots[g.r][4..];
    NotBlank(m, g.slots[g.r]);
    if IsValid(t) {
      NothingCleared(m, g.slots[g.r]);
      assert TornMark(g, m) == g.slots;
      ScanIsExactWhenLaid(g);
    } else {
      RetireLaid(g, t);
      RetireSurvives(g, t);
      SurvivesScan(Retire(g, t));
      HeadSplit(g, t);
      HeadSplit(g, Zeroed(g.slots[g.r]));
      assert Window(Retire(g, t)) == Window(Skip(g)) == Window(Mark(g));
    }
  }

  // ---------- a crash while an entry is programmed ----------

  /** The first `k` bytes of the entry have reached the erased slot. */
  ghost function Torn(e: Entry, k: nat): (s: Slot)
    requires |e.data| <= DATA_MAX && k <= 256
  {
    Encode(e)[..k] + Blank()[k..]
  }

  lemma TornBytes(e: Entry, k: nat, i: nat)
    requires |e.data| <= DATA_MAX && k <= 256 && i < 256
    ensures Torn(e, k)[i] == if i < k then Encode(e)[i] else 0xFF
  {
  }

  /** What each torn prefix looks like to the scan and to the reader. */
  lemma TornKinds(e: Entry, k: nat)
    requires |e.data| <= DATA_MAX && k <= 256
    ensures k == 0 ==> Torn(e, k) == Blank()
    ensures 1 <= k < 4 ==> !IsValid(Torn(e, k)) && !IsBlank(Torn(e, k))
    ensures 4 <= k ==> IsValid(Torn(e, k))
    ensures 4 <= k < 10 ==> LenOf(Torn(e, k)) >= 0xFF00
    ensures 10 <= k ==> LenOf(Torn(e, k)) == |e.data| && Decode(Torn(e, k)).ts == e.ts
  {
    EncodeDecode(e);
    EncodeHeader(e);
    TornBytes(e, k, 0); TornBytes(e, k, 1); TornBytes(e, k, 2); TornBytes(e, k, 3);
    TornBytes(e, k, 4); TornBytes(e, k, 5); TornBytes(e, k, 6); TornBytes(e, k, 7);
    TornBytes(e, k, 8); TornBytes(e, k, 9);
    if 10 <= k {
      assert Encode(e)[4..8] == e.ts;
      assert Torn(e, k)[4..8] == Encode(e)[4..8];
    }
  }

  /** The bytes of the payload that were not programmed happen to be those of erased flash. */
  ghost predicate PayloadIntact(e: Entry, k: nat) {
    forall i | 0 <= i < |e.data| && k <= 12 + i :: e.data[i] == 0xFF
  }

  lemma TornPayload(e: Entry, k: nat)
    requires |e.data| <= DATA_MAX && 10 <= k <= 256
    ensures Decodable(Torn(e, k)) && (Decode(Torn(e, k)) == e <==> PayloadIntact(e, k))
  {
    TornKinds(e, k);
    EncodeData(e);
    var d := Decode(Torn(e, k)).data;
    forall i | 0 <= i < |e.data|
      ensures d[i] == if 12 + i < k then e.data[i] else 0xFF
    {
      TornBytes(e, k, 12 + i);
      assert Encode(e)[12..12 + |e.data|][i] == e.data[i];
    }
  }

  /** The tears after which the scan rebuilds a sound queue, with `n` entries pending before the new one. */
  ghost predicate CleanTear(n: nat, e: Entry, k: nat) {
    k == 0 || (k < 4 && n == 0) || 4 <= k < 10 || (10 <= k && PayloadIntact(e, k))
  }

  ghost function TornAppend(g: Ring, e: Entry, k: nat): (slots: seq<Slot>)
    requires Shape(g) && |e.data| <= DATA_MAX && k <= 256
    ensures |slots| == |g.slots|
  {
    MakeRoom(g).slots[g.w := Torn(e, k)]
  }

  /** Making room keeps the layout. */
  lemma RoomLaid(g: Ring)
    requires Laid(g) && Guard(g)
    ensures Laid(MakeRoom(g))
  {
    hide BlankRun, Guard, Marked, MakeRoom;
    LaidIsShaped(g);
    var hi := RoomRun(g);
    MakeRoomWindow(g);
    RoomMarked(g);
  }

  lemma RoomMarked(g: Ring)
    requires Inv(g) && Marked(g) && Guard(g)
    ensures Marked(MakeRoom(g))
  {
    var p := MakeRoom(g);
    forall k: nat | k < p.n
      ensures IsValid(Pending(p, k))
    {
      RoomPendingValid(g, k);
    }
    forall i: nat | i < |g.slots| && !InWindow(p, i)
      ensures !IsValid(p.slots[i])
    {
      RoomOthersInvalid(g, i);
    }
  }

  lemma RoomPendingValid(g: Ring, k: nat)
    requires Inv(g) && Guard(g) && Marked(g) && k < MakeRoom(g).n
    ensures IsValid(Pending(MakeRoom(g), k))
  {
    hide MakeRoom, TailBlank, Guard, Pending, InWindow;
    MakeRoomWindow(g);
    var d := if g.n == |g.slots| then 16 else 0;
    assert Window(MakeRoom(g))[k] == Pending(MakeRoom(g), k);
    assert Window(MakeRoom(g))[k] == Window(g)[k + d] == Pending(g, k + d);
  }

  lemma RoomOthersInvalid(g: Ring, i: nat)
    requires Inv(g) && Guard(g) && Marked(g) && i < |g.slots| && !InWindow(MakeRoom(g), i)
    ensures !IsValid(MakeRoom(g).slots[i])
  {
    assert !IsValid(Blank());
    if MakeRoom(g).slots[i] != Blank() {
      assert MakeRoom(g).slots[i] == g.slots[i];
      assert !InWindow(g, i);
    }
  }

  lemma TornSlots(g: Ring, e: Entry, k: nat)
    requires Inv(g) && Guard(g) && |e.data| <= DATA_MAX && k <= 256
    ensures TornAppend(g, e, k) == Place(g, Torn(e, k)).slots
    ensures k == 0 ==> TornAppend(g, e, k) == MakeRoom(g).slots
  {
    hide Guard, TailBlank, MakeRoom, Torn;
    PlaceWindow(g, Torn(e, k));
    TornKinds(e, k);
  }

  /** A tear with a whole magic word is counted as one more pending slot. */
  lemma ValidTear(g: Ring, e: Entry, k: nat)
    requires Laid(g) && Guard(g) && |e.data| <= DATA_MAX && 4 <= k <= 256 && Survives(Place(g, Torn(e, k)))
    ensures var h := Scan(TornAppend(g, e, k));
            && Laid(h) && h.n == MakeRoom(g).n + 1
            && Fifo(h) == Fifo(MakeRoom(g)) + Decoded([Torn(e, k)])
  {
    hide Laid, Guard, TailBlank, MakeRoom, Place, Torn, Scan, Survives;
    LaidIsShaped(g);
    TornKinds(e, k);
    TornSlots(g, e, k);
    PlaceLaid(g, Torn(e, k));
    PlaceVariables(g, Torn(e, k));
    PlaceWindow(g, Torn(e, k));
    MakeRoomWindow(g);
    ScanIsExactWhenLaid(Place(g, Torn(e, k)));
    DecodedConcat(Window(MakeRoom(g)), [Torn(e, k)]);
  }

  lemma DeadTearMarked(g: Ring, t: Slot)
    requires Inv(g) && Guard(g) && Marked(g) && MakeRoom(g).n == 0 && !IsValid(t)
    ensures var w := Wrap(g.w + 1, |g.slots|);
            var q := Ring(Place(g, t).slots, w, w, 0); Inv(q) && Marked(q)
  {
    hide MakeRoom, Guard, AndSlot, IsValid;
    PlaceWindow(g, t);
    PlaceVariables(g, t);
    forall i: nat | i < |g.slots|
      ensures !IsValid(Place(g, t).slots[i])
    {
      if i != g.w {
        PlaceOthersInvalid(g, t, i);
      }
    }
  }

  /** A tear inside the magic word of an otherwise empty queue is stepped over. */
  lemma DeadTearEmpty(g: Ring, e: Entry, k: nat)
    requires Laid(g) && Guard(g) && |e.data| <= DATA_MAX && 1 <= k < 4 && MakeRoom(g).n == 0
    ensures var h := Scan(TornAppend(g, e, k)); Laid(h) && h.n == 0
  {
    hide Inv, Guard, Marked, MakeRoom, Torn, IsValid, IsBlank, BlankRun, Scan;
    LaidIsShaped(g);
    var t := Torn(e, k);
    var w := Wrap(g.w + 1, |g.slots|);
    var q := Ring(Place(g, t).slots, w, w, 0);
    TornKinds(e, k);
    TornSlots(g, e, k);
    var hi := RoomRun(g);
    BlanksProgrammed(MakeRoom(g).slots, g.w, hi, t);
    PlaceWindow(g, t);
    DeadTearMarked(g, t);
    LaidIsShaped(g);
    PlacedRun(q, g.w, hi);
    EmptyScanLaid(q);
  }

  lemma FirstBlankSame(a: seq<Slot>, b: seq<Slot>)
    requires |a| == |b| && forall i | 0 <= i < |a| :: IsBlank(a[i]) <==> IsBlank(b[i])
    ensures FirstBlank(a, 0) == FirstBlank(b, 0)
  {
    var f, h := FirstBlank(a, 0), FirstBlank(b, 0);
    assert f < |a| ==> IsBlank(b[f]);
    assert h < |a| ==> IsBlank(a[h]);
  }

  /** What the scan counts when the newest slot of a straight window has lost its magic word. */
  lemma DeadNewest(v: Ring, slots: seq<Slot>, w: nat)
    requires Shape(v) && Marked(v) && v.n > 1 && v.r + v.n == w + 1 <= |v.slots|
    requires |slots| == |v.slots| && slots == v.slots[w := slots[w]] && !IsValid(slots[w]) && !IsBlank(slots[w])
    requires FirstBlank(v.slots, 0) == w + 1
    ensures Scan(slots) == Ring(slots, v.r, Wrap(w + 1, |slots|), v.n - 1)
  {
    hide Scan;
    assert IsValid(v.slots[w]) by { assert IsValid(Pending(v, v.n - 1)); }
    assert !IsBlank(v.slots[w]);
    FirstBlankSame(v.slots, slots);
    forall i: nat | i < w + 1
      ensures IsValid(slots[i]) <==> v.r <= i < w
    {
      if InWindow(v, i) {
        assert IsValid(Pending(v, i - v.r));
      }
    }
    CountRange(slots, v.r, w, w + 1);
    ScanIs(slots, w + 1);
  }

  lemma ScanIs(slots: seq<Slot>, f: nat)
    requires |slots| % 16 == 0 && 32 <= |slots| && f == FirstBlank(slots, 0)
    ensures CountValid(slots, f) > 0 ==>
              Scan(slots) == Ring(slots, FirstValid(slots, f), Wrap(f, |slots|), CountValid(slots, f))
  {
  }

  /** A tear inside the magic word behind pending entries leaves the count one short of the distance between the two
      addresses: the rebuilt state is not a queue. */
  lemma DeadTearPending(g: Ring, e: Entry, k: nat)
    requires Laid(g) && Guard(g) && |e.data| <= DATA_MAX && 1 <= k < 4 && MakeRoom(g).n > 0
    requires Survives(Append(g, e))
    ensures var h := Scan(TornAppend(g, e, k));
            h.r == MakeRoom(g).r && h.n == MakeRoom(g).n && h.w == Wrap(g.w + 1, |g.slots|) && !Inv(h)
  {
    hide Laid, Guard, TailBlank, MakeRoom, Place, Torn, Scan, Survives, IsValid, IsBlank, Marked, FirstBlank, Encode;
    LaidIsShaped(g);
    var v := Append(g, e);
    TornKinds(e, k);
    TornSlots(g, e, k);
    AppendLaid(g, e);
    LaidIsShaped(v);
    PlaceVariables(g, Encode(e));
    PlaceWindow(g, Encode(e));
    PlaceWindow(g, Torn(e, k));
    ScanIsExactWhenLaid(v);
    ScanIsExact(v) by { LaidIsMarked(v); }
    LaidIsMarked(v);
    DeadNewest(v, TornAppend(g, e, k), g.w);
  }

  lemma LaidIsMarked(g: Ring)
    requires Laid(g)
    ensures Inv(g) && Marked(g)
  {
  }

  /** Which slot the survival of a written ring depends on. */
  lemma PlaceSurvives(g: Ring, t: Slot, u: Slot)
    requires Inv(g) && Guard(g) && Survives(Place(g, t))
    ensures Survives(Place(g, u))
  {
    hide Guard, MakeRoom, IsBlank, TailBlank, AndSlot;
    PlaceWindow(g, t);
    PlaceWindow(g, u);
    PlaceVariables(g, t);
    PlaceVariables(g, u);
  }

  /** Which of the two queues a clean tear leaves, where the queue survives both the room made and the entry written. */
  lemma CleanTearRecovers(g: Ring, e: Entry, k: nat)
    requires Laid(g) && Guard(g) && |e.data| <= DATA_MAX && k <= 256 && CleanTear(MakeRoom(g).n, e, k)
    requires k == 0 ==> Survives(MakeRoom(g))
    requires 4 <= k ==> Survives(Append(g, e))
    ensures var h := Scan(TornAppend(g, e, k));
            Laid(h) && Fifo(h) == if k < 10 then Fifo(MakeRoom(g)) else Fifo(MakeRoom(g)) + [e]
  {
    hide Laid, Guard, TailBlank, MakeRoom, Place, Torn, Scan, Survives, PayloadIntact;
    LaidIsShaped(g);
    if k == 0 {
      RoomLaid(g);
      TornSlots(g, e, k);
      SurvivesScan(MakeRoom(g));
    } else if k < 4 {
      DeadTearEmpty(g, e, k);
    } else {
      PlaceSurvives(g, Encode(e), Torn(e, k));
      ValidTear(g, e, k);
      TornDecodes(e, k);
    }
  }

  lemma TornDecodes(e: Entry, k: nat)
    requires |e.data| <= DATA_MAX && 4 <= k <= 256
    ensures k < 10 ==> Decoded([Torn(e, k)]) == []
    ensures k >= 10 ==> |Decoded([Torn(e, k)])| == 1 && (Decoded([Torn(e, k)]) == [e] <==> PayloadIntact(e, k))
  {
    hide Torn, PayloadIntact, Decode;
    TornKinds(e, k);
    if k >= 10 {
      TornPayload(e, k);
      assert Decoded([Torn(e, k)]) == [Decode(Torn(e, k))];
    }
  }

  lemma OneMore<T>(f: seq<T>, x: seq<T>, e: T)
    requires |x| == 1
    ensures f + x != f && (f + x == f + [e] <==> x == [e])
  {
    assert (f + x)[|f|] == x[0];
    assert |f + x| == |f| + 1;
  }

  /** After a crash in an append, wherever the queue survives the room made and the entry written, the scan rebuilds a
      sound queue, holding what was pending with or without the new entry, if and only if the tear is a clean one. */
  lemma TornAppendIsExact(g: Ring, e: Entry, k: nat)
    requires Laid(g) && Guard(g) && |e.data| <= DATA_MAX && k <= 256
    requires Survives(MakeRoom(g)) && Survives(Append(g, e))
    ensures var h := Scan(TornAppend(g, e, k));
            Inv(h) && (Fifo(h) == Fifo(MakeRoom(g)) || Fifo(h) == Fifo(MakeRoom(g)) + [e])
            <==> CleanTear(MakeRoom(g).n, e, k)
  {
    hide Laid, Inv, Guard, MakeRoom, Place, Torn, Scan, Survives, PayloadIntact;
    LaidIsShaped(g);
    if CleanTear(MakeRoom(g).n, e, k) {
      CleanTearRecovers(g, e, k);
      LaidIsShaped(Scan(TornAppend(g, e, k)));
    } else if k < 4 {
      DeadTearPending(g, e, k);
    } else {
      PlaceSurvives(g, Encode(e), Torn(e, k));
      ValidTear(g, e, k);
      TornDecodes(e, k);
      OneMore(Fifo(MakeRoom(g)), Decoded([Torn(e, k)]), e);
    }
  }

  /** On the first lap the queue survives everywhere: before a write, in it, and behind it. */
  lemma FirstLapSurvives(g: Ring, e: Entry)
    requires Laid(g) && FirstLap(g) && |e.data| <= DATA_MAX
    ensures Guard(g) && Survives(g) && Survives(MakeRoom(g)) && Survives(Append(g, e))
  {
  }
}
