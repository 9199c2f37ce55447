/** Requests and responses together: which of the bytes on the line `modbus_read_device` accepts, and what a conformant
    slave's answers turn into. */
module Exchange {
  import CrcBits
  import opened ModbusCrc
  import opened Frames
  import opened Types
  import opened ModbusMaster
  import CrcDetection

  /** The chunk is noise without the address, then `f`, which begins with the address. */
  predicate Carries(c: Bytes, addr: bv8, f: Bytes) {
    && 0 < |f| <= |c| && f[0] == addr
    && c[|c| - |f|..] == f && addr !in c[..|c| - |f|]
  }

  lemma CarriesLocates(c: Bytes, addr: bv8, f: Bytes)
    requires Carries(c, addr, f)
    ensures Locate(c, addr) == |c| - |f| && Aligned(c, addr) == f
  {
    assert f[0] == c[|c| - |f|..][0];
    LocateIs(c, addr, |c| - |f|);
  }

  lemma AlignedCarries(c: Bytes, addr: bv8)
    ensures Aligned(c, addr) != [] ==> Carries(c, addr, Aligned(c, addr))
  {
  }

  /** The noise before the address is as long as what follows, or longer. */
  ghost predicate TooNoisy(c: Bytes, addr: bv8) {
    forall g | Carries(c, addr, g) :: 2 * |g| <= |c|
  }

  lemma SettlesIs(c: Bytes, addr: bv8)
    ensures Settles(c, addr) <==> Aligned(c, addr) != [] && |c| < 2 * |Aligned(c, addr)|
    ensures c != [] ==> (TooNoisy(c, addr) <==> !Settles(c, addr))
  {
    AlignedCarries(c, addr);
    forall g | Carries(c, addr, g)
      ensures g == Aligned(c, addr)
    {
      CarriesLocates(c, addr, g);
    }
  }

  ghost predicate FirstTry(rx: Chunks, addr: bv8, f: Bytes) {
    |rx| >= 1 && Carries(rx[0], addr, f) && |rx[0]| < 2 * |f|
  }

  ghost predicate SecondTry(rx: Chunks, addr: bv8, f: Bytes) {
    |rx| >= 2 && rx[0] != [] && TooNoisy(rx[0], addr) && Carries(rx[1], addr, f)
  }

  /** Exactly what is accepted: the bytes of one of the first two chunks from the first occurrence of the slave's
      address to the chunk's end, with a CRC that passes; of the first chunk if they are more than half of it, otherwise
      of the second. */
  lemma ResyncIsExact(rx: Chunks, addr: bv8, f: Bytes)
    ensures Response(rx, addr) == Received(f) <==> Crc(f) == 0 && (FirstTry(rx, addr, f) || SecondTry(rx, addr, f))
  {
    if rx != [] {
      TryIs(rx[0], addr, f);
      SettlesIs(rx[0], addr);
      if |rx| > 1 {
        TryIs(rx[1], addr, f);
      }
    }
  }

  lemma TryIs(c: Bytes, addr: bv8, f: Bytes)
    ensures Carries(c, addr, f) <==> f != [] && Aligned(c, addr) == f
  {
    AlignedCarries(c, addr);
    if Carries(c, addr, f) {
      CarriesLocates(c, addr, f);
    }
  }

  lemma CarriesAddress(c: Bytes, addr: bv8, f: Bytes)
    ensures Carries(c, addr, f) ==> addr in c
  {
    if Carries(c, addr, f) {
      assert c[|c| - |f|..][0] == addr;
    }
  }

  /** Nothing is accepted unless one of the two chunks holds the address. */
  lemma AddressPresent(rx: Chunks, addr: bv8)
    requires Response(rx, addr).Received?
    ensures exists i :: 0 <= i < 2 && i < |rx| && addr in rx[i]
  {
    var f := Response(rx, addr).frame;
    ResyncIsExact(rx, addr, f);
    CarriesAddress(rx[if FirstTry(rx, addr, f) then 0 else 1], addr, f);
  }

  // ---------- the result of one request ----------

  ghost predicate Accepted(rx: Chunks, addr: bv8, f: Bytes) {
    Crc(f) == 0 && (FirstTry(rx, addr, f) || SecondTry(rx, addr, f))
  }

  /** Nothing comes, or nothing comes after a first chunk that is discarded. */
  ghost predicate Silent(rx: Chunks, addr: bv8) {
    || rx == [] || rx[0] == []
    || (TooNoisy(rx[0], addr) && (|rx| == 1 || rx[1] == []))
  }

  ghost predicate Excepts(f: Bytes) {
    |f| >= 2 && f[1] & 0x80 != 0
  }

  /** The frame is as long as its third byte says and carries `w`, high byte first, as its first register. */
  ghost predicate Bears(f: Bytes, w: bv16) {
    |f| >= 5 && |f| == 5 + f[2] as int && f[3] as bv16 == w >> 8 && f[4] as bv16 == w & 0xFF
  }

  lemma SilentIs(rx: Chunks, addr: bv8)
    ensures Silent(rx, addr) <==> Response(rx, addr) == Failed(ErrTimeout)
  {
    if rx != [] {
      SettlesIs(rx[0], addr);
    }
  }

  lemma AcceptedIs(rx: Chunks, addr: bv8, f: Bytes)
    ensures Accepted(rx, addr, f) <==> Response(rx, addr) == Received(f)
  {
    ResyncIsExact(rx, addr, f);
  }

  lemma JoinFrom(hi: bv8, lo: bv8, w: bv16, y: bv16, z: bv16)
    requires hi as bv16 == y == HighByte(w) as bv16 && lo as bv16 == z == LowByte(w) as bv16
    ensures Join(hi, lo) == w
  {
    hide *;
    SameBytes(hi, HighByte(w), y);
    SameBytes(lo, LowByte(w), z);
    SplitJoin(w);
  }

  lemma JoinIs(hi: bv8, lo: bv8, w: bv16)
    ensures Join(hi, lo) == w <==> hi as bv16 == w >> 8 && lo as bv16 == w & 0xFF
  {
    hide *;
    if Join(hi, lo) == w {
      JoinHigh(hi, lo);
      JoinLow(hi, lo);
    } else if hi as bv16 == w >> 8 && lo as bv16 == w & 0xFF {
      HighByteWide(w);
      LowByteWide(w);
      JoinFrom(hi, lo, w, hi as bv16, lo as bv16);
    }
  }

  lemma SameBytes(a: bv8, b: bv8, y: bv16)
    requires a as bv16 == y && b as bv16 == y
    ensures a == b
  {
    CrcBits.WideByteDecides(a, b, y, y);
  }

  lemma ExtractIs(f: Bytes, w: bv16)
    requires |f| >= 2
    ensures Extract(Received(f)) == Bad(ErrOffline) <==> Excepts(f)
    ensures Extract(Received(f)) == Raw(w) <==> !Excepts(f) && Bears(f, w)
    ensures Extract(Received(f)).Bad? ==> Extract(Received(f)).error in {ErrOffline, ErrCrc}
  {
    hide Join;
    if |f| >= 5 {
      JoinIs(f[3], f[4], w);
    }
  }

  /** What a request ends in: a timeout exactly when the line is silent, an offline device exactly when an exception is
      accepted, a register exactly when a frame of the right length that bears it is, and a CRC error otherwise. */
  lemma FoundExactly(m: RegMap, rx: Chunks)
    ensures Found(m, rx) == Bad(ErrTimeout) <==> Silent(rx, m.slaveAddr)
    ensures Found(m, rx) == Bad(ErrOffline) <==> exists f :: Accepted(rx, m.slaveAddr, f) && Excepts(f)
    ensures forall w :: Found(m, rx) == Raw(w) <==>
              exists f :: Accepted(rx, m.slaveAddr, f) && !Excepts(f) && Bears(f, w)
    ensures Found(m, rx) == Bad(ErrCrc) <==>
              && !Silent(rx, m.slaveAddr)
              && forall f | Accepted(rx, m.slaveAddr, f) :: !Excepts(f) && forall w :: !Bears(f, w)
  {
    hide *;
    var o := Response(rx, m.slaveAddr);
    SilentIs(rx, m.slaveAddr);
    ResultIs(m, rx);
    forall f
      ensures Accepted(rx, m.slaveAddr, f) <==> o == Received(f)
    {
      AcceptedIs(rx, m.slaveAddr, f);
    }
    if o.Received? {
      assert Accepted(rx, m.slaveAddr, o.frame);
      forall w
        ensures Extract(o) == Raw(w) <==> !Excepts(o.frame) && Bears(o.frame, w)
      {
        ExtractIs(o.frame, w);
      }
      ExtractIs(o.frame, 0);
    }
  }

  lemma ResultIs(m: RegMap, rx: Chunks)
    ensures var o := Response(rx, m.slaveAddr);
            match o
            case Failed(e) => Found(m, rx) == Bad(e) && e in {ErrTimeout, ErrCrc}
            case Received(f) =>
              && Found(m, rx) == Extract(o) && |f| >= 2
              && (Extract(o).Bad? ==> Extract(o).error in {ErrOffline, ErrCrc})
  {
    hide Crc, Locate, Aligned, Settles, Join;
    ResponsePasses(rx, m.slaveAddr);
  }

  // ---------- one conformant frame ----------

  /** A passing frame behind noise in one chunk, then silence: it is received if and only if the noise is shorter than
      the frame, and times out otherwise. */
  lemma NoiseInOneChunk(c: Bytes, addr: bv8, f: Bytes)
    requires Carries(c, addr, f) && Crc(f) == 0
    ensures Response([c], addr) == if |c| - |f| < |f| then Received(f) else Failed(ErrTimeout)
  {
    CarriesLocates(c, addr, f);
  }

  /** Seven bytes of noise are enough to lose a reply, although chunk and frame together fit the buffer. */
  lemma NoiseLosesReply(value: bv16)
    ensures var c := [0, 0, 0, 0, 0, 0, 0] + Reply(1, value);
            |c| <= RESP_BUF && Response([c], 1) == Failed(ErrTimeout)
  {
    var noise: Bytes := [0, 0, 0, 0, 0, 0, 0];
    var c := noise + Reply(1, value);
    assert c[..7] == noise && c[7..] == Reply(1, value);
    ReplyExtracts(1, value);
    NoiseInOneChunk(c, 1, Reply(1, value));
  }

  /** The answer to one request: a frame behind less noise than its own length, or behind any noise after one earlier
      chunk of nothing but noise. */
  ghost predicate Answers(rx: Chunks, addr: bv8, f: Bytes) {
    FirstTry(rx, addr, f) || (|rx| >= 2 && rx[0] != [] && addr !in rx[0] && Carries(rx[1], addr, f))
  }

  lemma AnswerReceived(rx: Chunks, addr: bv8, f: Bytes)
    requires Answers(rx, addr, f) && Crc(f) == 0
    ensures Response(rx, addr) == Received(f)
  {
    if !FirstTry(rx, addr, f) {
      forall g
        ensures Carries(rx[0], addr, g) ==> addr in rx[0]
      {
        CarriesAddress(rx[0], addr, g);
      }
    }
    ResyncIsExact(rx, addr, f);
  }

  lemma ReplyExtracts(addr: bv8, value: bv16)
    ensures Crc(Reply(addr, value)) == 0 && Reply(addr, value)[0] == addr
    ensures Extract(Received(Reply(addr, value))) == Raw(value)
  {
    WithCrcPasses([addr, 0x03, 0x02, HighByte(value), LowByte(value)]);
    SplitJoin(value);
  }

  lemma ExceptionExtracts(addr: bv8, code: bv8)
    ensures Crc(Exception(addr, code)) == 0 && Extract(Received(Exception(addr, code))) == Bad(ErrOffline)
  {
    WithCrcPasses([addr, 0x83, code]);
  }

  /** A reply that a burst of up to sixteen bits has changed behind its address is refused. */
  lemma CorruptedReplyRefused(addr: bv8, value: bv16, c: Bytes, later: Chunks, p: nat)
    requires |c| == 7 && c != Reply(addr, value) && c[0] == addr
    requires forall i | 0 <= i < 8 * |c| ::
               CrcDetection.FrameBits(c)[i] != CrcDetection.FrameBits(Reply(addr, value))[i] ==> p <= i < p + 16
    ensures Response([c] + later, addr) == Failed(ErrCrc)
  {
    ReplyExtracts(addr, value);
    CrcDetection.BurstDetected(c, Reply(addr, value), p);
    LocateIs(c, addr, 0);
  }

  // ---------- a whole device ----------

  ghost predicate Replies(regs: seq<RegMap>, script: seq<Chunks>, values: seq<bv16>) {
    && |regs| == |values| <= |script|
    && forall i | 0 <= i < |regs| :: Answers(script[i], regs[i].slaveAddr, Reply(regs[i].slaveAddr, values[i]))
  }

  function Raws(values: seq<bv16>): (found: seq<Register>)
    ensures |found| == |values| && forall i | 0 <= i < |values| :: found[i] == Raw(values[i])
  {
    seq(|values|, i requires 0 <= i < |values| => Raw(values[i]))
  }

  lemma ReplyFound(m: RegMap, rx: Chunks, value: bv16)
    requires Answers(rx, m.slaveAddr, Reply(m.slaveAddr, value))
    ensures Found(m, rx) == Raw(value)
  {
    ReplyExtracts(m.slaveAddr, value);
    AnswerReceived(rx, m.slaveAddr, Reply(m.slaveAddr, value));
  }

  lemma ExceptionFound(m: RegMap, rx: Chunks, code: bv8)
    requires Answers(rx, m.slaveAddr, Exception(m.slaveAddr, code))
    ensures Found(m, rx) == Bad(ErrOffline)
  {
    ExceptionExtracts(m.slaveAddr, code);
    AnswerReceived(rx, m.slaveAddr, Exception(m.slaveAddr, code));
  }

  lemma RepliesFound(regs: seq<RegMap>, more: seq<RegMap>, script: seq<Chunks>, values: seq<bv16>)
    requires Replies(regs, script, values)
    ensures AllFound(regs + more, script)[..|regs|] == Raws(values)
  {
    forall i | 0 <= i < |regs|
      ensures AllFound(regs + more, script)[i] == Raw(values[i])
    {
      ReplyFound(regs[i], script[i], values[i]);
      assert (regs + more)[i] == regs[i];
    }
  }

  /** A record with each entry's register stored in turn. */
  function Filled(regs: seq<RegMap>, values: seq<bv16>, d: Device): (out: Device)
    requires |regs| == |values|
    ensures out.id == d.id && out.online == d.online && out.name == d.name
  {
    if regs == [] then d
    else Filled(regs[1..], values[1..], SetField(d, regs[0].field, Scaled(values[0], regs[0].scale)))
  }

  /** The loop gets through a stretch of entries that are answered. */
  lemma {:induction false} RawsFill(regs: seq<RegMap>, more: seq<RegMap>, values: seq<bv16>, rest: seq<Register>,
                                    d: Device)
    requires |regs| == |values| && |more| == |rest|
    ensures ReadAll(regs + more, Raws(values) + rest, d) == ReadAll(more, rest, Filled(regs, values, d))
    ensures RequestCount(Raws(values) + rest) == |regs| + RequestCount(rest)
  {
    if regs == [] {
      assert regs + more == more && Raws(values) + rest == rest;
    } else {
      var d' := SetField(d, regs[0].field, Scaled(values[0], regs[0].scale));
      RawsFill(regs[1..], more, values[1..], rest, d');
      assert (regs + more)[1..] == regs[1..] + more;
      assert (Raws(values) + rest)[1..] == Raws(values[1..]) + rest;
    }
  }

  predicate Names(regs: seq<RegMap>, f: Field) {
    exists j :: 0 <= j < |regs| && regs[j].field == f
  }

  lemma {:induction false} Unnamed(regs: seq<RegMap>, values: seq<bv16>, d: Device, f: Field)
    requires |regs| == |values| && !Names(regs, f)
    ensures GetField(Filled(regs, values, d), f) == GetField(d, f)
  {
    if regs != [] {
      assert regs[0].field != f;
      assert !Names(regs[1..], f);
      Unnamed(regs[1..], values[1..], SetField(d, regs[0].field, Scaled(values[0], regs[0].scale)), f);
    }
  }

  lemma {:induction false} LastNamed(regs: seq<RegMap>, values: seq<bv16>, d: Device, i: nat)
    requires i < |regs| == |values| && !Names(regs[i + 1..], regs[i].field)
    ensures GetField(Filled(regs, values, d), regs[i].field) == Scaled(values[i], regs[i].scale)
  {
    var next := SetField(d, regs[0].field, Scaled(values[0], regs[0].scale));
    if i == 0 {
      Unnamed(regs[1..], values[1..], next, regs[0].field);
    } else {
      assert regs[1..][i..] == regs[i + 1..];
      LastNamed(regs[1..], values[1..], next, i - 1);
    }
  }

  /** Each field holds the raw register of the last entry that names it, with that entry's scale, and a field that no
      entry names is zero. */
  ghost predicate HoldsLast(out: Device, regs: seq<RegMap>, values: seq<bv16>)
    requires |regs| == |values|
  {
    && (forall i: nat | i < |regs| && !Names(regs[i + 1..], regs[i].field) ::
          GetField(out, regs[i].field) == Scaled(values[i], regs[i].scale))
    && (forall f | !Names(regs, f) :: GetField(out, f) == Zero)
  }

  lemma FilledHoldsLast(regs: seq<RegMap>, values: seq<bv16>, devId: bv8)
    requires |regs| == |values|
    ensures HoldsLast(Filled(regs, values, CLEARED.(id := devId)).(online := true, ts := 0), regs, values)
  {
    var d := CLEARED.(id := devId);
    var out := Filled(regs, values, d).(online := true, ts := 0);
    forall i: nat | i < |regs| && !Names(regs[i + 1..], regs[i].field)
      ensures GetField(out, regs[i].field) == Scaled(values[i], regs[i].scale)
    {
      LastNamed(regs, values, d, i);
    }
    forall f | !Names(regs, f)
      ensures GetField(out, f) == Zero
    {
      Unnamed(regs, values, d, f);
    }
  }

  lemma FilledKeeps(regs: seq<RegMap>, values: seq<bv16>, devId: bv8)
    requires |regs| == |values|
    ensures var d := Filled(regs, values, CLEARED.(id := devId)); d.id == devId && d.name == "" && !d.online
  {
    hide Filled;
  }

  lemma NothingLeft(d: Device)
    ensures ReadAll([], [], d) == (ErrOk, d.(online := true, ts := 0)) && RequestCount([]) == 0
  {
  }

  /** If the request for each entry is answered by a reply, the device is read: every entry is asked for, and each field
      holds what the last entry naming it was answered. */
  lemma DeviceRoundTrip(regs: seq<RegMap>, script: seq<Chunks>, values: seq<bv16>, devId: bv8)
    requires Replies(regs, script, values)
    ensures var found := AllFound(regs, script);
            var (err, out) := ReadAll(regs, found, CLEARED.(id := devId));
            && err == ErrOk && RequestCount(found) == |regs|
            && out.online && out.id == devId && out.name == "" && out.ts == 0 && HoldsLast(out, regs, values)
  {
    hide *;
    var d := CLEARED.(id := devId);
    RepliesFound(regs, [], script, values);
    RawsFill(regs, [], values, [], d);
    FilledHoldsLast(regs, values, devId);
    FilledKeeps(regs, values, devId);
    NothingLeft(Filled(regs, values, d));
    assert regs + [] == regs && Raws(values) + [] == Raws(values) == AllFound(regs, script);
  }

  /** An exception response after replies to all earlier entries: the device is offline, and no later entry is asked
      for. */
  lemma ExceptionOffline(regs: seq<RegMap>, m: RegMap, more: seq<RegMap>, script: seq<Chunks>, values: seq<bv16>,
                         devId: bv8, code: bv8)
    requires Replies(regs, script, values) && |regs| < |script|
    requires Answers(script[|regs|], m.slaveAddr, Exception(m.slaveAddr, code))
    ensures var all := regs + ([m] + more);
            var found := AllFound(all, script);
            var (err, out) := ReadAll(all, found, CLEARED.(id := devId));
            err == ErrOffline && !out.online && RequestCount(found) == |regs| + 1
  {
    hide *;
    var tail := [m] + more;
    var found := AllFound(regs + tail, script);
    RepliesFound(regs, tail, script, values);
    assert tail[0] == m && (regs + tail)[|regs|] == m;
    AnswerIs(script, |regs|);
    ExceptionFound(m, script[|regs|], code);
    StopsAtBad(regs, tail, values, found, ErrOffline, devId);
  }

  lemma AnswerIs(script: seq<Chunks>, i: nat)
    requires i < |script|
    ensures AnswerTo(script, i) == script[i]
  {
  }

  lemma BadFirst(regs: seq<RegMap>, found: seq<Register>, e: Error, d: Device)
    requires |found| == |regs| > 0 && found[0] == Bad(e)
    ensures ReadAll(regs, found, d) == (e, d) && RequestCount(found) == 1
  {
  }

  lemma StopsAtBad(regs: seq<RegMap>, tail: seq<RegMap>, values: seq<bv16>, found: seq<Register>, e: Error, devId: bv8)
    requires |regs| == |values| && |tail| > 0 && |found| == |regs| + |tail|
    requires found[..|regs|] == Raws(values) && found[|regs|] == Bad(e)
    ensures var (err, out) := ReadAll(regs + tail, found, CLEARED.(id := devId));
            err == e && !out.online && RequestCount(found) == |regs| + 1
  {
    hide *;
    var d := CLEARED.(id := devId);
    assert found == Raws(values) + found[|regs|..];
    RawsFill(regs, tail, values, found[|regs|..], d);
    BadFirst(tail, found[|regs|..], e, Filled(regs, values, d));
    FilledKeeps(regs, values, devId);
  }
}
