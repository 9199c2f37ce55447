/** main/protocol/modbus_master.c over the receive calls of main/drivers/rs485.c: what one read of a device makes of
    the chunks of bytes that the line delivers. */
module ModbusMaster {
  import opened ModbusCrc
  import opened Frames
  import opened Types

  const RESP_BUF: nat := 64

  datatype Error = ErrOk | ErrTimeout | ErrCrc | ErrOffline

  type Chunks = seq<Bytes>

  /** Every chunk fits the response buffer. */
  ghost predicate Short(rx: Chunks) {
    forall i | 0 <= i < |rx| :: |rx[i]| <= RESP_BUF
  }

  ghost predicate AllShort(script: seq<Chunks>) {
    forall i | 0 <= i < |script| :: Short(script[i])
  }

  function Chunk(rx: Chunks): Bytes {
    if rx == [] then [] else rx[0]
  }

  function Later(rx: Chunks): Chunks {
    if rx == [] then [] else rx[1..]
  }

  function Answer(script: seq<Chunks>): Chunks {
    if script == [] then [] else script[0]
  }

  function LaterAnswers(script: seq<Chunks>): seq<Chunks> {
    if script == [] then [] else script[1..]
  }

  /** The serial line. `script` is what arrives after each request still to be sent, one chunk per receive call; an
      empty chunk, or none, is a call that times out. */
  class Rs485 {
    var script: seq<Chunks>
    var rx: Chunks
    var tx: seq<Bytes>

    ghost predicate Valid()
      reads this
    {
      AllShort(script) && Short(rx)
    }

    constructor (script: seq<Chunks>)
      requires AllShort(script)
      ensures Valid() && this.script == script && rx == [] && tx == []
    {
      this.script := script;
      rx, tx := [], [];
    }

    method Flush()
      modifies this`rx
      ensures rx == []
    {
      rx := [];
    }

    method Send(frame: Bytes)
      requires Valid()
      modifies this
      ensures Valid()
      ensures tx == old(tx) + [frame] && rx == old(rx) + Answer(old(script)) && script == LaterAnswers(old(script))
    {
      tx := tx + [frame];
      rx := rx + Answer(script);
      script := LaterAnswers(script);
    }

    /** `rs485_receive`: the number of bytes stored at the start of the buffer. */
    method Receive(buf: array<bv8>) returns (n: nat)
      requires Valid() && buf.Length == RESP_BUF
      modifies this`rx, buf
      ensures Valid() && rx == Later(old(rx)) && n <= buf.Length
      ensures buf[..n] == Chunk(old(rx)) && buf[n..] == old(buf[n..])
    {
      var c := Chunk(rx);
      rx := Later(rx);
      n := |c|;
      forall i | 0 <= i < n {
        buf[i] := c[i];
      }
    }
  }

  // ---------- one response ----------

  /** The first place of the slave's address in a chunk, its length if there is none. */
  function Locate(c: Bytes, addr: bv8): (k: nat)
    ensures k <= |c| && addr !in c[..k] && (k < |c| ==> c[k] == addr)
  {
    if c == [] || c[0] == addr then 0 else
      var k := 1 + Locate(c[1..], addr);
      assert c[..k] == [c[0]] + c[1..][..k - 1];
      k
  }

  lemma LocateIs(c: Bytes, addr: bv8, k: nat)
    requires k <= |c| && addr !in c[..k] && (k < |c| ==> c[k] == addr)
    ensures Locate(c, addr) == k
  {
  }

  /** The chunk from the address on. */
  function Aligned(c: Bytes, addr: bv8): Bytes {
    c[Locate(c, addr)..]
  }

  /** The first chunk is taken if it begins with the address or has more bytes from the address on than before it: the
      source compares the offset with the length that it has just reduced by the offset. */
  predicate Settles(c: Bytes, addr: bv8) {
    c != [] && (Locate(c, addr) == 0 || Locate(c, addr) < |c| - Locate(c, addr))
  }

  datatype Outcome = Received(frame: Bytes) | Failed(error: Error)

  function Judge(f: Bytes): Outcome {
    if f != [] && Crc(f) == 0 then Received(f) else Failed(ErrCrc)
  }

  /** What `modbus_recv_response` makes of the chunks that arrive. */
  function Response(rx: Chunks, addr: bv8): Outcome {
    if Chunk(rx) == [] then Failed(ErrTimeout)
    else if Settles(Chunk(rx), addr) then Judge(Aligned(Chunk(rx), addr))
    else if Chunk(Later(rx)) == [] then Failed(ErrTimeout)
    else Judge(Aligned(Chunk(Later(rx)), addr))
  }

  /** The buffer after the noise before the address of chunk `c` was moved out of it. */
  ghost predicate Holds(buf: Bytes, n: nat, c: Bytes, addr: bv8) {
    n <= |buf| && buf[..n] == Aligned(c, addr) && (n == 0 ==> buf != [] && buf[0] != addr)
  }

  /** The search for the address, and the `memmove`. */
  method DropNoise(buf: array<bv8>, n: nat, addr: bv8) returns (offset: nat, m: nat)
    requires 0 < n <= buf.Length
    modifies buf
    ensures offset == Locate(old(buf[..n]), addr) && m == n - offset
    ensures Holds(buf[..], m, old(buf[..n]), addr)
  {
    ghost var c := buf[..n];
    offset := 0;
    while offset < n && buf[offset] != addr
      invariant offset <= n && addr !in c[..offset]
    {
      assert c[..offset + 1] == c[..offset] + [c[offset]];
      offset := offset + 1;
    }
    LocateIs(c, addr, offset);
    m := n - offset;
    if offset > 0 {
      forall i | 0 <= i < m {
        buf[i] := buf[offset + i];
      }
    }
    assert buf[..m] == c[offset..];
  }

  /** The two checks at the end. */
  method Check(buf: array<bv8>, n: nat, addr: bv8, ghost c: Bytes) returns (err: Error)
    requires buf.Length == RESP_BUF && Holds(buf[..], n, c, addr)
    ensures err == (match Judge(Aligned(c, addr)) case Received(f) => ErrOk case Failed(e) => e)
    ensures err == ErrOk ==> n > 0
  {
    assert buf[..n] == Aligned(c, addr);
    if n > 0 {
      assert buf[..n][0] == buf[0];
    } else {
      assert buf[..][0] == buf[0];
    }
    if buf[0] != addr {
      return ErrCrc;
    }
    var crc := ModbusCrc16(buf, n);
    return if crc != 0 then ErrCrc else ErrOk;
  }

  ghost predicate Delivers(o: Outcome, err: Error, buf: Bytes, len: nat) {
    match o
    case Received(f) => err == ErrOk && len <= |buf| && buf[..len] == f
    case Failed(e) => err == e
  }

  /** `modbus_recv_response`. */
  method RecvResponse(bus: Rs485, buf: array<bv8>, addr: bv8) returns (err: Error, len: nat)
    requires bus.Valid() && buf.Length == RESP_BUF
    modifies bus`rx, buf
    ensures bus.Valid()
    ensures Delivers(Response(old(bus.rx), addr), err, buf[..], len)
  {
    ghost var c: Bytes := [];
    len := 0;
    var attempt := 0;
    while attempt < 2
      invariant bus.Valid() && attempt <= 2
      invariant attempt == 0 ==> bus.rx == old(bus.rx)
      invariant attempt > 0 ==> Chunk(old(bus.rx)) != [] && !Settles(Chunk(old(bus.rx)), addr)
      invariant attempt == 1 ==> bus.rx == Later(old(bus.rx))
      invariant attempt == 2 ==> Chunk(Later(old(bus.rx))) == c != [] && Holds(buf[..], len, c, addr)
    {
      c := Chunk(bus.rx);
      var n := bus.Receive(buf);
      if n == 0 {
        return ErrTimeout, 0;
      }
      if buf[0] == addr {
        LocateIs(c, addr, 0);
        len := n;
        break;
      }
      var offset, m := DropNoise(buf, n, addr);
      len := m;
      if offset < m {
        break;
      }
      attempt := attempt + 1;
    }
    err := Check(buf, len, addr, c);
  }

  // ---------- one device ----------

  datatype Field = FieldTemp | FieldHumi | FieldCurrent

  datatype RegMap = RegMap(slaveAddr: bv8, regStart: bv16, scale: real, field: Field)

  datatype Register = Raw(value: bv16) | Bad(error: Error)

  function ByteCount(b: bv8): nat {
    b as nat
  }

  /** The register in a response that passed its checks: no exception bit, and the length that its count demands. */
  function Extract(o: Outcome): Register {
    match o
    case Failed(e) => Bad(e)
    case Received(f) =>
      if |f| >= 2 && f[1] & 0x80 != 0 then Bad(ErrOffline)
      else if |f| < 5 || |f| != 5 + ByteCount(f[2]) then Bad(ErrCrc)
      else Raw(Join(f[3], f[4]))
  }

  function SetField(d: Device, f: Field, v: Value): Device {
    match f
    case FieldTemp => d.(temp := v)
    case FieldHumi => d.(humi := v)
    case FieldCurrent => d.(current := v)
  }

  function GetField(d: Device, f: Field): Value {
    match f
    case FieldTemp => d.temp
    case FieldHumi => d.humi
    case FieldCurrent => d.current
  }

  /** The loop of `modbus_read_device`, given what each request would bring. */
  function ReadAll(regs: seq<RegMap>, found: seq<Register>, d: Device): (Error, Device)
    requires |regs| == |found|
  {
    if regs == [] then (ErrOk, d.(online := true, ts := 0))
    else
      match found[0]
      case Bad(e) => (e, d)
      case Raw(v) => ReadAll(regs[1..], found[1..], SetField(d, regs[0].field, Scaled(v, regs[0].scale)))
  }

  /** The number of requests that go out: one for each entry up to the first that fails. */
  function RequestCount(found: seq<Register>): (n: nat)
    ensures n <= |found|
  {
    if found == [] then 0 else if found[0].Bad? then 1 else 1 + RequestCount(found[1..])
  }

  function AskFor(m: RegMap): Bytes {
    Request(m.slaveAddr, m.regStart, 1)
  }

  function Asked(regs: seq<RegMap>): (frames: seq<Bytes>)
    ensures |frames| == |regs| && forall i | 0 <= i < |regs| :: frames[i] == AskFor(regs[i])
  {
    seq(|regs|, i requires 0 <= i < |regs| => AskFor(regs[i]))
  }

  /** What is left of the script after `n` requests. */
  function Rest(script: seq<Chunks>, n: nat): seq<Chunks> {
    if n < |script| then script[n..] else []
  }

  function AnswerTo(script: seq<Chunks>, i: nat): Chunks {
    if i < |script| then script[i] else []
  }

  function Found(m: RegMap, rx: Chunks): (r: Register)
    ensures r.Bad? ==> r.error != ErrOk
  {
    ResponsePasses(rx, m.slaveAddr);
    Extract(Response(rx, m.slaveAddr))
  }

  function AllFound(regs: seq<RegMap>, script: seq<Chunks>): (found: seq<Register>)
    ensures |found| == |regs| && forall i | 0 <= i < |regs| :: found[i] == Found(regs[i], AnswerTo(script, i))
  {
    seq(|regs|, i requires 0 <= i < |regs| => Found(regs[i], AnswerTo(script, i)))
  }

  /** `modbus_send_request`. */
  method SendRequest(bus: Rs485, addr: bv8, reg: bv16, count: bv16)
    requires bus.Valid()
    modifies bus
    ensures bus.Valid() && bus.tx == old(bus.tx) + [Request(addr, reg, count)]
    ensures bus.rx == Answer(old(bus.script)) && bus.script == LaterAnswers(old(bus.script))
  {
    var frame := new bv8[8];
    frame[0] := addr;
    frame[1] := 0x03;
    frame[2] := HighByte(reg);
    frame[3] := LowByte(reg);
    frame[4] := HighByte(count);
    frame[5] := LowByte(count);
    var crc := ModbusCrc16(frame, 6);
    assert frame[..6] == [addr, 0x03, HighByte(reg), LowByte(reg), HighByte(count), LowByte(count)];
    frame[6] := LowByte(crc);
    frame[7] := HighByte(crc);
    assert frame[..] == Request(addr, reg, count);
    bus.Flush();
    bus.Send(frame[..]);
  }

  /** The checks on one response and the register in it. */
  method ReadRegister(bus: Rs485, resp: array<bv8>, addr: bv8) returns (r: Register)
    requires bus.Valid() && resp.Length == RESP_BUF
    modifies bus`rx, resp
    ensures bus.Valid() && r == Extract(Response(old(bus.rx), addr))
  {
    var err, len := RecvResponse(bus, resp, addr);
    if err != ErrOk {
      return Bad(err);
    }
    ghost var f := resp[..len];
    ResponsePasses(old(bus.rx), addr);
    if resp[1] & 0x80 != 0 {
      return Bad(ErrOffline);
    }
    var byteCount := ByteCount(resp[2]);
    if len != 5 + byteCount {
      return Bad(ErrCrc);
    }
    return Raw(Join(resp[3], resp[4]));
  }

  lemma ResponsePasses(rx: Chunks, addr: bv8)
    ensures match Response(rx, addr)
            case Received(f) => |f| >= 2 && Crc(f) == 0 && f[0] == addr
            case Failed(e) => e != ErrOk
  {
    match Response(rx, addr)
    case Received(f) => PassingLength(f);
    case Failed(_) =>
  }

  /** One turn of the loop: the request, the response and its checks. */
  method ReadEntry(bus: Rs485, resp: array<bv8>, m: RegMap) returns (r: Register)
    requires bus.Valid() && resp.Length == RESP_BUF
    modifies bus, resp
    ensures bus.Valid() && bus.script == LaterAnswers(old(bus.script))
    ensures r == Found(m, Answer(old(bus.script))) && bus.tx == old(bus.tx) + [AskFor(m)]
    ensures Asks(bus.tx[|old(bus.tx)|], m.slaveAddr, m.regStart, 1)
  {
    RequestCarries(m.slaveAddr, m.regStart, 1);
    SendRequest(bus, m.slaveAddr, m.regStart, 1);
    r := ReadRegister(bus, resp, m.slaveAddr);
  }

  /** The loop before entry `i`, with record `d`, is on its way to the result of the whole. */
  ghost predicate Continues(regs: seq<RegMap>, found: seq<Register>, d0: Device, i: nat, d: Device)
    requires i <= |regs| == |found|
  {
    && ReadAll(regs, found, d0) == ReadAll(regs[i..], found[i..], d)
    && RequestCount(found) == i + RequestCount(found[i..])
  }

  lemma ContinuesNext(regs: seq<RegMap>, found: seq<Register>, d0: Device, i: nat, d: Device)
    requires i < |regs| == |found| && Continues(regs, found, d0, i, d)
    ensures match found[i]
            case Bad(e) => ReadAll(regs, found, d0) == (e, d) && RequestCount(found) == i + 1
            case Raw(v) => Continues(regs, found, d0, i + 1, SetField(d, regs[i].field, Scaled(v, regs[i].scale)))
  {
    assert regs[i..][1..] == regs[i + 1..] && found[i..][1..] == found[i + 1..];
  }

  lemma ContinuesToEnd(regs: seq<RegMap>, found: seq<Register>, d0: Device, d: Device)
    requires |regs| == |found| && Continues(regs, found, d0, |regs|, d)
    ensures ReadAll(regs, found, d0) == (ErrOk, d.(online := true, ts := 0)) && RequestCount(found) == |regs|
  {
  }

  lemma ContinuesFromStart(regs: seq<RegMap>, found: seq<Register>, d0: Device)
    requires |regs| == |found|
    ensures Continues(regs, found, d0, 0, d0)
  {
    assert regs[0..] == regs && found[0..] == found;
  }

  lemma RestOfAll(script: seq<Chunks>)
    ensures Rest(script, 0) == script
  {
  }

  lemma ScriptNext(script: seq<Chunks>, i: nat, now: seq<Chunks>)
    requires now == Rest(script, i)
    ensures Answer(now) == AnswerTo(script, i) && LaterAnswers(now) == Rest(script, i + 1)
  {
  }

  /** The requests name the slaves and the registers of the map, one register each. */
  lemma AskedAsks(was: seq<Bytes>, regs: seq<RegMap>, n: nat, now: seq<Bytes>)
    requires n <= |regs| && now == was + Asked(regs[..n])
    ensures forall i | |was| <= i < |now| ::
              var m := regs[i - |was|]; Asks(now[i], m.slaveAddr, m.regStart, 1)
  {
    hide Request, Asks;
    forall i | |was| <= i < |now|
      ensures var m := regs[i - |was|]; Asks(now[i], m.slaveAddr, m.regStart, 1)
    {
      var m := regs[i - |was|];
      RequestCarries(m.slaveAddr, m.regStart, 1);
    }
  }

  lemma AskedNext(regs: seq<RegMap>, i: nat)
    requires i < |regs|
    ensures Asked(regs[..i + 1]) == Asked(regs[..i]) + [AskFor(regs[i])]
  {
  }

  /** `modbus_read_device`; `out` is also what the caller's record holds after a failure. */
  method ReadDevice(bus: Rs485, devId: bv8, regs: seq<RegMap>) returns (err: Error, out: Device)
    requires bus.Valid()
    modifies bus
    ensures bus.Valid()
    ensures (err, out) == ReadAll(regs, AllFound(regs, old(bus.script)), CLEARED.(id := devId))
    ensures var sent := RequestCount(AllFound(regs, old(bus.script)));
            bus.tx == old(bus.tx) + Asked(regs[..sent]) && bus.script == Rest(old(bus.script), sent)
    ensures forall i | |old(bus.tx)| <= i < |bus.tx| ::
              var m := regs[i - |old(bus.tx)|]; Asks(bus.tx[i], m.slaveAddr, m.regStart, 1)
  {
    hide *;
    ghost var script, d0 := bus.script, CLEARED.(id := devId);
    ghost var found := AllFound(regs, script);
    var resp := new bv8[RESP_BUF];
    out := CLEARED.(id := devId);
    ContinuesFromStart(regs, found, d0);
    RestOfAll(script);
    for i := 0 to |regs|
      invariant bus.Valid()
      invariant bus.script == Rest(script, i)
      invariant Continues(regs, found, d0, i, out)
      invariant bus.tx == old(bus.tx) + Asked(regs[..i])
    {
      ScriptNext(script, i, bus.script);
      ContinuesNext(regs, found, d0, i, out);
      AskedNext(regs, i);
      var r := ReadEntry(bus, resp, regs[i]);
      match r
      case Bad(e) =>
        AskedAsks(old(bus.tx), regs, i + 1, bus.tx);
        return e, out;
      case Raw(v) =>
        out := SetField(out, regs[i].field, Scaled(v, regs[i].scale));
    }
    ContinuesToEnd(regs, found, d0, out);
    AskedAsks(old(bus.tx), regs, |regs|, bus.tx);
    out := out.(online := true, ts := 0);
    return ErrOk, out;
  }
}
