/** What one poll makes of the line: the readings that main/scheduler/poll_scheduler.c records for its device table. */
module Readings {
  import opened Types
  import opened Exchange
  import opened ModbusMaster
  import opened PollScheduler
  import opened Slave

  lemma {:induction false} ReadsIfAllFound(regs: seq<RegMap>, found: seq<Register>, d: Device)
    requires |regs| == |found| && forall i | 0 <= i < |found| && found[i].Bad? :: found[i].error != ErrOk
    ensures ReadAll(regs, found, d).0 == ErrOk <==> forall i | 0 <= i < |found| :: found[i].Raw?
    decreases |regs|
  {
    if regs != [] && found[0].Raw? {
      ReadsIfAllFound(regs[1..], found[1..], SetField(d, regs[0].field, Scaled(found[0].value, regs[0].scale)));
      assert forall i | 0 < i < |found| :: found[i] == found[1..][i - 1];
    }
  }

  /** A poll fails if and only if one of its requests does. */
  lemma FailsExactly(m: PollEntry, script: seq<Chunks>, now: bv32)
    ensures OutcomeOf(m, script, now) == Failure
            <==> exists i :: 0 <= i < |m.regs| && Found(m.regs[i], AnswerTo(script, i)).Bad?
  {
    hide Found, ReadAll, AnswerTo;
    var found := AllFound(m.regs, script);
    ReadsIfAllFound(m.regs, found, CLEARED.(id := m.devId));
    assert forall i | 0 <= i < |m.regs| :: found[i] == Found(m.regs[i], AnswerTo(script, i));
  }

  /** The poll is recorded as a reading of the device, online, at the time of the clock and under its name, that holds
      `values`. */
  ghost predicate IsReading(o: PollScheduler.Outcome, m: PollEntry, now: bv32, values: seq<bv16>) {
    && |values| == |m.regs|
    && o.Reading? && o.d.online && o.d.id == m.devId && o.d.name == m.name && o.d.ts == now
    && HoldsLast(o.d, m.regs, values)
  }

  lemma ReadingIs(m: PollEntry, script: seq<Chunks>, now: bv32, values: seq<bv16>, result: (Error, Device))
    requires result == ReadAll(m.regs, AllFound(m.regs, script), CLEARED.(id := m.devId))
    requires |values| == |m.regs| && result.0 == ErrOk && result.1.online && result.1.id == m.devId
    requires HoldsLast(result.1, m.regs, values)
    ensures IsReading(OutcomeOf(m, script, now), m, now, values)
  {
    hide ReadAll, AllFound, Names;
  }

  /** A device whose requests are all answered is recorded with the registers that the answers carry. */
  lemma AnsweredIsReading(m: PollEntry, script: seq<Chunks>, now: bv32, values: seq<bv16>)
    requires Replies(m.regs, script, values)
    ensures IsReading(OutcomeOf(m, script, now), m, now, values)
  {
    hide ReadAll, AllFound, HoldsLast;
    DeviceRoundTrip(m.regs, script, values, m.devId);
    ReadingIs(m, script, now, values, ReadAll(m.regs, AllFound(m.regs, script), CLEARED.(id := m.devId)));
  }

  /** The frames that go out when the device is polled. */
  function SentTo(m: PollEntry, script: seq<Chunks>): seq<Bytes> {
    Asked(m.regs[..RequestCount(AllFound(m.regs, script))])
  }

  lemma ServedIsReading(bank: Bank, m: PollEntry, script: seq<Chunks>, now: bv32)
    requires ServesAll(bank, SentTo(m, script), script)
    ensures IsReading(OutcomeOf(m, script, now), m, now, Held(bank, m.regs))
  {
    hide ReadAll, AllFound, HoldsLast, Asked, ServesAll;
    SlaveRoundTrip(bank, m.regs, script, m.devId, RequestCount(AllFound(m.regs, script)));
    ReadingIs(m, script, now, Held(bank, m.regs),
              ReadAll(m.regs, AllFound(m.regs, script), CLEARED.(id := m.devId)));
  }

  lemma OneEntry(d: Device, r: RegMap, v: bv16)
    requires HoldsLast(d, [r], [v])
    ensures GetField(d, r.field) == Scaled(v, r.scale)
    ensures forall f | f != r.field :: GetField(d, f) == Zero
  {
    assert [r][1..] == [] && [r][0] == r;
    forall f | f != r.field
      ensures GetField(d, f) == Zero
    {
      assert !Names([r], f);
    }
  }

  lemma TwoEntries(d: Device, r: RegMap, q: RegMap, v: bv16, w: bv16)
    requires r.field != q.field && HoldsLast(d, [r, q], [v, w])
    ensures GetField(d, r.field) == Scaled(v, r.scale) && GetField(d, q.field) == Scaled(w, q.scale)
    ensures forall f | f != r.field && f != q.field :: GetField(d, f) == Zero
  {
    var regs := [r, q];
    assert regs[1..] == [q] && regs[2..] == [] && regs[0] == r && regs[1] == q;
    assert !Names([q], r.field);
    assert !Names([], q.field);
    forall f | f != r.field && f != q.field
      ensures GetField(d, f) == Zero
    {
      assert !Names(regs, f);
    }
  }

  /** The gateway's own table over slaves that answer: the temperature and the humidity of device 1 are registers 0 and
      1 of slave 1 in tenths, the currents of devices 2 and 3 are register 0 of slaves 2 and 3 in hundredths and
      tenths, and what a device does not measure is zero. */
  lemma TableReads(bank: Bank, script: seq<Chunks>, now: bv32)
    ensures ServesAll(bank, SentTo(DeviceTable()[0], script), script) ==>
              OutcomeOf(DeviceTable()[0], script, now)
              == Reading(Device(1, "sensor_th", true, now, Scaled(bank(1, 0), 0.1), Scaled(bank(1, 1), 0.1), Zero))
    ensures ServesAll(bank, SentTo(DeviceTable()[1], script), script) ==>
              OutcomeOf(DeviceTable()[1], script, now)
              == Reading(Device(2, "sensor_cur", true, now, Zero, Zero, Scaled(bank(2, 0), 0.01)))
    ensures ServesAll(bank, SentTo(DeviceTable()[2], script), script) ==>
              OutcomeOf(DeviceTable()[2], script, now)
              == Reading(Device(3, "sensor_bak", true, now, Zero, Zero, Scaled(bank(3, 0), 0.1)))
  {
    FirstReads(bank, script, now);
    OtherReads(bank, DeviceTable()[1], script, now, RegMap(2, 0x0000, 0.01, FieldCurrent));
    OtherReads(bank, DeviceTable()[2], script, now, RegMap(3, 0x0000, 0.1, FieldCurrent));
  }

  lemma FirstReads(bank: Bank, script: seq<Chunks>, now: bv32)
    ensures ServesAll(bank, SentTo(DeviceTable()[0], script), script) ==>
              OutcomeOf(DeviceTable()[0], script, now)
              == Reading(Device(1, "sensor_th", true, now, Scaled(bank(1, 0), 0.1), Scaled(bank(1, 1), 0.1), Zero))
  {
    hide OutcomeOf, ServesAll, HoldsLast, SentTo;
    var m := DeviceTable()[0];
    var r, q := RegMap(1, 0x0000, 0.1, FieldTemp), RegMap(1, 0x0001, 0.1, FieldHumi);
    assert m.regs == [r, q];
    if ServesAll(bank, SentTo(m, script), script) {
      ServedIsReading(bank, m, script, now);
      assert Held(bank, m.regs) == [bank(1, 0), bank(1, 1)];
      var d := OutcomeOf(m, script, now).d;
      TwoEntries(d, r, q, bank(1, 0), bank(1, 1));
      assert GetField(d, FieldTemp) == d.temp && GetField(d, FieldHumi) == d.humi;
      assert GetField(d, FieldCurrent) == d.current;
    }
  }

  lemma OtherReads(bank: Bank, m: PollEntry, script: seq<Chunks>, now: bv32, r: RegMap)
    requires m.regs == [r] && r.field == FieldCurrent
    ensures ServesAll(bank, SentTo(m, script), script) ==>
              OutcomeOf(m, script, now)
              == Reading(Device(m.devId, m.name, true, now, Zero, Zero,
                                Scaled(bank(r.slaveAddr, r.regStart), r.scale)))
  {
    hide OutcomeOf, ServesAll, HoldsLast, SentTo;
    if ServesAll(bank, SentTo(m, script), script) {
      ServedIsReading(bank, m, script, now);
      assert Held(bank, m.regs) == [bank(r.slaveAddr, r.regStart)];
      var d := OutcomeOf(m, script, now).d;
      OneEntry(d, r, bank(r.slaveAddr, r.regStart));
      assert GetField(d, FieldTemp) == d.temp && GetField(d, FieldHumi) == d.humi;
      assert GetField(d, FieldCurrent) == d.current;
    }
  }
}
