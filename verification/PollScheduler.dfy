/** main/scheduler/poll_scheduler.c: failure counting and offline detection. */
module PollScheduler {
  import opened Types
  import opened DeviceManager
  import opened ModbusMaster

  const OFFLINE_THRESHOLD: nat := 3

  datatype PollEntry = PollEntry(devId: bv8, name: string, regs: seq<RegMap>)

  /** The devices polled. */
  function DeviceTable(): (entries: seq<PollEntry>)
    ensures |entries| == 3 && entries[0].devId == 1 && entries[1].devId == 2 && entries[2].devId == 3
  {
    [PollEntry(1, "sensor_th", [RegMap(1, 0x0000, 0.1, FieldTemp), RegMap(1, 0x0001, 0.1, FieldHumi)]),
     PollEntry(2, "sensor_cur", [RegMap(2, 0x0000, 0.01, FieldCurrent)]),
     PollEntry(3, "sensor_bak", [RegMap(3, 0x0000, 0.1, FieldCurrent)])]
  }

  // ---------- one device ----------

  datatype Outcome = Reading(d: Device) | Failure

  /** The scheduler's variables for one device, and the device's record in the table. `fails` is eight bits wide. */
  datatype Track = Track(fails: nat, last: Device, hasData: bool, shown: Device)

  function Missing(m: PollEntry): Device {
    CLEARED.(id := m.devId, name := m.name)
  }

  function Record(t: Track, m: PollEntry, o: Outcome): Track {
    match o
    case Reading(d) => Track(0, d, true, d)
    case Failure =>
      var fails := (t.fails + 1) % 256;
      t.(fails := fails,
         shown := if fails < OFFLINE_THRESHOLD then t.shown
                  else if t.hasData then t.last.(online := false)
                  else Missing(m))
  }

  function RecordAll(t: Track, m: PollEntry, h: seq<Outcome>): Track {
    if h == [] then t else Record(RecordAll(t, m, h[..|h| - 1]), m, h[|h| - 1])
  }

  lemma RecordLast(t: Track, m: PollEntry, h: seq<Outcome>, o: Outcome)
    ensures RecordAll(t, m, h + [o]) == Record(RecordAll(t, m, h), m, o)
  {
    assert (h + [o])[..|h|] == h;
  }

  // ---------- histories ----------

  ghost predicate EverRead(h: seq<Outcome>) {
    exists i :: 0 <= i < |h| && h[i].Reading?
  }

  /** The number of failures since the last success, or since the start. */
  function FailsSince(h: seq<Outcome>): nat {
    if h == [] || h[|h| - 1].Reading? then 0 else 1 + FailsSince(h[..|h| - 1])
  }

  function LastReading(h: seq<Outcome>): Device
    requires EverRead(h)
  {
    if h[|h| - 1].Reading? then h[|h| - 1].d else LastReading(h[..|h| - 1])
  }

  /** What the table should show, from the history alone. */
  ghost function Due(shown0: Device, m: PollEntry, h: seq<Outcome>): Device {
    if EverRead(h) then
      if FailsSince(h) < OFFLINE_THRESHOLD then LastReading(h) else LastReading(h).(online := false)
    else
      if FailsSince(h) < OFFLINE_THRESHOLD then shown0 else Missing(m)
  }

  ghost predicate Matches(t: Track, shown0: Device, m: PollEntry, h: seq<Outcome>) {
    && t.fails == FailsSince(h) % 256
    && (t.hasData <==> EverRead(h)) && (EverRead(h) ==> t.last == LastReading(h))
    && t.shown == Due(shown0, m, h)
  }

  lemma HistoryNext(h: seq<Outcome>, o: Outcome)
    ensures var h' := h + [o];
            && FailsSince(h') == (if o.Reading? then 0 else FailsSince(h) + 1)
            && (EverRead(h') <==> o.Reading? || EverRead(h))
            && (EverRead(h') ==> LastReading(h') == if o.Reading? then o.d else LastReading(h))
  {
    var h' := h + [o];
    assert h'[..|h|] == h;
    if o.Reading? {
      assert h'[|h|].Reading?;
    } else if EverRead(h) {
      var i :| 0 <= i < |h| && h[i].Reading?;
      assert h'[i].Reading?;
    }
  }

  /** The counter wraps at 256, but by then the record is in the table. */
  lemma MatchesNext(t: Track, shown0: Device, m: PollEntry, h: seq<Outcome>, o: Outcome)
    requires Matches(t, shown0, m, h)
    ensures Matches(Record(t, m, o), shown0, m, h + [o])
  {
    hide FailsSince, LastReading, EverRead;
    HistoryNext(h, o);
  }

  lemma {:induction false} HistoryDecides(t: Track, m: PollEntry, h: seq<Outcome>)
    requires t.fails == 0 && !t.hasData
    ensures Matches(RecordAll(t, m, h), t.shown, m, h)
    decreases |h|
  {
    if h != [] {
      var before := h[..|h| - 1];
      HistoryDecides(t, m, before);
      MatchesNext(RecordAll(t, m, before), t.shown, m, before, h[|h| - 1]);
      assert h == before + [h[|h| - 1]];
    }
  }

  lemma {:induction false} NeverRead(h: seq<Outcome>)
    requires !EverRead(h)
    ensures FailsSince(h) == |h|
  {
    if h != [] {
      assert !h[|h| - 1].Reading?;
      NeverRead(h[..|h| - 1]);
    }
  }

  /** After any polls of a device that starts offline, it is online exactly if it was ever read and has failed at most
      twice since, however often it failed; and once it was read, its readings are those of the last success. A device
      that was never read keeps its first record for two polls, and then has its id and its name and nothing else. */
  lemma OnlineIsHistory(t: Track, m: PollEntry, h: seq<Outcome>)
    requires t.fails == 0 && !t.hasData && !t.shown.online
    requires forall i | 0 <= i < |h| && h[i].Reading? :: h[i].d.online
    ensures var shown := RecordAll(t, m, h).shown;
            && (shown.online <==> EverRead(h) && FailsSince(h) <= 2)
            && (EverRead(h) ==> shown == LastReading(h).(online := FailsSince(h) <= 2))
            && (!EverRead(h) ==>
                  shown == if |h| <= 2 then t.shown else Device(m.devId, m.name, false, 0, Zero, Zero, Zero))
  {
    HistoryDecides(t, m, h);
    if EverRead(h) {
      LastIsOnline(h);
    } else {
      NeverRead(h);
    }
  }

  lemma {:induction false} LastIsOnline(h: seq<Outcome>)
    requires EverRead(h) && forall i | 0 <= i < |h| && h[i].Reading? :: h[i].d.online
    ensures LastReading(h).online
  {
    if !h[|h| - 1].Reading? {
      LastIsOnline(h[..|h| - 1]);
    }
  }

  // ---------- the task ----------

  /** A read that succeeds carries the device's id, online. */
  lemma {:induction false} ReadIsOnline(regs: seq<RegMap>, found: seq<Register>, d: Device)
    requires |regs| == |found| && forall i | 0 <= i < |found| && found[i].Bad? :: found[i].error != ErrOk
    ensures var (err, out) := ReadAll(regs, found, d); err == ErrOk ==> out.online && out.id == d.id
    decreases |regs|
  {
    if regs != [] && found[0].Raw? {
      ReadIsOnline(regs[1..], found[1..], SetField(d, regs[0].field, Scaled(found[0].value, regs[0].scale)));
    }
  }

  predicate Ids(t: seq<Device>) {
    |t| >= 3 && t[0].id == 1 && t[1].id == 2 && t[2].id == 3
  }

  lemma FindAt(t: seq<Device>, i: nat)
    requires Ids(t) && i < 3
    ensures Find(t, DeviceTable()[i].devId) == i
  {
  }

  /** What reading the device gives when `script` is what arrives. */
  function OutcomeOf(m: PollEntry, script: seq<Chunks>, now: bv32): Outcome {
    var (err, data) := ReadAll(m.regs, AllFound(m.regs, script), CLEARED.(id := m.devId));
    if err == ErrOk then Reading(data.(ts := now, name := m.name)) else Failure
  }

  /** What is left for the devices after it. */
  function ScriptAfter(m: PollEntry, script: seq<Chunks>): seq<Chunks> {
    Rest(script, RequestCount(AllFound(m.regs, script)))
  }

  /** What is left for device `i` of one cycle. */
  function ScriptBefore(script: seq<Chunks>, i: nat): seq<Chunks>
    requires i <= 3
  {
    if i == 0 then script else ScriptAfter(DeviceTable()[i - 1], ScriptBefore(script, i - 1))
  }

  class Scheduler {
    const manager: Manager
    const failCount: array<nat>
    const lastValid: array<Device>
    const hasData: array<bool>
    ghost const initial: seq<Device>
    ghost var history: seq<seq<Outcome>>

    ghost predicate Shaped()
      reads this, manager, manager.table
    {
      && failCount.Length == lastValid.Length == hasData.Length == |initial| == |history| == 3
      && lastValid != manager.table
      && manager.Valid() && manager.ready
      && Ids(manager.table[..]) && (forall i | 0 <= i < 3 :: !initial[i].online)
      && (forall i | 3 <= i < MAX_DEVICES :: manager.table[i] == CLEARED)
    }

    ghost predicate KeepsIds()
      requires Shaped()
      reads this, manager, manager.table, lastValid, hasData
    {
      forall i | 0 <= i < 3 :: hasData[i] ==> lastValid[i].id == DeviceTable()[i].devId
    }

    ghost function TrackOf(i: nat): Track
      requires Shaped() && i < 3
      reads this, manager, manager.table, failCount, lastValid, hasData
    {
      Track(failCount[i], lastValid[i], hasData[i], manager.table[i])
    }

    ghost predicate Tracked(i: nat)
      requires Shaped() && i < 3
      reads this, manager, manager.table, failCount, lastValid, hasData
    {
      && TrackOf(i) == RecordAll(Track(0, CLEARED, false, initial[i]), DeviceTable()[i], history[i])
      && forall k | 0 <= k < |history[i]| && history[i][k].Reading? ::
           history[i][k].d.online && history[i][k].d.id == DeviceTable()[i].devId
    }

    /** The variables and the table are what the polls so far have made of them. */
    ghost predicate Valid()
      reads this, manager, manager.table, failCount, lastValid, hasData
    {
      Shaped() && KeepsIds() && forall i: nat | i < 3 :: Tracked(i)
    }

    constructor (manager: Manager)
      requires manager.Valid() && manager.ready
      requires Ids(manager.table[..]) && forall i | 0 <= i < 3 :: !manager.table[i].online
      requires forall i | 3 <= i < MAX_DEVICES :: manager.table[i] == CLEARED
      ensures Valid() && this.manager == manager && history == [[], [], []]
    {
      this.manager := manager;
      failCount := new nat[3](_ => 0);
      lastValid := new Device[3](_ => CLEARED);
      hasData := new bool[3](_ => false);
      initial := manager.table[..3];
      history := [[], [], []];
    }

    /** The call of `device_manager_update` for device `i`. */
    method Show(i: nat, d: Device)
      requires Shaped() && i < 3 && d.id == DeviceTable()[i].devId
      modifies manager.table
      ensures Shaped() && manager.table[..] == old(manager.table[..])[i := d]
    {
      ghost var t := manager.table[..];
      FindAt(t, i);
      manager.Update(d.id, Some(d));
      assert forall k | 0 <= k < MAX_DEVICES :: manager.table[k] == manager.table[..][k];
      assert forall k | 0 <= k < MAX_DEVICES && k != i :: manager.table[..][k] == t[k];
    }

    /** What one poll of device `i` found is counted and shown. */
    method Count(i: nat, o: Outcome)
      requires Shaped() && KeepsIds() && i < 3 && (o.Reading? ==> o.d.id == DeviceTable()[i].devId)
      modifies manager.table, failCount, lastValid, hasData
      ensures Shaped() && KeepsIds()
      ensures forall k: nat | k < 3 ::
                TrackOf(k) == if k == i then Record(old(TrackOf(i)), DeviceTable()[i], o) else old(TrackOf(k))
    {
      ghost var t := manager.table[..];
      assert t[i] == manager.table[i];
      if o.Reading? {
        lastValid[i] := o.d;
        hasData[i] := true;
        Show(i, o.d);
        failCount[i] := 0;
      } else {
        failCount[i] := (failCount[i] + 1) % 256;
        if failCount[i] >= OFFLINE_THRESHOLD {
          Show(i, if hasData[i] then lastValid[i].(online := false) else Missing(DeviceTable()[i]));
        }
      }
      assert manager.table[..] == t[i := manager.table[i]];
      assert forall k | 0 <= k < 3 :: manager.table[k] == manager.table[..][k];
      assert forall k | 0 <= k < 3 && k != i :: manager.table[k] == t[k] == old(manager.table[k]);
    }

    method RecordOutcome(i: nat, o: Outcome)
      requires Valid() && i < 3 && (o.Reading? ==> o.d.online && o.d.id == DeviceTable()[i].devId)
      modifies this, manager.table, failCount, lastValid, hasData
      ensures Valid() && history == old(history)[i := old(history)[i] + [o]]
    {
      hide Record;
      Count(i, o);
      RecordLast(Track(0, CLEARED, false, initial[i]), DeviceTable()[i], history[i], o);
      history := history[i := history[i] + [o]];
      forall k: nat | k < 3
        ensures Tracked(k)
      {
        assert old(Tracked(k));
      }
    }

    /** One device's turn: the poll, and what it found. */
    method PollDevice(i: nat, bus: Rs485, now: bv32)
      requires Valid() && i < 3 && bus.Valid()
      modifies this, manager.table, failCount, lastValid, hasData, bus
      ensures Valid() && bus.Valid() && bus.script == ScriptAfter(DeviceTable()[i], old(bus.script))
      ensures history == old(history)[i := old(history)[i] + [OutcomeOf(DeviceTable()[i], old(bus.script), now)]]
    {
      hide ReadAll;
      var m := DeviceTable()[i];
      ReadIsOnline(m.regs, AllFound(m.regs, bus.script), CLEARED.(id := m.devId));
      var err, data := ReadDevice(bus, m.devId, m.regs);
      RecordOutcome(i, if err == ErrOk then Reading(data.(ts := now, name := m.name)) else Failure);
    }

    /** One turn of the loop of `poll_task`: each device is polled once, in order, and what its answers gave is
        recorded. */
    method PollCycle(bus: Rs485, nows: seq<bv32>)
      requires Valid() && bus.Valid() && |nows| == 3
      modifies this, manager.table, failCount, lastValid, hasData, bus
      ensures Valid() && bus.Valid() && bus.script == ScriptBefore(old(bus.script), 3)
      ensures forall i | 0 <= i < 3 ::
                history[i] == old(history[i]) + [OutcomeOf(DeviceTable()[i], ScriptBefore(old(bus.script), i), nows[i])]
    {
      hide OutcomeOf, ScriptAfter;
      for i := 0 to 3
        invariant Valid() && bus.Valid() && bus.script == ScriptBefore(old(bus.script), i)
        invariant forall k | 0 <= k < i ::
                    history[k]
                    == old(history[k]) + [OutcomeOf(DeviceTable()[k], ScriptBefore(old(bus.script), k), nows[k])]
        invariant forall k | i <= k < 3 :: history[k] == old(history[k])
      {
        PollDevice(i, bus, nows[i]);
      }
    }

    /** The table lists exactly the devices whose history says that they are online, with the readings of their last
        success. */
    lemma TableIsHistory()
      requires Valid()
      ensures forall i | 0 <= i < 3 ::
                && (Listed(manager.table[i]) <==> EverRead(history[i]) && FailsSince(history[i]) <= 2)
                && (EverRead(history[i]) ==>
                      manager.table[i] == LastReading(history[i]).(online := FailsSince(history[i]) <= 2))
                && (!EverRead(history[i]) ==>
                      manager.table[i]
                      == if |history[i]| <= 2 then initial[i]
                         else Device(DeviceTable()[i].devId, DeviceTable()[i].name, false, 0, Zero, Zero, Zero))
      ensures forall i | 3 <= i < MAX_DEVICES :: !Listed(manager.table[i])
    {
      forall i | 0 <= i < 3
        ensures Listed(manager.table[i]) <==> EverRead(history[i]) && FailsSince(history[i]) <= 2
        ensures EverRead(history[i]) ==>
                  manager.table[i] == LastReading(history[i]).(online := FailsSince(history[i]) <= 2)
        ensures !EverRead(history[i]) ==>
                  manager.table[i]
                  == if |history[i]| <= 2 then initial[i]
                     else Device(DeviceTable()[i].devId, DeviceTable()[i].name, false, 0, Zero, Zero, Zero)
      {
        assert Tracked(i);
        assert manager.table[i] == manager.table[..][i];
        OnlineIsHistory(Track(0, CLEARED, false, initial[i]), DeviceTable()[i], history[i]);
      }
    }
  }
}
