/** What a turn of the cache loop lets an observer see, in terms of what the world did: when each kind of output occurs,
    and with what. The reports are exact over whole runs. */
module CacheTurns {
  import opened Slots
  import opened Ring
  import opened Types
  import opened CacheLoop
  import opened CacheRuns

  ghost function Lives(o: Out): seq<Out> {
    if o.Live? then [o] else []
  }

  ghost function ReportsOf(o: Out): seq<Out> {
    if o.Report? then [o] else []
  }

  ghost function Backfills(o: Out): seq<Out> {
    if o.Backfill? then [o] else []
  }

  lemma OneKind(o: Out)
    ensures Gather(Lives, [o]) == Lives(o) && Gather(ReportsOf, [o]) == ReportsOf(o)
    ensures Gather(Backfills, [o]) == Backfills(o)
  {
    assert [o][1..] == [];
  }

  lemma NoKind()
    ensures Gather(Lives, []) == Gather(ReportsOf, []) == Gather(Backfills, []) == []
  {
  }

  lemma TwoKinds(a: Out, b: Out)
    ensures Gather(Lives, [a, b]) == Lives(a) + Lives(b) && Gather(ReportsOf, [a, b]) == ReportsOf(a) + ReportsOf(b)
    ensures Gather(Backfills, [a, b]) == Backfills(a) + Backfills(b)
  {
    hide Lives, ReportsOf, Backfills;
    assert [a, b] == [a] + [b];
    OneKind(a);
    OneKind(b);
    GatherConcat(Lives, [a], [b]);
    GatherConcat(ReportsOf, [a], [b]);
    GatherConcat(Backfills, [a], [b]);
  }

  // ---------- what the world's choices come to ----------

  /** The message of this turn is published at once. */
  predicate Goes(t: Turn) {
    t.msg.Some? && t.online && t.liveOk
  }

  /** The message of this turn is written to flash: it was not published, and has at most 244 bytes. */
  predicate Waits(t: Turn) {
    t.msg.Some? && !(t.online && t.liveOk) && |t.msg.value| <= 244
  }

  /** The ring that the edge detection and the backfill find. */
  ghost function RingOf(c: Cache, t: Turn): (g: Ring)
    requires Shaped(c)
    ensures Shape(g)
  {
    if Waits(t) then Append(c.ring, Entry(t.ts, t.msg.value)) else c.ring
  }

  /** The overflow count that the edge detection finds, from the evictions of the turn. */
  ghost function CountOf(c: Cache, t: Turn): nat
    requires Shaped(c)
  {
    if Waits(t) && c.ring.n == |c.ring.slots| then (c.overflow + 16) % 0x1_0000_0000 else c.overflow
  }

  /** The overflow count is reported in this turn: it is not zero, the turn is online and the one before it was not, and
      the publish succeeds. */
  ghost predicate Told(c: Cache, t: Turn)
    requires Shaped(c)
  {
    t.onlineNow && !c.lastOnline && t.reportOk && CountOf(c, t) > 0
  }

  /** The stamp of the last publish when the backfill looks at the clock. */
  ghost function StampOf(c: Cache, t: Turn): int
    requires Shaped(c)
  {
    if Told(c, t) then t.reportAt else if Goes(t) then t.liveAt else c.lastPublish
  }

  /** The flash is read for a backfill: the turn is online, something is pending and a second has passed. */
  ghost predicate Looks(c: Cache, t: Turn)
    requires Shaped(c)
  {
    t.onlineNow && RingOf(c, t).n > 0 && t.gapAt >= StampOf(c, t) + 1000
  }

  /** The count in NVS after the turn: that of the last commit that succeeded. */
  ghost function NvsOf(c: Cache, t: Turn): Option<nat>
    requires Shaped(c)
  {
    var v := CountOf(c, t);
    var evicted := if Waits(t) && c.ring.n == |c.ring.slots| && t.evictSaved then Some(v) else c.nvs;
    var taken := if t.takeSaved then Some(0) else evicted;
    if !t.onlineNow || c.lastOnline then evicted
    else if v > 0 && !t.reportOk && t.giveSaved then Some(v)
    else taken
  }

  // ---------- the stages ----------

  lemma RouteExact(c: Cache, t: Turn)
    requires Shaped(c)
    ensures var (d, outs) := Route(c, t);
            && d.ring == RingOf(c, t) && d.overflow == CountOf(c, t) && d.lastOnline == c.lastOnline
            && d.lastPublish == (if Goes(t) then t.liveAt else c.lastPublish)
            && d.nvs == (if Total(Evicted, outs) > 0 && t.evictSaved then Some(d.overflow) else c.nvs)
            && Gather(Lives, outs) == (if Goes(t) then [Live(t.msg.value, t.liveAt)] else [])
            && Gather(Stored, outs) == (if Waits(t) then [Entry(t.ts, t.msg.value)] else [])
            && Total(Evicted, outs) == (if Waits(t) && c.ring.n == |c.ring.slots| then 16 else 0)
            && Gather(ReportsOf, outs) == [] && Gather(Backfills, outs) == []
  {
    hide Append, Oldest, Gather, Total;
    var (d, outs) := Route(c, t);
    NoOut();
    NoKind();
    if |outs| == 1 {
      assert outs == [outs[0]];
      OneOut(outs[0]);
      OneKind(outs[0]);
    } else if |outs| == 2 {
      assert outs == [outs[0], outs[1]];
      TwoOuts(outs[0], outs[1]);
      TwoKinds(outs[0], outs[1]);
    }
  }

  lemma EdgeExact(c: Cache, t: Turn)
    requires Shaped(c)
    ensures var (d, outs) := Edge(c, t);
            var told := t.onlineNow && !c.lastOnline && t.reportOk && c.overflow > 0;
            && d.ring == c.ring && d.lastOnline == t.onlineNow
            && Gather(ReportsOf, outs) == (if told then [Report(c.overflow, t.reportAt)] else [])
            && d.overflow == (if told then 0 else c.overflow)
            && d.lastPublish == (if told then t.reportAt else c.lastPublish)
            && d.nvs == (if !t.onlineNow || c.lastOnline then c.nvs
                         else if c.overflow > 0 && !t.reportOk && t.giveSaved then Some(c.overflow)
                         else if t.takeSaved then Some(0)
                         else c.nvs)
            && Gather(Lives, outs) == [] && Gather(Stored, outs) == [] && Gather(Backfills, outs) == []
            && Total(Evicted, outs) == 0
  {
    hide Gather, Total;
    var (d, outs) := Edge(c, t);
    NoOut();
    NoKind();
    if outs != [] {
      assert outs == [outs[0]];
      OneOut(outs[0]);
      OneKind(outs[0]);
    }
  }

  lemma CatchupExact(c: Cache, t: Turn)
    requires Shaped(c)
    ensures var (d, outs) := Catchup(c, t);
            var (h, o) := Read(c.ring, 244);
            var looks := t.onlineNow && c.ring.n > 0 && t.gapAt >= c.lastPublish + 1000;
            var sent := looks && o.Some? && t.backOk;
            && Gather(Backfills, outs) == (if sent then [Backfill(o.value, t.gapAt, t.backAt)] else [])
            && (o.Some? ==> h.n > 0)
            && d.ring == (if sent then Mark(h) else if looks then h else c.ring)
            && d.lastPublish == (if sent then t.backAt else c.lastPublish)
            && d.overflow == c.overflow && d.nvs == c.nvs && d.lastOnline == c.lastOnline
            && Gather(Lives, outs) == [] && Gather(Stored, outs) == [] && Gather(ReportsOf, outs) == []
            && Total(Evicted, outs) == 0
  {
    hide Gather, Total, Read, Mark;
    ReadSome(c.ring, 244);
    var (d, outs) := Catchup(c, t);
    NoOut();
    NoKind();
    if outs != [] {
      assert outs == [outs[0]];
      OneOut(outs[0]);
      OneKind(outs[0]);
    }
  }

  // ---------- one turn ----------

  lemma GatherThree<T>(f: Out -> seq<T>, x: seq<Out>, y: seq<Out>, z: seq<Out>)
    ensures Gather(f, x + y + z) == Gather(f, x) + Gather(f, y) + Gather(f, z)
  {
    GatherConcat(f, x + y, z);
    GatherConcat(f, x, y);
  }

  lemma TotalThree(f: Out -> nat, x: seq<Out>, y: seq<Out>, z: seq<Out>)
    ensures Total(f, x + y + z) == Total(f, x) + Total(f, y) + Total(f, z)
  {
    TotalConcat(f, x + y, z);
    TotalConcat(f, x, y);
  }

  /** A message is published at once if and only if the turn is online when it arrives and the publish succeeds; a
      message of at most 244 bytes is stored if and only if it is not; and sixteen slots are evicted if and only if one
      is stored in a full ring. */
  lemma StepRoutes(c: Cache, t: Turn)
    requires Shaped(c)
    ensures var outs := Step(c, t).1;
            && Gather(Lives, outs) == (if Goes(t) then [Live(t.msg.value, t.liveAt)] else [])
            && Gather(Stored, outs) == (if Waits(t) then [Entry(t.ts, t.msg.value)] else [])
            && Total(Evicted, outs) == (if Waits(t) && c.ring.n == |c.ring.slots| then 16 else 0)
  {
    hide *;
    var (c1, o1) := Route(c, t);
    var (c2, o2) := Edge(c1, t);
    var (c3, o3) := Catchup(c2, t);
    StepIs(c, t);
    RouteExact(c, t);
    EdgeExact(c1, t);
    CatchupExact(c2, t);
    GatherThree(Lives, o1, o2, o3);
    GatherThree(Stored, o1, o2, o3);
    TotalThree(Evicted, o1, o2, o3);
  }

  /** The stages of a turn. */
  lemma StepIs(c: Cache, t: Turn)
    requires Shaped(c)
    ensures var (c1, o1) := Route(c, t);
            var (c2, o2) := Edge(c1, t);
            var (c3, o3) := Catchup(c2, t);
            Step(c, t) == (c3, o1 + o2 + o3)
  {
    hide Route, Edge, Catchup;
  }

  /** The count is reported if and only if the turn is a rising edge, the count is not zero and the publish succeeds: it
      is then reported whole, once, and zeroed. Otherwise it stays as it was. */
  lemma StepReports(c: Cache, t: Turn)
    requires Shaped(c)
    ensures var (d, outs) := Step(c, t);
            && Gather(ReportsOf, outs) == (if Told(c, t) then [Report(CountOf(c, t), t.reportAt)] else [])
            && d.overflow == (if Told(c, t) then 0 else CountOf(c, t))
            && d.nvs == NvsOf(c, t) && d.lastOnline == t.onlineNow
  {
    hide Step, Route, Edge, Catchup, Append, Read, Mark, Shape, Waits, Goes, Gather, Total, Lives, Stored, Evicted;
    hide Backfills, ReportsOf, RingOf;
    var (c1, o1) := Route(c, t);
    var (c2, o2) := Edge(c1, t);
    var (c3, o3) := Catchup(c2, t);
    StepIs(c, t);
    RouteExact(c, t);
    EdgeExact(c1, t);
    CatchupExact(c2, t);
    GatherThree(ReportsOf, o1, o2, o3);
  }

  /** An entry is sent from flash if and only if the turn is online, a second has passed since the last publish, a read
      delivers an entry and the publish succeeds: it is then that entry, and it is marked. */
  lemma StepBackfills(c: Cache, t: Turn)
    requires Shaped(c)
    ensures var (d, outs) := Step(c, t);
            var (h, o) := Read(RingOf(c, t), 244);
            var sent := Looks(c, t) && o.Some? && t.backOk;
            && Gather(Backfills, outs) == (if sent then [Backfill(o.value, t.gapAt, t.backAt)] else [])
            && (o.Some? ==> h.n > 0)
            && d.ring == (if sent then Mark(h) else if Looks(c, t) then h else RingOf(c, t))
            && d.lastPublish == (if sent then t.backAt else StampOf(c, t))
  {
    hide Step, Route, Edge, Catchup, Append, Read, Mark, Shape, Waits, Goes, Gather, Total, Lives, Stored, Evicted;
    hide Backfills, ReportsOf, RingOf, CountOf;
    var (c1, o1) := Route(c, t);
    var (c2, o2) := Edge(c1, t);
    var (c3, o3) := Catchup(c2, t);
    StepIs(c, t);
    RouteExact(c, t);
    EdgeExact(c1, t);
    CatchupExact(c2, t);
    GatherThree(Backfills, o1, o2, o3);
  }

  // ---------- whole runs ----------

  ghost function PublishedIn(ev: Event): seq<Out> {
    if ev.Run? && Goes(ev.t) then [Live(ev.t.msg.value, ev.t.liveAt)] else []
  }

  ghost function KeptIn(ev: Event): seq<Entry> {
    if ev.Run? && Waits(ev.t) then [Entry(ev.t.ts, ev.t.msg.value)] else []
  }

  /** What each event gives, in order. */
  ghost function Each<T>(f: Event -> seq<T>, evs: seq<Event>): seq<T> {
    if evs == [] then [] else f(evs[0]) + Each(f, evs[1..])
  }

  lemma NextFates(c: Cache, ev: Event)
    requires Shaped(c)
    ensures Gather(Lives, Next(c, ev).1) == PublishedIn(ev) && Gather(Stored, Next(c, ev).1) == KeptIn(ev)
  {
    hide Step, Goes, Waits, Gather;
    match ev
    case Run(t) => StepRoutes(c, t);
    case Reboot =>
      NoKind();
      NoOut();
  }

  /** In any run, guarded or not: the messages published at once are exactly those that arrive online and whose publish
      succeeds, and those stored are exactly the others that fit. */
  lemma {:induction false} RunFates(c: Cache, evs: seq<Event>)
    requires Shaped(c)
    ensures Gather(Lives, RunAll(c, evs).1) == Each(PublishedIn, evs)
    ensures Gather(Stored, RunAll(c, evs).1) == Each(KeptIn, evs)
    decreases |evs|
  {
    hide Next, Lives, Stored, PublishedIn, KeptIn;
    if evs != [] {
      var (d, outs) := Next(c, evs[0]);
      NextFates(c, evs[0]);
      RunFates(d, evs[1..]);
      GatherConcat(Lives, outs, RunAll(d, evs[1..]).1);
      GatherConcat(Stored, outs, RunAll(d, evs[1..]).1);
    }
  }

  /** Whether the turn before was online. A reboot forgets it. */
  predicate WasOnline(c: Cache, evs: seq<Event>) {
    if evs == [] then c.lastOnline else evs[|evs| - 1].Run? && evs[|evs| - 1].t.onlineNow
  }

  lemma {:induction false} FlagIsLast(c: Cache, evs: seq<Event>)
    requires Shaped(c)
    ensures RunAll(c, evs).0.lastOnline == WasOnline(c, evs)
    decreases |evs|
  {
    hide Step;
    if evs != [] {
      var d := Next(c, evs[0]).0;
      FlagIsLast(d, evs[1..]);
      if evs[0].Run? {
        StepReports(c, evs[0].t);
      }
    }
  }

  /** The slots evicted in a trace that have not been reported in it, in the width of the counter. */
  ghost function Unreported(c: Cache, evicted: nat, reported: nat): (v: nat)
    ensures v < 0x1_0000_0000
  {
    (c.overflow + evicted - reported) % 0x1_0000_0000
  }

  lemma CountFromTrace(a: nat, e: nat, r: nat, v: nat, f: nat)
    requires v < U32 && (a + e) % U32 == (r + v) % U32
    ensures (a + (e + f) - r) % U32 == (v + f) % U32
  {
  }

  lemma CountOfIs(c: Cache, t: Turn)
    requires Shaped(c)
    ensures CountOf(c, t) == (c.overflow + Total(Evicted, Step(c, t).1)) % U32
  {
    hide Step, Shape, Waits;
    StepRoutes(c, t);
  }

  /** Every report of every run is exact: after any turns and reboots whose commits succeed, a turn reports if and only
      if it is online, the turn before was not, its publish succeeds and some evicted slots are unreported, its own
      evictions included; it then reports just these. */
  lemma RunReports(c: Cache, evs: seq<Event>, t: Turn)
    requires Shaped(c) && Saved(c) && forall i | 0 <= i < |evs| :: Commits(evs[i])
    ensures var (d, done) := RunAll(c, evs);
            var (e, outs) := Step(d, t);
            var v := Unreported(c, Total(Evicted, done) + Total(Evicted, outs), Total(Reported, done));
            var told := t.onlineNow && !WasOnline(c, evs) && t.reportOk && v > 0;
            && Gather(ReportsOf, outs) == (if told then [Report(v, t.reportAt)] else [])
            && e.overflow == (if told then 0 else v)
            && RunAll(c, evs + [Run(t)]) == (e, done + outs)
  {
    hide Step, RunAll, Total, Evicted, Reported, Gather, ReportsOf, Saved, Commits, CountOf, NvsOf, WasOnline, Shape;
    var (d, done) := RunAll(c, evs);
    OverflowLedger(c, evs);
    FlagIsLast(c, evs);
    CountOfIs(d, t);
    CountFromTrace(c.overflow, Total(Evicted, done), Total(Reported, done), d.overflow, Total(Evicted, Step(d, t).1));
    StepReports(d, t);
    RunThenTurn(c, evs, t);
  }

  lemma {:induction false} RunThenTurn(c: Cache, evs: seq<Event>, t: Turn)
    requires Shaped(c)
    ensures var (d, done) := RunAll(c, evs);
            var (e, outs) := Step(d, t);
            RunAll(c, evs + [Run(t)]) == (e, done + outs)
    decreases |evs|
  {
    hide Step;
    if evs == [] {
      var one := [] + [Run(t)];
      var outs := Step(c, t).1;
      assert one[0] == Run(t) && one[1..] == [] && outs + [] == outs == [] + outs;
    } else {
      hide Next;
      var (d1, o1) := Next(c, evs[0]);
      var (d, o2) := RunAll(d1, evs[1..]);
      RunThenTurn(d1, evs[1..], t);
      assert (evs + [Run(t)])[1..] == evs[1..] + [Run(t)];
      ConcatAssociates(o1, o2, Step(d, t).1);
    }
  }
}
