/** Whole runs of the cache loop, with reboots: nothing is lost or sent twice except as the trace says, the overflow
    count adds up, and backfills keep their distance. */
module CacheRuns {
  import opened Slots
  import opened Ring
  import opened Recovery
  import opened Types
  import opened CacheLoop

  // ---------- reading a trace ----------

  ghost function Gather<T>(f: Out -> seq<T>, outs: seq<Out>): seq<T> {
    if outs == [] then [] else f(outs[0]) + Gather(f, outs[1..])
  }

  lemma {:induction false} GatherConcat<T>(f: Out -> seq<T>, a: seq<Out>, b: seq<Out>)
    ensures Gather(f, a + b) == Gather(f, a) + Gather(f, b)
  {
    if a == [] {
      assert a + b == b;
    } else {
      GatherConcat(f, a[1..], b);
      assert (a + b)[1..] == a[1..] + b;
    }
  }

  ghost function Total(f: Out -> nat, outs: seq<Out>): nat {
    if outs == [] then 0 else f(outs[0]) + Total(f, outs[1..])
  }

  lemma {:induction false} TotalConcat(f: Out -> nat, a: seq<Out>, b: seq<Out>)
    ensures Total(f, a + b) == Total(f, a) + Total(f, b)
  {
    if a == [] {
      assert a + b == b;
    } else {
      TotalConcat(f, a[1..], b);
      assert (a + b)[1..] == a[1..] + b;
    }
  }

  /** The message that this output disposes of. */
  ghost function Disposed(o: Out): seq<Bytes> {
    match o
    case Live(data, _) => [data]
    case Refuse(data) => [data]
    case Store(e) => [e.data]
    case _ => []
  }

  ghost function Stored(o: Out): seq<Entry> {
    if o.Store? then [o.e] else []
  }

  /** The entries that leave the flash. */
  ghost function Left(o: Out): seq<Entry> {
    match o
    case Evict(lost) => lost
    case Backfill(e, _, _) => [e]
    case _ => []
  }

  ghost function Lost(o: Out): nat {
    if o.Evict? then |o.lost| else 0
  }

  /** The slots that an eviction counts. */
  ghost function Evicted(o: Out): nat {
    if o.Evict? then 16 else 0
  }

  ghost function Refused(o: Out): seq<Bytes> {
    if o.Refuse? then [o.data] else []
  }

  ghost function Reported(o: Out): nat {
    if o.Report? then o.count else 0
  }

  lemma OneOut(o: Out)
    ensures Gather(Disposed, [o]) == Disposed(o) && Gather(Stored, [o]) == Stored(o) && Gather(Left, [o]) == Left(o)
    ensures Gather(Refused, [o]) == Refused(o)
    ensures Total(Lost, [o]) == Lost(o) && Total(Reported, [o]) == Reported(o) && Total(Evicted, [o]) == Evicted(o)
  {
    assert [o][1..] == [];
  }

  lemma NoOut()
    ensures Gather(Disposed, []) == Gather(Refused, []) == [] && Gather(Stored, []) == Gather(Left, []) == []
    ensures Total(Lost, []) == Total(Reported, []) == Total(Evicted, []) == 0
  {
  }

  /** The shape of every stage's outputs: none, one, or an eviction and a store. */
  lemma TwoOuts(a: Out, b: Out)
    ensures Gather(Disposed, [a, b]) == Disposed(a) + Disposed(b) && Gather(Refused, [a, b]) == Refused(a) + Refused(b)
    ensures Gather(Stored, [a, b]) == Stored(a) + Stored(b) && Gather(Left, [a, b]) == Left(a) + Left(b)
    ensures Total(Lost, [a, b]) == Lost(a) + Lost(b) && Total(Reported, [a, b]) == Reported(a) + Reported(b)
    ensures Total(Evicted, [a, b]) == Evicted(a) + Evicted(b)
  {
    hide Disposed, Stored, Left, Refused, Lost, Reported, Evicted;
    assert [a, b] == [a] + [b];
    OneOut(a);
    OneOut(b);
    GatherConcat(Disposed, [a], [b]);
    GatherConcat(Refused, [a], [b]);
    GatherConcat(Stored, [a], [b]);
    GatherConcat(Left, [a], [b]);
    TotalConcat(Lost, [a], [b]);
    TotalConcat(Reported, [a], [b]);
    TotalConcat(Evicted, [a], [b]);
  }

  // ---------- one queue operation ----------

  ghost predicate AllDecodable(ws: seq<Slot>) {
    forall k | 0 <= k < |ws| :: Decodable(ws[k])
  }

  /** A ring that guarded running produces, without undecodable pending entries. */
  ghost predicate Sane(g: Ring) {
    Laid(g) && AllDecodable(Window(g))
  }

  lemma {:induction false} DecodedLength(ws: seq<Slot>)
    requires AllDecodable(ws)
    ensures |Decoded(ws)| == |ws|
  {
    if ws != [] {
      DecodedLength(ws[1..]);
    }
  }

  lemma SaneAppend(g: Ring, e: Entry)
    requires Sane(g) && Guard(g) && |e.data| <= DATA_MAX
    ensures Sane(Append(g, e))
  {
    hide Laid, Guard, Append, Encode, Decodable;
    LaidIsShaped(g);
    AppendLaid(g, e);
    AppendRefines(g, e);
    EncodeDecode(e);
  }

  /** A guarded append loses exactly the sixteen oldest entries of a full ring, none otherwise. */
  lemma AppendBalance(g: Ring, e: Entry)
    requires Sane(g) && Guard(g) && |e.data| <= DATA_MAX
    ensures Fifo(g) + [e] == Oldest(g) + Fifo(Append(g, e))
    ensures |Oldest(g)| == if g.n == |g.slots| then 16 else 0
  {
    hide Laid, Guard, Append, Encode, Decodable;
    LaidIsShaped(g);
    AppendRefines(g, e);
    if g.n == |g.slots| {
      DecodedLength(Window(g)[..16]);
      ConcatAssociates(Oldest(g), Decoded(Window(g)[16..]), [e]);
    }
  }

  /** Reading a sane ring heals nothing and delivers the oldest entry. */
  lemma SaneRead(g: Ring)
    requires Sane(g) && g.n > 0
    ensures Decodable(g.slots[g.r]) && Read(g, DATA_MAX) == (g, Some(Decode(g.slots[g.r])))
  {
    hide Laid;
    LaidIsShaped(g);
    assert Window(g)[0] == Pending(g, 0) == g.slots[g.r];
  }

  lemma SaneMark(g: Ring)
    requires Sane(g) && g.n > 0 && Decodable(g.slots[g.r])
    ensures Sane(Mark(g)) && Fifo(g) == [Decode(g.slots[g.r])] + Fifo(Mark(g))
  {
    hide Laid, Mark, Decodable, Decode;
    LaidIsShaped(g);
    MarkLaid(g);
    MarkRefines(g);
    HeadDropped(g);
  }

  // ---------- what one turn does to the queue ----------

  /** What a stretch of outputs did to the queue. */
  ghost predicate Balanced(c: Cache, outs: seq<Out>, d: Cache)
    requires Shaped(c) && Shaped(d)
  {
    && Fifo(c.ring) + Gather(Stored, outs) == Gather(Left, outs) + Fifo(d.ring)
    && Total(Lost, outs) == Total(Evicted, outs)
  }

  lemma QueueBalance<T>(f0: seq<T>, s1: seq<T>, l1: seq<T>, f1: seq<T>, s2: seq<T>, l2: seq<T>, f2: seq<T>)
    requires f0 + s1 == l1 + f1 && f1 + s2 == l2 + f2
    ensures f0 + (s1 + s2) == (l1 + l2) + f2
  {
    ConcatAssociates(f0, s1, s2);
    ConcatAssociates(l1, f1, s2);
    ConcatAssociates(l1, l2, f2);
  }

  lemma BalanceConcat(c: Cache, o1: seq<Out>, d: Cache, o2: seq<Out>, e: Cache)
    requires Shaped(c) && Shaped(d) && Shaped(e)
    requires Balanced(c, o1, d) && Balanced(d, o2, e)
    ensures Balanced(c, o1 + o2, e)
  {
    hide Shape, Fifo, Stored, Left, Lost, Evicted, Gather, Total;
    GatherConcat(Stored, o1, o2);
    GatherConcat(Left, o1, o2);
    TotalConcat(Lost, o1, o2);
    TotalConcat(Evicted, o1, o2);
    QueueBalance(Fifo(c.ring), Gather(Stored, o1), Gather(Left, o1), Fifo(d.ring),
                 Gather(Stored, o2), Gather(Left, o2), Fifo(e.ring));
  }

  /** A stretch without outputs. */
  lemma QuietBalance(c: Cache, d: Cache)
    requires Shaped(c) && Shaped(d) && Fifo(c.ring) == Fifo(d.ring)
    ensures Balanced(c, [], d)
  {
    hide Fifo;
    NoOut();
  }

  /** The lap guard, where a turn writes. */
  ghost predicate TurnGuard(c: Cache, t: Turn) {
    t.msg.Some? && !(t.online && t.liveOk) && |t.msg.value| <= DATA_MAX ==> Guard(c.ring)
  }

  lemma KeepBalance(c: Cache, e: Entry, saved: bool)
    requires Shaped(c) && Sane(c.ring) && Guard(c.ring) && |e.data| <= DATA_MAX
    ensures var (d, outs) := Keep(c, e, saved);
            Sane(d.ring) && Balanced(c, outs, d) && Gather(Disposed, outs) == [e.data]
  {
    hide Sane, Guard, Append, Fifo, Oldest, Gather, Total;
    AppendBalance(c.ring, e);
    SaneAppend(c.ring, e);
    OneOut(Store(e));
    TwoOuts(Evict(Oldest(c.ring)), Store(e));
    assert [] + [e] == [e] && Oldest(c.ring) + [] == Oldest(c.ring);
    OldestOfRoom(c.ring);
  }

  lemma OldestOfRoom(g: Ring)
    requires Shape(g)
    ensures [] + Fifo(g) == Fifo(g) && (g.n < |g.slots| ==> Oldest(g) == [])
  {
    hide Fifo;
  }

  lemma RouteBalance(c: Cache, t: Turn)
    requires Shaped(c) && Sane(c.ring) && TurnGuard(c, t)
    ensures var (d, outs) := Route(c, t);
            && Sane(d.ring) && Balanced(c, outs, d)
            && Gather(Disposed, outs) == if t.msg.Some? then [t.msg.value] else []
  {
    hide Sane, Guard, Append, Fifo, Oldest, Keep, Gather, Total;
    var (d, outs) := Route(c, t);
    NoOut();
    if t.msg.Some? && !(t.online && t.liveOk) && |t.msg.value| <= DATA_MAX {
      KeepBalance(c, Entry(t.ts, t.msg.value), t.evictSaved);
    } else if outs != [] {
      OneOut(outs[0]);
      assert outs == [outs[0]];
    }
  }

  lemma EdgeBalance(c: Cache, t: Turn)
    requires Shaped(c)
    ensures var (d, outs) := Edge(c, t);
            d.ring == c.ring && Balanced(c, outs, d) && Gather(Disposed, outs) == []
  {
    hide Fifo, Gather, Total;
    var (d, outs) := Edge(c, t);
    NoOut();
    if outs != [] {
      OneOut(outs[0]);
      assert outs == [outs[0]];
    }
  }

  lemma CatchupBalance(c: Cache, t: Turn)
    requires Shaped(c) && Sane(c.ring)
    ensures var (d, outs) := Catchup(c, t);
            Sane(d.ring) && Balanced(c, outs, d) && Gather(Disposed, outs) == []
  {
    hide Sane, Fifo, Read, Decodable, Decode, Mark, Gather, Total;
    var (d, outs) := Catchup(c, t);
    NoOut();
    if c.ring.n > 0 {
      SaneRead(c.ring);
      SaneMark(c.ring);
    }
    if outs != [] {
      OneOut(outs[0]);
      assert outs == [outs[0]];
    }
  }

  lemma StepBalance(c: Cache, t: Turn)
    requires Shaped(c) && Sane(c.ring) && TurnGuard(c, t)
    ensures var (d, outs) := Step(c, t);
            && Sane(d.ring) && Balanced(c, outs, d)
            && Gather(Disposed, outs) == if t.msg.Some? then [t.msg.value] else []
  {
    hide Sane, Balanced, TurnGuard, Route, Edge, Catchup, Disposed, Gather;
    var (c1, o1) := Route(c, t);
    var (c2, o2) := Edge(c1, t);
    var (c3, o3) := Catchup(c2, t);
    RouteBalance(c, t);
    EdgeBalance(c1, t);
    CatchupBalance(c2, t);
    BalanceConcat(c, o1, c1, o2, c2);
    BalanceConcat(c, o1 + o2, c2, o3, c3);
    GatherConcat(Disposed, o1, o2);
    GatherConcat(Disposed, o1 + o2, o3);
  }

  // ---------- the queue over runs ----------

  /** The conditions of exactness: the lap guard at every write, and reboots only where the queue survives them. */
  ghost predicate Allowed(c: Cache, ev: Event)
    requires Shaped(c)
  {
    match ev
    case Run(t) => TurnGuard(c, t)
    case Reboot => Survives(c.ring)
  }

  ghost predicate Guarded(c: Cache, evs: seq<Event>)
    requires Shaped(c)
    decreases |evs|
  {
    evs == [] || (Allowed(c, evs[0]) && Guarded(Next(c, evs[0]).0, evs[1..]))
  }

  ghost function Message(ev: Event): seq<Bytes> {
    if ev.Run? && ev.t.msg.Some? then [ev.t.msg.value] else []
  }

  /** The messages taken off the queue. */
  ghost function Messages(evs: seq<Event>): seq<Bytes> {
    if evs == [] then [] else Message(evs[0]) + Messages(evs[1..])
  }

  lemma RebootSane(g: Ring)
    requires Sane(g) && Survives(g)
    ensures Sane(Scan(g.slots)) && Fifo(Scan(g.slots)) == Fifo(g)
  {
    hide Laid, Survives, Scan, AllDecodable;
    LaidIsShaped(g);
    SurvivesScan(g);
  }

  lemma NextBalance(c: Cache, ev: Event)
    requires Shaped(c) && Sane(c.ring) && Allowed(c, ev)
    ensures var (d, outs) := Next(c, ev); Sane(d.ring) && Balanced(c, outs, d) && Gather(Disposed, outs) == Message(ev)
  {
    hide Sane, Balanced, TurnGuard, Step, Fifo, Survives, Scan;
    match ev
    case Run(t) => StepBalance(c, t);
    case Reboot =>
      RebootSane(c.ring);
      QuietBalance(c, Next(c, Reboot).0);
      NoOut();
  }

  lemma {:induction false} RunBalance(c: Cache, evs: seq<Event>)
    requires Shaped(c) && Sane(c.ring) && Guarded(c, evs)
    ensures var (d, outs) := RunAll(c, evs);
            Sane(d.ring) && Balanced(c, outs, d) && Gather(Disposed, outs) == Messages(evs)
    decreases |evs|
  {
    hide Sane, Balanced, Allowed, Next, Message;
    if evs == [] {
      QuietBalance(c, c);
    } else {
      var (d, outs) := Next(c, evs[0]);
      var (e, more) := RunAll(d, evs[1..]);
      NextBalance(c, evs[0]);
      RunBalance(d, evs[1..]);
      BalanceConcat(c, outs, d, more, e);
      GatherConcat(Disposed, outs, more);
    }
  }

  // ---------- the overflow ledger ----------

  /** What a stretch of outputs did to the overflow count. */
  ghost predicate Counted(c: Cache, outs: seq<Out>, d: Cache) {
    (c.overflow + Total(Evicted, outs)) % U32 == (Total(Reported, outs) + d.overflow) % U32
  }

  lemma CountBalance(v0: nat, e1: nat, r1: nat, v1: nat, e2: nat, r2: nat, v2: nat)
    requires (v0 + e1) % U32 == (r1 + v1) % U32 && (v1 + e2) % U32 == (r2 + v2) % U32
    ensures (v0 + (e1 + e2)) % U32 == ((r1 + r2) + v2) % U32
  {
  }

  lemma CountedConcat(c: Cache, o1: seq<Out>, d: Cache, o2: seq<Out>, e: Cache)
    requires Counted(c, o1, d) && Counted(d, o2, e)
    ensures Counted(c, o1 + o2, e)
  {
    hide Evicted, Reported, Total;
    TotalConcat(Evicted, o1, o2);
    TotalConcat(Reported, o1, o2);
    CountBalance(c.overflow, Total(Evicted, o1), Total(Reported, o1), d.overflow,
                 Total(Evicted, o2), Total(Reported, o2), e.overflow);
  }

  lemma RouteCounted(c: Cache, t: Turn)
    requires Shaped(c)
    ensures var (d, outs) := Route(c, t); Counted(c, outs, d)
  {
    hide Append, Oldest, Total;
    var (d, outs) := Route(c, t);
    NoOut();
    if |outs| == 1 {
      assert outs == [outs[0]];
      OneOut(outs[0]);
    } else if |outs| == 2 {
      assert outs == [outs[0], outs[1]];
      TwoOuts(outs[0], outs[1]);
    }
  }

  lemma EdgeCounted(c: Cache, t: Turn)
    requires Shaped(c)
    ensures var (d, outs) := Edge(c, t); Counted(c, outs, d)
  {
    hide Total;
    var (d, outs) := Edge(c, t);
    NoOut();
    if outs != [] {
      assert outs == [outs[0]];
      OneOut(outs[0]);
    }
  }

  lemma CatchupCounted(c: Cache, t: Turn)
    requires Shaped(c)
    ensures var (d, outs) := Catchup(c, t); Counted(c, outs, d)
  {
    hide Total, Read, Mark;
    var (d, outs) := Catchup(c, t);
    NoOut();
    if outs != [] {
      assert outs == [outs[0]];
      OneOut(outs[0]);
    }
  }

  /** Every turn of every run, guarded or not, balances the count: sixteen for each eviction, less what was reported. */
  lemma StepCounted(c: Cache, t: Turn)
    requires Shaped(c)
    ensures var (d, outs) := Step(c, t); Counted(c, outs, d)
  {
    hide Counted, Route, Edge, Catchup;
    var (c1, o1) := Route(c, t);
    var (c2, o2) := Edge(c1, t);
    var (c3, o3) := Catchup(c2, t);
    RouteCounted(c, t);
    EdgeCounted(c1, t);
    CatchupCounted(c2, t);
    CountedConcat(c, o1, c1, o2, c2);
    CountedConcat(c, o1 + o2, c2, o3, c3);
  }

  ghost predicate Saved(c: Cache) {
    SavedCount(c.nvs) == c.overflow
  }

  /** Every commit of the event would succeed. */
  predicate Commits(ev: Event) {
    ev.Run? ==> ev.t.evictSaved && ev.t.takeSaved && ev.t.giveSaved
  }

  lemma CommitsKeepSaved(c: Cache, ev: Event)
    requires Shaped(c) && Saved(c) && Commits(ev)
    ensures Saved(Next(c, ev).0)
  {
    hide Append, Oldest, Read, Mark, Scan;
  }

  lemma NextCounted(c: Cache, ev: Event)
    requires Shaped(c) && Saved(c) && Commits(ev)
    ensures var (d, outs) := Next(c, ev); Counted(c, outs, d)
  {
    hide Step, Scan;
    NoOut();
    match ev
    case Run(t) => StepCounted(c, t);
    case Reboot =>
  }

  /** While commits succeed, through any turns and reboots, whatever the layout of the flash and guarded or not: the
      count in NVS is the count in RAM, and the slots evicted are those reported and those still to be reported, modulo
      2^32. */
  lemma {:induction false} OverflowLedger(c: Cache, evs: seq<Event>)
    requires Shaped(c) && Saved(c) && forall i | 0 <= i < |evs| :: Commits(evs[i])
    ensures var (d, outs) := RunAll(c, evs); Saved(d) && Counted(c, outs, d)
    decreases |evs|
  {
    hide Saved, Commits, Next, Counted;
    if evs == [] {
      NothingCounted(c);
    } else {
      var (d, outs) := Next(c, evs[0]);
      var (e, more) := RunAll(d, evs[1..]);
      CommitsKeepSaved(c, evs[0]);
      NextCounted(c, evs[0]);
      OverflowLedger(d, evs[1..]);
      CountedConcat(c, outs, d, more, e);
    }
  }

  lemma NothingCounted(c: Cache)
    ensures Counted(c, [], c)
  {
    NoOut();
  }

  /** From an empty queue, through guarded turns and reboots that the queue survives: every message that was taken was
      published at once, refused or stored, once and in order; the stored entries are, in order, those that left by
      backfill or eviction and then those still queued; and, while commits succeed, the number of entries lost to
      eviction is what was reported and what is still to be reported, modulo 2^32. */
  lemma Conservation(c: Cache, evs: seq<Event>)
    requires Shaped(c) && Laid(c.ring) && c.ring.n == 0 && Guarded(c, evs)
    ensures var (d, outs) := RunAll(c, evs);
            && Gather(Disposed, outs) == Messages(evs)
            && Gather(Stored, outs) == Gather(Left, outs) + Fifo(d.ring)
            && (Saved(c) && (forall i | 0 <= i < |evs| :: Commits(evs[i])) ==>
                  (c.overflow + Total(Lost, outs)) % U32 == (Total(Reported, outs) + d.overflow) % U32)
  {
    hide RunAll, Guarded, Laid, AllDecodable, Saved, Commits, Gather, Total, Fifo, U32;
    EmptySane(c.ring);
    RunBalance(c, evs);
    var (d, outs) := RunAll(c, evs);
    assert [] + Gather(Stored, outs) == Gather(Stored, outs);
    if Saved(c) && forall i | 0 <= i < |evs| :: Commits(evs[i]) {
      OverflowLedger(c, evs);
    }
  }

  lemma EmptySane(g: Ring)
    requires Laid(g) && g.n == 0
    ensures Sane(g) && Fifo(g) == []
  {
    hide Laid;
    LaidIsShaped(g);
  }

  // ---------- refused messages ----------

  /** The message of this turn is not published, and does not fit an entry. */
  predicate TooLong(t: Turn) {
    t.msg.Some? && |t.msg.value| > DATA_MAX && !(t.online && t.liveOk)
  }

  lemma RouteRefuses(c: Cache, t: Turn)
    requires Shaped(c)
    ensures Gather(Refused, Route(c, t).1) == if TooLong(t) then [t.msg.value] else []
  {
    hide Append, Oldest, Gather;
    var outs := Route(c, t).1;
    NoOut();
    if |outs| == 1 {
      assert outs == [outs[0]];
      OneOut(outs[0]);
    } else if |outs| == 2 {
      assert outs == [outs[0], outs[1]];
      TwoOuts(outs[0], outs[1]);
    }
  }

  lemma OthersRefuseNothing(c: Cache, t: Turn)
    requires Shaped(c)
    ensures Gather(Refused, Edge(c, t).1) == [] && Gather(Refused, Catchup(c, t).1) == []
  {
    hide Read, Mark, Gather;
    NoOut();
    var o2, o3 := Edge(c, t).1, Catchup(c, t).1;
    if o2 != [] {
      assert o2 == [o2[0]];
      OneOut(o2[0]);
    }
    if o3 != [] {
      assert o3 == [o3[0]];
      OneOut(o3[0]);
    }
  }

  lemma StepRefuses(c: Cache, t: Turn)
    requires Shaped(c)
    ensures Gather(Refused, Step(c, t).1) == if TooLong(t) then [t.msg.value] else []
  {
    hide Route, Edge, Catchup, TooLong, Gather, Refused;
    var (c1, o1) := Route(c, t);
    var (c2, o2) := Edge(c1, t);
    var (c3, o3) := Catchup(c2, t);
    RouteRefuses(c, t);
    OthersRefuseNothing(c1, t);
    OthersRefuseNothing(c2, t);
    GatherConcat(Refused, o1, o2);
    GatherConcat(Refused, o1 + o2, o3);
  }

  /** The messages that do not fit and were not published. */
  ghost function Unfit(evs: seq<Event>): seq<Bytes> {
    if evs == [] then []
    else (if evs[0].Run? && TooLong(evs[0].t) then [evs[0].t.msg.value] else []) + Unfit(evs[1..])
  }

  lemma NextRefuses(c: Cache, ev: Event)
    requires Shaped(c)
    ensures Gather(Refused, Next(c, ev).1) == if ev.Run? && TooLong(ev.t) then [ev.t.msg.value] else []
  {
    hide Step, TooLong, Scan;
    match ev
    case Run(t) => StepRefuses(c, t);
    case Reboot => NoOut();
  }

  lemma {:induction false} RunRefuses(c: Cache, evs: seq<Event>)
    requires Shaped(c)
    ensures Gather(Refused, RunAll(c, evs).1) == Unfit(evs)
    decreases |evs|
  {
    hide Next, TooLong, Refused;
    if evs != [] {
      var (d, outs) := Next(c, evs[0]);
      NextRefuses(c, evs[0]);
      RunRefuses(d, evs[1..]);
      GatherConcat(Refused, outs, RunAll(d, evs[1..]).1);
    }
  }

  lemma {:induction false} AllFit(evs: seq<Event>)
    ensures Unfit(evs) == [] <==> forall i | 0 <= i < |evs| && evs[i].Run? :: !TooLong(evs[i].t)
    decreases |evs|
  {
    hide TooLong;
    if evs != [] {
      AllFit(evs[1..]);
      assert forall i | 1 <= i < |evs| :: evs[i] == evs[1..][i - 1];
      if Unfit(evs) == [] {
        assert Unfit(evs[1..]) == [];
      }
    }
  }

  /** In any run, guarded or not: the messages dropped without a trace are exactly those that were not published and are
      longer than an entry's 244 bytes; none is, if and only if every unpublished message fits. */
  lemma RefusedExactly(c: Cache, evs: seq<Event>)
    requires Shaped(c)
    ensures Gather(Refused, RunAll(c, evs).1) == Unfit(evs)
    ensures Gather(Refused, RunAll(c, evs).1) == [] <==>
              forall i | 0 <= i < |evs| && evs[i].Run? :: !TooLong(evs[i].t)
  {
    hide RunAll, Gather, Unfit, TooLong;
    RunRefuses(c, evs);
    AllFit(evs);
  }

  /** A message of 245 bytes, taken while offline, is gone. */
  lemma DroppedMessage(c: Cache, t: Turn)
    requires Shaped(c) && t.msg.Some? && |t.msg.value| == 245 && !t.online && !t.onlineNow
    ensures Step(c, t) == (c.(lastOnline := false), [Refuse(t.msg.value)])
  {
    hide Append, Oldest, Read, Mark;
    var o1 := Route(c, t).1;
    assert o1 + [] + [] == o1;
  }

  // ---------- the rate of backfills ----------

  /** A clock that does not run backwards. */
  predicate Clocked(last: int, t: Turn) {
    last <= t.liveAt <= t.reportAt <= t.gapAt <= t.backAt
  }

  predicate Monotone(last: int, turns: seq<Turn>)
    decreases |turns|
  {
    turns == [] || (Clocked(last, turns[0]) && Monotone(turns[0].backAt, turns[1..]))
  }

  /** The stamp of the last successful publish. */
  ghost function Stamped(o: Out, last: int): int {
    match o
    case Live(_, at) => at
    case Report(_, at) => at
    case Backfill(_, _, at) => at
    case _ => last
  }

  ghost function LastStamp(outs: seq<Out>, last: int): int {
    if outs == [] then last else LastStamp(outs[1..], Stamped(outs[0], last))
  }

  /** Every backfill starts a whole gap after the stamp of the publish before it, of whatever kind. */
  ghost predicate Gated(outs: seq<Out>, last: int) {
    outs == [] ||
    (&& (outs[0].Backfill? ==> last + PUBLISH_GAP_MS <= outs[0].start <= outs[0].at)
     && last <= Stamped(outs[0], last)
     && Gated(outs[1..], Stamped(outs[0], last)))
  }

  lemma {:induction false} GatedConcat(a: seq<Out>, b: seq<Out>, last: int)
    requires Gated(a, last) && Gated(b, LastStamp(a, last))
    ensures Gated(a + b, last) && LastStamp(a + b, last) == LastStamp(b, LastStamp(a, last))
  {
    hide Stamped;
    if a == [] {
      assert a + b == b;
    } else {
      GatedConcat(a[1..], b, Stamped(a[0], last));
      assert (a + b)[1..] == a[1..] + b;
    }
  }

  /** A stretch of outputs that keeps the gap and ends with stamp `now`. */
  ghost predicate Paced(outs: seq<Out>, last: int, now: int) {
    Gated(outs, last) && LastStamp(outs, last) == now
  }

  lemma KeepsOne(o: Out, last: int)
    requires o.Backfill? ==> last + PUBLISH_GAP_MS <= o.start <= o.at
    requires last <= Stamped(o, last)
    ensures Paced([o], last, Stamped(o, last))
  {
    assert [o][1..] == [];
  }

  lemma RouteKeeps(c: Cache, t: Turn)
    requires Shaped(c) && Clocked(c.lastPublish, t)
    ensures var (d, outs) := Route(c, t); Paced(outs, c.lastPublish, d.lastPublish) && d.lastPublish <= t.liveAt
  {
    hide Append, Oldest;
    var (d, outs) := Route(c, t);
    if |outs| == 1 {
      assert outs == [outs[0]];
      KeepsOne(outs[0], c.lastPublish);
    } else if |outs| == 2 {
      assert outs[1..] == [outs[1]];
      KeepsOne(outs[1], c.lastPublish);
    }
  }

  lemma EdgeKeeps(c: Cache, t: Turn)
    requires Shaped(c) && c.lastPublish <= t.reportAt
    ensures var (d, outs) := Edge(c, t); Paced(outs, c.lastPublish, d.lastPublish) && d.lastPublish <= t.reportAt
  {
    var (d, outs) := Edge(c, t);
    if |outs| == 1 {
      assert outs == [outs[0]];
      KeepsOne(outs[0], c.lastPublish);
    }
  }

  lemma CatchupKeeps(c: Cache, t: Turn)
    requires Shaped(c) && c.lastPublish <= t.gapAt <= t.backAt
    ensures var (d, outs) := Catchup(c, t); Paced(outs, c.lastPublish, d.lastPublish) && d.lastPublish <= t.backAt
  {
    hide Read, Mark;
    var (d, outs) := Catchup(c, t);
    if |outs| == 1 {
      assert outs == [outs[0]];
      KeepsOne(outs[0], c.lastPublish);
    }
  }

  lemma StepKeeps(c: Cache, t: Turn)
    requires Shaped(c) && Clocked(c.lastPublish, t)
    ensures var (d, outs) := Step(c, t); Paced(outs, c.lastPublish, d.lastPublish) && d.lastPublish <= t.backAt
  {
    hide Route, Edge, Catchup, Gated, LastStamp;
    var (c1, o1) := Route(c, t);
    var (c2, o2) := Edge(c1, t);
    var (c3, o3) := Catchup(c2, t);
    RouteKeeps(c, t);
    EdgeKeeps(c1, t);
    CatchupKeeps(c2, t);
    GatedConcat(o1, o2, c.lastPublish);
    GatedConcat(o1 + o2, o3, c.lastPublish);
  }

  lemma {:induction false} RunKeeps(c: Cache, last: int, turns: seq<Turn>)
    requires Shaped(c) && c.lastPublish <= last && Monotone(last, turns)
    ensures var (d, outs) := RunAll(c, Turns(turns)); Paced(outs, c.lastPublish, d.lastPublish)
    decreases |turns|
  {
    hide Step, Gated, LastStamp;
    if turns == [] {
      assert Paced([], c.lastPublish, c.lastPublish) by {
        KeepsNothing(c.lastPublish);
      }
    } else {
      var (d, outs) := Step(c, turns[0]);
      var more := RunAll(d, Turns(turns[1..])).1;
      StepKeeps(c, turns[0]);
      RunKeeps(d, turns[0].backAt, turns[1..]);
      assert Turns(turns)[1..] == Turns(turns[1..]);
      GatedConcat(outs, more, c.lastPublish);
    }
  }

  lemma KeepsNothing(last: int)
    ensures Paced([], last, last)
  {
  }

  ghost function Starts(o: Out): seq<int> {
    if o.Backfill? then [o.start] else []
  }

  ghost predicate Spaced(starts: seq<int>, last: int) {
    && (forall k | 0 <= k < |starts| :: starts[k] >= last + PUBLISH_GAP_MS * (k + 1))
    && (forall i, j | 0 <= i < j < |starts| :: starts[j] - starts[i] >= PUBLISH_GAP_MS * (j - i))
  }

  lemma SpacedFirst(start: int, at: int, rest: seq<int>, last: int)
    requires last + PUBLISH_GAP_MS <= start <= at && Spaced(rest, at)
    ensures Spaced([start] + rest, last)
  {
    var all := [start] + rest;
    forall i, j | 0 <= i < j < |all|
      ensures all[j] - all[i] >= PUBLISH_GAP_MS * (j - i)
    {
      assert all[j] == rest[j - 1];
      if i > 0 {
        assert all[i] == rest[i - 1];
      }
    }
    forall k | 0 <= k < |all|
      ensures all[k] >= last + PUBLISH_GAP_MS * (k + 1)
    {
      if k > 0 {
        assert all[k] == rest[k - 1];
      }
    }
  }

  lemma StartsOf(outs: seq<Out>)
    ensures Gather(Starts, outs) == if outs == [] then [] else Starts(outs[0]) + Gather(Starts, outs[1..])
  {
  }

  lemma NoStarts(last: int)
    ensures Spaced([], last)
  {
  }

  lemma {:induction false} GatedSpaced(outs: seq<Out>, last: int)
    requires Gated(outs, last)
    ensures Spaced(Gather(Starts, outs), last)
  {
    hide Spaced, Gather;
    StartsOf(outs);
    NoStarts(last);
    if outs != [] {
      var rest := Gather(Starts, outs[1..]);
      GatedSpaced(outs[1..], Stamped(outs[0], last));
      match outs[0]
      case Backfill(_, start, at) =>
        SpacedFirst(start, at, rest, last);
      case _ =>
        assert [] + rest == rest;
        SpacedLater(rest, Stamped(outs[0], last), last);
    }
  }

  lemma SpacedLater(starts: seq<int>, now: int, last: int)
    requires Spaced(starts, now) && last <= now
    ensures Spaced(starts, last)
  {
  }

  /** In any run on a clock that does not run backwards, guarded or not, the backfills that succeed start at least a
      second apart: those that start within `span` milliseconds are at most `span / 1000 + 1`. */
  lemma BackfillRate(c: Cache, turns: seq<Turn>, i: nat, j: nat, span: nat)
    requires Shaped(c) && Monotone(c.lastPublish, turns)
    requires var starts := Gather(Starts, RunAll(c, Turns(turns)).1); i <= j < |starts| && starts[j] - starts[i] <= span
    ensures j - i + 1 <= span / 1000 + 1
  {
    hide RunAll, Gather, Gated;
    var outs := RunAll(c, Turns(turns)).1;
    RunKeeps(c, c.lastPublish, turns);
    GatedSpaced(outs, c.lastPublish);
  }

  // ---------- when something is sent ----------

  /** Online, with an entry pending and the gap past, a publish that succeeds sends the oldest entry, and it leaves the
      queue. */
  lemma CatchupSendsOldest(c: Cache, t: Turn)
    requires Shaped(c) && Sane(c.ring) && c.ring.n > 0
    requires t.onlineNow && t.gapAt - c.lastPublish >= PUBLISH_GAP_MS && t.backOk
    ensures var (d, outs) := Catchup(c, t);
            && |Fifo(c.ring)| == c.ring.n
            && outs == [Backfill(Fifo(c.ring)[0], t.gapAt, t.backAt)]
            && Fifo(d.ring) == Fifo(c.ring)[1..]
  {
    hide Read, Decodable, Decode, Mark;
    DecodedLength(Window(c.ring));
    SaneRead(c.ring);
    SaneMark(c.ring);
  }

  /** The variables before turn `k`. */
  ghost function Before(c: Cache, turns: seq<Turn>, k: nat): (d: Cache)
    requires Shaped(c) && k <= |turns|
    ensures Shaped(d)
  {
    if k == 0 then c else Step(Before(c, turns, k - 1), turns[k - 1]).0
  }

  ghost predicate Reports(c: Cache, t: Turn)
    requires Shaped(c)
  {
    exists o :: o in Step(c, t).1 && o.Report?
  }

  lemma StepKeepsFlag(c: Cache, t: Turn)
    requires Shaped(c)
    ensures Step(c, t).0.lastOnline == t.onlineNow
    ensures Reports(c, t) ==> t.onlineNow && !c.lastOnline
  {
    hide Append, Oldest, Read, Mark;
  }

  lemma {:induction false} BeforeIsRun(c: Cache, turns: seq<Turn>, k: nat)
    requires Shaped(c) && k <= |turns|
    ensures RunAll(c, Turns(turns)).0 == RunAll(Before(c, turns, k), Turns(turns[k..])).0
  {
    hide Step;
    if k == 0 {
      assert turns[0..] == turns;
    } else {
      BeforeIsRun(c, turns, k - 1);
      assert Turns(turns[k - 1..])[1..] == Turns(turns[k..]);
    }
  }

  /** Between two reports of the overflow count there is a turn that was offline. */
  lemma OneReportPerEdge(c: Cache, turns: seq<Turn>, i: nat, j: nat)
    requires Shaped(c) && i < j < |turns|
    requires Reports(Before(c, turns, i), turns[i])
    requires Reports(Before(c, turns, j), turns[j])
    ensures exists k :: i < k < j && !turns[k].onlineNow
  {
    hide Step, Reports;
    StepKeepsFlag(Before(c, turns, i), turns[i]);
    StepKeepsFlag(Before(c, turns, j), turns[j]);
    StepKeepsFlag(Before(c, turns, j - 1), turns[j - 1]);
    assert !turns[j - 1].onlineNow;
  }
}
