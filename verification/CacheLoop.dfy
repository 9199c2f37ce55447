/** main/app/cache_task.c: the specification of one turn of the store-and-forward loop, and what it lets an observer
    see. */
module CacheLoop {
  import opened Slots
  import opened Ring
  import opened Recovery
  import opened Types

  const PAYLOAD_MAX: nat := 512
  const PUBLISH_GAP_MS: int := 1000

  /** The variables of the task and of the storage below it. `nvs` is the committed overflow count. */
  datatype Cache = Cache(ring: Ring, overflow: nat, nvs: Option<nat>, lastOnline: bool, lastPublish: int)

  /** What the world does during one turn: the message that arrived, if any, whether the flag says online (it is read
      twice), whether each publish and each commit to NVS would succeed, and the clock, in milliseconds, at each place
      where it would be read. */
  datatype Turn = Turn(
    msg: Option<Bytes>, online: bool, liveOk: bool, liveAt: int, ts: Stamp, evictSaved: bool,
    onlineNow: bool, takeSaved: bool, reportOk: bool, reportAt: int, giveSaved: bool,
    gapAt: int, backOk: bool, backAt: int)

  /** What happened, in order. */
  datatype Out =
    | Live(data: Bytes, at: int)              // published at once
    | Refuse(data: Bytes)                     // not published, and too long for an entry
    | Evict(lost: seq<Entry>)                 // overwritten by a write to a full ring
    | Store(e: Entry)
    | Report(count: nat, at: int)             // overflow count published
    | Backfill(e: Entry, start: int, at: int) // a stored entry published

  ghost predicate Shaped(c: Cache) {
    Shape(c.ring) && c.overflow < U32 && (c.nvs.Some? ==> c.nvs.value < U32)
  }

  /** The entries that a write to this ring overwrites. */
  ghost function Oldest(g: Ring): seq<Entry>
    requires Shape(g)
  {
    if g.n == |g.slots| then Decoded(Window(g)[..16]) else []
  }

  ghost function Keep(c: Cache, e: Entry, saved: bool): (res: (Cache, seq<Out>))
    requires Shaped(c) && |e.data| <= DATA_MAX
    ensures Shaped(res.0)
  {
    if c.ring.n == |c.ring.slots| then
      var count := (c.overflow + 16) % U32;
      (c.(ring := Append(c.ring, e), overflow := count, nvs := if saved then Some(count) else c.nvs),
       [Evict(Oldest(c.ring)), Store(e)])
    else
      (c.(ring := Append(c.ring, e)), [Store(e)])
  }

  /** Taking a message off the queue. */
  ghost function Route(c: Cache, t: Turn): (res: (Cache, seq<Out>))
    requires Shaped(c)
    ensures Shaped(res.0)
  {
    if t.msg.None? then (c, [])
    else if t.online && t.liveOk then (c.(lastPublish := t.liveAt), [Live(t.msg.value, t.liveAt)])
    else if |t.msg.value| > DATA_MAX then (c, [Refuse(t.msg.value)])
    else Keep(c, Entry(t.ts, t.msg.value), t.evictSaved)
  }

  ghost function ReportOverflow(c: Cache, t: Turn): (res: (Cache, seq<Out>))
    requires Shaped(c)
    ensures Shaped(res.0)
  {
    var zeroed := if t.takeSaved then Some(0) else c.nvs;
    if c.overflow == 0 then (c.(nvs := zeroed), [])
    else if t.reportOk then
      (c.(overflow := 0, nvs := zeroed, lastPublish := t.reportAt), [Report(c.overflow, t.reportAt)])
    else (c.(nvs := if t.giveSaved then Some(c.overflow) else zeroed), [])
  }

  /** The edge detection: a report on a rising edge. */
  ghost function Edge(c: Cache, t: Turn): (res: (Cache, seq<Out>))
    requires Shaped(c)
    ensures Shaped(res.0)
  {
    var (d, outs) := if t.onlineNow && !c.lastOnline then ReportOverflow(c, t) else (c, []);
    (d.(lastOnline := t.onlineNow), outs)
  }

  ghost function Refill(c: Cache, t: Turn): (res: (Cache, seq<Out>))
    requires Shaped(c)
    ensures Shaped(res.0)
  {
    ReadSome(c.ring, DATA_MAX);
    var (h, o) := Read(c.ring, DATA_MAX);
    if o.Some? && t.backOk then
      (c.(ring := Mark(h), lastPublish := t.backAt), [Backfill(o.value, t.gapAt, t.backAt)])
    else (c.(ring := h), [])
  }

  /** The rate-limited backfill. */
  ghost function Catchup(c: Cache, t: Turn): (res: (Cache, seq<Out>))
    requires Shaped(c)
    ensures Shaped(res.0)
  {
    if t.onlineNow && c.ring.n > 0 && t.gapAt - c.lastPublish >= PUBLISH_GAP_MS then Refill(c, t) else (c, [])
  }

  /** One turn of the loop. */
  ghost function Step(c: Cache, t: Turn): (res: (Cache, seq<Out>))
    requires Shaped(c)
    ensures Shaped(res.0)
  {
    var (c1, o1) := Route(c, t);
    var (c2, o2) := Edge(c1, t);
    var (c3, o3) := Catchup(c2, t);
    (c3, o1 + o2 + o3)
  }

  /** A read that succeeds, of any ring at all, delivers what its new head slot holds: a valid entry of at most
      `CACHE_DATA_MAX` bytes. */
  lemma {:induction false} ReadSome(g: Ring, size: nat)
    requires Shape(g)
    ensures var (h, o) := Read(g, size);
            o.Some? ==>
              h.n > 0 && Decodable(h.slots[h.r]) && o.value == Decode(h.slots[h.r]) && |o.value.data| <= DATA_MAX
    decreases g.n
  {
    if g.n > 0 {
      var s := g.slots[g.r];
      if !Decodable(s) {
        ReadSome(Mark(g), size);
      } else if LenOf(s) > size {
        ReadSome(Skip(g), size);
      }
    }
  }

  // ---------- runs ----------

  datatype Event = Run(t: Turn) | Reboot

  /** The overflow count that `flash_storage_init` reads. */
  ghost function SavedCount(nvs: Option<nat>): nat {
    if nvs.Some? then nvs.value else 0
  }

  /** After a reboot between two turns the variables are rebuilt from the flash and from NVS. */
  ghost function Next(c: Cache, ev: Event): (res: (Cache, seq<Out>))
    requires Shaped(c)
    ensures Shaped(res.0)
  {
    match ev
    case Run(t) => Step(c, t)
    case Reboot => (Cache(Scan(c.ring.slots), SavedCount(c.nvs), c.nvs, false, 0), [])
  }

  ghost function RunAll(c: Cache, evs: seq<Event>): (res: (Cache, seq<Out>))
    requires Shaped(c)
    ensures Shaped(res.0)
    decreases |evs|
  {
    if evs == [] then (c, [])
    else
      var (d, outs) := Next(c, evs[0]);
      var (e, more) := RunAll(d, evs[1..]);
      (e, outs + more)
  }

  ghost function Turns(turns: seq<Turn>): (evs: seq<Event>)
    ensures |evs| == |turns| && forall i | 0 <= i < |turns| :: evs[i] == Run(turns[i])
  {
    seq(|turns|, i requires 0 <= i < |turns| => Run(turns[i]))
  }
}
