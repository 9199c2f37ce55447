/** main/app/cache_task.c: the task over the storage layer. */
module CacheTask {
  import opened Slots
  import opened Ring
  import opened CacheLoop
  import opened FlashStorage

  class Task {
    const flash: Storage
    var lastOnline: bool
    var lastPublishMs: int
    ghost var seen: seq<Out>

    ghost predicate Valid()
      reads this, flash, flash.chip.mem
    {
      flash.Valid()
    }

    ghost function View(): (c: Cache)
      requires Valid()
      reads this, flash, flash.chip.mem
      ensures Shaped(c)
    {
      Cache(flash.View(), flash.overflowCount, flash.nvs, lastOnline, lastPublishMs)
    }

    constructor (flash: Storage)
      requires flash.Valid()
      ensures Valid() && this.flash == flash && seen == []
      ensures View() == Cache(flash.View(), flash.overflowCount, flash.nvs, false, 0)
    {
      this.flash := flash;
      lastOnline, lastPublishMs, seen := false, 0, [];
    }

    /** `publish_gap_ok`. */
    predicate PublishGapOk(now: int)
      reads this
    {
      now - lastPublishMs >= PUBLISH_GAP_MS
    }

    /** A message is published, or written to flash; a refused write is not noticed. */
    method RouteMessage(t: Turn)
      requires Valid() && (t.msg.Some? ==> |t.msg.value| < PAYLOAD_MAX)
      modifies this, flash, flash.chip.mem
      ensures Valid()
      ensures var (c, outs) := Route(old(View()), t); View() == c && seen == old(seen) + outs
    {
      hide Append, Oldest, Inv, Guard, Fifo;
      match t.msg
      case None =>
      case Some(payload) =>
        if t.online && t.liveOk {
          lastPublishMs := t.liveAt;
          seen := seen + [Live(payload, t.liveAt)];
        } else {
          ghost var lost := Oldest(flash.View());
          ghost var full := flash.View().n == |flash.View().slots|;
          var rc := flash.Write(payload, t.ts, t.evictSaved);
          seen := seen + if rc != 0 then [Refuse(payload)]
                         else if full then [Evict(lost), Store(Entry(t.ts, payload))]
                         else [Store(Entry(t.ts, payload))];
        }
    }

    /** `report_overflow`. */
    method ReportCount(t: Turn)
      requires Valid()
      modifies this, flash
      ensures Valid()
      ensures var (c, outs) := ReportOverflow(old(View()), t); View() == c && seen == old(seen) + outs
    {
      var ovf := flash.TakeOverflow(t.takeSaved);
      if ovf == 0 {
        return;
      }
      if t.reportOk {
        lastPublishMs := t.reportAt;
        seen := seen + [Report(ovf, t.reportAt)];
      } else {
        flash.GivebackOverflow(ovf, t.giveSaved);
      }
    }

    method DetectEdge(t: Turn)
      requires Valid()
      modifies this, flash
      ensures Valid()
      ensures var (c, outs) := Edge(old(View()), t); View() == c && seen == old(seen) + outs
    {
      if t.onlineNow && !lastOnline {
        ReportCount(t);
      }
      lastOnline := t.onlineNow;
    }

    method SendOldest(t: Turn)
      requires Valid()
      modifies this, flash, flash.chip.mem
      ensures Valid()
      ensures var (c, outs) := Refill(old(View()), t); View() == c && seen == old(seen) + outs
    {
      ReadSome(flash.View(), DATA_MAX);
      var rc, data, ts := flash.ReadOldest(DATA_MAX);
      if rc == 0 && t.backOk {
        lastPublishMs := t.backAt;
        flash.MarkSent();
        seen := seen + [Backfill(Entry(ts, data), t.gapAt, t.backAt)];
      }
    }

    method CatchUpOne(t: Turn)
      requires Valid()
      modifies this, flash, flash.chip.mem
      ensures Valid()
      ensures var (c, outs) := Catchup(old(View()), t); View() == c && seen == old(seen) + outs
    {
      hide Refill;
      var pending := flash.PendingCount();
      if t.onlineNow && pending > 0 && PublishGapOk(t.gapAt) {
        SendOldest(t);
      }
    }

    /** One turn of the loop of `cache_task`. */
    method Iterate(t: Turn)
      requires Valid() && (t.msg.Some? ==> |t.msg.value| < PAYLOAD_MAX)
      modifies this, flash, flash.chip.mem
      ensures Valid()
      ensures var (c, outs) := Step(old(View()), t); View() == c && seen == old(seen) + outs
    {
      hide Route, Edge, Catchup;
      RouteMessage(t);
      DetectEdge(t);
      CatchUpOne(t);
    }

    /** The loop of `cache_task`. */
    method Loop(turns: seq<Turn>)
      requires Valid() && forall i | 0 <= i < |turns| && turns[i].msg.Some? :: |turns[i].msg.value| < PAYLOAD_MAX
      modifies this, flash, flash.chip.mem
      ensures Valid()
      ensures var (c, outs) := RunAll(old(View()), Turns(turns)); View() == c && seen == old(seen) + outs
    {
      hide RunAll, Step, View;
      ghost var c0, seen0 := View(), seen;
      RunNone(c0, seen0, turns);
      for i := 0 to |turns|
        invariant Valid()
        invariant UnderWay(c0, seen0, turns, i, View(), seen)
      {
        RunNext(c0, seen0, turns, i, View(), seen);
        Iterate(turns[i]);
      }
      RunDone(c0, seen0, turns, View(), seen);
    }
  }

  /** The state and the trace before turn `i`, seen from the end of the run. */
  ghost predicate UnderWay(c0: Cache, seen0: seq<Out>, turns: seq<Turn>, i: nat, c: Cache, seen: seq<Out>)
    requires Shaped(c0) && Shaped(c) && i <= |turns|
  {
    && RunAll(c0, Turns(turns)).0 == RunAll(c, Turns(turns[i..])).0
    && seen0 + RunAll(c0, Turns(turns)).1 == seen + RunAll(c, Turns(turns[i..])).1
  }

  lemma RunNone(c0: Cache, seen0: seq<Out>, turns: seq<Turn>)
    requires Shaped(c0)
    ensures UnderWay(c0, seen0, turns, 0, c0, seen0)
  {
    assert turns[0..] == turns;
  }

  lemma RunDone(c0: Cache, seen0: seq<Out>, turns: seq<Turn>, c: Cache, seen: seq<Out>)
    requires Shaped(c0) && Shaped(c) && UnderWay(c0, seen0, turns, |turns|, c, seen)
    ensures RunAll(c0, Turns(turns)).0 == c && seen0 + RunAll(c0, Turns(turns)).1 == seen
  {
  }

  lemma RunNext(c0: Cache, seen0: seq<Out>, turns: seq<Turn>, i: nat, c: Cache, seen: seq<Out>)
    requires Shaped(c0) && Shaped(c) && i < |turns| && UnderWay(c0, seen0, turns, i, c, seen)
    ensures var (d, outs) := Step(c, turns[i]); UnderWay(c0, seen0, turns, i + 1, d, seen + outs)
  {
    hide Step;
    var (d, outs) := Step(c, turns[i]);
    assert Turns(turns[i..])[1..] == Turns(turns[i + 1..]);
    ConcatAssociates(seen, outs, RunAll(d, Turns(turns[i + 1..])).1);
  }
}
