/** Whole lives of a cache that does not overflow, laps of the chip included: any sequence of writes, deliveries, failed
    deliveries and power losses, each loss followed by the boot scan.

    `published` is what the broker accepted, in order, each with its place among the stored entries. */
module AtLeastOnce {
  import opened Recovery
  import opened Ring
  import opened Slots
  import opened Types

  datatype Event =
    | Store(e: Entry)
    | Deliver                             // read, publish accepted, mark_sent
    | Refuse                              // read, publish failed
    | Crash                               // power lost between operations
    | CrashInStore(e: Entry, k: nat)      // power lost after `k` bytes of the entry
    | CrashInHeal(j: nat, m: Bytes)       // power lost in the healing loop, after `j` healed slots
    | CrashInMark(m: Bytes)               // publish accepted, power lost before the end of mark_sent

  datatype Publish = Publish(index: nat, e: Entry)

  datatype Life = Life(g: Ring, stored: seq<Entry>, published: seq<Publish>, acked: nat, crashes: nat)

  ghost function Heal(g: Ring, j: nat): (h: Ring)
    requires Shape(g)
    ensures Shape(h) && |h.slots| == |g.slots|
    decreases j
  {
    if j == 0 || g.n == 0 || Decodable(g.slots[g.r]) then g else Heal(Mark(g), j - 1)
  }

  /** A write finds room without overwriting anything that is pending. */
  ghost predicate Room(g: Ring) {
    Guard(g) && g.n < |g.slots|
  }

  /** The tears that flash can produce and, for appends, that the code can recover from; power is lost only where the
      queue survives it. */
  ghost predicate Possible(l: Life, ev: Event)
    requires Shape(l.g)
  {
    match ev
    case Store(e) => Room(l.g) && |e.data| <= DATA_MAX
    case Crash => Survives(l.g)
    case CrashInStore(e, k) =>
      && Room(l.g) && |e.data| <= DATA_MAX && k <= 256 && CleanTear(l.g.n, e, k)
      && (k == 0 ==> Survives(MakeRoom(l.g))) && (4 <= k ==> Survives(Append(l.g, e)))
    case CrashInHeal(j, m) =>
      var h := Heal(l.g, j);
      h.n > 0 && !Decodable(h.slots[h.r]) && ClearsOnly(m, h.slots[h.r]) && Survives(h)
    case CrashInMark(m) =>
      var (h, o) := Read(l.g, DATA_MAX);
      h.n > 0 && o.Some? && ClearsOnly(m, h.slots[h.r]) && Survives(h)
    case _ => true
  }

  ghost function Next(l: Life, ev: Event): Life
    requires Shape(l.g) && Possible(l, ev)
  {
    match ev
    case Store(e) => l.(g := Append(l.g, e), stored := l.stored + [e])
    case Deliver =>
      var (h, o) := Read(l.g, DATA_MAX);
      if o.None? || h.n == 0 then l.(g := h)
      else l.(g := Mark(h), published := l.published + [Publish(l.acked, o.value)], acked := l.acked + 1)
    case Refuse => l.(g := Read(l.g, DATA_MAX).0)
    case Crash => l.(g := Scan(l.g.slots), crashes := l.crashes + 1)
    case CrashInStore(e, k) =>
      l.(g := Scan(TornAppend(l.g, e, k)), stored := if k < 10 then l.stored else l.stored + [e],
         crashes := l.crashes + 1)
    case CrashInHeal(j, m) => l.(g := Scan(TornMark(Heal(l.g, j), m)), crashes := l.crashes + 1)
    case CrashInMark(m) =>
      var (h, o) := Read(l.g, DATA_MAX);
      var slots := TornMark(h, m);
      l.(g := Scan(slots), published := l.published + [Publish(l.acked, o.value)],
         acked := if IsValid(slots[h.r]) then l.acked else l.acked + 1, crashes := l.crashes + 1)
  }

  /** The broker's log: every item is the stored entry it claims to be, the first is the first stored, and each item is
      followed by itself again or by its successor. */
  ghost predicate InOrder(log: seq<Publish>, stored: seq<Entry>) {
    && (forall p | 0 <= p < |log| :: log[p].index < |stored| && log[p].e == stored[log[p].index])
    && (log != [] ==> log[0].index == 0)
    && (forall p | 0 <= p < |log| - 1 :: log[p].index <= log[p + 1].index <= log[p].index + 1)
  }

  /** The log against `acked` entries that left the queue and a number of power losses. */
  ghost predicate Accounted(log: seq<Publish>, stored: seq<Entry>, acked: nat, crashes: nat) {
    && acked <= |stored| && InOrder(log, stored)
    && |log| <= acked + crashes
    && (if log == [] then acked == 0 else acked - 1 <= log[|log| - 1].index <= acked)
  }

  ghost predicate Queued(g: Ring, f: seq<Entry>) {
    Laid(g) && Fifo(g) == f
  }

  ghost predicate Sound(l: Life) {
    Accounted(l.published, l.stored, l.acked, l.crashes) && Queued(l.g, l.stored[l.acked..])
  }

  // ---------- the queue ----------

  lemma DeadHeadQueued(g: Ring, f: seq<Entry>)
    requires Queued(g, f) && g.n > 0 && !Decodable(g.slots[g.r])
    ensures Queued(Mark(g), f)
  {
    hide Laid, Mark, Decodable, Decode;
    LaidIsShaped(g);
    MarkLaid(g);
    HeadDropped(g);
    assert Decoded([g.slots[g.r]]) == [];
  }

  lemma HealOne(g: Ring, j: nat)
    requires Shape(g)
    ensures Heal(g, j) == if j == 0 || g.n == 0 || Decodable(g.slots[g.r]) then g else Heal(Mark(g), j - 1)
  {
  }

  lemma QueuedIsShaped(g: Ring, f: seq<Entry>)
    requires Queued(g, f)
    ensures Shape(g)
  {
  }

  lemma {:induction false} HealQueued(g: Ring, f: seq<Entry>, j: nat)
    requires Queued(g, f)
    ensures Queued(Heal(g, j), f)
    decreases j
  {
    hide Queued, Heal, Decodable, Mark;
    QueuedIsShaped(g, f);
    HealOne(g, j);
    if j > 0 && g.n > 0 && !Decodable(g.slots[g.r]) {
      DeadHeadQueued(g, f);
      HealQueued(Mark(g), f, j - 1);
    }
  }

  lemma ReadQueued(g: Ring, f: seq<Entry>)
    requires Queued(g, f)
    ensures var (h, o) := Read(g, DATA_MAX);
            && Queued(h, f)
            && o == (if f == [] then None else Some(f[0]))
            && (f != [] ==> h.n > 0 && Decodable(h.slots[h.r]))
  {
    hide Laid, Read, Decodable, Decode;
    LaidIsShaped(g);
    ReadLaid(g, DATA_MAX);
  }

  lemma MarkQueued(g: Ring, f: seq<Entry>)
    requires Queued(g, f) && g.n > 0 && Decodable(g.slots[g.r])
    ensures f != [] && Queued(Mark(g), f[1..])
  {
    hide Laid, Mark, Decodable, Decode;
    LaidIsShaped(g);
    MarkLaid(g);
    MarkRefines(g);
  }

  /** A torn overwrite of the head leaves the queue with it or, unless the magic word is whole, without it. */
  lemma TornMarkQueued(g: Ring, f: seq<Entry>, m: Bytes)
    requires Queued(g, f) && g.n > 0 && ClearsOnly(m, g.slots[g.r]) && Survives(g)
    ensures var slots := TornMark(g, m);
            && (Decodable(g.slots[g.r]) ==> f != [] && Queued(Scan(slots), if IsValid(slots[g.r]) then f else f[1..]))
            && (!Decodable(g.slots[g.r]) ==> Queued(Scan(slots), f))
  {
    hide Laid, Mark, Decodable, Decode, ClearsOnly, Survives, Scan, IsValid;
    LaidIsShaped(g);
    TornMarkRecovers(g, m);
    if Decodable(g.slots[g.r]) {
      MarkRefines(g);
    } else {
      HeadDropped(g);
      assert Decoded([g.slots[g.r]]) == [];
    }
  }

  lemma StoreQueued(g: Ring, f: seq<Entry>, e: Entry)
    requires Queued(g, f) && Room(g) && |e.data| <= DATA_MAX
    ensures Queued(Append(g, e), f + [e])
  {
    hide Laid, Guard, Append;
    LaidIsShaped(g);
    AppendLaid(g, e);
  }

  lemma TornStoreQueued(g: Ring, f: seq<Entry>, e: Entry, k: nat)
    requires Queued(g, f) && Possible(Life(g, [], [], 0, 0), CrashInStore(e, k))
    ensures Queued(Scan(TornAppend(g, e, k)), if k < 10 then f else f + [e])
  {
    hide Laid, Guard, Append, MakeRoom, Survives, Scan, CleanTear, TornAppend;
    LaidIsShaped(g);
    MakeRoomWindow(g);
    CleanTearRecovers(g, e, k);
  }

  lemma CrashQueued(g: Ring, f: seq<Entry>)
    requires Queued(g, f) && Survives(g)
    ensures Queued(Scan(g.slots), f)
  {
    hide Laid, Survives, Scan;
    LaidIsShaped(g);
    SurvivesScan(g);
  }

  // ---------- the log ----------

  lemma LogGrows(log: seq<Publish>, stored: seq<Entry>, acked: nat, crashes: nat, e: Entry)
    requires Accounted(log, stored, acked, crashes)
    ensures Accounted(log, stored + [e], acked, crashes) && Accounted(log, stored + [e], acked, crashes + 1)
    ensures Accounted(log, stored, acked, crashes + 1)
    ensures (stored + [e])[acked..] == stored[acked..] + [e]
  {
  }

  lemma HeadLogged(log: seq<Publish>, stored: seq<Entry>, acked: nat, crashes: nat)
    requires Accounted(log, stored, acked, crashes) && acked < |stored|
    ensures InOrder(log + [Publish(acked, stored[acked])], stored)
  {
  }

  /** A publish of the head keeps the log sound if the head leaves the queue, or if power was lost. */
  lemma PublishHead(log: seq<Publish>, stored: seq<Entry>, acked: nat, crashes: nat)
    requires Accounted(log, stored, acked, crashes) && acked < |stored|
    ensures var log' := log + [Publish(acked, stored[acked])];
            && Accounted(log', stored, acked + 1, crashes)
            && Accounted(log', stored, acked + 1, crashes + 1)
            && Accounted(log', stored, acked, crashes + 1)
    ensures stored[acked..][0] == stored[acked] && stored[acked..][1..] == stored[acked + 1..]
  {
    HeadLogged(log, stored, acked, crashes);
  }

  // ---------- steps ----------

  lemma SoundIsShaped(l: Life)
    requires Sound(l)
    ensures Shape(l.g) && l.acked <= |l.stored|
  {
  }

  lemma StoreSound(l: Life, e: Entry, g: Ring)
    requires Sound(l) && Queued(g, l.stored[l.acked..] + [e])
    ensures Sound(l.(g := g, stored := l.stored + [e]))
    ensures Sound(l.(g := g, stored := l.stored + [e], crashes := l.crashes + 1))
  {
    hide Queued, InOrder;
    LogGrows(l.published, l.stored, l.acked, l.crashes, e);
  }

  lemma KeptSound(l: Life, g: Ring)
    requires Sound(l) && Queued(g, l.stored[l.acked..])
    ensures Sound(l.(g := g)) && Sound(l.(g := g, crashes := l.crashes + 1))
  {
    hide Queued, InOrder;
  }

  lemma PublishedSound(l: Life, g: Ring, stays: bool)
    requires Sound(l) && l.acked < |l.stored|
    requires Queued(g, if stays then l.stored[l.acked..] else l.stored[l.acked..][1..])
    ensures Sound(l.(g := g, published := l.published + [Publish(l.acked, l.stored[l.acked..][0])],
                     acked := if stays then l.acked else l.acked + 1, crashes := l.crashes + 1))
    ensures !stays ==> Sound(l.(g := g, published := l.published + [Publish(l.acked, l.stored[l.acked..][0])],
                                acked := l.acked + 1))
  {
    hide Queued, InOrder;
    PublishHead(l.published, l.stored, l.acked, l.crashes);
  }

  lemma DeliverNext(l: Life)
    requires Sound(l)
    ensures Sound(Next(l, Deliver)) && Sound(Next(l, Refuse))
  {
    hide Laid, Fifo, InOrder, Read, Mark, Decodable;
    SoundIsShaped(l);
    var f := l.stored[l.acked..];
    ReadQueued(l.g, f);
    var h := Read(l.g, DATA_MAX).0;
    KeptSound(l, h);
    if f != [] {
      MarkQueued(h, f);
      PublishedSound(l, Mark(h), false);
    }
  }

  lemma CrashInMarkNext(l: Life, m: Bytes)
    requires Sound(l) && Possible(l, CrashInMark(m))
    ensures Sound(Next(l, CrashInMark(m)))
  {
    hide Laid, Fifo, InOrder, Read, Scan, TornMark, Decodable, Survives, IsValid;
    SoundIsShaped(l);
    var f := l.stored[l.acked..];
    ReadQueued(l.g, f);
    var h := Read(l.g, DATA_MAX).0;
    TornMarkQueued(h, f, m);
    PublishedSound(l, Scan(TornMark(h, m)), IsValid(TornMark(h, m)[h.r]));
  }

  lemma StoreNext(l: Life, e: Entry)
    requires Sound(l) && Possible(l, Store(e))
    ensures Sound(Next(l, Store(e)))
  {
    hide Laid, Fifo, InOrder, Append, Guard;
    SoundIsShaped(l);
    StoreQueued(l.g, l.stored[l.acked..], e);
    StoreSound(l, e, Append(l.g, e));
  }

  lemma CrashInStoreNext(l: Life, e: Entry, k: nat)
    requires Sound(l) && Possible(l, CrashInStore(e, k))
    ensures Sound(Next(l, CrashInStore(e, k)))
  {
    hide Laid, Fifo, InOrder, Scan, TornAppend, Append, MakeRoom, Guard, CleanTear, Survives;
    SoundIsShaped(l);
    TornStoreQueued(l.g, l.stored[l.acked..], e, k);
    var h := Scan(TornAppend(l.g, e, k));
    if k < 10 {
      KeptSound(l, h);
    } else {
      StoreSound(l, e, h);
    }
  }

  lemma CrashInHealNext(l: Life, j: nat, m: Bytes)
    requires Sound(l) && Possible(l, CrashInHeal(j, m))
    ensures Sound(Next(l, CrashInHeal(j, m)))
  {
    hide Laid, Fifo, InOrder, Scan, TornMark, Heal, Decodable, Survives;
    SoundIsShaped(l);
    HealQueued(l.g, l.stored[l.acked..], j);
    TornMarkQueued(Heal(l.g, j), l.stored[l.acked..], m);
    KeptSound(l, Scan(TornMark(Heal(l.g, j), m)));
  }

  lemma CrashNext(l: Life)
    requires Sound(l) && Possible(l, Crash)
    ensures Sound(Next(l, Crash))
  {
    hide Laid, Fifo, InOrder, Scan, Survives;
    SoundIsShaped(l);
    CrashQueued(l.g, l.stored[l.acked..]);
    KeptSound(l, Scan(l.g.slots));
  }

  lemma StepSound(l: Life, ev: Event)
    requires Sound(l)
    requires Shape(l.g) && Possible(l, ev)
    ensures Sound(Next(l, ev))
  {
    hide Sound, Next, Possible;
    match ev
    case Store(e) => StoreNext(l, e);
    case Deliver => DeliverNext(l);
    case Refuse => DeliverNext(l);
    case Crash => CrashNext(l);
    case CrashInStore(e, k) => CrashInStoreNext(l, e, k);
    case CrashInHeal(j, m) => CrashInHealNext(l, j, m);
    case CrashInMark(m) => CrashInMarkNext(l, m);
  }

  // ---------- lives ----------

  ghost predicate Lives(l: Life, evs: seq<Event>, l': Life)
    decreases |evs|
  {
    if evs == [] then l' == l
    else Shape(l.g) && Possible(l, evs[0]) && Lives(Next(l, evs[0]), evs[1..], l')
  }

  lemma {:induction false} LivesSound(l: Life, evs: seq<Event>, l': Life)
    requires Sound(l) && Lives(l, evs, l')
    ensures Sound(l')
    decreases |evs|
  {
    hide Sound, Next, Possible;
    if evs != [] {
      StepSound(l, evs[0]);
      LivesSound(Next(l, evs[0]), evs[1..], l');
    }
  }

  ghost function Born(g: Ring): Life {
    Life(g, [], [], 0, 0)
  }

  lemma {:induction false} LogCovers(log: seq<Publish>, stored: seq<Entry>, i: nat)
    requires InOrder(log, stored) && log != [] && i <= log[|log| - 1].index
    ensures exists p :: 0 <= p < |log| && log[p].index == i
  {
    var last := |log| - 1;
    if log[last].index != i {
      assert log[0].index == 0;
      LogCovers(log[..last], stored, i);
      var p :| 0 <= p < last && log[..last][p].index == i;
      assert log[p].index == i;
    }
  }

  lemma ErasedLaid(g: Ring)
    requires Shape(g) && g.r == g.w == g.n == 0 && (forall i | 0 <= i < |g.slots| :: g.slots[i] == Blank())
    ensures Laid(g) && Fifo(g) == []
  {
    assert IsBlank(Blank()) && !IsValid(Blank());
  }

  /** From an erased chip, through any life: no complete entry is lost, each is either still queued or was accepted by
      the broker; the broker sees them in order; and every power loss costs at most one repetition, of the entry at the
      head of the queue. */
  lemma AtLeastOnce(g: Ring, evs: seq<Event>, l: Life)
    requires Shape(g) && g.r == g.w == g.n == 0 && (forall i | 0 <= i < |g.slots| :: g.slots[i] == Blank())
    requires Lives(Born(g), evs, l)
    ensures Shape(l.g) && l.acked <= |l.stored| && Fifo(l.g) == l.stored[l.acked..]
    ensures forall i: nat | i < l.acked ::
              exists p :: 0 <= p < |l.published| && l.published[p] == Publish(i, l.stored[i])
    ensures InOrder(l.published, l.stored)
    ensures |l.published| <= l.acked + l.crashes
  {
    hide Lives, Laid;
    ErasedLaid(g);
    LivesSound(Born(g), evs, l);
    LaidIsShaped(l.g);
    forall i: nat | i < l.acked
      ensures exists p :: 0 <= p < |l.published| && l.published[p] == Publish(i, l.stored[i])
    {
      LogCovers(l.published, l.stored, i);
      var p :| 0 <= p < |l.published| && l.published[p].index == i;
      assert l.published[p] == Publish(i, l.stored[i]);
    }
  }
}
