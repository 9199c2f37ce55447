/** Where the connection task goes: from each place where it waits or is about to dispatch a state, to the next one, by
    what it received. The table below is stated without the statements in between. */
module Trips {
  import opened Types
  import opened Connection

  /** The task is about to dispatch a state, or waits for an event. */
  predicate Resting(pc: Pc) {
    pc == Dispatch || Waiting(pc)
  }

  predicate Waiting(pc: Pc) {
    pc == WifiWait || pc == MqttWait || pc == RunWait
  }

  /** What sends the task off: the dispatch of a state, or what a receive finds at the head of the queue. */
  datatype Cause =
    | Enter(state: State)
    | WifiHears(ev: Option<Event>) | MqttHears(ev: Option<Event>) | RunHears(ev: Option<Event>)

  function Head(queue: seq<Event>): Option<Event> {
    if queue == [] then None else Some(queue[0])
  }

  function CauseOf(s: System): Cause
    requires Resting(s.pc)
  {
    match s.pc
    case WifiWait => WifiHears(Head(s.queue))
    case MqttWait => MqttHears(Head(s.queue))
    case RunWait => RunHears(Head(s.queue))
    case _ => Enter(s.state)
  }

  predicate Dispatches(t: System, state: State) {
    t.pc == Dispatch && t.state == state
  }

  /** There is neither a client nor a queue that it could post to. */
  predicate Unlinked(t: System) {
    !t.online && !t.client && !t.handle
  }

  /** Where each cause brings a task that had created `gen` clients. */
  predicate Arrived(cause: Cause, gen: nat, t: System) {
    match cause
    case Enter(StateInit) =>
      !t.client && if t.ready then Dispatches(t, StateWifiConn) else Dispatches(t, StateInit)
    case Enter(StateWifiConn) =>
      !t.client && t.gen == gen && (Dispatches(t, StateWifiConn) || t.pc == WifiWait)
    case Enter(StateMqttConn) =>
      if t.client then t.pc == MqttWait && t.handle && t.gen == gen + 1
      else Dispatches(t, StateMqttConn) && t.gen == gen
    case Enter(StateRunning) => t.pc == RunWait && t.online && t.client && t.gen == gen
    case WifiHears(ev) =>
      && !t.client && t.gen == gen
      && if ev == Some(WifiConnected) then Dispatches(t, StateMqttConn) else t.pc == WifiWait
    case MqttHears(ev) =>
      if ev.Some? && ev.value.MqttConnected? then
        Dispatches(t, StateRunning) && t.online && t.client && t.gen == gen
      else if ev == Some(WifiDisconnected) then Dispatches(t, StateWifiConn) && Unlinked(t) && t.gen == gen
      else t.pc == MqttWait && t.handle && t.gen == if t.client then gen + 1 else gen
    case RunHears(ev) =>
      && t.gen == gen
      && if ev == Some(WifiDisconnected) then Dispatches(t, StateWifiConn) && Unlinked(t)
         else if ev.Some? && ev.value.MqttDisconnected? then Dispatches(t, StateMqttConn) && Unlinked(t)
         else t.pc == RunWait && t.online && t.client
  }

  // ---------- on the way ----------

  predicate RetryAt(pc: Pc) {
    match pc
    case StopQueue(Again) | StopClient(Again) | MqttDrain => true
    case StartCheck(caller) => caller == Retry
    case StartQueue(caller) => caller == Retry
    case StartClient(caller) => caller == Retry
    case _ => false
  }

  predicate EntryAt(pc: Pc) {
    match pc
    case StartCheck(caller) => caller == Entry
    case StartQueue(caller) => caller == Entry
    case StartClient(caller) => caller == Entry
    case _ => false
  }

  predicate LeavingAt(pc: Pc, to: State) {
    match pc
    case RunLost(x) => x == to
    case StopQueue(after) => after == Leave(to)
    case StopClient(after) => after == Leave(to)
    case RunDrain(x) => x == to
    case RunLeave(x) => x == to
    case _ => false
  }

  predicate FallingAt(pc: Pc) {
    pc == StopQueue(Fallback) || pc == StopClient(Fallback) || pc == MqttLost
  }

  predicate RestartingAt(pc: Pc) {
    pc.WifiDrain? || pc.WifiStop? || pc.WifiDrainAgain? || pc.WifiRestart?
  }

  /** The statements between. */
  predicate OnTheWay(cause: Cause, pc: Pc) {
    match cause
    case Enter(StateInit) => pc.InitWifi? || pc.InitDone?
    case Enter(StateWifiConn) => pc.WifiStart?
    case Enter(StateMqttConn) => EntryAt(pc)
    case Enter(StateRunning) => false
    case WifiHears(ev) => if ev == Some(WifiConnected) then pc.WifiUp? else RestartingAt(pc)
    case MqttHears(ev) =>
      if ev.Some? && ev.value.MqttConnected? then pc.MqttUp? || pc.MqttOnline?
      else if ev == Some(WifiDisconnected) then FallingAt(pc)
      else RetryAt(pc)
    case RunHears(ev) =>
      if ev == Some(WifiDisconnected) then LeavingAt(pc, StateWifiConn)
      else if ev.Some? && ev.value.MqttDisconnected? then LeavingAt(pc, StateMqttConn)
      else false
  }

  /** Where the client's queue handle has been cleared, and where it has been set. */
  predicate HandleOk(s: System) {
    match s.pc
    case StopClient(_) | MqttLost | RunDrain(_) | RunLeave(_) => !s.handle
    case StartClient(_) => s.handle
    case _ => true
  }

  ghost predicate InTransit(cause: Cause, gen: nat, s: System) {
    OnTheWay(cause, s.pc) && s.gen == gen && HandleOk(s) && (s.pc.InitDone? ==> s.ready)
  }

  ghost predicate Underway(cause: Cause, gen: nat, s: System) {
    InTransit(cause, gen, s) || Arrived(cause, gen, s)
  }

  // ---------- one act ----------

  lemma EnterDeparts(s: System, ok: bool)
    requires Control(s) && s.pc == Dispatch
    ensures Underway(Enter(s.state), s.gen, Call(s, ok))
  {
  }

  lemma WaitDeparts(s: System)
    requires Control(s) && Drained(s) && Waiting(s.pc)
    ensures Underway(CauseOf(s), s.gen, Receive(s))
  {
  }

  lemma Departs(s: System, ok: bool)
    requires Inv(s) && Resting(s.pc)
    ensures Underway(CauseOf(s), s.gen, Step(s, ok))
  {
    hide Underway, Control, Drained, Call, Receive;
    if s.pc == Dispatch {
      EnterDeparts(s, ok);
    } else {
      WaitDeparts(s);
    }
  }

  lemma ReceiveGoesOn(cause: Cause, gen: nat, s: System)
    requires Control(s) && InTransit(cause, gen, s) && Receives(s.pc)
    ensures Underway(cause, gen, Receive(s))
  {
  }

  lemma ClientGoesOn(cause: Cause, gen: nat, s: System, ok: bool)
    requires Control(s) && InTransit(cause, gen, s) && InClient(s.pc)
    ensures Underway(cause, gen, ClientCall(s, ok))
  {
  }

  lemma PlainGoesOn(cause: Cause, gen: nat, s: System, ok: bool)
    requires Control(s) && InTransit(cause, gen, s) && !Receives(s.pc) && !InClient(s.pc)
    ensures Underway(cause, gen, PlainCall(s, ok))
  {
  }

  lemma PostGoesOn(cause: Cause, gen: nat, s: System, a: Act)
    requires InTransit(cause, gen, s) && !a.Go?
    ensures InTransit(cause, gen, Next(s, a))
  {
    hide Step, OnTheWay, Send;
  }

  lemma GoesOn(cause: Cause, gen: nat, s: System, a: Act)
    requires Inv(s) && InTransit(cause, gen, s)
    ensures Underway(cause, gen, Next(s, a))
  {
    hide InTransit, Arrived, Control, Drained, Receives, InClient, ClientCall, PlainCall, Receive;
    if !a.Go? {
      PostGoesOn(cause, gen, s, a);
    } else if Receives(s.pc) {
      ReceiveGoesOn(cause, gen, s);
    } else if InClient(s.pc) {
      ClientGoesOn(cause, gen, s, a.ok);
    } else {
      PlainGoesOn(cause, gen, s, a.ok);
    }
  }

  lemma NotResting(cause: Cause, gen: nat, s: System)
    requires InTransit(cause, gen, s)
    ensures !Resting(s.pc)
  {
  }

  lemma ArrivedRests(cause: Cause, gen: nat, s: System)
    requires Arrived(cause, gen, s)
    ensures Resting(s.pc)
  {
  }

  // ---------- whole runs ----------

  function At(acts: seq<Act>, k: nat): System
    requires k <= |acts|
  {
    Run(acts[..k])
  }

  lemma AtNext(acts: seq<Act>, k: nat)
    requires k < |acts|
    ensures At(acts, k + 1) == Next(At(acts, k), acts[k])
    ensures Inv(At(acts, k))
  {
    hide Run, Next, Inv;
    assert acts[..k + 1] == acts[..k] + [acts[k]];
    Extend(acts[..k], acts[k]);
    RunInv(acts[..k]);
  }

  /** The task leaves a resting place with act `i`, and rests at no place between. */
  ghost predicate Leg(acts: seq<Act>, i: nat, j: nat) {
    && i < j <= |acts|
    && Resting(At(acts, i).pc) && acts[i].Go?
    && forall k: nat | i < k < j :: !Resting(At(acts, k).pc)
  }

  lemma {:induction false} LegGoesOn(acts: seq<Act>, i: nat, j: nat)
    requires Leg(acts, i, j)
    ensures Underway(CauseOf(At(acts, i)), At(acts, i).gen, At(acts, j))
    decreases j
  {
    hide At, Next, Inv, InTransit, Arrived, CauseOf, Resting;
    AtNext(acts, j - 1);
    if i + 1 == j {
      StepIs(At(acts, i), acts[i]);
      Departs(At(acts, i), acts[i].ok);
    } else {
      LegGoesOn(acts, i, j - 1);
      if Arrived(CauseOf(At(acts, i)), At(acts, i).gen, At(acts, j - 1)) {
        ArrivedRests(CauseOf(At(acts, i)), At(acts, i).gen, At(acts, j - 1));
      }
      GoesOn(CauseOf(At(acts, i)), At(acts, i).gen, At(acts, j - 1), acts[j - 1]);
    }
  }

  lemma StepIs(s: System, a: Act)
    requires a.Go?
    ensures Next(s, a) == Step(s, a.ok)
  {
    hide Step;
  }

  /** Whatever the handlers post on the way: the next resting place and its variables are those that the table gives for
      what the task dispatched, or found at the head of its queue, when it left. */
  lemma LegEnds(acts: seq<Act>, i: nat, j: nat)
    requires Leg(acts, i, j) && Resting(At(acts, j).pc)
    ensures Arrived(CauseOf(At(acts, i)), At(acts, i).gen, At(acts, j))
  {
    hide At, InTransit, Arrived, CauseOf, Resting;
    LegGoesOn(acts, i, j);
    if InTransit(CauseOf(At(acts, i)), At(acts, i).gen, At(acts, j)) {
      NotResting(CauseOf(At(acts, i)), At(acts, i).gen, At(acts, j));
    }
  }

  /** Whether the start of the WiFi driver succeeds decides between waiting for it and another turn of the state. */
  lemma WifiStartDecides(acts: seq<Act>, i: nat, j: nat)
    requires Leg(acts, i, j) && Dispatches(At(acts, i), StateWifiConn) && Resting(At(acts, j).pc)
    ensures acts[j - 1].Go? && (At(acts, j).pc == WifiWait <==> acts[j - 1].ok)
  {
    hide At, Next, Inv, Leg, Arrived;
    LegStarts(acts, i, j);
    AtNext(acts, j - 1);
    StartLeaves(At(acts, j - 1), acts[j - 1]);
  }

  lemma LegStarts(acts: seq<Act>, i: nat, j: nat)
    requires Leg(acts, i, j) && Dispatches(At(acts, i), StateWifiConn) && Resting(At(acts, j).pc)
    ensures 0 < j <= |acts| && At(acts, j - 1).pc == WifiStart
  {
    hide At, Next, Inv, Arrived;
    AtNext(acts, i);
    StartsWifi(At(acts, i), acts[i]);
    if i + 1 < j {
      LegGoesOn(acts, i, j - 1);
      if Arrived(CauseOf(At(acts, i)), At(acts, i).gen, At(acts, j - 1)) {
        ArrivedRests(CauseOf(At(acts, i)), At(acts, i).gen, At(acts, j - 1));
      }
    }
  }

  lemma StartsWifi(s: System, a: Act)
    requires Dispatches(s, StateWifiConn) && a.Go?
    ensures Next(s, a).pc == WifiStart
  {
  }

  lemma StartLeaves(s: System, a: Act)
    requires s.pc == WifiStart
    ensures Resting(Next(s, a).pc) ==> a.Go? && (Next(s, a).pc == WifiWait <==> a.ok)
  {
  }

  predicate BehindDrain(pc: Pc) {
    pc.WifiRestart? || pc.RunLeave? || pc == StartCheck(Retry)
  }

  lemma ClientNotBehind(s: System, ok: bool)
    requires InClient(s.pc)
    ensures !BehindDrain(ClientCall(s, ok).pc)
  {
  }

  lemma PlainNotBehind(s: System, ok: bool)
    requires !Receives(s.pc) && !InClient(s.pc)
    ensures !BehindDrain(PlainCall(s, ok).pc)
  {
  }

  lemma ReceiveDrained(s: System)
    requires Receives(s.pc)
    ensures BehindDrain(Receive(s).pc) ==> Receive(s).queue == []
  {
  }

  /** WiFi is restarted, a client retried and RUNNING left only behind a queue that has just been found empty. */
  lemma RestartsDrained(s: System, a: Act)
    requires Next(s, a).pc != s.pc && BehindDrain(Next(s, a).pc)
    ensures Next(s, a).queue == []
  {
    hide Receives, InClient, Receive, ClientCall, PlainCall, BehindDrain;
    if !a.Go? {
      PostStays(s, a);
    } else if Receives(s.pc) {
      ReceiveDrained(s);
    } else if InClient(s.pc) {
      ClientNotBehind(s, a.ok);
    } else {
      PlainNotBehind(s, a.ok);
    }
  }

  /** The task stays where it waits, or is back after the trips it made: no dispatch in between. */
  ghost predicate NoDispatch(acts: seq<Act>, i: nat, j: nat) {
    i <= j <= |acts| && forall k: nat | i <= k < j :: At(acts, k).pc != Dispatch
  }

  ghost predicate Left(acts: seq<Act>, i: nat, m: nat, j: nat) {
    && i <= m < j <= |acts| && Leg(acts, m, j)
    && At(acts, m).pc == At(acts, i).pc
  }

  /** In every continuation without a dispatch the task waits at the same place or is on a leg from there. */
  lemma {:induction false} StaysOrLeft(acts: seq<Act>, i: nat, j: nat) returns (m: nat)
    requires NoDispatch(acts, i, j) && Waiting(At(acts, i).pc)
    ensures At(acts, j).pc == At(acts, i).pc || Left(acts, i, m, j)
    decreases j
  {
    hide At, Next, Inv;
    if i == j {
      m := i;
    } else {
      m := StaysOrLeft(acts, i, j - 1);
      AtNext(acts, j - 1);
      if At(acts, j - 1).pc == At(acts, i).pc {
        m := j - 1;
        if !acts[j - 1].Go? {
          PostStays(At(acts, j - 1), acts[j - 1]);
        }
      } else {
        LegStays(acts, i, m, j - 1);
      }
    }
  }

  lemma PostStays(s: System, a: Act)
    requires !a.Go?
    ensures Next(s, a).pc == s.pc
  {
    hide Step, Send;
  }

  lemma LegStays(acts: seq<Act>, i: nat, m: nat, j: nat)
    requires Left(acts, i, m, j) && Waiting(At(acts, i).pc)
    requires j < |acts| && At(acts, j).pc != Dispatch && At(acts, j).pc != At(acts, i).pc
    ensures Left(acts, i, m, j + 1)
  {
    hide At, Inv, Next;
    if Resting(At(acts, j).pc) {
      hide Arrived;
      LegEnds(acts, m, j);
      BackOrDispatch(At(acts, m), At(acts, m).gen, At(acts, j));
    }
  }

  lemma BackOrDispatch(s: System, gen: nat, t: System)
    requires Waiting(s.pc) && Arrived(CauseOf(s), gen, t)
    ensures t.pc == s.pc || t.pc == Dispatch
  {
  }

  /** What makes a wait end, and where the task goes from there. */
  predicate EndsWait(pc: Pc, ev: Option<Event>, t: System) {
    && ev.Some?
    && match pc
       case WifiWait => ev.value == WifiConnected && t.state == StateMqttConn && !t.client
       case MqttWait =>
         || (ev.value.MqttConnected? && t.state == StateRunning && t.online && t.client)
         || (ev.value == WifiDisconnected && t.state == StateWifiConn && Unlinked(t))
       case RunWait =>
         || (ev.value == WifiDisconnected && t.state == StateWifiConn && Unlinked(t))
         || (ev.value.MqttDisconnected? && t.state == StateMqttConn && Unlinked(t))
       case _ => false
  }

  lemma EndsAsTold(s: System, gen: nat, t: System)
    requires Waiting(s.pc) && Arrived(CauseOf(s), gen, t) && t.pc == Dispatch
    ensures EndsWait(s.pc, Head(s.queue), t)
  {
  }

  /** Every continuation of a run that waits, up to the next dispatch, posts, drops, timeouts and failed restarts
      included: the wait was ended by the receipt `m` of an event that ends it, and that event decides which state is
      dispatched. WIFI_CONN ends with a connection and goes to MQTT_CONN; MQTT_CONN ends with a connection and goes to
      RUNNING, or with the loss of WiFi and goes to WIFI_CONN; RUNNING ends with the loss of WiFi and goes to WIFI_CONN,
      or with that of MQTT and goes to MQTT_CONN; and nothing else ends any of them. */
  lemma WaitEnds(acts: seq<Act>, i: nat, j: nat) returns (m: nat)
    requires i < j && NoDispatch(acts, i, j) && Waiting(At(acts, i).pc) && At(acts, j).pc == Dispatch
    ensures i <= m < j && At(acts, m).pc == At(acts, i).pc && acts[m].Go?
    ensures EndsWait(At(acts, i).pc, Head(At(acts, m).queue), At(acts, j))
  {
    hide At, Arrived, Head, EndsWait;
    m := StaysOrLeft(acts, i, j);
    LegEnds(acts, m, j);
    EndsAsTold(At(acts, m), At(acts, m).gen, At(acts, j));
  }

  // ---------- what the handlers post ----------

  /** A post appends its event while fewer than ten are waiting, and is dropped otherwise. */
  lemma PostsAreQueued(s: System, up: bool)
    ensures var ev := if up then WifiConnected else WifiDisconnected;
            Next(s, PostWifi(up)) == if s.ready && |s.queue| < 10 then s.(queue := s.queue + [ev]) else s
    ensures var ev := if up then MqttConnected(s.gen) else MqttDisconnected(s.gen);
            Next(s, PostMqtt(up))
            == if s.client && s.handle && |s.queue| < 10 then s.(queue := s.queue + [ev]) else s
  {
    hide Step;
  }
}
