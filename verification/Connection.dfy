/** main/app/state_machine.c with the client and queue handles of main/protocol/mqtt_app.c: the task as a machine of
    micro-steps, interleaved with the WiFi and MQTT handlers that post to its event queue.

    A micro-step is one access to what the tasks share. A handler's post is one atomic step. */
module Connection {
  import opened Types

  const EVT_QUEUE_DEPTH: nat := 10

  /** An MQTT event remembers which client posted it; the program cannot see that. */
  datatype Event = WifiConnected | WifiDisconnected | MqttConnected(gen: nat) | MqttDisconnected(gen: nat)

  datatype State = StateInit | StateWifiConn | StateMqttConn | StateRunning

  /** Where `mqtt_app_start` was called: on entry, or in the wait loop. */
  datatype Caller = Entry | Retry

  /** What follows `mqtt_app_stop`. */
  datatype After = Fallback | Again | Leave(to: State) | Restart(caller: Caller)

  /** The next statement of the task. */
  datatype Pc =
    | Dispatch
    | InitWifi | InitDone
    | WifiStart | WifiWait | WifiUp | WifiDrain | WifiStop | WifiDrainAgain | WifiRestart
    | StartCheck(caller: Caller) | StartQueue(caller: Caller) | StartClient(caller: Caller)
    | StopQueue(after: After) | StopClient(after: After)
    | MqttWait | MqttUp(gen: nat) | MqttOnline | MqttLost | MqttDrain
    | RunWait | RunLost(to: State) | RunDrain(to: State) | RunLeave(to: State)

  /** `client` and `handle` are whether `s_client` and `s_sys_event_queue` are set, `ready` whether the WiFi driver has
      the queue, and `gen` the number of clients created. */
  datatype System = System(pc: Pc, state: State, queue: seq<Event>, ready: bool,
                           client: bool, gen: nat, handle: bool, online: bool)

  /** Posts by the handlers, or the task's next micro-step, with the outcome of the call in it. */
  datatype Act = PostWifi(up: bool) | PostMqtt(up: bool) | Go(ok: bool)

  function Boot(): System {
    System(Dispatch, StateInit, [], false, false, 0, false, false)
  }

  /** `xQueueSend` without waiting: an event that finds the queue full is dropped. */
  function Send(queue: seq<Event>, ev: Event): seq<Event> {
    if |queue| < EVT_QUEUE_DEPTH then queue + [ev] else queue
  }

  predicate Receives(pc: Pc) {
    || pc.WifiWait? || pc.WifiDrain? || pc.WifiDrainAgain?
    || pc.MqttWait? || pc.MqttDrain? || pc.RunWait? || pc.RunDrain?
  }

  /** Where a receive leads; None is an empty queue. */
  function AfterReceive(pc: Pc, ev: Option<Event>): Pc
    requires Receives(pc)
  {
    match pc
    case WifiWait => if ev.None? then WifiStop else if ev.value.WifiConnected? then WifiUp else WifiDrain
    case WifiDrain => if ev.None? then WifiStop else pc
    case WifiDrainAgain => if ev.None? then WifiRestart else pc
    case MqttWait =>
      if ev.Some? && ev.value.MqttConnected? then MqttUp(ev.value.gen)
      else if ev.Some? && ev.value.WifiDisconnected? then StopQueue(Fallback)
      else StopQueue(Again)
    case MqttDrain => if ev.None? then StartCheck(Retry) else pc
    case RunWait =>
      if ev.Some? && ev.value.WifiDisconnected? then RunLost(StateWifiConn)
      else if ev.Some? && ev.value.MqttDisconnected? then RunLost(StateMqttConn)
      else pc
    case RunDrain(to) => if ev.None? then RunLeave(to) else pc
  }

  function AfterStop(after: After): Pc {
    match after
    case Fallback => MqttLost
    case Again => MqttDrain
    case Leave(to) => RunDrain(to)
    case Restart(caller) => StartQueue(caller)
  }

  function AfterDispatch(state: State): Pc {
    match state
    case StateInit => InitWifi
    case StateWifiConn => WifiStart
    case StateMqttConn => StartCheck(Entry)
    case StateRunning => RunWait
  }

  /** A receive from the event queue. */
  function Receive(s: System): System
    requires Receives(s.pc)
  {
    if s.queue == [] then s.(pc := AfterReceive(s.pc, None))
    else s.(pc := AfterReceive(s.pc, Some(s.queue[0])), queue := s.queue[1..])
  }

  /** The statements of main/protocol/mqtt_app.c. */
  predicate InClient(pc: Pc) {
    pc.StartCheck? || pc.StartQueue? || pc.StartClient? || pc.StopQueue? || pc.StopClient?
  }

  function ClientCall(s: System, ok: bool): System
    requires InClient(s.pc)
  {
    match s.pc
    case StartCheck(caller) => s.(pc := if s.client then StopQueue(Restart(caller)) else StartQueue(caller))
    case StartQueue(caller) => s.(handle := true, pc := StartClient(caller))
    case StartClient(caller) =>
      if ok then s.(client := true, gen := s.gen + 1, pc := MqttWait)
      else s.(pc := if caller == Entry then Dispatch else MqttWait)
    case StopQueue(after) => s.(handle := false, pc := StopClient(after))
    case StopClient(after) => s.(client := false, pc := AfterStop(after))
  }

  function PlainCall(s: System, ok: bool): System
    requires !Receives(s.pc) && !InClient(s.pc)
  {
    match s.pc
    case Dispatch => s.(pc := AfterDispatch(s.state))
    case InitWifi => if ok then s.(ready := true, pc := InitDone) else Boot()
    case InitDone => s.(state := StateWifiConn, pc := Dispatch)
    case WifiStart => s.(pc := if ok then WifiWait else Dispatch)
    case WifiUp => s.(state := StateMqttConn, pc := Dispatch)
    case WifiStop => s.(pc := WifiDrainAgain)
    case WifiRestart => s.(pc := WifiWait)
    case MqttUp(_) => s.(online := true, pc := MqttOnline)
    case MqttOnline => s.(state := StateRunning, pc := Dispatch)
    case MqttLost => s.(state := StateWifiConn, pc := Dispatch)
    case RunLost(to) => s.(online := false, pc := StopQueue(Leave(to)))
    case RunLeave(to) => s.(state := to, pc := Dispatch)
  }

  /** Any other statement than a receive. */
  function Call(s: System, ok: bool): System
    requires !Receives(s.pc)
  {
    if InClient(s.pc) then ClientCall(s, ok) else PlainCall(s, ok)
  }

  function Step(s: System, ok: bool): System {
    if Receives(s.pc) then Receive(s) else Call(s, ok)
  }

  function Next(s: System, a: Act): System {
    match a
    case PostWifi(up) =>
      if s.ready then s.(queue := Send(s.queue, if up then WifiConnected else WifiDisconnected)) else s
    case PostMqtt(up) =>
      if s.client && s.handle then
        s.(queue := Send(s.queue, if up then MqttConnected(s.gen) else MqttDisconnected(s.gen)))
      else s
    case Go(ok) => Step(s, ok)
  }

  function Run(acts: seq<Act>): System {
    if acts == [] then Boot() else Next(Run(acts[..|acts| - 1]), acts[|acts| - 1])
  }

  // ---------- safety ----------

  predicate IsMqtt(ev: Event) {
    ev.MqttConnected? || ev.MqttDisconnected?
  }

  ghost predicate NoMqtt(queue: seq<Event>) {
    forall i | 0 <= i < |queue| :: !IsMqtt(queue[i])
  }

  /** The state variable at each statement; None where it decides the statement. */
  function StateAt(pc: Pc): Option<State> {
    match pc
    case Dispatch => None
    case InitWifi | InitDone => Some(StateInit)
    case WifiStart | WifiWait | WifiUp | WifiDrain | WifiStop | WifiDrainAgain | WifiRestart => Some(StateWifiConn)
    case RunWait | RunLost(_) | RunDrain(_) | RunLeave(_) => Some(StateRunning)
    case StopQueue(after) => Some(if after.Leave? then StateRunning else StateMqttConn)
    case StopClient(after) => Some(if after.Leave? then StateRunning else StateMqttConn)
    case _ => Some(StateMqttConn)
  }

  predicate OnlineAt(pc: Pc, state: State) {
    match pc
    case Dispatch => state == StateRunning
    case MqttOnline | RunWait | RunLost(_) => true
    case _ => false
  }

  /** Where a client is certain to exist, and where none does. */
  predicate ClientAt(pc: Pc, state: State) {
    OnlineAt(pc, state) || pc.MqttUp?
  }

  predicate NoClientAt(pc: Pc, state: State) {
    match pc
    case Dispatch => state != StateRunning
    case MqttOnline | RunWait | RunLost(_) | MqttUp(_) | MqttWait | StopQueue(_) | StopClient(_) => false
    case _ => true
  }

  predicate RestartAt(pc: Pc) {
    (pc.StopQueue? || pc.StopClient?) && pc.after.Restart?
  }

  predicate LeavesTo(pc: Pc) {
    match pc
    case RunLost(to) => to == StateWifiConn || to == StateMqttConn
    case RunDrain(to) => to == StateWifiConn || to == StateMqttConn
    case RunLeave(to) => to == StateWifiConn || to == StateMqttConn
    case StopQueue(after) => after.Leave? ==> after.to == StateWifiConn || after.to == StateMqttConn
    case StopClient(after) => after.Leave? ==> after.to == StateWifiConn || after.to == StateMqttConn
    case _ => true
  }

  /** In a retry, the queue has been drained and no client can have posted since. */
  predicate DrainedAt(pc: Pc) {
    (pc.StartCheck? || pc.StartQueue? || pc.StartClient?) && pc.caller == Retry
  }

  /** The variables at each statement. */
  ghost predicate Control(s: System) {
    && (StateAt(s.pc).Some? ==> StateAt(s.pc).value == s.state)
    && (s.online <==> OnlineAt(s.pc, s.state))
    && (ClientAt(s.pc, s.state) ==> s.client)
    && (NoClientAt(s.pc, s.state) ==> !s.client)
    && !RestartAt(s.pc) && LeavesTo(s.pc)
  }

  ghost predicate Drained(s: System) {
    DrainedAt(s.pc) || (s.pc == MqttWait && !s.client) ==> NoMqtt(s.queue)
  }

  ghost predicate Inv(s: System) {
    Control(s) && Drained(s) && |s.queue| <= EVT_QUEUE_DEPTH
  }

  lemma ReceiveInv(s: System)
    requires Inv(s) && Receives(s.pc)
    ensures Inv(Receive(s))
  {
  }

  lemma ClientControl(s: System, ok: bool)
    requires Control(s) && InClient(s.pc)
    ensures Control(ClientCall(s, ok))
  {
  }

  lemma PlainControl(s: System, ok: bool)
    requires Control(s) && !Receives(s.pc) && !InClient(s.pc)
    ensures Control(PlainCall(s, ok))
  {
  }

  lemma CallControl(s: System, ok: bool)
    requires Control(s) && !Receives(s.pc)
    ensures Control(Call(s, ok))
  {
    hide Control, ClientCall, PlainCall, Receives, InClient;
    if InClient(s.pc) {
      ClientControl(s, ok);
    } else {
      PlainControl(s, ok);
    }
  }

  lemma CallQueue(s: System, ok: bool)
    requires !Receives(s.pc)
    ensures Call(s, ok).queue == if s.pc.InitWifi? && !ok then [] else s.queue
  {
    hide AfterStop, AfterDispatch;
  }

  lemma PlainDrained(s: System, ok: bool)
    requires !Receives(s.pc) && !InClient(s.pc)
    ensures !DrainedAt(PlainCall(s, ok).pc)
  {
  }

  lemma ClientDrained(s: System, ok: bool)
    requires InClient(s.pc) && !RestartAt(s.pc) && DrainedAt(ClientCall(s, ok).pc)
    ensures DrainedAt(s.pc)
  {
  }

  lemma CallDrained(s: System, ok: bool)
    requires !Receives(s.pc) && !RestartAt(s.pc) && DrainedAt(Call(s, ok).pc)
    ensures DrainedAt(s.pc)
  {
    hide ClientCall, PlainCall, Receives, InClient, DrainedAt, RestartAt;
    if InClient(s.pc) {
      ClientDrained(s, ok);
    } else {
      PlainDrained(s, ok);
    }
  }

  lemma CallWaits(s: System, ok: bool)
    requires Control(s) && !Receives(s.pc)
    ensures var t := Call(s, ok); t.pc == MqttWait && !t.client ==> DrainedAt(s.pc)
  {
  }

  lemma CallInv(s: System, ok: bool)
    requires Inv(s) && !Receives(s.pc)
    ensures Inv(Call(s, ok))
  {
    hide Control, Call, Receives, DrainedAt;
    CallControl(s, ok);
    CallQueue(s, ok);
    CallWaits(s, ok);
    if DrainedAt(Call(s, ok).pc) {
      NoRestart(s);
      CallDrained(s, ok);
    }
  }

  lemma NoRestart(s: System)
    requires Control(s)
    ensures !RestartAt(s.pc)
  {
  }

  lemma PostInv(s: System, a: Act)
    requires Inv(s) && !a.Go?
    ensures Inv(Next(s, a))
  {
    hide Step, OnlineAt, LeavesTo, StateAt;
  }

  lemma NextInv(s: System, a: Act)
    requires Inv(s)
    ensures Inv(Next(s, a))
  {
    hide Inv, Receive, Call;
    match a
    case Go(ok) =>
      if Receives(s.pc) {
        ReceiveInv(s);
      } else {
        CallInv(s, ok);
      }
    case _ => PostInv(s, a);
  }

  lemma {:induction false} RunInv(acts: seq<Act>)
    ensures Inv(Run(acts))
    decreases |acts|
  {
    if acts != [] {
      RunInv(acts[..|acts| - 1]);
      NextInv(Run(acts[..|acts| - 1]), acts[|acts| - 1]);
    }
  }

  /** After every micro-step of every interleaving: the cache is told it is online only while an MQTT client exists; at
      each dispatch it is told so exactly in RUNNING; there is no client in WIFI_CONN; an MQTT wait loop without a
      client has no MQTT event to receive; and `mqtt_app_start` never finds an old client. */
  lemma ConnectionSafety(acts: seq<Act>)
    ensures var s := Run(acts);
            && (s.online ==> s.client)
            && (s.pc == Dispatch ==> (s.online <==> s.state == StateRunning))
            && (s.state == StateWifiConn ==> !s.client)
            && (s.pc == MqttWait && !s.client ==> NoMqtt(s.queue))
            && (s.pc.StartCheck? ==> !s.client)
            && |s.queue| <= 10
  {
    RunInv(acts);
  }

  // ---------- whose connection it is ----------

  /** The connect event that brings the task to RUNNING was posted by the client that exists. */
  ghost predicate Genuine(s: System) {
    s.pc.MqttUp? ==> s.pc.gen == s.gen
  }

  ghost predicate AllOwn(queue: seq<Event>, gen: nat) {
    forall i | 0 <= i < |queue| :: queue[i].MqttConnected? ==> queue[i].gen == gen
  }

  /** The first event waiting is not a connect event. */
  predicate HeadOk(queue: seq<Event>) {
    queue != [] ==> !queue[0].MqttConnected?
  }

  /** The places between an earlier client and the next one's wait loop. */
  predicate Starting(s: System) {
    match s.pc
    case Dispatch => s.state == StateMqttConn
    case StartCheck(_) | StartQueue(_) | StartClient(_) | RunLeave(_) => true
    case _ => false
  }

  /** Connect events of earlier clients are behind one that makes the task drain the queue or fall back. */
  ghost predicate Fresh(s: System) {
    && Genuine(s)
    && (Starting(s) ==> NoMqtt(s.queue) || (s.queue != [] && HeadOk(s.queue)))
    && (s.pc == MqttWait ==> AllOwn(s.queue, s.gen) || (s.queue != [] && HeadOk(s.queue)))
  }

  lemma PostFresh(s: System, a: Act)
    requires Control(s) && Fresh(s) && !a.Go?
    ensures Fresh(Next(s, a))
  {
    hide Step, OnlineAt, LeavesTo, StateAt;
  }

  lemma ReceiveFresh(s: System)
    requires Fresh(s) && Receives(s.pc)
    ensures Fresh(Receive(s))
  {
  }

  lemma ClientStarts(s: System, ok: bool)
    requires InClient(s.pc) && !RestartAt(s.pc)
    ensures var t := ClientCall(s, ok); (Starting(t) || t.pc == MqttWait ==> Starting(s)) && !t.pc.MqttUp?
  {
  }

  lemma PlainStarts(s: System, ok: bool)
    requires Control(s) && !Receives(s.pc) && !InClient(s.pc)
    ensures var t := PlainCall(s, ok);
            (Starting(t) || t.pc == MqttWait ==> Starting(s) || s.pc == WifiUp) && !t.pc.MqttUp?
  {
    hide OnlineAt, ClientAt, NoClientAt, RestartAt;
  }

  lemma CallStarts(s: System, ok: bool)
    requires Control(s) && !Receives(s.pc)
    ensures var t := Call(s, ok); Starting(t) || t.pc == MqttWait ==> Starting(s) || s.pc == WifiUp
    ensures !Call(s, ok).pc.MqttUp?
  {
    hide Control, ClientCall, PlainCall, Receives, InClient, Starting, RestartAt;
    NoRestart(s);
    if InClient(s.pc) {
      ClientStarts(s, ok);
    } else {
      PlainStarts(s, ok);
    }
  }

  lemma CallFresh(s: System, ok: bool)
    requires Control(s) && Fresh(s) && !Receives(s.pc)
    requires s.pc == WifiUp ==> HeadOk(s.queue)
    ensures Fresh(Call(s, ok))
  {
    hide Control, Call, Receives, Starting;
    CallQueue(s, ok);
    CallStarts(s, ok);
  }

  lemma NextFresh(s: System, a: Act)
    requires Control(s) && Fresh(s)
    requires s.pc == WifiUp && a.Go? ==> HeadOk(s.queue)
    ensures Fresh(Next(s, a))
  {
    hide Control, Fresh, Receive, Call, HeadOk;
    match a
    case Go(ok) =>
      if Receives(s.pc) {
        ReceiveFresh(s);
      } else {
        CallFresh(s, ok);
      }
    case _ => PostFresh(s, a);
  }

  /** Whenever WIFI_CONN is left, no connect event is at the head of the queue. */
  ghost predicate CleanRun(acts: seq<Act>) {
    forall i | 0 <= i < |acts| && acts[i].Go? && Run(acts[..i]).pc == WifiUp :: HeadOk(Run(acts[..i]).queue)
  }

  lemma {:induction false} CleanRunFresh(acts: seq<Act>)
    requires CleanRun(acts)
    ensures Fresh(Run(acts))
    decreases |acts|
  {
    hide Fresh, Next, HeadOk;
    if acts == [] {
      BootFresh();
    } else {
      var before := acts[..|acts| - 1];
      forall i | 0 <= i < |before| && before[i].Go? && Run(before[..i]).pc == WifiUp
        ensures HeadOk(Run(before[..i]).queue)
      {
        assert before[..i] == acts[..i];
      }
      CleanRunFresh(before);
      RunInv(before);
      NextFresh(Run(before), acts[|acts| - 1]);
    }
  }

  lemma BootFresh()
    ensures Fresh(Boot())
  {
  }

  /** If no connect event is at the head of the queue whenever WIFI_CONN is left, then whenever the task goes to RUNNING
      the client that exists has reported its connection. */
  lemma CleanRunsAreGenuine(acts: seq<Act>)
    requires CleanRun(acts)
    ensures Genuine(Run(acts))
  {
    CleanRunFresh(acts);
  }

  ghost predicate NoneFromLater(queue: seq<Event>, gen: nat) {
    forall i | 0 <= i < |queue| :: queue[i].MqttConnected? ==> queue[i].gen <= gen
  }

  lemma CallGen(s: System, ok: bool)
    requires !Receives(s.pc)
    ensures Call(s, ok).gen >= s.gen || Call(s, ok).queue == []
  {
    hide AfterStop, AfterDispatch;
  }

  lemma NextFromPast(s: System, a: Act)
    requires NoneFromLater(s.queue, s.gen)
    ensures NoneFromLater(Next(s, a).queue, Next(s, a).gen)
  {
    hide Call, AfterReceive, Receives;
    if a.Go? && !Receives(s.pc) {
      CallGen(s, a.ok);
      CallQueue(s, a.ok);
    }
  }

  lemma {:induction false} EventsFromPast(acts: seq<Act>)
    ensures NoneFromLater(Run(acts).queue, Run(acts).gen)
    decreases |acts|
  {
    hide Next;
    if acts != [] {
      EventsFromPast(acts[..|acts| - 1]);
      NextFromPast(Run(acts[..|acts| - 1]), acts[|acts| - 1]);
    }
  }

  function Goes(s: System, n: nat): System
    decreases n
  {
    if n == 0 then s else Step(Goes(s, n - 1), true)
  }

  lemma TwoSteps(s: System)
    requires s.pc == WifiUp
    ensures Goes(s, 2) == s.(pc := StartCheck(Entry), state := StateMqttConn)
  {
    assert Goes(s, 1) == s.(pc := Dispatch, state := StateMqttConn);
  }

  lemma ThreeSteps(s: System)
    requires s.pc == StartCheck(Entry) && !s.client
    ensures Goes(s, 3) == s.(pc := MqttWait, client := true, gen := s.gen + 1, handle := true)
  {
    assert Goes(s, 1) == s.(pc := StartQueue(Entry));
    assert Goes(s, 2) == s.(pc := StartClient(Entry), handle := true);
  }

  lemma FiveSteps(s: System)
    requires s.pc == WifiUp && !s.client
    ensures Goes(s, 5) == s.(pc := MqttWait, state := StateMqttConn, client := true, gen := s.gen + 1, handle := true)
  {
    hide Goes;
    TwoSteps(s);
    ThreeSteps(Goes(s, 2));
    GoesOn(s, 2, 3);
  }

  /** Where WIFI_CONN is left, the head of the queue decides: if the next six steps succeed, the task is on its way to
      RUNNING on another client's event exactly if a connect event was there. */
  lemma HeadDecides(acts: seq<Act>)
    requires Run(acts).pc == WifiUp
    ensures var t := Goes(Run(acts), 6); !HeadOk(Run(acts).queue) <==> t.pc.MqttUp? && t.pc.gen != t.gen
  {
    hide Run, Call;
    var s := Run(acts);
    RunInv(acts);
    EventsFromPast(acts);
    FiveSteps(s);
    assert Goes(s, 6) == Receive(Goes(s, 5));
  }

  /** WIFI_CONN is about to be left with a connect event at the head of the queue. */
  ghost predicate Stale(s: System) {
    s.pc == WifiUp && !HeadOk(s.queue)
  }

  lemma Extend(acts: seq<Act>, a: Act)
    ensures Run(acts + [a]) == Next(Run(acts), a)
  {
    assert (acts + [a])[..|acts|] == acts;
  }

  lemma {:induction false} ExtendGoes(acts: seq<Act>, n: nat)
    ensures Run(acts + Gos(n)) == Goes(Run(acts), n)
    decreases n
  {
    if n == 0 {
      assert acts + Gos(0) == acts;
    } else {
      ExtendGoes(acts, n - 1);
      assert acts + Gos(n) == (acts + Gos(n - 1)) + [Go(true)];
      Extend(acts + Gos(n - 1), Go(true));
    }
  }

  function Gos(n: nat): seq<Act> {
    seq(n, _ => Go(true))
  }

  lemma UpToWifiWait()
    ensures Goes(Boot(), 5) == Boot().(pc := WifiWait, state := StateWifiConn, ready := true)
  {
    assert Goes(Boot(), 1) == Boot().(pc := InitWifi);
    assert Goes(Boot(), 2) == Boot().(pc := InitDone, ready := true);
    assert Goes(Boot(), 3) == Boot().(pc := Dispatch, state := StateWifiConn, ready := true);
    assert Goes(Boot(), 4) == Boot().(pc := WifiStart, state := StateWifiConn, ready := true);
  }

  /** A WiFi loss noticed late: the wait loop falls back without draining what came after it. */
  lemma FallsBack(s: System, a: Event, b: Event)
    requires s.pc == MqttWait && s.queue == [WifiDisconnected, a, b] && a.WifiConnected?
    ensures Goes(s, 7) == s.(pc := WifiUp, state := StateWifiConn, queue := [b], client := false, handle := false)
  {
    hide Goes;
    StopsClient(s, a, b);
    var t := Goes(s, 3);
    GoesOn(s, 3, 4);
    BackToWifi(t, a, b);
  }

  lemma {:induction false} GoesOn(s: System, m: nat, n: nat)
    ensures Goes(s, m + n) == Goes(Goes(s, m), n)
    decreases n
  {
    hide Step;
    if n > 0 {
      GoesOn(s, m, n - 1);
    }
  }

  lemma StopsClient(s: System, a: Event, b: Event)
    requires s.pc == MqttWait && s.queue == [WifiDisconnected, a, b]
    ensures Goes(s, 3) == s.(pc := MqttLost, queue := [a, b], client := false, handle := false)
  {
    assert s.queue[1..] == [a, b];
    assert Goes(s, 1) == s.(pc := StopQueue(Fallback), queue := [a, b]);
    assert Goes(s, 2) == s.(pc := StopClient(Fallback), queue := [a, b], handle := false);
  }

  lemma BackToWifi(s: System, a: Event, b: Event)
    requires s.pc == MqttLost && s.queue == [a, b] && a.WifiConnected?
    ensures Goes(s, 4) == s.(pc := WifiUp, state := StateWifiConn, queue := [b])
  {
    assert s.queue[1..] == [b];
    assert Goes(s, 1) == s.(pc := Dispatch, state := StateWifiConn);
    assert Goes(s, 2) == s.(pc := WifiStart, state := StateWifiConn);
    assert Goes(s, 3) == s.(pc := WifiWait, state := StateWifiConn);
  }

  /** It happens: some run leaves WIFI_CONN with a connect event at the head of the queue. */
  lemma StaleIsReachable()
    ensures exists acts :: Stale(Run(acts))
  {
    hide Goes, Gos, Run;
    UpToWifiWait();
    ExtendGoes([], 5);
    assert Run([]) == Boot() by { RunOfNothing(); }
    var a1 := [] + Gos(5);
    Extend(a1, PostWifi(true));
    var s1 := Run(a1 + [PostWifi(true)]);
    assert s1.queue == [WifiConnected];
    var a2 := a1 + [PostWifi(true)];
    Extend(a2, Go(true));
    var a3 := a2 + [Go(true)];
    var s3 := Run(a3);
    assert s3.pc == WifiUp && s3.queue == [];
    FiveSteps(s3);
    ExtendGoes(a3, 5);
    var a4 := a3 + Gos(5);
    ThreePosts(a4);
    var a5 := a4 + [PostWifi(false)] + [PostWifi(true)] + [PostMqtt(true)];
    FallsBack(Run(a5), WifiConnected, MqttConnected(Run(a4).gen));
    ExtendGoes(a5, 7);
    assert Stale(Run(a5 + Gos(7)));
  }

  lemma RunOfNothing()
    ensures Run([]) == Boot()
  {
  }

  lemma ThreePosts(acts: seq<Act>)
    requires var s := Run(acts); s.pc == MqttWait && s.queue == [] && s.ready && s.client && s.handle
    ensures Run(acts + [PostWifi(false)] + [PostWifi(true)] + [PostMqtt(true)])
         == Run(acts).(queue := [WifiDisconnected, WifiConnected, MqttConnected(Run(acts).gen)])
  {
    hide Run;
    Extend(acts, PostWifi(false));
    Extend(acts + [PostWifi(false)], PostWifi(true));
    Extend(acts + [PostWifi(false)] + [PostWifi(true)], PostMqtt(true));
  }

  // ---------- every run ----------

  /** Between leaving WIFI_CONN and the first receive of the MQTT wait loop, with a connect event of an earlier client
      at the head of the queue. */
  ghost predicate StalePending(s: System) {
    && s.queue != [] && s.queue[0].MqttConnected?
    && match s.pc
       case WifiUp => s.queue[0].gen <= s.gen
       case Dispatch => s.state == StateMqttConn && s.queue[0].gen <= s.gen
       case StartCheck(caller) => caller == Entry && s.queue[0].gen <= s.gen
       case StartQueue(caller) => caller == Entry && s.queue[0].gen <= s.gen
       case StartClient(caller) => caller == Entry && s.queue[0].gen <= s.gen
       case MqttWait => s.queue[0].gen < s.gen
       case _ => false
  }

  lemma PostPending(s: System, a: Act)
    requires StalePending(s) && !a.Go?
    ensures StalePending(Next(s, a))
  {
    hide Step;
  }

  lemma ReceivePending(s: System)
    requires StalePending(s) && Receives(s.pc)
    ensures !Genuine(Receive(s))
  {
  }

  lemma CallPending(s: System, ok: bool)
    requires Control(s) && StalePending(s) && !Receives(s.pc)
    ensures StalePending(Call(s, ok))
  {
    hide OnlineAt, ClientAt, AfterStop;
  }

  /** Whatever comes next, a post, a failed start or a new client: the event stays at the head until it is received. */
  lemma NextPending(s: System, a: Act)
    requires Control(s) && StalePending(s)
    ensures StalePending(Next(s, a)) || !Genuine(Next(s, a))
  {
    hide Control, StalePending, Genuine, Receive, Call;
    match a
    case Go(ok) =>
      if Receives(s.pc) {
        ReceivePending(s);
      } else {
        CallPending(s, ok);
      }
    case _ => PostPending(s, a);
  }

  lemma LeavingIsPending(acts: seq<Act>)
    requires Run(acts).pc == WifiUp && !HeadOk(Run(acts).queue)
    ensures StalePending(Run(acts))
  {
    hide Run;
    EventsFromPast(acts);
  }

  lemma {:induction false} RunControl(acts: seq<Act>)
    ensures Control(Run(acts))
  {
    hide Run, Control;
    RunInv(acts);
    InvIsControl(Run(acts));
  }

  lemma InvIsControl(s: System)
    requires Inv(s)
    ensures Control(s)
  {
  }

  /** In every continuation of a run that leaves WIFI_CONN with a connect event at the head of the queue, the task goes
      to RUNNING on the event of a client that no longer exists, unless it has not received anything since. */
  lemma {:induction false} StaleComes(acts: seq<Act>, i: nat)
    requires i <= |acts| && StalePending(Run(acts[..i]))
    ensures StalePending(Run(acts)) || exists k: nat :: i < k <= |acts| && !Genuine(Run(acts[..k]))
    decreases |acts|
  {
    hide Run, StalePending, Genuine, Next;
    assert acts[..|acts|] == acts;
    if i < |acts| {
      var before, last := acts[..|acts| - 1], acts[|acts| - 1];
      assert before[..i] == acts[..i];
      StaleComes(before, i);
      if StalePending(Run(before)) {
        RunControl(before);
        NextPending(Run(before), last);
        Extend(before, last);
        assert before + [last] == acts;
        assert !Genuine(Run(acts)) ==> !Genuine(Run(acts[..|acts|]));
      } else {
        var k: nat :| i < k <= |before| && !Genuine(Run(before[..k]));
        assert before[..k] == acts[..k];
      }
    }
  }

  lemma CleanPrefix(acts: seq<Act>, k: nat)
    requires k <= |acts| && CleanRun(acts)
    ensures CleanRun(acts[..k])
  {
    hide Run, HeadOk;
    forall i | 0 <= i < k && acts[..k][i].Go? && Run(acts[..k][..i]).pc == WifiUp
      ensures HeadOk(Run(acts[..k][..i]).queue)
    {
      assert acts[..k][..i] == acts[..i];
    }
  }

  lemma UncleanRun(acts: seq<Act>)
    requires !CleanRun(acts)
    ensures StalePending(Run(acts)) || exists k: nat :: k <= |acts| && !Genuine(Run(acts[..k]))
  {
    hide Run, HeadOk, StalePending, Genuine;
    var i :| 0 <= i < |acts| && acts[i].Go? && Run(acts[..i]).pc == WifiUp && !HeadOk(Run(acts[..i]).queue);
    LeavingIsPending(acts[..i]);
    StaleComes(acts, i);
  }

  /** In every run that is not itself waiting for that receive, the task went to RUNNING only on reports of the client
      that existed, if and only if no connect event was at the head of the queue whenever WIFI_CONN was left. */
  lemma GenuineExactly(acts: seq<Act>)
    requires !StalePending(Run(acts))
    ensures (forall k: nat | k <= |acts| :: Genuine(Run(acts[..k]))) <==> CleanRun(acts)
  {
    hide Run, StalePending, Genuine, CleanRun;
    if CleanRun(acts) {
      forall k: nat | k <= |acts|
        ensures Genuine(Run(acts[..k]))
      {
        CleanPrefix(acts, k);
        CleanRunsAreGenuine(acts[..k]);
      }
    } else {
      UncleanRun(acts);
    }
  }
}
