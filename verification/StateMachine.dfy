/** main/app/state_machine.c with the start and stop of main/protocol/mqtt_app.c, as the source writes them. Whatever
    the task does, with the handlers' posts in between, is a run of the micro-step machine of module Connection. */
module StateMachine {
  import opened Connection
  import opened Types

  class Gateway {
    var state: State
    var queue: seq<Event>
    var ready: bool
    var client: bool
    var gen: nat
    var handle: bool
    var online: bool
    var patience: nat          // how many more receives and dispatches of the endless loops are followed
    ghost var pc: Pc
    ghost var acts: seq<Act>

    ghost function View(): System
      reads this
    {
      System(pc, state, queue, ready, client, gen, handle, online)
    }

    ghost predicate Valid()
      reads this
    {
      View() == Run(acts)
    }

    constructor (patience: nat)
      ensures Valid() && pc == Dispatch && acts == [] && this.patience == patience
    {
      state, queue, ready, client, gen, handle, online := StateInit, [], false, false, 0, false, false;
      this.patience := patience;
      pc, acts := Dispatch, [];
    }

    // ---------- the handlers ----------

    /** `wifi_event_handler` of main/drivers/wifi.c. */
    method WifiEventHandler(up: bool)
      requires Valid()
      modifies `queue, `acts
      ensures Valid() && acts == old(acts) + [PostWifi(up)]
    {
      Extend(acts, PostWifi(up));
      if ready {
        queue := Send(queue, if up then WifiConnected else WifiDisconnected);
      }
      acts := acts + [PostWifi(up)];
    }

    /** `mqtt_event_handler`, called only while a client exists. */
    method MqttEventHandler(up: bool)
      requires Valid() && client
      modifies `queue, `acts
      ensures Valid() && acts == old(acts) + [PostMqtt(up)]
    {
      Extend(acts, PostMqtt(up));
      if handle {
        queue := Send(queue, if up then MqttConnected(gen) else MqttDisconnected(gen));
      }
      acts := acts + [PostMqtt(up)];
    }

    /** Any number of posts, of any kind. */
    method Interrupts()
      requires Valid()
      modifies `queue, `acts
      ensures Valid() && old(acts) <= acts
    {
      var n: int := *;
      for i := 0 to if n > 0 then n else 0
        invariant Valid() && old(acts) <= acts
      {
        var up: bool := *;
        var wifi: bool := *;
        if wifi {
          WifiEventHandler(up);
        } else if client {
          MqttEventHandler(up);
        }
      }
    }

    /** The bookkeeping of one micro-step that has been made. */
    ghost method Went(ok: bool)
      requires View() == Step(Run(acts), ok)
      modifies `acts
      ensures Valid() && acts == old(acts) + [Go(ok)]
    {
      hide Step, Run;
      Extend(acts, Go(ok));
      acts := acts + [Go(ok)];
    }

    // ---------- single statements ----------

    /** `change_state`. */
    method ChangeState(to: State)
      requires Valid() && Step(View(), true) == View().(state := to, pc := Dispatch)
      modifies `state, `queue, `pc, `acts
      ensures Valid() && pc == Dispatch && state == to && old(acts) <= acts
    {
      hide Step, Run;
      state := to;
      pc := Dispatch;
      Went(true);
      Interrupts();
    }

    /** `cache_task_set_online`. */
    method SetOnline(on: bool, ghost next: Pc)
      requires Valid() && Step(View(), true) == View().(online := on, pc := next)
      modifies `online, `queue, `pc, `acts
      ensures Valid() && pc == next && online == on && old(acts) <= acts
    {
      hide Step, Run;
      online := on;
      pc := next;
      Went(true);
      Interrupts();
    }

    /** `wifi_driver_start`; in the wait loop its failure only means another delay. */
    method WifiDriverStart() returns (ok: bool)
      requires Valid() && (pc == WifiStart || pc == WifiRestart)
      modifies `queue, `pc, `acts
      ensures Valid() && pc == (if ok || old(pc) == WifiRestart then WifiWait else Dispatch) && old(acts) <= acts
    {
      hide Run;
      ok := *;
      pc := if ok || pc == WifiRestart then WifiWait else Dispatch;
      Went(ok);
      Interrupts();
    }

    method WifiDriverStop()
      requires Valid() && pc == WifiStop
      modifies `queue, `pc, `acts
      ensures Valid() && pc == WifiDrainAgain && old(acts) <= acts
    {
      hide Run;
      pc := WifiDrainAgain;
      Went(true);
      Interrupts();
    }

    /** `xQueueReceive`: None after the waiting time; `alive` is false where the run is followed no further. */
    method ReceiveEvent() returns (alive: bool, ev: Option<Event>)
      requires Valid() && Receives(pc)
      modifies `queue, `pc, `acts, `patience
      ensures Valid() && old(acts) <= acts
      ensures !alive ==> patience == 0
      ensures alive ==> patience < old(patience) && pc == AfterReceive(old(pc), ev)
    {
      hide Run, AfterReceive;
      Interrupts();
      if patience == 0 {
        return false, None;
      }
      patience := patience - 1;
      alive := true;
      if queue == [] {
        ev := None;
      } else {
        ev := Some(queue[0]);
        queue := queue[1..];
      }
      pc := AfterReceive(pc, ev);
      Went(true);
    }

    /** `drain_event_queue`. */
    method DrainEventQueue() returns (alive: bool)
      requires Valid() && (pc == WifiDrain || pc == WifiDrainAgain || pc == MqttDrain || pc.RunDrain?)
      modifies `queue, `pc, `acts, `patience
      ensures Valid() && old(acts) <= acts && patience <= old(patience)
      ensures alive ==> pc == AfterReceive(old(pc), None)
    {
      hide Run;
      while true
        invariant Valid() && pc == old(pc) && old(acts) <= acts && patience <= old(patience)
        decreases patience
      {
        var ev;
        alive, ev := ReceiveEvent();
        if !alive || ev == None {
          return;
        }
      }
    }

    // ---------- main/protocol/mqtt_app.c ----------

    /** `mqtt_app_stop`. */
    method MqttAppStop()
      requires Valid() && pc.StopQueue?
      modifies `client, `handle, `queue, `pc, `acts
      ensures Valid() && old(acts) <= acts
      ensures pc == AfterStop(old(pc).after) && !client && !handle
    {
      hide Run, AfterStop;
      var after := pc.after;
      handle := false;
      pc := StopClient(after);
      Went(true);
      Interrupts();
      if client {
        client := false;
      }
      pc := AfterStop(after);
      Went(true);
      Interrupts();
    }

    /** The new client of `mqtt_app_start`. */
    method NewClient() returns (ok: bool)
      requires Valid() && pc.StartQueue?
      modifies `client, `gen, `handle, `queue, `pc, `acts
      ensures Valid() && old(acts) <= acts && handle && (ok ==> client) && (!ok ==> client == old(client))
      ensures pc == if ok || old(pc).caller == Retry then MqttWait else Dispatch
    {
      hide Run;
      ghost var caller := pc.caller;
      handle := true;
      pc := StartClient(caller);
      Went(true);
      Interrupts();
      ok := *;
      if ok {
        client := true;
        gen := gen + 1;
      }
      pc := if ok || caller == Retry then MqttWait else Dispatch;
      Went(ok);
      Interrupts();
    }

    /** `mqtt_app_start`. */
    method MqttAppStart() returns (ok: bool)
      requires Valid() && pc.StartCheck?
      modifies `client, `gen, `handle, `queue, `pc, `acts
      ensures Valid() && old(acts) <= acts && handle && ok == client
      ensures pc == if ok || old(pc).caller == Retry then MqttWait else Dispatch
    {
      hide Run;
      ghost var caller := pc.caller;
      CheckRestart(caller);
      if client {
        MqttAppStop();
      }
      ok := NewClient();
    }

    /** The test for a client to stop first. */
    ghost method CheckRestart(caller: Caller)
      requires Valid() && pc == StartCheck(caller)
      modifies `pc, `acts
      ensures Valid() && old(acts) <= acts
      ensures pc == if client then StopQueue(Restart(caller)) else StartQueue(caller)
    {
      hide Run;
      pc := if client then StopQueue(Restart(caller)) else StartQueue(caller);
      Went(true);
    }

    // ---------- the states ----------

    method EspRestart()
      requires Valid() && pc == InitWifi
      modifies this
      ensures Valid() && pc == Dispatch && patience == old(patience) && old(acts) <= acts
      ensures !ready && state == StateInit
    {
      hide Run;
      state, queue, ready, client, gen, handle, online := StateInit, [], false, false, 0, false, false;
      pc := Dispatch;
      Went(false);
    }

    /** `handle_init`; a failure of the WiFi driver restarts the processor. */
    method HandleInit()
      requires Valid() && pc == InitWifi
      modifies this
      ensures Valid() && pc == Dispatch && patience == old(patience) && old(acts) <= acts
      ensures state == if ready then StateWifiConn else StateInit
    {
      hide Run;
      var ok: bool := *;
      if !ok {
        EspRestart();
        return;
      }
      ready := true;
      pc := InitDone;
      Went(true);
      Interrupts();
      ChangeState(StateWifiConn);
    }

    /** `handle_wifi_conn`. */
    method HandleWifiConn() returns (alive: bool, ghost heard: Option<Event>)
      requires Valid() && pc == WifiStart
      modifies this
      ensures Valid() && patience <= old(patience) && old(acts) <= acts && (alive ==> pc == Dispatch)
      ensures alive ==> if heard == None then state == old(state)
                        else heard == Some(WifiConnected) && state == StateMqttConn
    {
      hide Run, Valid;
      heard := None;
      var ok := WifiDriverStart();
      if !ok {
        return true, None;
      }
      while true
        invariant Valid() && pc == WifiWait && patience <= old(patience) && old(acts) <= acts
        decreases patience
      {
        var ev;
        alive, ev := ReceiveEvent();
        if !alive {
          return;
        }
        if ev != None {
          if ev.value == WifiConnected {
            heard := ev;
            ChangeState(StateMqttConn);
            return;
          }
          alive := DrainEventQueue();
          if !alive {
            return;
          }
        }
        alive := RestartWifi();
        if !alive {
          return;
        }
      }
    }

    /** After a timeout or a loss, a new attempt. */
    method RestartWifi() returns (alive: bool)
      requires Valid() && pc == WifiStop
      modifies `queue, `pc, `acts, `patience
      ensures Valid() && patience <= old(patience) && old(acts) <= acts && (alive ==> pc == WifiWait)
    {
      hide Run, Valid;
      WifiDriverStop();
      alive := DrainEventQueue();
      if alive {
        var ok := WifiDriverStart();
      }
    }

    /** `handle_mqtt_conn`. */
    method HandleMqttConn() returns (alive: bool, ghost heard: Option<Event>)
      requires Valid() && pc == StartCheck(Entry)
      modifies this
      ensures Valid() && patience <= old(patience) && old(acts) <= acts && (alive ==> pc == Dispatch)
      ensures alive ==> if heard == None then state == old(state)
                        else if heard == Some(WifiDisconnected) then state == StateWifiConn && !client
                        else heard.value.MqttConnected? && state == StateRunning && online
    {
      hide Run, Valid;
      heard := None;
      var ok := MqttAppStart();
      if !ok {
        return true, None;
      }
      while true
        invariant Valid() && pc == MqttWait && patience <= old(patience) && old(acts) <= acts
        decreases patience
      {
        var ev;
        alive, ev := ReceiveEvent();
        if !alive {
          return;
        }
        if ev != None {
          if ev.value.MqttConnected? {
            heard := ev;
            GoOnline();
            return;
          }
          if ev.value == WifiDisconnected {
            heard := ev;
            FallBack();
            return;
          }
        }
        alive := RestartMqtt();
        if !alive {
          return;
        }
      }
    }

    method GoOnline()
      requires Valid() && pc.MqttUp?
      modifies `online, `state, `queue, `pc, `acts
      ensures Valid() && old(acts) <= acts && pc == Dispatch && state == StateRunning && online
    {
      hide Run;
      SetOnline(true, MqttOnline);
      ChangeState(StateRunning);
    }

    method FallBack()
      requires Valid() && pc == StopQueue(Fallback)
      modifies `client, `handle, `state, `queue, `pc, `acts
      ensures Valid() && old(acts) <= acts && pc == Dispatch && state == StateWifiConn && !client
    {
      hide Run;
      MqttAppStop();
      ChangeState(StateWifiConn);
    }

    /** After a timeout or a loss, a new client. */
    method RestartMqtt() returns (alive: bool)
      requires Valid() && pc == StopQueue(Again)
      modifies `client, `gen, `handle, `queue, `pc, `acts, `patience
      ensures Valid() && patience <= old(patience) && old(acts) <= acts && (alive ==> pc == MqttWait)
    {
      hide Run, Valid;
      MqttAppStop();
      alive := DrainEventQueue();
      if alive {
        var ok := MqttAppStart();
      }
    }

    /** The fallback from RUNNING. */
    method LeaveRunning(to: State) returns (alive: bool)
      requires Valid() && pc == RunLost(to)
      modifies this
      ensures Valid() && patience <= old(patience) && old(acts) <= acts
      ensures alive ==> pc == Dispatch && state == to && !online && !client
    {
      hide Run, Valid;
      SetOnline(false, StopQueue(Leave(to)));
      MqttAppStop();
      alive := DrainEventQueue();
      if alive {
        ChangeState(to);
      }
    }

    /** `handle_running`. */
    method HandleRunning() returns (alive: bool, ghost heard: Option<Event>)
      requires Valid() && pc == RunWait
      modifies this
      ensures Valid() && patience <= old(patience) && old(acts) <= acts && (alive ==> pc == Dispatch)
      ensures alive ==> !online && !client && heard.Some?
                        && if heard.value == WifiDisconnected then state == StateWifiConn
                           else heard.value.MqttDisconnected? && state == StateMqttConn
    {
      hide Run, Valid;
      heard := None;
      while true
        invariant Valid() && pc == RunWait && patience <= old(patience) && old(acts) <= acts
        decreases patience
      {
        var ev;
        alive, ev := ReceiveEvent();
        if !alive {
          return;
        }
        if ev != None {
          if ev.value == WifiDisconnected {
            heard := ev;
            alive := LeaveRunning(StateWifiConn);
            return;
          }
          if ev.value.MqttDisconnected? {
            heard := ev;
            alive := LeaveRunning(StateMqttConn);
            return;
          }
        }
      }
    }

    /** One turn of the main loop. */
    method HandleState() returns (alive: bool)
      requires Valid() && pc == Dispatch
      modifies this
      ensures Valid() && patience <= old(patience) && old(acts) <= acts && (alive ==> pc == Dispatch)
    {
      hide Run;
      pc := AfterDispatch(state);
      Went(true);
      Interrupts();
      ghost var heard: Option<Event>;
      match state
      case StateInit =>
        HandleInit();
        alive := true;
      case StateWifiConn => alive, heard := HandleWifiConn();
      case StateMqttConn => alive, heard := HandleMqttConn();
      case StateRunning => alive, heard := HandleRunning();
    }

    /** `state_machine_task`. */
    method StateMachineTask()
      requires Valid() && pc == Dispatch
      modifies this
      ensures Valid() && old(acts) <= acts
      ensures online ==> client
      ensures pc == Dispatch ==> (online <==> state == StateRunning)
    {
      var alive := true;
      while alive && patience > 0
        invariant Valid() && old(acts) <= acts && (alive ==> pc == Dispatch)
        decreases patience
      {
        patience := patience - 1;
        alive := HandleState();
      }
      ConnectionSafety(acts);
    }
  }
}
