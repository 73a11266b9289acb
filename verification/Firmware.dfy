/** The programmer's firmware: the interrupt handlers, the timer and the main loop, acting on the global state. */
module Firmware {
  import opened Device
  import opened DeviceRuns
  import opened DeviceLog
  import opened DeviceTurns

  class Programmer {
    var devStatus: Status
    var mode: Mode
    var events: EventFlags
    var net: NetworkEvent
    var msg: MsgHandle
    var sendMsgTime: nat
    var systemTimer: nat

    ghost var history: History
    ghost const boot: Mode         // the mode at power-up
    ghost var trace: seq<Event>    // what has happened since

    /** All of it as a value. */
    ghost function Now(): System
      reads this
    {
      System(State(devStatus, mode, events, net, msg, sendMsgTime, systemTimer), history)
    }

    /** The fields are those of the run so far. */
    ghost predicate Valid()
      reads this
    {
      Now() == Run(boot, trace)
    }

    constructor (mode: Mode)
      ensures Valid() && boot == mode && trace == []
    {
      boot, trace := mode, [];
      this.mode := mode;
      devStatus := if mode == UidMode then Disconnected else BinNotFound;
      events, net := NO_EVENTS, NO_NETWORK;
      msg := MsgHandle(Invalid, Invalid, RESP_DEFAULT);
      sendMsgTime, systemTimer := 0, 0;
      history := Initial(mode).h;
    }

    /** The run goes on by an event. */
    ghost method Happened(y: System, e: Event)
      requires y == Run(boot, trace) && Now() == Step(y, e)
      modifies `trace
      ensures Valid() && trace == old(trace) + [e]
    {
      hide Step;
      assert (trace + [e])[..|trace|] == trace;
      trace := trace + [e];
    }

    /** It asks for work of a connected board or puts away a result. */
    method Started()
      modifies `events, `net, `history
      ensures Now() == Sw2(old(Now()), true)
    {
      ghost var log := Pressed(Now().s, history.log);
      if mode == CodeMode {
        if devStatus == Connected {
          events := events.(startProgram := true);
        }
      } else {
        if devStatus == Connected {
          net := net.(uidReq := true);
        }
      }
      assert Now().s == AskForWork(old(Now().s));
      if devStatus == ProgramFail || devStatus == ProgramSuccess {
        events := events.(resetDevStatus := true);
      }
      history := history.(log := log);
    }

    /** The start button has been let go: a bounce sets nothing; a press sets the one flag that its mode and the status
        call for. */
    method Sw2Release(steady: bool)
      requires Valid()
      modifies `events, `net, `history, `trace
      ensures Valid() && trace == old(trace) + [PressSw2(steady)]
      ensures events == old(events).(
        startProgram := old(events.startProgram) || (steady && devStatus == Connected && mode == CodeMode),
        resetDevStatus := old(events.resetDevStatus) || (steady && devStatus in {ProgramSuccess, ProgramFail}))
      ensures net == old(net).(
        uidReq := old(net.uidReq) || (steady && devStatus == Connected && mode == UidMode))
    {
      hide Sw2, Run;
      ghost var y := Now();
      if steady {
        Started();
      }
      PressSets(y, steady);
      Happened(y, PressSw2(steady));
    }

    /** The mode button has been let go: the next turn has a switch to see to. */
    method Sw3Release(steady: bool)
      requires Valid()
      modifies `events, `mode, `trace
      ensures Valid() && trace == old(trace) + [PressSw3(steady)]
      ensures steady <==> mode != old(mode)
      ensures events.modeSwitch <==> steady || old(events.modeSwitch)
    {
      if steady {
        events := events.(modeSwitch := true);
        if mode == CodeMode {
          mode := UidMode;
        } else {
          mode := CodeMode;
        }
      }
      Happened(old(Now()), PressSw3(steady));
    }

    method Ticked()
      modifies `systemTimer, `net, `history
      ensures Now() == Tick(old(Now()))
    {
      systemTimer := (systemTimer + 1) % TIMER_RANGE;
      history := history.(clock := history.clock + 1);
      if mode == UidMode && systemTimer % HEARTBEAT_PERIOD == 0 && net.offline == false {
        net := net.(heartbeat := true);
      }
    }

    /** A second has passed. The timer is the real time as far as 32 bits go; every thirty seconds a heartbeat is due,
        while there is a connection. */
    method SysTick()
      requires Valid()
      modifies `systemTimer, `net, `history, `trace
      ensures Valid() && trace == old(trace) + [Second]
      ensures systemTimer == history.clock % 0x1_0000_0000 && history.clock == old(history.clock) + 1
      ensures net == old(net).(heartbeat :=
        old(net.heartbeat) || (mode == UidMode && systemTimer % 30 == 0 && !net.offline))
    {
      hide Tick, Run, Exclusive, Authorised, Accounted, LastSent;
      ghost var y := Now();
      Ticked();
      TickSets(y);
      Happened(y, Second);
      RunInv(boot, trace);
    }

    method ResetEventFlags()
      modifies this`events
      ensures events == NO_EVENTS
    {
      events := EventFlags(false, false, false, false, false, false, false, false);
    }

    method InitNetworkEvent()
      modifies this`net
      ensures net == NO_NETWORK
    {
      net := NetworkEvent(false, false, false, false, true, true, false);
    }

    method CheckNet(w: World)
      modifies `net, `history
      ensures Now() == CheckNetwork(old(Now()), w)
    {
      if net.offline {
        if w.connects {
          if net.firstConnect {
            net := net.(firstConnect := false);
          }
          net := net.(offline := false, authorizeReq := true);
          history := history.(
            authSinceConnect := false, log := history.log.(connects := history.log.connects + 1));
        }
      } else if net.heartbeat {
        net := net.(heartbeat := false);
        history := history.(log := history.log.(beats := history.log.beats + 1));
        if !w.heartbeatSent {
          net := net.(offline := true, authorizePass := false);
        }
      }
    }

    method Send(id: MsgId, sent: bool, ghost first: bool)
      modifies `msg, `sendMsgTime, `history
      ensures Now() == SendMsg(old(Now()), id, first, sent)
    {
      history := history.(tries := history.tries + [Try(id, first, sent, history.clock, Told(Now().s, id))]);
      if sent {
        msg := msg.(sendId := id);
        sendMsgTime := systemTimer;
      }
    }

    method SendPart(sent: bool)
      modifies `msg, `net, `sendMsgTime, `history
      ensures Now() == SendNext(old(Now()), sent)
    {
      hide SendMsg;
      if msg.sendId != Invalid {
        if (systemTimer - sendMsgTime) % TIMER_RANGE >= RESEND_PERIOD {
          Send(msg.sendId, sent, false);
        }
      } else if net.authorizeReq {
        msg, net := msg.(sendId := Auth), net.(authorizeReq := false);
        Send(Auth, sent, true);
      } else if net.uidReq {
        msg, net := msg.(sendId := GetUid), net.(uidReq := false);
        Send(GetUid, sent, true);
      } else if net.notifyResult {
        msg, net := msg.(sendId := Notify), net.(notifyResult := false);
        Send(Notify, sent, true);
      }
    }

    /** What a reply says. */
    method HeedReply(r: Reply)
      requires r.Reply?
      modifies `msg, `net, `events, `history
      ensures Now() == Heed(old(Now()), r)
    {
      msg := msg.(recvRespCode := r.respCode);
      if r.apiId == API_AUTH {
        msg := msg.(recvId := Auth);
        history := history.(heard := history.heard + {Auth});
        if msg.recvRespCode == RESP_SUCCESS {
          net := net.(authorizePass := true);
          history := history.(authSinceConnect := true);
        }
      } else if r.apiId == API_GET_UID {
        msg := msg.(recvId := GetUid);
        history := history.(heard := history.heard + {GetUid});
        if msg.recvRespCode == RESP_SUCCESS && r.hasUid {
          events := events.(uidAvailable := true);
          history := history.(uidReplies := history.uidReplies + 1);
        }
      } else if r.apiId == API_NOTIFY {
        msg := msg.(recvId := Notify);
        history := history.(heard := history.heard + {Notify});
        if msg.recvRespCode == RESP_SUCCESS {
          events := events.(notifyDone := true);
          history := history.(notifyReplies := history.notifyReplies + 1);
        }
      }
    }

    method ParseRecv(r: Reply)
      modifies `msg, `net, `events, `history
      ensures Now() == Receive(old(Now()), r)
    {
      hide Heed;
      if r.Reply? {
        HeedReply(r);
        if msg.sendId == msg.recvId && msg.recvRespCode == RESP_SUCCESS {
          msg := MsgHandle(Invalid, Invalid, RESP_DEFAULT);
          history := history.(heard := {});
        }
      }
    }

    method MsgTransceiver(w: World)
      modifies `msg, `net, `events, `sendMsgTime, `history
      ensures Now() == Transceive(old(Now()), w)
    {
      hide SendNext, Receive;
      if net.offline == false {
        SendPart(w.sent);
        ParseRecv(w.reply);
      }
    }

    method WorkConnected()
      modifies `devStatus, `events
      ensures Now() == old(Now()).(s := UpdateConnected(old(Now()).s))
    {
      if !events.boardConnected {
        devStatus := Disconnected;
        events := events.(startProgram := false);
      }
      if events.startProgram {
        devStatus := Programing;
        events := events.(startProgram := false);
      }
      if mode == CodeMode {
        if !events.binFileExist {
          devStatus := BinNotFound;
          events := events.(startProgram := false);
        }
      } else {
        if events.uidAvailable {
          devStatus := Programing;
          events := events.(uidAvailable := false);
        }
      }
    }

    method WorkDisconnected()
      requires devStatus == Disconnected
      modifies `devStatus
      ensures Now() == old(Now()).(s := UpdateDisconnected(old(Now()).s))
    {
      if events.boardConnected {
        devStatus := Connected;
      }
      if !events.binFileExist && mode == CodeMode {
        devStatus := BinNotFound;
      }
    }

    method WorkPrograming(programmed: bool)
      modifies `devStatus, `events, `net, `history
      ensures Now() == UpdatePrograming(old(Now()), programmed)
    {
      history := history.(log := history.log.(called := true, lastOk := programmed, resetPressed := false));
      if mode == CodeMode {
        history := history.(log := history.log.(codeCalls := history.log.codeCalls + 1));
        if programmed {
          devStatus := ProgramSuccess;
        } else {
          devStatus := ProgramFail;
        }
      } else {
        history := history.(
          uidCalls := history.uidCalls + 1, log := history.log.(idOk := programmed, switched := false));
        if programmed {
          devStatus := ProgramSuccess;
          events := events.(uidProgramSuccess := true);
        } else {
          devStatus := ProgramFail;
          events := events.(uidProgramSuccess := false);
        }
        net := net.(notifyResult := true);
      }
    }

    method WorkDone()
      modifies `devStatus, `events, `history
      ensures Now() == UpdateDone(old(Now()))
    {
      if events.resetDevStatus {
        if mode == CodeMode {
          devStatus := Connected;
          events := events.(resetDevStatus := false);
        } else {
          if events.notifyDone {
            devStatus := Connected;
            events := events.(resetDevStatus := false, notifyDone := false);
            history := history.(exits := history.exits + 1);
          }
        }
      }
    }

    method UpdateDeviceStatus(w: World)
      modifies `devStatus, `events, `net, `history
      ensures Now() == Update(old(Now()), w)
    {
      hide UpdateConnected, UpdateDisconnected, UpdatePrograming, UpdateDone;
      match devStatus {
        case BinNotFound =>
          if events.binFileExist {
            devStatus := Disconnected;
          }
        case Connected => WorkConnected();
        case Disconnected => WorkDisconnected();
        case Programing => WorkPrograming(w.programmed);
        case ProgramSuccess => WorkDone();
        case ProgramFail => WorkDone();
      }
    }

    method SeeToModeSwitch()
      modifies `devStatus, `events, `net, `history
      ensures Now() == SwitchMode(old(Now()))
    {
      if events.modeSwitch {
        history := history.(log := history.log.(switched := true, startPressed := false, resetPressed := false));
        ResetEventFlags();
        if mode == UidMode {
          InitNetworkEvent();
          devStatus := Disconnected;
        } else {
          devStatus := BinNotFound;
        }
      }
    }

    /** The turn itself. */
    method OneTurn(w: World)
      modifies `devStatus, `events, `net, `msg, `sendMsgTime, `history
      ensures Now() == Turn(old(Now()), w)
    {
      hide SwitchMode, CheckNetwork, Transceive, Update;
      SeeToModeSwitch();
      if mode == CodeMode {
        events := events.(binFileExist := w.binFound);
      }
      events := events.(boardConnected := w.boardFound);
      assert Now() == Detect(SwitchMode(old(Now())), w);
      if mode == UidMode {
        CheckNet(w);
        MsgTransceiver(w);
      }
      assert Now() == BeforeUpdate(old(Now()), w);
      if (mode == UidMode && net.authorizePass) || mode == CodeMode {
        UpdateDeviceStatus(w);
      }
      assert Now() == Work(BeforeUpdate(old(Now()), w), w);
      history := history.(log := history.log.(startPressed := false));
    }

    /** One turn of the main loop, after anything that can have happened since power-up. */
    method MainLoop(w: World)
      requires Valid()
      modifies `devStatus, `events, `net, `msg, `sendMsgTime, `history, `trace
      ensures Valid() && trace == old(trace) + [MainTurn(w)] && !events.modeSwitch
      // no id is programmed twice, and no result closed, that the server has not answered for
      ensures history.uidCalls <= history.uidReplies && history.exits <= history.notifyReplies
      // the device works on ids only when it is let in, which it is only while it is connected
      ensures net.offline ==> !net.authorizePass
      ensures mode == UidMode && !old(events.modeSwitch) && devStatus != old(devStatus) ==>
        net.authorizePass && history.authSinceConnect
      // one request at a time, repeated after five seconds at the earliest
      ensures Spaced(history.tries)
      ensures old(msg.sendId) != Invalid ==>
        && msg.sendId in {old(msg.sendId), Invalid} && OnlyRepeats(old(history.tries), history.tries, old(msg.sendId))
        && (AskedKept(old(net), net) <==> !Forgets(old(Now()).s, MainTurn(w)))
      // exactly what is due is sent, and the status is what is due
      ensures RequestsRight(old(Now()), w, Now())
      ensures StatusRight(old(Now()), w, Now()) && EventsRight(old(Now()), w, Now())
      // a result shown is that of the last program
      ensures devStatus == ProgramSuccess ==> history.log.called && history.log.lastOk
      ensures devStatus == ProgramFail ==> history.log.called && !history.log.lastOk
    {
      hide Turn, Run, Spaced, OnlyRepeats, AskedKept, Forgets, RequestsRight, StatusRight, EventsRight;
      ghost var y, es := Now(), trace;
      OneTurn(w);
      Happened(y, MainTurn(w));
      TurnMeans(boot, es, w);
      RunTurn(boot, es, w);
      RunShown(boot, trace);
    }
  }
}
