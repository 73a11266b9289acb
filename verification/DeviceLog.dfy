/** What has been done to the device, what it has done, and what it shows of that, in every state that any run
    reaches. */
module DeviceLog {
  import opened Device
  import opened DeviceRuns

  // ----- The invariant -----

  /** How many requests of a kind have been started. */
  function Firsts(tries: seq<Try>, id: MsgId): nat {
    if tries == [] then 0
    else
      var t := tries[|tries| - 1];
      Firsts(tries[..|tries| - 1], id) + One(t.first && t.id == id)
  }

  /** Every request has its own cause: a connection, a press of the start button, a program that has been run. */
  predicate Caused(y: System) {
    var n, t, l := y.s.net, y.h.tries, y.h.log;
    && Firsts(t, Auth) + One(n.authorizeReq) <= l.connects
    && Firsts(t, GetUid) + One(n.uidReq) <= l.idStarts
    && Firsts(t, Notify) + One(n.notifyResult) <= y.h.uidCalls
  }

  /** The result shown is that of the last program, and the result to be reported is that of the last one on an id,
      unless a mode switch has come in between. */
  predicate Shown(y: System) {
    && (y.s.devStatus == ProgramSuccess ==> y.h.log.called && y.h.log.lastOk)
    && (y.s.devStatus == ProgramFail ==> y.h.log.called && !y.h.log.lastOk)
    && (y.s.events.uidProgramSuccess <==> y.h.log.idOk && !y.h.log.switched)
  }

  /** The device is about to run a program on code. */
  predicate CodeDue(s: State) {
    s.devStatus == Programing && s.mode == CodeMode && !s.events.modeSwitch
  }

  /** The flags of the start button are what has been pressed and not yet answered, and every program on code has its
      own press. */
  predicate Pressing(y: System) {
    && (y.s.events.startProgram <==> y.h.log.startPressed)
    && (y.s.events.startProgram ==> y.s.devStatus == Connected)
    && (y.s.events.resetDevStatus ==> ShowsResult(y.s))
    && (ShowsResult(y.s) ==> (y.s.events.resetDevStatus <==> y.h.log.resetPressed))
    && y.h.log.codeCalls + One(CodeDue(y.s)) + One(y.s.events.startProgram) <= y.h.log.codeStarts
  }

  /** The times so far at which a heartbeat has been due, every thirty seconds of the timer. */
  function Due(clock: nat): nat {
    if clock == 0 then 0 else Due(clock - 1) + One(clock % 0x1_0000_0000 % 30 == 0)
  }

  predicate Reconnects(tries: seq<Try>) {
    forall i :: 0 <= i < |tries| && tries[i].id == Auth ==> tries[i].told
  }

  /** Heartbeats are for a connection and have their time; every authorisation asks for a reconnection, the first one
      too. */
  predicate Networked(y: System) {
    && (y.s.net.offline ==> !y.s.net.heartbeat)
    && (!y.s.net.offline ==> !y.s.net.firstConnect)
    && y.h.log.beats + One(y.s.net.heartbeat) <= Due(y.h.clock)
    && Reconnects(y.h.tries)
    && (y.s.mode == UidMode && !y.s.events.modeSwitch ==> y.s.devStatus != BinNotFound)
  }

  predicate Logged(y: System) {
    Caused(y) && Shown(y) && Pressing(y) && Networked(y)
  }

  // ----- Every step keeps it -----

  lemma InitialLogged(mode: Mode)
    ensures Logged(Initial(mode))
  {}

  /** What a press of the start button sets. */
  lemma PressSets(y: System, steady: bool)
    ensures var s, z := y.s, Sw2(y, steady).s;
      && z == s.(events := z.events, net := z.net)
      && z.events == s.events.(
           startProgram := s.events.startProgram || (steady && s.devStatus == Connected && s.mode == CodeMode),
           resetDevStatus := s.events.resetDevStatus || (steady && s.devStatus in {ProgramSuccess, ProgramFail}))
      && z.net == s.net.(uidReq := s.net.uidReq || (steady && s.devStatus == Connected && s.mode == UidMode))
      && (!steady ==> Sw2(y, steady) == y)
  {}

  lemma Sw2Logged(y: System, steady: bool)
    requires Logged(y)
    ensures Logged(Sw2(y, steady))
  {
    hide Firsts, Due, Reconnects;
  }

  lemma Sw3Logged(y: System, steady: bool)
    requires Logged(y)
    ensures Logged(Sw3(y, steady))
  {
    hide Firsts, Due, Reconnects;
  }

  /** What a tick sets. */
  lemma TickSets(y: System)
    ensures var s, z := y.s, Tick(y).s;
      && z.net == s.net.(heartbeat :=
           s.net.heartbeat || (s.mode == UidMode && z.systemTimer % 30 == 0 && !s.net.offline))
      && z == s.(systemTimer := z.systemTimer, net := z.net)
      && Tick(y).h == y.h.(clock := y.h.clock + 1)
  {}

  lemma TickLogged(y: System)
    requires Logged(y) && y.s.systemTimer == y.h.clock % TIMER_RANGE
    ensures Logged(Tick(y))
  {
    hide Firsts, Reconnects;
    NextTick(y.h.clock);
  }

  lemma SwitchLogged(y: System)
    requires Logged(y)
    ensures Logged(SwitchMode(y))
  {
    hide Firsts, Due, Reconnects;
  }

  lemma DetectLogged(y: System, w: World)
    requires Logged(y)
    ensures Logged(Detect(y, w))
  {
    hide Firsts, Due, Reconnects;
  }

  lemma CheckLogged(y: System, w: World)
    requires Logged(y)
    ensures Logged(CheckNetwork(y, w))
  {
    hide Firsts, Due, Reconnects;
  }

  lemma FirstsMore(tries: seq<Try>, t: Try, id: MsgId)
    ensures Firsts(tries + [t], id) == Firsts(tries, id) + One(t.first && t.id == id)
  {
    assert (tries + [t])[..|tries|] == tries;
  }

  lemma ReconnectsMore(tries: seq<Try>, t: Try)
    requires Reconnects(tries) && (t.id == Auth ==> t.told)
    ensures Reconnects(tries + [t])
  {}

  lemma MsgLogged(y: System, id: MsgId, first: bool, sent: bool)
    requires Shown(y) && Pressing(y) && Networked(y) && !y.s.net.offline
    requires var n, t, l := y.s.net, y.h.tries, y.h.log;
      && Firsts(t, Auth) + One(n.authorizeReq) + One(first && id == Auth) <= l.connects
      && Firsts(t, GetUid) + One(n.uidReq) + One(first && id == GetUid) <= l.idStarts
      && Firsts(t, Notify) + One(n.notifyResult) + One(first && id == Notify) <= y.h.uidCalls
    ensures Logged(SendMsg(y, id, first, sent))
  {
    hide Firsts, Due, Reconnects;
    var t := Try(id, first, sent, y.h.clock, Told(y.s, id));
    FirstsMore(y.h.tries, t, Auth);
    FirstsMore(y.h.tries, t, GetUid);
    FirstsMore(y.h.tries, t, Notify);
    ReconnectsMore(y.h.tries, t);
  }

  lemma RequestLogged(y: System, id: MsgId, net: NetworkEvent, sent: bool)
    requires Shown(y) && Pressing(y) && Networked(y) && !y.s.net.offline
    requires net.offline == y.s.net.offline && net.heartbeat == y.s.net.heartbeat
    requires net.firstConnect == y.s.net.firstConnect
    requires var n, t, l := net, y.h.tries, y.h.log;
      && Firsts(t, Auth) + One(n.authorizeReq) + One(id == Auth) <= l.connects
      && Firsts(t, GetUid) + One(n.uidReq) + One(id == GetUid) <= l.idStarts
      && Firsts(t, Notify) + One(n.notifyResult) + One(id == Notify) <= y.h.uidCalls
    ensures Logged(Request(y, id, net, sent))
  {
    hide Firsts, Due, Reconnects, SendMsg, Logged;
    MsgLogged(y.(s := y.s.(msg := y.s.msg.(sendId := id), net := net)), id, true, sent);
  }

  lemma SendLogged(y: System, sent: bool)
    requires Logged(y) && !y.s.net.offline
    ensures Logged(SendNext(y, sent))
  {
    hide Firsts, Due, Reconnects, Shown, Pressing, Networked, SendMsg, Request, Waited;
    var n := y.s.net;
    if y.s.msg.sendId != Invalid {
      MsgLogged(y, y.s.msg.sendId, false, sent);
    } else if n.authorizeReq {
      RequestLogged(y, Auth, n.(authorizeReq := false), sent);
    } else if n.uidReq {
      RequestLogged(y, GetUid, n.(uidReq := false), sent);
    } else if n.notifyResult {
      RequestLogged(y, Notify, n.(notifyResult := false), sent);
    }
  }

  lemma HeedLogged(y: System, r: Reply)
    requires r.Reply? && Logged(y)
    ensures Logged(Heed(y, r))
  {
    hide Firsts, Due, Reconnects;
  }

  lemma ReceiveLogged(y: System, r: Reply)
    requires Logged(y)
    ensures Logged(Receive(y, r))
  {
    hide Heed, Firsts, Due, Reconnects;
    if r.Reply? {
      HeedLogged(y, r);
    }
  }

  lemma NetworkLogged(y: System, w: World)
    requires Logged(y)
    ensures Logged(Network(y, w))
  {
    hide Logged, CheckNetwork, SendNext, Receive;
    CheckLogged(y, w);
    var c := CheckNetwork(y, w);
    if !c.s.net.offline {
      SendLogged(c, w.sent);
      ReceiveLogged(SendNext(c, w.sent), w.reply);
    }
  }

  lemma ConnectedPressing(y: System)
    requires Pressing(y) && y.s.devStatus == Connected
    ensures var z := y.(s := UpdateConnected(y.s));
      !z.s.events.startProgram && Pressing(z.(h := z.h.(log := z.h.log.(startPressed := false))))
  {}

  lemma ConnectedRest(y: System)
    requires Caused(y) && Shown(y) && Networked(y) && y.s.devStatus == Connected
    ensures var z := y.(s := UpdateConnected(y.s));
      var u := z.(h := z.h.(log := z.h.log.(startPressed := false)));
      Caused(u) && Shown(u) && Networked(u)
  {
    hide Firsts, Due, Reconnects;
  }

  lemma ConnectedLogged(y: System)
    requires Logged(y) && y.s.devStatus == Connected
    ensures var z := y.(s := UpdateConnected(y.s));
      !z.s.events.startProgram && Logged(z.(h := z.h.(log := z.h.log.(startPressed := false))))
  {
    hide Caused, Shown, Networked, Pressing, UpdateConnected;
    ConnectedPressing(y);
    ConnectedRest(y);
  }

  lemma ProgramingLogged(y: System, programmed: bool)
    requires Logged(y) && !y.s.events.modeSwitch && y.s.devStatus == Programing
    ensures Logged(UpdatePrograming(y, programmed))
  {
    hide Firsts, Due, Reconnects;
  }

  lemma DoneLogged(y: System)
    requires Logged(y) && !y.s.events.modeSwitch && ShowsResult(y.s)
    ensures Logged(UpdateDone(y))
  {
    hide Firsts, Due, Reconnects;
  }

  lemma MovedLogged(y: System, status: Status)
    requires Logged(y) && y.s.devStatus in {BinNotFound, Disconnected} &&
      status in {BinNotFound, Disconnected, Connected}
    requires status == BinNotFound ==> y.s.mode == CodeMode || y.s.devStatus == BinNotFound
    ensures Logged(y.(s := y.s.(devStatus := status)))
  {
    hide Firsts, Due, Reconnects;
  }

  /** At the end of a turn no press is left unanswered. */
  predicate Answered(y: System) {
    !y.s.events.startProgram && Logged(y.(h := y.h.(log := y.h.log.(startPressed := false))))
  }

  lemma NothingPressed(y: System)
    requires Logged(y) && !y.s.events.startProgram
    ensures Answered(y)
  {
    hide Firsts, Due, Reconnects;
  }

  lemma UpdateLogged(y: System, w: World)
    requires Logged(y) && !y.s.events.modeSwitch
    ensures Answered(Update(y, w))
  {
    hide Caused, Networked, Shown, UpdateConnected, UpdatePrograming, UpdateDone, Answered;
    var z := Update(y, w);
    match y.s.devStatus {
      case BinNotFound =>
        MovedLogged(y, z.s.devStatus);
        NothingPressed(z);
      case Connected =>
        ConnectedLogged(y);
        ConnectedAnswered(y);
      case Disconnected =>
        MovedLogged(y, z.s.devStatus);
        NothingPressed(z);
      case Programing =>
        ProgramingLogged(y, w.programmed);
        ProgramingPress(y, w.programmed);
        NothingPressed(z);
      case ProgramSuccess =>
        DoneLogged(y);
        DonePress(y);
        NothingPressed(z);
      case ProgramFail =>
        DoneLogged(y);
        DonePress(y);
        NothingPressed(z);
    }
  }

  lemma ConnectedAnswered(y: System)
    requires Logged(y) && y.s.devStatus == Connected
    ensures Answered(y.(s := UpdateConnected(y.s)))
  {
    hide Logged, UpdateConnected;
    ConnectedLogged(y);
  }

  lemma ProgramingPress(y: System, programmed: bool)
    ensures UpdatePrograming(y, programmed).s.events.startProgram == y.s.events.startProgram
  {}

  lemma DonePress(y: System)
    ensures UpdateDone(y).s.events.startProgram == y.s.events.startProgram
  {}

  lemma WorkLogged(z: System, w: World)
    requires Inv(z) && Logged(z) && !z.s.events.modeSwitch
    ensures Answered(Work(z, w))
  {
    hide Logged, Answered, Update;
    if MayWork(z.s) {
      UpdateLogged(z, w);
    } else {
      NothingPressed(z);
    }
  }

  lemma TurnLogged(y: System, w: World)
    requires Inv(y) && Logged(y)
    ensures Logged(BeforeUpdate(y, w)) && Logged(Turn(y, w)) && !Turn(y, w).s.events.startProgram
  {
    hide Inv, Logged, SwitchMode, Detect, Network, Update;
    TurnInv(y, w);
    SwitchLogged(y);
    DetectLogged(SwitchMode(y), w);
    NetworkLogged(Detect(SwitchMode(y), w), w);
    WorkLogged(BeforeUpdate(y, w), w);
  }

  lemma StepLogged(y: System, e: Event)
    requires Inv(y) && Logged(y)
    ensures Logged(Step(y, e))
  {
    hide Logged, Sw2, Sw3, Tick, Turn, Accounted, Authorised, Exclusive;
    match e
    case PressSw2(steady) => Sw2Logged(y, steady);
    case PressSw3(steady) => Sw3Logged(y, steady);
    case Second => TickLogged(y);
    case MainTurn(w) => TurnLogged(y, w);
  }

  lemma {:induction false} RunFromLogged(y: System, es: seq<Event>)
    requires Inv(y) && Logged(y)
    ensures Logged(RunFrom(y, es))
    decreases |es|
  {
    hide Inv, Logged, Step;
    if es != [] {
      RunFromLogged(y, es[..|es| - 1]);
      RunFromInv(y, es[..|es| - 1]);
      StepLogged(RunFrom(y, es[..|es| - 1]), es[|es| - 1]);
    }
  }

  /** The log is right after every run. */
  lemma RunLogged(mode: Mode, es: seq<Event>)
    ensures Logged(Run(mode, es))
  {
    hide Inv, Logged;
    InitialInv(mode);
    InitialLogged(mode);
    RunFromLogged(Initial(mode), es);
  }
}
