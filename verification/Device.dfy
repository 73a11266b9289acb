/**
  The programmer's state and its atomic steps: a button press, a tick of the timer, one turn of the main loop. The
  outside world, the file, the board, the connection and the server, is an input of a turn.
*/
module Device {

  datatype Status = BinNotFound | Disconnected | Connected | Programing | ProgramSuccess | ProgramFail

  datatype Mode = CodeMode | UidMode

  datatype EventFlags = EventFlags(
    binFileExist: bool, boardConnected: bool, startProgram: bool, resetDevStatus: bool,
    modeSwitch: bool, uidAvailable: bool, uidProgramSuccess: bool, notifyDone: bool)

  datatype NetworkEvent = NetworkEvent(
    authorizeReq: bool, heartbeat: bool, uidReq: bool, notifyResult: bool,
    offline: bool, firstConnect: bool, authorizePass: bool)

  datatype MsgId = Invalid | Auth | GetUid | Notify

  datatype MsgHandle = MsgHandle(sendId: MsgId, recvId: MsgId, recvRespCode: int)

  const TIMER_RANGE: nat := 0x1_0000_0000
  const RESEND_PERIOD: nat := 5
  const HEARTBEAT_PERIOD: nat := 30

  const API_AUTH: int := 1
  const API_HEARTBEAT: int := 2
  const API_GET_UID: int := 10
  const API_NOTIFY: int := 20

  const RESP_DEFAULT: int := 0
  const RESP_ERROR: int := 4
  const RESP_SUCCESS: int := 100

  /** What is received in one turn: nothing, or a text that may lack what a reply needs. */
  datatype Reply = Nothing | NotJson | Lacking | Reply(apiId: int, respCode: int, hasUid: bool)

  /** What the world does during one turn of the main loop. */
  datatype World = World(
    binFound: bool, boardFound: bool, connects: bool, heartbeatSent: bool, sent: bool, reply: Reply, programmed: bool)

  datatype State = State(
    devStatus: Status, mode: Mode, events: EventFlags, net: NetworkEvent, msg: MsgHandle,
    sendMsgTime: nat, systemTimer: nat)

  /** An attempt to send a request: whether it starts the request, whether the socket took it, and the one bit of news
      in it, "reconnect" in an authorisation and "result" in a notification. */
  datatype Try = Try(id: MsgId, first: bool, accepted: bool, time: nat, told: bool)

  /** What has happened, for the sake of the statements about runs only. */
  datatype History = History(
    clock: nat, tries: seq<Try>, heard: set<MsgId>, authSinceConnect: bool,
    uidReplies: nat, uidCalls: nat, notifyReplies: nat, exits: nat, log: Log)

  /** What has been done to the device and what it has done. */
  datatype Log = Log(
    connects: nat,         // connections made
    idStarts: nat,         // presses of the start button with a board connected, on ids
    codeStarts: nat,       // and on code
    codeCalls: nat,        // programs run on code
    startPressed: bool,    // such a press on code since the last turn
    resetPressed: bool,    // a press of the start button since the result has been shown
    called: bool,          // a program has been run
    lastOk: bool,          // and the last one was a success
    idOk: bool,            // the last one on an id was a success
    switched: bool,        // a mode switch has been seen to since
    beats: nat)            // heartbeats attempted

  datatype System = System(s: State, h: History)

  // ----- Interrupts and ticks -----

  const NO_EVENTS := EventFlags(false, false, false, false, false, false, false, false)
  const NO_NETWORK := NetworkEvent(false, false, false, false, true, true, false)

  const NO_LOG := Log(0, 0, 0, 0, false, false, false, false, false, false, 0)

  function Initial(mode: Mode): System {
    System(State(if mode == UidMode then Disconnected else BinNotFound, mode, NO_EVENTS, NO_NETWORK,
                 MsgHandle(Invalid, Invalid, RESP_DEFAULT), 0, 0),
           History(0, [], {}, false, 0, 0, 0, 0, NO_LOG))
  }

  /** The start button asks for a program or for an id. */
  function AskForWork(s: State): State {
    if s.devStatus != Connected then s
    else if s.mode == CodeMode then s.(events := s.events.(startProgram := true))
    else s.(net := s.net.(uidReq := true))
  }

  /** And it puts away the last result. */
  function AskForReset(s: State): State {
    if s.devStatus == ProgramFail || s.devStatus == ProgramSuccess then s.(events := s.events.(resetDevStatus := true))
    else s
  }

  predicate ShowsResult(s: State) {
    s.devStatus == ProgramFail || s.devStatus == ProgramSuccess
  }

  /** What a press of the start button adds to the log. */
  function Pressed(s: State, l: Log): Log {
    var on, code := s.devStatus == Connected, s.mode == CodeMode;
    l.(idStarts := l.idStarts + (if on && !code then 1 else 0),
       codeStarts := l.codeStarts + (if on && code then 1 else 0),
       startPressed := l.startPressed || (on && code),
       resetPressed := l.resetPressed || ShowsResult(s))
  }

  /** The start button; a bounce of its contact does nothing. */
  function Sw2(y: System, steady: bool): System {
    if steady then y.(s := AskForReset(AskForWork(y.s)), h := y.h.(log := Pressed(y.s, y.h.log))) else y
  }

  /** The mode button. */
  function Sw3(y: System, steady: bool): System {
    if !steady then y
    else
      var mode := if y.s.mode == CodeMode then UidMode else CodeMode;
      y.(s := y.s.(mode := mode, events := y.s.events.(modeSwitch := true)))
  }

  function Tick(y: System): System {
    var t := (y.s.systemTimer + 1) % TIMER_RANGE;
    var beat := y.s.net.heartbeat || (y.s.mode == UidMode && t % HEARTBEAT_PERIOD == 0 && !y.s.net.offline);
    y.(s := y.s.(systemTimer := t, net := y.s.net.(heartbeat := beat)), h := y.h.(clock := y.h.clock + 1))
  }

  // ----- The parts of a turn -----

  function SwitchMode(y: System): System {
    var h := y.h.(log := y.h.log.(switched := true, startPressed := false, resetPressed := false));
    if !y.s.events.modeSwitch then y
    else if y.s.mode == UidMode then
      y.(s := y.s.(events := NO_EVENTS, net := NO_NETWORK, devStatus := Disconnected), h := h)
    else y.(s := y.s.(events := NO_EVENTS, devStatus := BinNotFound), h := h)
  }

  function Detect(y: System, w: World): System {
    var bin := if y.s.mode == CodeMode then w.binFound else y.s.events.binFileExist;
    y.(s := y.s.(events := y.s.events.(binFileExist := bin, boardConnected := w.boardFound)))
  }

  /** Connects when offline, or sends a heartbeat that is due. */
  function CheckNetwork(y: System, w: World): System {
    var n := y.s.net;
    if n.offline then
      if !w.connects then y
      else y.(s := y.s.(net := n.(firstConnect := false, offline := false, authorizeReq := true)),
              h := y.h.(authSinceConnect := false, log := y.h.log.(connects := y.h.log.connects + 1)))
    else if !n.heartbeat then y
    else
      var h := y.h.(log := y.h.log.(beats := y.h.log.beats + 1));
      if w.heartbeatSent then y.(s := y.s.(net := n.(heartbeat := false)), h := h)
      else y.(s := y.s.(net := n.(heartbeat := false, offline := true, authorizePass := false)), h := h)
  }

  /** The bit of news in a request. */
  predicate Told(s: State, id: MsgId) {
    match id
    case Auth => !s.net.firstConnect
    case Notify => s.events.uidProgramSuccess
    case _ => false
  }

  /** An attempt to send; a refused one leaves the time of the last sending alone. */
  function SendMsg(y: System, id: MsgId, first: bool, sent: bool): System {
    var h := y.h.(tries := y.h.tries + [Try(id, first, sent, y.h.clock, Told(y.s, id))]);
    if sent then y.(s := y.s.(msg := y.s.msg.(sendId := id), sendMsgTime := y.s.systemTimer), h := h)
    else y.(h := h)
  }

  /** The 32-bit difference of the timer and the time of the last sending. */
  function Waited(s: State): int {
    (s.systemTimer - s.sendMsgTime) % TIMER_RANGE
  }

  function Request(y: System, id: MsgId, net: NetworkEvent, sent: bool): System {
    SendMsg(y.(s := y.s.(msg := y.s.msg.(sendId := id), net := net)), id, true, sent)
  }

  /** Repeats the request that is outstanding, or starts the next one that is flagged. */
  function SendNext(y: System, sent: bool): System {
    var n := y.s.net;
    if y.s.msg.sendId != Invalid then
      if Waited(y.s) >= RESEND_PERIOD then SendMsg(y, y.s.msg.sendId, false, sent) else y
    else if n.authorizeReq then Request(y, Auth, n.(authorizeReq := false), sent)
    else if n.uidReq then Request(y, GetUid, n.(uidReq := false), sent)
    else if n.notifyResult then Request(y, Notify, n.(notifyResult := false), sent)
    else y
  }

  function IdOf(apiId: int): MsgId {
    if apiId == API_AUTH then Auth
    else if apiId == API_GET_UID then GetUid
    else if apiId == API_NOTIFY then Notify
    else Invalid
  }

  /** What a reply says, before it is decided whether it ends the request. */
  function Heed(y: System, r: Reply): System
    requires r.Reply?
  {
    var id, good := IdOf(r.apiId), r.respCode == RESP_SUCCESS;
    var msg := y.s.msg.(recvRespCode := r.respCode, recvId := if id == Invalid then y.s.msg.recvId else id);
    var z := y.(s := y.s.(msg := msg), h := y.h.(heard := if id == Invalid then y.h.heard else y.h.heard + {id}));
    match id
    case Invalid => z
    case Auth =>
      if good then z.(s := z.s.(net := z.s.net.(authorizePass := true)), h := z.h.(authSinceConnect := true)) else z
    case GetUid =>
      if good && r.hasUid then
        z.(s := z.s.(events := z.s.events.(uidAvailable := true)), h := z.h.(uidReplies := z.h.uidReplies + 1))
      else z
    case Notify =>
      if good then
        z.(s := z.s.(events := z.s.events.(notifyDone := true)), h := z.h.(notifyReplies := z.h.notifyReplies + 1))
      else z
  }

  /** The request ends when the last kind of reply recognised is its own and the last code received is success. */
  predicate Ends(m: MsgHandle) {
    m.sendId == m.recvId && m.recvRespCode == RESP_SUCCESS
  }

  function Receive(y: System, r: Reply): System {
    if !r.Reply? then y
    else
      var z := Heed(y, r);
      if Ends(z.s.msg) then
        z.(s := z.s.(msg := MsgHandle(Invalid, Invalid, RESP_DEFAULT)), h := z.h.(heard := {}))
      else z
  }

  function Transceive(y: System, w: World): System {
    if y.s.net.offline then y else Receive(SendNext(y, w.sent), w.reply)
  }

  function Network(y: System, w: World): System {
    if y.s.mode == UidMode then Transceive(CheckNetwork(y, w), w) else y
  }

  /** The device may work: always on code, on an id only when the server has let it in. */
  predicate MayWork(s: State) {
    s.mode == CodeMode || s.net.authorizePass
  }

  function UpdateConnected(s: State): State {
    var e := s.events;
    var s1 := if !e.boardConnected then s.(devStatus := Disconnected, events := e.(startProgram := false)) else s;
    var s2 :=
      if s1.events.startProgram then s1.(devStatus := Programing, events := s1.events.(startProgram := false)) else s1;
    if s.mode == CodeMode then
      if !e.binFileExist then s2.(devStatus := BinNotFound, events := s2.events.(startProgram := false)) else s2
    else if e.uidAvailable then s2.(devStatus := Programing, events := s2.events.(uidAvailable := false))
    else s2
  }

  function UpdateDisconnected(s: State): State {
    var status :=
      if !s.events.binFileExist && s.mode == CodeMode then BinNotFound
      else if s.events.boardConnected then Connected
      else Disconnected;
    s.(devStatus := status)
  }

  /** The state after a program has run. */
  function UpdatePrograming(y: System, programmed: bool): System {
    var status := if programmed then ProgramSuccess else ProgramFail;
    var l := y.h.log.(called := true, lastOk := programmed, resetPressed := false);
    if y.s.mode == CodeMode then
      y.(s := y.s.(devStatus := status), h := y.h.(log := l.(codeCalls := l.codeCalls + 1)))
    else
      y.(s := y.s.(devStatus := status, events := y.s.events.(uidProgramSuccess := programmed),
                   net := y.s.net.(notifyResult := true)),
         h := y.h.(uidCalls := y.h.uidCalls + 1, log := l.(idOk := programmed, switched := false)))
  }

  function UpdateDone(y: System): System {
    var e := y.s.events;
    if !e.resetDevStatus then y
    else if y.s.mode == CodeMode then y.(s := y.s.(devStatus := Connected, events := e.(resetDevStatus := false)))
    else if e.notifyDone then
      y.(s := y.s.(devStatus := Connected, events := e.(resetDevStatus := false, notifyDone := false)),
         h := y.h.(exits := y.h.exits + 1))
    else y
  }

  function Update(y: System, w: World): System {
    match y.s.devStatus
    case BinNotFound => if y.s.events.binFileExist then y.(s := y.s.(devStatus := Disconnected)) else y
    case Connected => y.(s := UpdateConnected(y.s))
    case Disconnected => y.(s := UpdateDisconnected(y.s))
    case Programing => UpdatePrograming(y, w.programmed)
    case ProgramSuccess => UpdateDone(y)
    case ProgramFail => UpdateDone(y)
  }

  /** A turn up to the decision whether the device may work. */
  function BeforeUpdate(y: System, w: World): System {
    Network(Detect(SwitchMode(y), w), w)
  }

  function Work(z: System, w: World): System {
    if MayWork(z.s) then Update(z, w) else z
  }

  function Turn(y: System, w: World): System {
    var z := Work(BeforeUpdate(y, w), w);
    z.(h := z.h.(log := z.h.log.(startPressed := false)))
  }

  // ----- Runs -----

  datatype Event = PressSw2(steady: bool) | PressSw3(steady: bool) | Second | MainTurn(w: World)

  function Step(y: System, e: Event): System {
    match e
    case PressSw2(steady) => Sw2(y, steady)
    case PressSw3(steady) => Sw3(y, steady)
    case Second => Tick(y)
    case MainTurn(w) => Turn(y, w)
  }

  /** The state that a run of events from y on ends in. */
  function RunFrom(y: System, es: seq<Event>): System {
    if es == [] then y else Step(RunFrom(y, es[..|es| - 1]), es[|es| - 1])
  }

  /** The same for a device that has just been switched on. */
  function Run(mode: Mode, es: seq<Event>): System {
    RunFrom(Initial(mode), es)
  }
}
