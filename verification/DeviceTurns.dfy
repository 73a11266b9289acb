/** What one turn of the main loop does, read off what the device has shown, what has been pressed and what the world
    does: which request is sent, and what the device shows next. This holds of every turn of every run. */
module DeviceTurns {
  import opened Device
  import opened DeviceRuns
  import opened DeviceLog

  // ----- What the turn finds -----

  /** A switch to ids is still to be seen to. */
  predicate ToIds(s: State) {
    s.events.modeSwitch && s.mode == UidMode
  }

  /** There is no connection when the turn starts. */
  predicate Parted(s: State) {
    s.net.offline || ToIds(s)
  }

  /** There is one when it comes to sending. */
  predicate Reaches(s: State, w: World) {
    && s.mode == UidMode
    && if Parted(s) then w.connects else !(s.net.heartbeat && !w.heartbeatSent)
  }

  /** A request of this kind is asked for when it comes to sending. */
  predicate Asked(s: State, w: World, id: MsgId) {
    match id
    case Auth => (Parted(s) && w.connects) || (!ToIds(s) && s.net.authorizeReq)
    case GetUid => !ToIds(s) && s.net.uidReq
    case Notify => !ToIds(s) && s.net.notifyResult
    case Invalid => false
  }

  /** The request that comes first of those: authorisation, then an id, then the report of a result. */
  function Wanted(s: State, w: World): MsgId {
    if Asked(s, w, Auth) then Auth
    else if Asked(s, w, GetUid) then GetUid
    else if Asked(s, w, Notify) then Notify
    else Invalid
  }

  /** The request that the turn starts. */
  function Started(s: State, w: World): MsgId {
    if Reaches(s, w) && s.msg.sendId == Invalid then Wanted(s, w) else Invalid
  }

  /** Five seconds or more have passed since the last sending, as far as 32 bits go. */
  predicate Overdue(y: System) {
    (y.h.clock - LastSent(y.h.tries)) % 0x1_0000_0000 >= 5
  }

  /** An authorisation says that it is for a reconnection; a report says how the last program on an id went, unless a
      mode switch has been seen to since. */
  predicate News(y: System, id: MsgId) {
    match id
    case Auth => true
    case Notify => y.h.log.idOk && !y.h.log.switched && !y.s.events.modeSwitch
    case _ => false
  }

  /** What the turn sends. */
  function Sent(y: System, w: World): seq<Try> {
    if !Reaches(y.s, w) then []
    else if y.s.msg.sendId != Invalid then
      if Overdue(y) then [Try(y.s.msg.sendId, false, w.sent, y.h.clock, News(y, y.s.msg.sendId))] else []
    else if Wanted(y.s, w) == Invalid then []
    else [Try(Wanted(y.s, w), true, w.sent, y.h.clock, News(y, Wanted(y.s, w)))]
  }

  /** The reply is a success of this kind. */
  predicate Granted(r: Reply, api: int) {
    r.Reply? && r.apiId == api && r.respCode == 100
  }

  /** The device is let in when it comes to working. */
  predicate LetIn(s: State, w: World) {
    Reaches(s, w) && ((!Parted(s) && s.net.authorizePass) || Granted(w.reply, 1))
  }

  predicate IdHere(s: State, w: World) {
    (!ToIds(s) && s.events.uidAvailable) || (Reaches(s, w) && Granted(w.reply, 10) && w.reply.hasUid)
  }

  predicate Acknowledged(s: State, w: World) {
    (!ToIds(s) && s.events.notifyDone) || (Reaches(s, w) && Granted(w.reply, 20))
  }

  /** The status the turn starts from. */
  function From(s: State): Status {
    if !s.events.modeSwitch then s.devStatus else if s.mode == UidMode then Disconnected else BinNotFound
  }

  // ----- What it makes of that -----

  /** The request that is waited for once it has been sent. */
  function Awaited(s: State, w: World): MsgId {
    if s.msg.sendId != Invalid then s.msg.sendId else Started(s, w)
  }

  /** The kind of the last reply that was about a request. */
  function Latest(s: State, apiId: int): MsgId {
    match apiId
    case 1 => Auth
    case 10 => GetUid
    case 20 => Notify
    case _ => s.msg.recvId
  }

  /** The reply ends the request: it is a success, and the last reply about a request has been about this one. */
  predicate Closes(s: State, w: World) {
    && Reaches(s, w) && w.reply.Reply? && w.reply.respCode == 100
    && Latest(s, w.reply.apiId) == Awaited(s, w)
  }

  /** The kind that is remembered for the next reply. */
  function Remembered(s: State, w: World): MsgId {
    if Closes(s, w) then Invalid else if Reaches(s, w) && w.reply.Reply? then Latest(s, w.reply.apiId) else s.msg.recvId
  }

  /** Exactly what is due is sent, the flag of what is started is cleared and no other one, and a program on an id
      asks for a report. */
  predicate RequestsRight(y: System, w: World, z: System) {
    var s, n := y.s, z.s.net;
    && z.h.tries == y.h.tries + Sent(y, w)
    && (s.mode == UidMode ==>
          && (n.offline <==> !Reaches(s, w)) && !n.heartbeat
          && (n.authorizePass <==> LetIn(s, w))
          && (n.authorizeReq <==> Asked(s, w, Auth) && Started(s, w) != Auth)
          && (n.uidReq <==> Asked(s, w, GetUid) && Started(s, w) != GetUid)
          && (n.notifyResult <==>
                (Asked(s, w, Notify) && Started(s, w) != Notify) || (LetIn(s, w) && From(s) == Programing)))
    && (s.mode == CodeMode ==> n == s.net)
    && z.s.msg.sendId == (if Closes(s, w) then Invalid else Awaited(s, w))
    && z.s.msg.recvId == Remembered(s, w)
  }

  /** On code the status follows the file, the board, the start button and the outcome of the program. */
  predicate CodeRight(y: System, w: World, after: Status) {
    var from, l := From(y.s), y.h.log;
    var pressed, reset := l.startPressed && !y.s.events.modeSwitch, l.resetPressed && !y.s.events.modeSwitch;
    if from == Programing then after == (if w.programmed then ProgramSuccess else ProgramFail)
    else if from == ProgramSuccess || from == ProgramFail then after == (if reset then Connected else from)
    else
      && (after == BinNotFound <==> !w.binFound)
      && (after == Disconnected <==> w.binFound && (from == BinNotFound || !w.boardFound))
      && (after == Connected <==>
            w.binFound && w.boardFound && (from == Disconnected || (from == Connected && !pressed)))
      && (after == Programing <==> w.binFound && w.boardFound && from == Connected && pressed)
  }

  /** On ids it follows the board, the id, the outcome of the program and the acknowledgement, while the device is let
      in. */
  predicate IdRight(y: System, w: World, after: Status) {
    var from, s := From(y.s), y.s;
    var reset := y.h.log.resetPressed && !s.events.modeSwitch;
    if !LetIn(s, w) then after == from
    else if from == Programing then after == (if w.programmed then ProgramSuccess else ProgramFail)
    else if from == ProgramSuccess || from == ProgramFail then
      after == (if reset && Acknowledged(s, w) then Connected else from)
    else
      && (after == Programing <==> from == Connected && IdHere(s, w))
      && (after == Connected <==> w.boardFound && !(from == Connected && IdHere(s, w)))
      && (after == Disconnected <==> !w.boardFound && !(from == Connected && IdHere(s, w)))
  }

  /** The other flags: an id that is there waits for a connected device, an acknowledgement for a press of the start
      button; the outcome to be reported is that of the last program on an id. */
  predicate EventsRight(y: System, w: World, z: System) {
    var s, from, e := y.s, From(y.s), z.s.events;
    var done := from == ProgramSuccess || from == ProgramFail;
    var reset := s.events.resetDevStatus && !s.events.modeSwitch;
    && e.boardConnected == w.boardFound && !e.modeSwitch && !e.startProgram
    && (s.mode == CodeMode ==>
          && e.binFileExist == w.binFound && !e.resetDevStatus
          && (e.uidAvailable <==> s.events.uidAvailable && !s.events.modeSwitch)
          && (e.notifyDone <==> s.events.notifyDone && !s.events.modeSwitch)
          && (e.uidProgramSuccess <==> s.events.uidProgramSuccess && !s.events.modeSwitch))
    && (s.mode == UidMode ==>
          && (e.uidAvailable <==> IdHere(s, w) && !(LetIn(s, w) && from == Connected))
          && (e.resetDevStatus <==> reset && !(LetIn(s, w) && done && Acknowledged(s, w)))
          && (e.notifyDone <==> Acknowledged(s, w) && !(LetIn(s, w) && done && reset))
          && (e.uidProgramSuccess <==>
                if LetIn(s, w) && from == Programing then w.programmed
                else s.events.uidProgramSuccess && !s.events.modeSwitch))
  }

  predicate StatusRight(y: System, w: World, z: System) {
    && (y.s.mode == CodeMode ==> CodeRight(y, w, z.s.devStatus))
    && (y.s.mode == UidMode ==> IdRight(y, w, z.s.devStatus))
    && z.s.mode == y.s.mode && !z.s.events.modeSwitch && !z.s.events.startProgram
  }

  // ----- Before the work -----

  /** The status, the mode and the events up to where the turn sends. */
  predicate Settled(y: System, w: World, d: System) {
    && d.s.devStatus == From(y.s) && d.s.mode == y.s.mode && !d.s.events.modeSwitch
    && d.s.events.boardConnected == w.boardFound && (y.s.mode == CodeMode ==> d.s.events.binFileExist == w.binFound)
    && d.s.events.startProgram == (y.s.events.startProgram && !y.s.events.modeSwitch)
    && d.s.events.resetDevStatus == (y.s.events.resetDevStatus && !y.s.events.modeSwitch)
    && d.s.events.uidAvailable == (y.s.events.uidAvailable && !y.s.events.modeSwitch)
    && d.s.events.notifyDone == (y.s.events.notifyDone && !y.s.events.modeSwitch)
    && d.s.events.uidProgramSuccess == (y.s.events.uidProgramSuccess && !y.s.events.modeSwitch)
  }

  /** Nothing has been sent yet. */
  predicate Unsent(y: System, d: System) {
    && d.s.msg == y.s.msg && d.h.tries == y.h.tries && d.h.clock == y.h.clock
    && d.s.systemTimer == y.s.systemTimer && d.s.sendMsgTime == y.s.sendMsgTime
  }

  lemma SettledTurn(y: System, w: World)
    ensures var d := Detect(SwitchMode(y), w);
      Settled(y, w, d) && Unsent(y, d) && d.s.net == (if ToIds(y.s) then NO_NETWORK else y.s.net)
  {}

  /** The network before the turn sends. */
  predicate Ready(y: System, w: World, n: NetworkEvent) {
    && (n.offline <==> !Reaches(y.s, w)) && !n.heartbeat
    && (Reaches(y.s, w) ==> !n.firstConnect)
    && (n.authorizeReq <==> Asked(y.s, w, Auth))
    && (n.uidReq <==> Asked(y.s, w, GetUid))
    && (n.notifyResult <==> Asked(y.s, w, Notify))
    && (n.authorizePass <==> Reaches(y.s, w) && !Parted(y.s) && y.s.net.authorizePass)
  }

  lemma Checked(y: System, w: World, d: System)
    requires Settled(y, w, d) && Unsent(y, d) && d.s.net == (if ToIds(y.s) then NO_NETWORK else y.s.net)
    requires y.s.mode == UidMode && Networked(y) && Authorised(y)
    ensures var c := CheckNetwork(d, w);
      Ready(y, w, c.s.net) && Settled(y, w, c) && Unsent(y, c)
  {
    hide Due, Reconnects;
  }

  lemma OverdueWaited(y: System)
    requires Timed(y)
    ensures Overdue(y) <==> Waited(y.s) >= RESEND_PERIOD
  {
    hide LastSent;
    RealWait(y.h.clock, LastSent(y.h.tries));
  }

  lemma NewsTold(y: System, s: State, id: MsgId)
    requires Shown(y) && !s.net.firstConnect
    requires s.events.uidProgramSuccess == (y.s.events.uidProgramSuccess && !y.s.events.modeSwitch)
    ensures Told(s, id) == News(y, id)
  {}

  /** The network after the turn has sent. */
  predicate Flagged(y: System, w: World, c: NetworkEvent, n: NetworkEvent) {
    && n == c.(authorizeReq := n.authorizeReq, uidReq := n.uidReq, notifyResult := n.notifyResult)
    && (n.authorizeReq <==> Asked(y.s, w, Auth) && Started(y.s, w) != Auth)
    && (n.uidReq <==> Asked(y.s, w, GetUid) && Started(y.s, w) != GetUid)
    && (n.notifyResult <==> Asked(y.s, w, Notify) && Started(y.s, w) != Notify)
  }

  lemma RequestSent(y: System, c: System, id: MsgId, net: NetworkEvent, sent: bool)
    requires Shown(y) && !net.firstConnect && c.h.tries == y.h.tries && c.h.clock == y.h.clock
    requires c.s.events.uidProgramSuccess == (y.s.events.uidProgramSuccess && !y.s.events.modeSwitch)
    ensures var m := Request(c, id, net, sent);
      && m.h.tries == y.h.tries + [Try(id, true, sent, y.h.clock, News(y, id))]
      && m.s == c.s.(net := net, msg := c.s.msg.(sendId := id), sendMsgTime := m.s.sendMsgTime)
  {
    hide Told, News, Shown;
    NewsTold(y, c.s.(net := net), id);
    NewsTold(y, c.s.(net := net, msg := c.s.msg.(sendId := id)), id);
  }

  /** What sending leaves alone. */
  predicate Same(c: State, m: State) {
    m == c.(net := m.net, msg := c.msg.(sendId := m.msg.sendId), sendMsgTime := m.sendMsgTime)
  }

  lemma FirstSent(y: System, w: World, c: System)
    requires Ready(y, w, c.s.net) && Settled(y, w, c) && Unsent(y, c) && Reaches(y.s, w) && Shown(y)
    requires y.s.msg.sendId == Invalid
    ensures var m := SendNext(c, w.sent);
      && m.h.tries == y.h.tries + Sent(y, w) && Flagged(y, w, c.s.net, m.s.net)
      && m.s.msg.sendId == Awaited(y.s, w) && Same(c.s, m.s)
  {
    hide Asked, Reaches, Told, News, Parted, Request, Shown;
    var n := c.s.net;
    if n.authorizeReq {
      RequestSent(y, c, Auth, n.(authorizeReq := false), w.sent);
    } else if n.uidReq {
      RequestSent(y, c, GetUid, n.(uidReq := false), w.sent);
    } else if n.notifyResult {
      RequestSent(y, c, Notify, n.(notifyResult := false), w.sent);
    }
  }

  lemma AgainSent(y: System, w: World, c: System)
    requires Ready(y, w, c.s.net) && Settled(y, w, c) && Unsent(y, c) && Reaches(y.s, w) && Shown(y) && Timed(y)
    requires y.s.msg.sendId != Invalid
    ensures var m := SendNext(c, w.sent);
      && m.h.tries == y.h.tries + Sent(y, w) && Flagged(y, w, c.s.net, m.s.net)
      && m.s.msg.sendId == Awaited(y.s, w) && Same(c.s, m.s)
  {
    hide Asked, Reaches, Told, News, Parted, Shown, Overdue, Timed;
    OverdueWaited(y);
    NewsTold(y, c.s, y.s.msg.sendId);
  }

  /** The flags that a reply sets. */
  predicate Sets(m: State, z: State, r: Reply) {
    && z.net == m.net.(authorizePass := m.net.authorizePass || Granted(r, 1))
    && z.events == m.events.(
         uidAvailable := m.events.uidAvailable || (Granted(r, 10) && r.hasUid),
         notifyDone := m.events.notifyDone || Granted(r, 20))
    && z.devStatus == m.devStatus && z.mode == m.mode
  }

  lemma NothingSet(s: State, m: MsgHandle, r: Reply)
    requires !Granted(r, 1) && !(Granted(r, 10) && r.hasUid) && !Granted(r, 20)
    ensures Sets(s, s.(msg := m), r)
  {}

  lemma HeedSets(m: System, r: Reply)
    requires r.Reply?
    ensures Sets(m.s, Heed(m, r).s, r)
  {
    hide Sets;
    var msg := Heed(m, r).s.msg;
    if !Granted(r, 1) && !(Granted(r, 10) && r.hasUid) && !Granted(r, 20) {
      NothingSet(m.s, msg, r);
    } else {
      OneSet(m.s, msg, r);
    }
  }

  lemma OneSet(s: State, m: MsgHandle, r: Reply)
    ensures Granted(r, 1) ==> Sets(s, s.(msg := m, net := s.net.(authorizePass := true)), r)
    ensures Granted(r, 10) && r.hasUid ==> Sets(s, s.(msg := m, events := s.events.(uidAvailable := true)), r)
    ensures Granted(r, 20) ==> Sets(s, s.(msg := m, events := s.events.(notifyDone := true)), r)
  {}

  lemma Heeded(m: System, r: Reply)
    ensures Sets(m.s, Receive(m, r).s, r) && Receive(m, r).h.tries == m.h.tries
  {
    hide Heed;
    ReceiveKeeps(m, r);
    if r.Reply? {
      HeedSets(m, r);
    }
  }

  lemma Closed(m: System, r: Reply)
    ensures Receive(m, r).s.msg.sendId ==
            if r.Reply? && r.respCode == 100 && Latest(m.s, r.apiId) == m.s.msg.sendId then Invalid else m.s.msg.sendId
    ensures Receive(m, r).s.msg.recvId ==
            if !r.Reply? then m.s.msg.recvId
            else if r.respCode == 100 && Latest(m.s, r.apiId) == m.s.msg.sendId then Invalid
            else Latest(m.s, r.apiId)
  {}

  /** Where the turn may work, on ids. */
  predicate Linked(y: System, w: World, u: System) {
    var n := u.s.net;
    && u.h.tries == y.h.tries + Sent(y, w)
    && (n.offline <==> !Reaches(y.s, w)) && !n.heartbeat && (n.authorizePass <==> LetIn(y.s, w))
    && (n.authorizeReq <==> Asked(y.s, w, Auth) && Started(y.s, w) != Auth)
    && (n.uidReq <==> Asked(y.s, w, GetUid) && Started(y.s, w) != GetUid)
    && (n.notifyResult <==> Asked(y.s, w, Notify) && Started(y.s, w) != Notify)
    && u.s.msg.sendId == (if Closes(y.s, w) then Invalid else Awaited(y.s, w))
    && u.s.msg.recvId == Remembered(y.s, w)
    && u.s.devStatus == From(y.s) && u.s.mode == y.s.mode && !u.s.events.modeSwitch
    && u.s.events.boardConnected == w.boardFound
    && u.s.events.startProgram == (y.s.events.startProgram && !y.s.events.modeSwitch)
    && u.s.events.resetDevStatus == (y.s.events.resetDevStatus && !y.s.events.modeSwitch)
    && (u.s.events.uidAvailable <==> IdHere(y.s, w)) && (u.s.events.notifyDone <==> Acknowledged(y.s, w))
    && u.s.events.uidProgramSuccess == (y.s.events.uidProgramSuccess && !y.s.events.modeSwitch)
  }

  lemma LinkedReached(y: System, w: World, c: System, m: System)
    requires y.s.mode == UidMode && Reaches(y.s, w)
    requires Ready(y, w, c.s.net) && Settled(y, w, c) && c.s.msg == y.s.msg
    requires m.h.tries == y.h.tries + Sent(y, w) && Flagged(y, w, c.s.net, m.s.net)
    requires m.s.msg.sendId == Awaited(y.s, w) && Same(c.s, m.s)
    ensures Linked(y, w, Receive(m, w.reply))
  {
    hide Receive, Sent, Reaches, Asked, Started, Awaited, From, Parted;
    Heeded(m, w.reply);
    Closed(m, w.reply);
  }

  lemma LinkedApart(y: System, w: World, c: System)
    requires y.s.mode == UidMode && !Reaches(y.s, w) && Ready(y, w, c.s.net) && Settled(y, w, c) && Unsent(y, c)
    ensures Linked(y, w, c)
  {
    hide Reaches, Asked, From, Parted;
  }

  lemma SettledMode(y: System, w: World, d: System)
    requires Settled(y, w, d)
    ensures d.s.mode == y.s.mode
  {}

  lemma LinkedTurn(y: System, w: World)
    requires Inv(y) && Logged(y) && y.s.mode == UidMode
    ensures Linked(y, w, BeforeUpdate(y, w))
  {
    hide Detect, SwitchMode, CheckNetwork, SendNext, Receive, Linked, Settled, Reaches, Flagged, Timed, Shown, Sent,
      Same;
    hide Awaited, Exclusive, Accounted, Caused, Pressing, Networked, Authorised;
    var d := Detect(SwitchMode(y), w);
    SettledTurn(y, w);
    Checked(y, w, d);
    var c := CheckNetwork(d, w);
    SettledMode(y, w, d);
    if Reaches(y.s, w) {
      if y.s.msg.sendId == Invalid {
        FirstSent(y, w, c);
      } else {
        AgainSent(y, w, c);
      }
      LinkedReached(y, w, c, SendNext(c, w.sent));
    } else {
      LinkedApart(y, w, c);
    }
  }

  // ----- The work -----

  lemma UidWorks(y: System, w: World, u: System)
    requires Linked(y, w, u) && y.s.mode == UidMode && Pressing(y) && Pressing(u) && Networked(u) && Accounted(u)
    ensures var z := Work(u, w);
      IdRight(y, w, z.s.devStatus) && z.s.mode == y.s.mode && !z.s.events.modeSwitch
  {
    hide LetIn, IdHere, Acknowledged, Reaches, Asked, Sent, Started, Closes, Awaited, Due, Reconnects;
  }

  lemma UidAsks(y: System, w: World, u: System)
    requires Linked(y, w, u) && y.s.mode == UidMode
    ensures RequestsRight(y, w, Work(u, w))
  {
    hide LetIn, IdHere, Acknowledged, Reaches, Asked, Sent, Started, Closes, Awaited, Remembered;
  }

  lemma CodeUpdates(y: System, w: World, u: System)
    requires Settled(y, w, u) && y.s.mode == CodeMode && Pressing(y)
    ensures var z := Update(u, w);
      CodeRight(y, w, z.s.devStatus) && z.s.mode == y.s.mode && !z.s.events.modeSwitch
  {}

  lemma CodeWorks(y: System, w: World)
    requires y.s.mode == CodeMode && Pressing(y)
    ensures var z := Work(BeforeUpdate(y, w), w);
      CodeRight(y, w, z.s.devStatus) && z.s.mode == y.s.mode && !z.s.events.modeSwitch
  {
    hide Pressing, Update, CodeRight, Detect, SwitchMode, Settled;
    SettledTurn(y, w);
    SettledMode(y, w, BeforeUpdate(y, w));
    CodeUpdates(y, w, BeforeUpdate(y, w));
  }

  lemma UidFlags(y: System, w: World, u: System)
    requires Linked(y, w, u) && y.s.mode == UidMode && Accounted(u)
    ensures EventsRight(y, w, Work(u, w))
  {
    hide LetIn, IdHere, Acknowledged, Reaches, Asked, Sent, Started, Closes, Awaited, Remembered;
  }

  lemma CodeFlags(y: System, w: World)
    requires y.s.mode == CodeMode && Pressing(y)
    ensures EventsRight(y, w, Work(BeforeUpdate(y, w), w))
  {
    hide Pressing, Update, Detect, SwitchMode, Settled;
    SettledTurn(y, w);
    SettledMode(y, w, BeforeUpdate(y, w));
    CodeUpdatesFlags(y, w, BeforeUpdate(y, w));
  }

  lemma CodeUpdatesFlags(y: System, w: World, u: System)
    requires Settled(y, w, u) && y.s.mode == CodeMode && Pressing(y)
    ensures EventsRight(y, w, Update(u, w))
  {}

  lemma CodeAsks(y: System, w: World)
    requires y.s.mode == CodeMode
    ensures RequestsRight(y, w, Work(BeforeUpdate(y, w), w))
  {
    hide Detect, SwitchMode;
    SettledTurn(y, w);
    assert Sent(y, w) == [];
    assert y.h.tries + Sent(y, w) == y.h.tries;
  }

  /** One turn from any state that a run reaches: exactly the requests that are due, and exactly the status that is. */
  lemma TurnRight(y: System, w: World)
    requires Inv(y) && Logged(y)
    ensures RequestsRight(y, w, Turn(y, w)) && StatusRight(y, w, Turn(y, w)) && EventsRight(y, w, Turn(y, w))
  {
    hide Timed, Exclusive, Authorised, Accounted, Caused, Shown, Networked, Pressing;
    hide BeforeUpdate, Work, Linked, IdRight, CodeRight, Sent, Reaches, Asked, Started, LetIn, Closes, Awaited,
      Remembered;
    TurnLogged(y, w);
    if y.s.mode == UidMode {
      var u := BeforeUpdate(y, w);
      TurnInv(y, w);
      LinkedTurn(y, w);
      UidWorks(y, w, u);
      UidAsks(y, w, u);
      UidFlags(y, w, u);
    } else {
      CodeWorks(y, w);
      CodeAsks(y, w);
      CodeFlags(y, w);
    }
  }

  // ----- What that means for a run -----

  /** Every turn of every run sends exactly what is due and shows exactly what is. */
  lemma RunTurn(mode: Mode, es: seq<Event>, w: World)
    ensures var y := Run(mode, es);
      RequestsRight(y, w, Turn(y, w)) && StatusRight(y, w, Turn(y, w)) && EventsRight(y, w, Turn(y, w))
  {
    hide Run, Inv, Logged, RequestsRight, StatusRight, EventsRight;
    RunInv(mode, es);
    RunLogged(mode, es);
    TurnRight(Run(mode, es), w);
  }

  /** In a turn of a device that is online, with nothing outstanding and neither a switch nor a heartbeat to see to, the
      highest flag starts its request and is the only one cleared; without a flag nothing is sent. */
  lemma RunStarts(mode: Mode, es: seq<Event>, w: World)
    requires var s := Run(mode, es).s;
      s.mode == UidMode && !s.events.modeSwitch && !s.net.offline && !s.net.heartbeat && s.msg.sendId == Invalid
    ensures var y, z := Run(mode, es), Turn(Run(mode, es), w);
      var n, m, told := y.s.net, z.s.net, y.h.log.idOk && !y.h.log.switched;
      && z.h.tries == y.h.tries +
           (if n.authorizeReq then [Try(Auth, true, w.sent, y.h.clock, true)]
            else if n.uidReq then [Try(GetUid, true, w.sent, y.h.clock, false)]
            else if n.notifyResult then [Try(Notify, true, w.sent, y.h.clock, told)]
            else [])
      && !m.authorizeReq && (m.uidReq <==> n.uidReq && n.authorizeReq)
      && (n.notifyResult && (n.authorizeReq || n.uidReq) ==> m.notifyResult)
  {
    hide Run, Turn, StatusRight, EventsRight, CodeRight, IdRight, LetIn, From;
    RunTurn(mode, es, w);
  }

  /** Over a run, authorisations are not started more often than connections are made, ids not asked for more often than
      the start button is pressed on a connected board, and reports not started more often than ids are programmed. */
  lemma RunCaused(mode: Mode, es: seq<Event>)
    ensures var h := Run(mode, es).h;
      && Firsts(h.tries, Auth) <= h.log.connects
      && Firsts(h.tries, GetUid) <= h.log.idStarts
      && Firsts(h.tries, Notify) <= h.uidCalls
  {
    hide Run, Firsts;
    RunLogged(mode, es);
  }

  /** Nor is a program run on code more often than that, nor a heartbeat tried more often than one is due. */
  lemma RunPressed(mode: Mode, es: seq<Event>)
    ensures var h := Run(mode, es).h;
      h.log.codeCalls <= h.log.codeStarts && h.log.beats <= Due(h.clock)
  {
    hide Run, Due;
    RunLogged(mode, es);
  }

  /** A result that is shown is the result of the last program. */
  lemma RunShown(mode: Mode, es: seq<Event>)
    ensures var y := Run(mode, es);
      && (y.s.devStatus == ProgramSuccess ==> y.h.log.called && y.h.log.lastOk)
      && (y.s.devStatus == ProgramFail ==> y.h.log.called && !y.h.log.lastOk)
  {
    hide Run;
    RunLogged(mode, es);
  }

  /** Every authorisation that is ever sent asks for a reconnection, the first one too. */
  lemma RunReconnects(mode: Mode, es: seq<Event>, i: nat)
    requires i < |Run(mode, es).h.tries| && Run(mode, es).h.tries[i].id == Auth
    ensures Run(mode, es).h.tries[i].told
  {
    hide Run;
    RunLogged(mode, es);
  }

  // ----- A report that changes on the way -----

  /** Five seconds after it was sent, and with a switch to ids to see to, a report is repeated as the report of a
      failure, whatever the result has been. */
  lemma ReportSpoilt(mode: Mode, es: seq<Event>, w: World)
    requires var y := Run(mode, es);
      ToIds(y.s) && y.s.msg.sendId == Notify && Overdue(y) && w.connects
    ensures var y := Run(mode, es);
      Turn(y, w).h.tries == y.h.tries + [Try(Notify, false, w.sent, y.h.clock, false)]
  {
    hide Run, Turn, Overdue, StatusRight, EventsRight;
    RunTurn(mode, es, w);
  }

  lemma RunOn(y: System, es: seq<Event>, e: Event)
    ensures RunFrom(y, es + [e]) == Step(RunFrom(y, es), e)
  {
    hide Step;
    assert (es + [e])[..|es|] == es;
  }

  /** Time goes by, and nothing else happens. */
  function Wait(k: nat): seq<Event> {
    if k == 0 then [] else Wait(k - 1) + [Second]
  }

  lemma {:induction false} Waits(y: System, es: seq<Event>, k: nat)
    requires RunFrom(y, es).s.systemTimer == RunFrom(y, es).h.clock % TIMER_RANGE
    ensures var a, z := RunFrom(y, es), RunFrom(y, es + Wait(k));
      && z.s == a.s.(systemTimer := z.s.systemTimer, net := z.s.net)
      && z.s.systemTimer == z.h.clock % TIMER_RANGE && z.h == a.h.(clock := a.h.clock + k)
  {
    hide RunFrom;
    if k == 0 {
      assert es + Wait(0) == es;
    } else {
      Waits(y, es, k - 1);
      RunOn(y, es + Wait(k - 1), Second);
      assert es + Wait(k) == es + Wait(k - 1) + [Second];
      NextTick(RunFrom(y, es + Wait(k - 1)).h.clock);
    }
  }

  /** An id is programmed at the time 0, and its success is out to be reported. */
  predicate Reporting(y: System) {
    && y.s.mode == UidMode && y.s.devStatus == ProgramSuccess && y.s.msg.sendId == Notify
    && y.s.systemTimer == 0 && y.h.clock == 0 && y.h.log.lastOk && y.h.log.idOk
    && y.h.tries != [] && y.h.tries[|y.h.tries| - 1] == Try(Notify, true, true, 0, true)
  }

  /** From rest, with the timer at 0, the start button and three turns get there. */
  lemma ReportingSoon(a: System)
    requires AtRest(a.s) && a.s.systemTimer == 0 && a.h.clock == 0
    ensures var id, quiet := Online(true, Reply(API_GET_UID, RESP_SUCCESS, true)), Online(true, Nothing);
      Reporting(Step(Step(Step(Step(a, PressSw2(true)), id), quiet), quiet))
  {
    hide Step;
    PressAsks(a);
    var b := Step(a, PressSw2(true));
    IdGiven(b);
    var c := Step(b, Online(true, Reply(API_GET_UID, RESP_SUCCESS, true)));
    IdProgrammed(c);
    Reported(Step(c, Online(true, Nothing)));
  }

  /** The network is quiet, and the device is let in. */
  const QUIET := NO_NETWORK.(offline := false, firstConnect := false, authorizePass := true)

  /** About to program an id, at the time 0. */
  predicate Given(y: System) {
    && y.s.mode == UidMode && y.s.devStatus == Programing && !y.s.events.modeSwitch && y.s.net == QUIET
    && !y.s.events.resetDevStatus
    && y.s.msg.sendId == Invalid && y.s.systemTimer == 0 && y.h.clock == 0
  }

  lemma IdGiven(b: System)
    requires Asking(b.s) && b.s.systemTimer == 0 && b.h.clock == 0
    ensures Given(Step(b, Online(true, Reply(API_GET_UID, RESP_SUCCESS, true))))
  {
    hide BeforeUpdate;
    var w := Online(true, Reply(API_GET_UID, RESP_SUCCESS, true)).w;
    IdArrives(b, w);
    IdTaken(b, w);
  }

  lemma IdTaken(b: System, w: World)
    requires Asking(b.s) && b.s.systemTimer == 0 && b.h.clock == 0 && w.reply == Reply(API_GET_UID, RESP_SUCCESS, true)
    ensures var u := BeforeUpdate(b, w);
      && u.s.net == QUIET && u.s.msg.sendId == Invalid && !u.s.events.modeSwitch
      && u.s.systemTimer == 0 && u.h.clock == 0
  {
    var d := Detect(SwitchMode(b), w);
    assert CheckNetwork(d, w) == d;
  }

  /** Programmed, and the report not started yet. */
  predicate Unreported(y: System) {
    && y.s.mode == UidMode && y.s.devStatus == ProgramSuccess && !y.s.events.modeSwitch
    && y.s.net == QUIET.(notifyResult := true) && y.s.events.uidProgramSuccess && !y.s.events.resetDevStatus
    && y.s.msg.sendId == Invalid && y.s.systemTimer == 0 && y.h.clock == 0
    && y.h.log.lastOk && y.h.log.idOk && !y.h.log.switched
  }

  lemma IdProgrammed(c: System)
    requires Given(c)
    ensures Unreported(Step(c, Online(true, Nothing)))
  {}

  lemma Reported(d: System)
    requires Unreported(d)
    ensures Reporting(Step(d, Online(true, Nothing)))
  {}

  /** Let in, a press of the start button, an id, its program, its report, two presses of the mode button. */
  const REPORTED_AND_SWITCHED: seq<Event> :=
    [Online(true, Reply(API_AUTH, RESP_SUCCESS, false)), PressSw2(true),
     Online(true, Reply(API_GET_UID, RESP_SUCCESS, true)), Online(true, Nothing), Online(true, Nothing),
     PressSw3(true), PressSw3(true)]

  /** A device gets there with a success, which it has reported as such: five seconds later it takes that back. */
  lemma SpoiltReached()
    ensures var y := Run(UidMode, REPORTED_AND_SWITCHED + Wait(5));
      && ToIds(y.s) && y.s.msg.sendId == Notify && Overdue(y) && y.h.log.lastOk && y.h.log.idOk
      && y.h.tries != [] && y.h.tries[|y.h.tries| - 1] == Try(Notify, true, true, 0, true)
  {
    hide Run, Wait;
    Switched();
    var a := Run(UidMode, REPORTED_AND_SWITCHED);
    assert a == RunFrom(Initial(UidMode), REPORTED_AND_SWITCHED) by {
      RunMeans(UidMode, REPORTED_AND_SWITCHED);
    }
    Waits(Initial(UidMode), REPORTED_AND_SWITCHED, 5);
    RunMeans(UidMode, REPORTED_AND_SWITCHED + Wait(5));
  }

  lemma RunMeans(mode: Mode, es: seq<Event>)
    ensures Run(mode, es) == RunFrom(Initial(mode), es)
  {}

  lemma Switched()
    ensures var y := Run(UidMode, REPORTED_AND_SWITCHED);
      && ToIds(y.s) && y.s.msg.sendId == Notify && y.h.log.lastOk && y.h.log.idOk && y.s.systemTimer == 0 &&
        y.h.clock == 0
      && y.h.tries != [] && y.h.tries[|y.h.tries| - 1] == Try(Notify, true, true, 0, true)
  {
    hide Run, Step;
    var letIn, press := Online(true, Reply(API_AUTH, RESP_SUCCESS, false)), PressSw2(true);
    var id, quiet, mode := Online(true, Reply(API_GET_UID, RESP_SUCCESS, true)), Online(true, Nothing), PressSw3(true);
    RunOfSix(UidMode, letIn, press, id, quiet, quiet, mode);
    OneMoreEvent(UidMode, [letIn, press, id, quiet, quiet, mode], mode, REPORTED_AND_SWITCHED);
    LetInFirst();
    LetInAtOnce();
    var a := Step(Initial(UidMode), letIn);
    ReportingSoon(a);
    SwitchedTwice(Step(Step(Step(Step(a, press), id), quiet), quiet));
  }

  lemma LetInAtOnce()
    ensures var a := Step(Initial(UidMode), Online(true, Reply(API_AUTH, RESP_SUCCESS, false)));
      a.s.systemTimer == 0 && a.h.clock == 0
  {}

  lemma SwitchedTwice(y: System)
    requires y.s.mode == UidMode
    ensures var z := Step(Step(y, PressSw3(true)), PressSw3(true));
      ToIds(z.s) && z.h == y.h && z.s == y.s.(events := z.s.events)
  {}
}
