/** What holds in every state that any run of the programmer reaches. */
module DeviceRuns {
  import opened Device

  // ----- The invariant -----

  /** The time of the last attempt that the socket took; the timer starts at 0. */
  function LastSent(tries: seq<Try>): nat {
    if tries == [] then 0
    else if tries[|tries| - 1].accepted then tries[|tries| - 1].time
    else LastSent(tries[..|tries| - 1])
  }

  /** A repeated attempt is for the request of the attempt before it, and comes five ticks or more after the last one
      sent. */
  predicate Spaced(tries: seq<Try>) {
    forall i :: 0 <= i < |tries| && !tries[i].first ==>
      && 0 < i && tries[i].id == tries[i - 1].id
      && tries[i].time - LastSent(tries[..i]) >= RESEND_PERIOD
  }

  /** The timer and the time of the last sending are the real times, as far as 32 bits go. */
  predicate Timed(y: System) {
    && y.s.systemTimer == y.h.clock % TIMER_RANGE
    && LastSent(y.h.tries) <= y.h.clock
    && y.s.sendMsgTime == LastSent(y.h.tries) % TIMER_RANGE
  }

  /** An outstanding request is the one tried last. */
  predicate Exclusive(y: System) {
    && (y.s.msg.sendId != Invalid ==> y.h.tries != [] && y.h.tries[|y.h.tries| - 1].id == y.s.msg.sendId)
    && (y.s.msg.recvId != Invalid ==> y.s.msg.recvId in y.h.heard)
    && Spaced(y.h.tries)
  }

  predicate Authorised(y: System) {
    && (y.s.net.offline ==> !y.s.net.authorizePass)
    && (y.s.net.authorizePass ==> y.h.authSinceConnect)
  }

  function One(b: bool): nat {
    if b then 1 else 0
  }

  /** The device is about to program an id, unless a mode switch that is still to be seen to gets in the way. */
  predicate UidDue(s: State) {
    s.devStatus == Programing && s.mode == UidMode && !s.events.modeSwitch
  }

  /** Every id is programmed once at most, and every result is acknowledged before the next id. */
  predicate Accounted(y: System) {
    && y.h.uidCalls + One(UidDue(y.s)) + One(y.s.events.uidAvailable) <= y.h.uidReplies
    && y.h.exits + One(y.s.events.notifyDone) <= y.h.notifyReplies
    && (y.s.mode == UidMode && !y.s.events.modeSwitch ==> !y.s.events.startProgram)
  }

  predicate Inv(y: System) {
    Timed(y) && Exclusive(y) && Authorised(y) && Accounted(y)
  }

  // ----- Every step keeps it -----

  lemma InitialInv(mode: Mode)
    ensures Inv(Initial(mode))
  {}

  lemma LogInv(y: System, l: Log)
    requires Inv(y)
    ensures Inv(y.(h := y.h.(log := l)))
  {
    hide Spaced, LastSent;
  }

  lemma AskInv(y: System)
    requires Inv(y)
    ensures Inv(y.(s := AskForWork(y.s))) && Inv(y.(s := AskForReset(y.s)))
  {
    hide Spaced, LastSent;
  }

  lemma Sw2Inv(y: System, steady: bool)
    requires Inv(y)
    ensures Inv(Sw2(y, steady))
  {
    hide Inv, AskForWork, AskForReset;
    AskInv(y);
    AskInv(y.(s := AskForWork(y.s)));
    LogInv(y.(s := AskForReset(AskForWork(y.s))), Pressed(y.s, y.h.log));
  }

  lemma Sw3Inv(y: System, steady: bool)
    requires Inv(y)
    ensures Inv(Sw3(y, steady))
  {
    hide Spaced, LastSent;
  }

  lemma TickInv(y: System)
    requires Inv(y)
    ensures Inv(Tick(y))
  {
    hide Spaced, LastSent;
    NextTick(y.h.clock);
  }

  lemma NextTick(clock: nat)
    ensures (clock % TIMER_RANGE + 1) % TIMER_RANGE == (clock + 1) % TIMER_RANGE
  {}

  lemma SwitchInv(y: System)
    requires Inv(y)
    ensures Inv(SwitchMode(y)) && !SwitchMode(y).s.events.modeSwitch
  {
    hide Spaced, LastSent;
  }

  lemma DetectInv(y: System, w: World)
    requires Inv(y)
    ensures Inv(Detect(y, w)) && Detect(y, w).s.events.modeSwitch == y.s.events.modeSwitch
  {
    hide Spaced, LastSent;
  }

  lemma CheckInv(y: System, w: World)
    requires Inv(y)
    ensures Inv(CheckNetwork(y, w)) && CheckNetwork(y, w).s.events == y.s.events
  {
    hide Spaced, LastSent;
  }

  /** The 32-bit difference is never more than the real one. */
  lemma RealWait(clock: nat, last: nat)
    requires last <= clock
    ensures (clock % TIMER_RANGE - last % TIMER_RANGE) % TIMER_RANGE == (clock - last) % TIMER_RANGE <= clock - last
  {
    var a, b := clock / TIMER_RANGE, last / TIMER_RANGE;
    assert clock % TIMER_RANGE - last % TIMER_RANGE == clock - last - TIMER_RANGE * (a - b);
    SameModulo(clock - last, a - b);
  }

  lemma SameModulo(x: int, k: int)
    ensures (x - TIMER_RANGE * k) % TIMER_RANGE == x % TIMER_RANGE
  {}

  lemma OneMoreTry(tries: seq<Try>, t: Try)
    requires Spaced(tries)
    requires !t.first ==> tries != [] && tries[|tries| - 1].id == t.id && t.time - LastSent(tries) >= RESEND_PERIOD
    ensures Spaced(tries + [t])
    ensures LastSent(tries + [t]) == if t.accepted then t.time else LastSent(tries)
  {
    var ts := tries + [t];
    assert ts[..|tries|] == tries;
    forall i | 0 <= i < |ts| && !ts[i].first
      ensures 0 < i && ts[i].id == ts[i - 1].id && ts[i].time - LastSent(ts[..i]) >= RESEND_PERIOD
    {
      if i < |tries| {
        assert tries[i] == ts[i];
        assert ts[..i] == tries[..i];
      }
    }
  }

  lemma RepeatInv(y: System, sent: bool)
    requires Inv(y) && y.s.msg.sendId != Invalid && Waited(y.s) >= RESEND_PERIOD
    ensures Inv(SendMsg(y, y.s.msg.sendId, false, sent))
  {
    hide Spaced, LastSent;
    RealWait(y.h.clock, LastSent(y.h.tries));
    OneMoreTry(y.h.tries, Try(y.s.msg.sendId, false, sent, y.h.clock, Told(y.s, y.s.msg.sendId)));
  }

  lemma RequestInv(y: System, id: MsgId, net: NetworkEvent, sent: bool)
    requires Inv(y) && id != Invalid && net.offline == y.s.net.offline && net.authorizePass == y.s.net.authorizePass
    ensures Inv(Request(y, id, net, sent))
  {
    hide Spaced, LastSent;
    OneMoreTry(y.h.tries, Try(id, true, sent, y.h.clock, Told(y.s.(net := net), id)));
  }

  lemma SendInv(y: System, sent: bool)
    requires Inv(y)
    ensures Inv(SendNext(y, sent)) && SendNext(y, sent).s.events == y.s.events
    ensures SendNext(y, sent).s.net.offline == y.s.net.offline
  {
    hide Inv, SendMsg, Waited;
    var n := y.s.net;
    if y.s.msg.sendId != Invalid {
      if Waited(y.s) >= RESEND_PERIOD {
        RepeatInv(y, sent);
        SendKeeps(y, y.s.msg.sendId, false, sent);
      }
    } else if n.authorizeReq {
      RequestInv(y, Auth, n.(authorizeReq := false), sent);
      SendKeeps(y.(s := y.s.(msg := y.s.msg.(sendId := Auth), net := n.(authorizeReq := false))), Auth, true, sent);
    } else if n.uidReq {
      RequestInv(y, GetUid, n.(uidReq := false), sent);
      SendKeeps(y.(s := y.s.(msg := y.s.msg.(sendId := GetUid), net := n.(uidReq := false))), GetUid, true, sent);
    } else if n.notifyResult {
      RequestInv(y, Notify, n.(notifyResult := false), sent);
      SendKeeps(y.(s := y.s.(msg := y.s.msg.(sendId := Notify), net := n.(notifyResult := false))), Notify, true, sent);
    }
  }

  lemma SendKeeps(y: System, id: MsgId, first: bool, sent: bool)
    ensures SendMsg(y, id, first, sent).s.events == y.s.events && SendMsg(y, id, first, sent).s.net == y.s.net
  {}

  lemma HeedTimes(y: System, r: Reply)
    requires r.Reply? && Timed(y) && Exclusive(y)
    ensures Timed(Heed(y, r)) && Exclusive(Heed(y, r))
  {
    hide Spaced, LastSent;
  }

  lemma HeedFlags(y: System, r: Reply)
    requires r.Reply? && Authorised(y) && Accounted(y) && !y.s.net.offline
    ensures Authorised(Heed(y, r)) && Accounted(Heed(y, r))
    ensures Heed(y, r).s.events.modeSwitch == y.s.events.modeSwitch && Heed(y, r).s.net.offline == y.s.net.offline
  {
    match IdOf(r.apiId)
    case Invalid =>
    case Auth =>
    case GetUid =>
    case Notify =>
  }

  lemma EndInv(z: System)
    requires Inv(z)
    ensures Inv(z.(s := z.s.(msg := MsgHandle(Invalid, Invalid, RESP_DEFAULT)), h := z.h.(heard := {})))
  {
    hide Spaced, LastSent;
  }

  lemma ReceiveInv(y: System, r: Reply)
    requires Inv(y) && !y.s.net.offline
    ensures Inv(Receive(y, r)) && Receive(y, r).s.events.modeSwitch == y.s.events.modeSwitch
    ensures Receive(y, r).s.net.offline == y.s.net.offline
  {
    hide Timed, Exclusive, Authorised, Accounted, Heed;
    if r.Reply? {
      HeedTimes(y, r);
      HeedFlags(y, r);
      EndInv(Heed(y, r));
    }
  }

  lemma NetworkInv(y: System, w: World)
    requires Inv(y)
    ensures Inv(Network(y, w)) && Network(y, w).s.events.modeSwitch == y.s.events.modeSwitch
  {
    hide Inv, CheckNetwork, SendNext, Receive;
    if y.s.mode == UidMode {
      var z := CheckNetwork(y, w);
      CheckInv(y, w);
      if !z.s.net.offline {
        SendInv(z, w.sent);
        ReceiveInv(SendNext(z, w.sent), w.reply);
      }
    }
  }

  lemma ConnectedInv(y: System)
    requires Inv(y) && !y.s.events.modeSwitch && y.s.devStatus == Connected
    ensures Inv(y.(s := UpdateConnected(y.s)))
  {
    hide Spaced, LastSent;
    assert !UidDue(y.s);
    if y.s.mode == UidMode {
      assert !y.s.events.startProgram;
    }
  }

  lemma DisconnectedInv(y: System)
    requires Inv(y) && y.s.devStatus == Disconnected
    ensures Inv(y.(s := UpdateDisconnected(y.s)))
  {
    hide Spaced, LastSent;
  }

  lemma ProgramingInv(y: System, programmed: bool)
    requires Inv(y) && !y.s.events.modeSwitch && y.s.devStatus == Programing
    ensures Inv(UpdatePrograming(y, programmed))
  {
    hide Spaced, LastSent;
  }

  lemma DoneInv(y: System)
    requires Inv(y) && y.s.devStatus in {ProgramSuccess, ProgramFail}
    ensures Inv(UpdateDone(y))
  {
    hide Spaced, LastSent;
  }

  lemma UpdateInv(y: System, w: World)
    requires Inv(y) && !y.s.events.modeSwitch
    ensures Inv(Update(y, w))
  {
    hide Inv, UpdateConnected, UpdateDisconnected, UpdatePrograming, UpdateDone;
    match y.s.devStatus
    case BinNotFound => FoundInv(y);
    case Connected => ConnectedInv(y);
    case Disconnected => DisconnectedInv(y);
    case Programing => ProgramingInv(y, w.programmed);
    case ProgramSuccess => DoneInv(y);
    case ProgramFail => DoneInv(y);
  }

  lemma FoundInv(y: System)
    requires Inv(y) && y.s.devStatus == BinNotFound
    ensures Inv(y.(s := y.s.(devStatus := Disconnected)))
  {
    hide Spaced, LastSent;
  }

  lemma TurnInv(y: System, w: World)
    requires Inv(y)
    ensures Inv(BeforeUpdate(y, w)) && !BeforeUpdate(y, w).s.events.modeSwitch && Inv(Turn(y, w))
  {
    hide Inv, SwitchMode, Detect, Network, Update;
    SwitchInv(y);
    var z := SwitchMode(y);
    DetectInv(z, w);
    NetworkInv(Detect(z, w), w);
    UpdateInv(BeforeUpdate(y, w), w);
    var u := Work(BeforeUpdate(y, w), w);
    LogInv(u, u.h.log.(startPressed := false));
  }

  lemma StepInv(y: System, e: Event)
    requires Inv(y)
    ensures Inv(Step(y, e))
  {
    hide Inv, Sw2, Sw3, Tick, Turn;
    match e
    case PressSw2(steady) => Sw2Inv(y, steady);
    case PressSw3(steady) => Sw3Inv(y, steady);
    case Second => TickInv(y);
    case MainTurn(w) => TurnInv(y, w);
  }

  lemma {:induction false} RunFromInv(y: System, es: seq<Event>)
    requires Inv(y)
    ensures Inv(RunFrom(y, es))
    decreases |es|
  {
    hide Inv, Step;
    if es != [] {
      RunFromInv(y, es[..|es| - 1]);
      StepInv(RunFrom(y, es[..|es| - 1]), es[|es| - 1]);
    }
  }

  lemma RunInv(mode: Mode, es: seq<Event>)
    ensures Inv(Run(mode, es))
  {
    InitialInv(mode);
    RunFromInv(Initial(mode), es);
  }

  // ----- What the invariant means for a run -----

  /** An id is never programmed more often than the server has handed one out, and a result never closed more often
      than the server has acknowledged one, whatever the buttons and the modes. */
  lemma RunCounts(mode: Mode, es: seq<Event>)
    ensures var h := Run(mode, es).h;
      h.uidCalls <= h.uidReplies && h.exits <= h.notifyReplies
  {
    hide Run;
    RunInv(mode, es);
  }

  /** Offline excludes authorised, and authorised means that the server has let the device in since it last connected.
      */
  lemma RunAuthorised(mode: Mode, es: seq<Event>)
    ensures var y := Run(mode, es);
      && (y.s.net.offline ==> !y.s.net.authorizePass)
      && (y.s.net.authorizePass ==> y.h.authSinceConnect)
  {
    hide Run;
    RunInv(mode, es);
  }

  /** On ids the device works only while it is connected and authorised. */
  lemma RunWorks(mode: Mode, es: seq<Event>, w: World)
    ensures var z := BeforeUpdate(Run(mode, es), w);
      z.s.mode == UidMode && MayWork(z.s) ==> !z.s.net.offline && z.s.net.authorizePass && z.h.authSinceConnect
  {
    hide Run, BeforeUpdate;
    RunInv(mode, es);
    TurnInv(Run(mode, es), w);
  }

  /** Requests do not overlap, and are repeated at least five seconds of real time after they were last sent, even
      when the timer wraps. */
  lemma RunSpaced(mode: Mode, es: seq<Event>)
    ensures Spaced(Run(mode, es).h.tries)
    ensures var y := Run(mode, es);
      y.s.msg.sendId != Invalid ==> y.h.tries != [] && y.h.tries[|y.h.tries| - 1].id == y.s.msg.sendId
  {
    hide Run;
    RunInv(mode, es);
  }

  // ----- One request at a time -----

  /** What has been tried since are repeats of the one request. */
  predicate OnlyRepeats(before: seq<Try>, now: seq<Try>, id: MsgId) {
    before <= now && forall i :: |before| <= i < |now| ==> now[i].id == id && !now[i].first
  }

  /** No flag that asks for a request has been taken back. */
  predicate AskedKept(n: NetworkEvent, m: NetworkEvent) {
    (n.authorizeReq ==> m.authorizeReq) && (n.uidReq ==> m.uidReq) && (n.notifyResult ==> m.notifyResult)
  }

  /** A turn that sees to a switch to ids starts with no flag set, and sets no other one than that for an
      authorisation, when it connects. */
  predicate Forgets(s: State, e: Event) {
    && e.MainTurn? && s.events.modeSwitch && s.mode == UidMode
    && (s.net.uidReq || s.net.notifyResult || (s.net.authorizeReq && !e.w.connects))
  }

  lemma CheckKeeps(y: System, w: World)
    ensures var z := CheckNetwork(y, w);
      z.s.(net := y.s.net) == y.s && z.h.tries == y.h.tries && AskedKept(y.s.net, z.s.net)
  {}

  lemma HeedKeeps(y: System, r: Reply)
    requires r.Reply?
    ensures var z := Heed(y, r);
      && z.s.msg.sendId == y.s.msg.sendId && z.h.tries == y.h.tries
      && z.s.devStatus == y.s.devStatus && z.s.mode == y.s.mode
      && AskedKept(y.s.net, z.s.net) && AskedKept(z.s.net, y.s.net)
  {}

  lemma ReceiveKeeps(y: System, r: Reply)
    ensures var z := Receive(y, r);
      && z.s.msg.sendId in {y.s.msg.sendId, Invalid} && z.h.tries == y.h.tries
      && z.s.devStatus == y.s.devStatus && z.s.mode == y.s.mode
      && AskedKept(y.s.net, z.s.net) && AskedKept(z.s.net, y.s.net)
  {
    hide Heed;
    if r.Reply? {
      HeedKeeps(y, r);
    }
  }

  lemma SendRepeats(y: System, sent: bool)
    requires y.s.msg.sendId != Invalid
    ensures var z := SendNext(y, sent);
      && z.s.msg.sendId == y.s.msg.sendId && z.s.net == y.s.net && z.s.devStatus == y.s.devStatus
      && OnlyRepeats(y.h.tries, z.h.tries, y.s.msg.sendId)
  {}

  lemma NetworkRepeats(y: System, w: World)
    requires y.s.msg.sendId != Invalid
    ensures var z := Network(y, w);
      && z.s.msg.sendId in {y.s.msg.sendId, Invalid} && OnlyRepeats(y.h.tries, z.h.tries, y.s.msg.sendId)
      && AskedKept(y.s.net, z.s.net) && z.s.devStatus == y.s.devStatus
  {
    hide CheckNetwork, SendNext, Receive;
    CheckKeeps(y, w);
    var c := CheckNetwork(y, w);
    SendRepeats(c, w.sent);
    ReceiveKeeps(SendNext(c, w.sent), w.reply);
  }

  /** What working on the device leaves alone. */
  predicate WorkKeeps(y: System, z: System) {
    && z.s.msg == y.s.msg && z.s.mode == y.s.mode && z.s.events.modeSwitch == y.s.events.modeSwitch
    && z.s.net.authorizePass == y.s.net.authorizePass && AskedKept(y.s.net, z.s.net)
    && z.h.tries == y.h.tries
  }

  lemma ConnectedKeeps(y: System)
    ensures WorkKeeps(y, y.(s := UpdateConnected(y.s)))
  {}

  lemma UpdateKeeps(y: System, w: World)
    ensures WorkKeeps(y, Update(y, w))
  {
    hide UpdateConnected;
    if y.s.devStatus == Connected {
      hide WorkKeeps;
      ConnectedKeeps(y);
    }
  }

  lemma TurnRepeats(y: System, w: World)
    requires y.s.msg.sendId != Invalid
    ensures var z := Turn(y, w);
      && z.s.msg.sendId in {y.s.msg.sendId, Invalid} && OnlyRepeats(y.h.tries, z.h.tries, y.s.msg.sendId)
      && (!(y.s.events.modeSwitch && y.s.mode == UidMode) ==> AskedKept(y.s.net, z.s.net))
  {
    hide Network, Update;
    var d := Detect(SwitchMode(y), w);
    NetworkRepeats(d, w);
    UpdateKeeps(Network(d, w), w);
  }

  lemma TurnForgets(y: System, w: World)
    requires y.s.msg.sendId != Invalid && y.s.events.modeSwitch && y.s.mode == UidMode
    ensures AskedKept(y.s.net, Turn(y, w).s.net) <==> !Forgets(y.s, MainTurn(w))
  {
    hide SendNext, Receive;
    var d := Detect(SwitchMode(y), w);
    var c := CheckNetwork(d, w);
    SendRepeats(c, w.sent);
    ReceiveKeeps(SendNext(c, w.sent), w.reply);
    assert Network(d, w).s.devStatus == Disconnected;
    assert c.s.net.authorizeReq == w.connects && !c.s.net.uidReq && !c.s.net.notifyResult;
  }

  /** While a request is outstanding, whatever happens next tries nothing but that request again, and leaves every
      flag that asks for another one set, except exactly when a mode switch forgets it. */
  lemma OutstandingStep(y: System, e: Event)
    requires y.s.msg.sendId != Invalid
    ensures var z := Step(y, e);
      && z.s.msg.sendId in {y.s.msg.sendId, Invalid} && OnlyRepeats(y.h.tries, z.h.tries, y.s.msg.sendId)
      && (AskedKept(y.s.net, z.s.net) <==> !Forgets(y.s, e))
  {
    hide Turn;
    if e.MainTurn? {
      TurnRepeats(y, e.w);
      if y.s.events.modeSwitch && y.s.mode == UidMode {
        TurnForgets(y, e.w);
      }
    }
  }

  /** A request is outstanding all the way up to the last of the events. */
  predicate Pending(y: System, es: seq<Event>)
    decreases |es|
  {
    es == [] || (RunFrom(y, es[..|es| - 1]).s.msg.sendId != Invalid && Pending(y, es[..|es| - 1]))
  }

  /** Some of the events forgets what has been asked for. */
  predicate Forgetful(y: System, es: seq<Event>)
    decreases |es|
  {
    es != [] && (Forgets(RunFrom(y, es[..|es| - 1]).s, es[|es| - 1]) || Forgetful(y, es[..|es| - 1]))
  }

  /** From the moment a request is made until it ends, over any run: it stays the same request, only that one is
      tried, and the others that are asked for wait. */
  lemma {:induction false} OutstandingRun(y: System, es: seq<Event>)
    requires y.s.msg.sendId != Invalid && Pending(y, es)
    ensures var z := RunFrom(y, es);
      && z.s.msg.sendId in {y.s.msg.sendId, Invalid} && OnlyRepeats(y.h.tries, z.h.tries, y.s.msg.sendId)
      && (!Forgetful(y, es) ==> AskedKept(y.s.net, z.s.net))
    decreases |es|
  {
    hide Step, Forgets;
    if es != [] {
      OutstandingRun(y, es[..|es| - 1]);
      OutstandingStep(RunFrom(y, es[..|es| - 1]), es[|es| - 1]);
    }
  }

  /** A turn in which the connection works, with or without a board. */
  function Online(board: bool, reply: Reply): Event {
    MainTurn(World(false, board, true, true, true, reply, true))
  }

  lemma OneMoreEvent(mode: Mode, es: seq<Event>, e: Event, fs: seq<Event>)
    requires fs == es + [e]
    ensures Run(mode, fs) == Step(Run(mode, es), e)
  {
    hide Step;
    assert fs[..|es|] == es;
  }

  lemma RunOfTwo(mode: Mode, e: Event, f: Event)
    ensures Run(mode, [e, f]) == Step(Step(Initial(mode), e), f)
  {
    hide Step;
    OneMoreEvent(mode, [], e, [e]);
    OneMoreEvent(mode, [e], f, [e, f]);
  }

  lemma RunOfThree(mode: Mode, e: Event, f: Event, g: Event)
    ensures Run(mode, [e, f, g]) == Step(Step(Step(Initial(mode), e), f), g)
  {
    hide Step, Run;
    RunOfTwo(mode, e, f);
    OneMoreEvent(mode, [e, f], g, [e, f, g]);
  }

  lemma RunOfSix(mode: Mode, e: Event, f: Event, g: Event, h: Event, i: Event, j: Event)
    ensures Run(mode, [e, f, g, h, i, j]) ==
            Step(Step(Step(Step(Step(Step(Initial(mode), e), f), g), h), i), j)
  {
    hide Step, Run;
    RunOfThree(mode, e, f, g);
    OneMoreEvent(mode, [e, f, g], h, [e, f, g, h]);
    OneMoreEvent(mode, [e, f, g, h], i, [e, f, g, h, i]);
    OneMoreEvent(mode, [e, f, g, h, i], j, [e, f, g, h, i, j]);
  }

  /** Six events that get a device to where it forgets: let in, it asks for an id, the start button asks for another one
      while the first is outstanding, and the mode button is pressed twice. The next turn drops the second. */
  lemma ForgetReached()
    ensures
      var letIn := Online(true, Reply(API_AUTH, RESP_SUCCESS, false));
      var quiet := Online(true, Nothing);
      var y := Run(UidMode, [letIn, PressSw2(true), quiet, PressSw2(true), PressSw3(true), PressSw3(true)]);
      && y.s.msg.sendId == GetUid && y.s.net.uidReq
      && Forgets(y.s, quiet) && !Step(y, quiet).s.net.uidReq
  {
    hide Run, Step;
    var letIn, quiet := Online(true, Reply(API_AUTH, RESP_SUCCESS, false)), Online(true, Nothing);
    RunOfSix(UidMode, letIn, PressSw2(true), quiet, PressSw2(true), PressSw3(true), PressSw3(true));
    LetInFirst();
    AskedTwice(Step(Initial(UidMode), letIn));
  }

  /** Connected, let in and at rest. */
  predicate AtRest(s: State) {
    && s.mode == UidMode && s.devStatus == Connected && s.msg.sendId == Invalid
    && s.events == NO_EVENTS.(boardConnected := true)
    && s.net == NO_NETWORK.(offline := false, firstConnect := false, authorizePass := true)
  }

  /** A device is let in by its first turn. */
  lemma LetInFirst()
    ensures AtRest(Step(Initial(UidMode), Online(true, Reply(API_AUTH, RESP_SUCCESS, false))).s)
  {}

  lemma AskedTwice(a: System)
    requires AtRest(a.s)
    ensures var quiet := Online(true, Nothing);
      var b := Step(Step(Step(a, PressSw2(true)), quiet), PressSw2(true));
      var y := Step(Step(b, PressSw3(true)), PressSw3(true));
      && y.s.msg.sendId == GetUid && y.s.net.uidReq
      && Forgets(y.s, quiet) && !Step(y, quiet).s.net.uidReq
  {
    var b := Step(Step(a, PressSw2(true)), Online(true, Nothing));
    assert b.s.msg.sendId == GetUid && !b.s.net.uidReq && b.s.devStatus == Connected && b.s.mode == UidMode;
  }

  /** What the invariant and the last results say of one more turn in any run. */
  lemma TurnMeans(mode: Mode, es: seq<Event>, w: World)
    ensures var y := Run(mode, es);
      var z := Turn(y, w);
      && !z.s.events.modeSwitch && Inv(z)
      && (z.s.mode == UidMode && !y.s.events.modeSwitch && z.s.devStatus != y.s.devStatus ==> z.s.net.authorizePass)
      && (y.s.msg.sendId != Invalid ==>
            && z.s.msg.sendId in {y.s.msg.sendId, Invalid} && OnlyRepeats(y.h.tries, z.h.tries, y.s.msg.sendId)
            && (AskedKept(y.s.net, z.s.net) <==> !Forgets(y.s, MainTurn(w))))
  {
    hide Inv, Run, Update, Network, OnlyRepeats, AskedKept, Forgets;
    var y := Run(mode, es);
    RunInv(mode, es);
    TurnInv(y, w);
    UpdateKeeps(BeforeUpdate(y, w), w);
    if y.s.msg.sendId != Invalid {
      OutstandingStep(y, MainTurn(w));
    }
    NetworkStatus(Detect(SwitchMode(y), w), w);
  }

  lemma NetworkStatus(y: System, w: World)
    ensures Network(y, w).s.devStatus == y.s.devStatus && Network(y, w).s.mode == y.s.mode
  {
    hide SendNext, Receive;
    var c := CheckNetwork(y, w);
    SendStatus(c, w.sent);
    ReceiveKeeps(SendNext(c, w.sent), w.reply);
  }

  lemma SendStatus(y: System, sent: bool)
    ensures SendNext(y, sent).s.devStatus == y.s.devStatus && SendNext(y, sent).s.mode == y.s.mode
  {}

  // ----- The end of a request -----

  /** A request that ends has been answered since the one before it ended: by this reply, or by an earlier one. */
  lemma EndedWasAnswered(mode: Mode, es: seq<Event>, w: World, r: Reply)
    requires var y := SendNext(CheckNetwork(Detect(SwitchMode(Run(mode, es)), w), w), w.sent);
      !y.s.net.offline && y.s.msg.sendId != Invalid && Receive(y, r).s.msg.sendId == Invalid
    ensures var y := SendNext(CheckNetwork(Detect(SwitchMode(Run(mode, es)), w), w), w.sent);
      r.Reply? && (IdOf(r.apiId) == y.s.msg.sendId || (IdOf(r.apiId) == Invalid && y.s.msg.sendId in y.h.heard))
  {
    hide Run, SwitchMode, Detect, CheckNetwork, SendNext, Timed, Authorised, Accounted, Spaced;
    var x := Run(mode, es);
    RunInv(mode, es);
    SwitchInv(x);
    DetectInv(SwitchMode(x), w);
    CheckInv(Detect(SwitchMode(x), w), w);
    SendInv(CheckNetwork(Detect(SwitchMode(x), w), w), w.sent);
  }

  /** The kind of the last reply sticks: the reply that ends a request is an answer to it exactly when its kind is one
      the device knows. */
  lemma EndingReplyAnswers(y: System, r: Reply)
    requires y.s.msg.sendId != Invalid && Receive(y, r).s.msg.sendId == Invalid
    ensures r.Reply? && r.respCode == RESP_SUCCESS
    ensures IdOf(r.apiId) == y.s.msg.sendId <==> r.apiId in {API_AUTH, API_GET_UID, API_NOTIFY}
  {}

  /** An authorisation request that ends leaves the device authorised exactly when it was so before or the reply that
      ends it is about authorisation. */
  lemma EndedAuthorisation(y: System, r: Reply)
    requires y.s.msg.sendId == Auth && Receive(y, r).s.msg.sendId == Invalid
    ensures Receive(y, r).s.net.authorizePass <==> y.s.net.authorizePass || r.apiId == API_AUTH
  {}

  /** On ids, once let in, a connected device starts programming exactly when an id is there: the board that has just
      been found missing does not matter. */
  lemma RunPrograms(mode: Mode, es: seq<Event>, w: World)
    requires var z := BeforeUpdate(Run(mode, es), w); z.s.mode == UidMode && z.s.devStatus == Connected
    ensures var z := BeforeUpdate(Run(mode, es), w);
      Turn(Run(mode, es), w).s.devStatus == Programing <==> MayWork(z.s) && z.s.events.uidAvailable
  {
    hide Run, BeforeUpdate, Spaced, LastSent;
    RunInv(mode, es);
    TurnInv(Run(mode, es), w);
    var z := BeforeUpdate(Run(mode, es), w);
    assert Inv(z) && !z.s.events.startProgram;
  }

  /** And it can be missing: the server hands out an id in the very turn that the board is gone. */
  lemma ProgramsWithoutBoard()
    ensures
      var letIn := Online(true, Reply(API_AUTH, RESP_SUCCESS, false));
      var id := Online(false, Reply(API_GET_UID, RESP_SUCCESS, true));
      var y := Run(UidMode, [letIn, PressSw2(true), id]);
      y.s.devStatus == Programing && !y.s.events.boardConnected
  {
    hide Run, Step;
    var letIn := Online(true, Reply(API_AUTH, RESP_SUCCESS, false));
    RunOfThree(UidMode, letIn, PressSw2(true), Online(false, Reply(API_GET_UID, RESP_SUCCESS, true)));
    LetInFirst();
    IdWithoutBoard(Step(Initial(UidMode), letIn));
  }

  lemma IdWithoutBoard(a: System)
    requires AtRest(a.s)
    ensures var y := Step(Step(a, PressSw2(true)), Online(false, Reply(API_GET_UID, RESP_SUCCESS, true)));
      y.s.devStatus == Programing && !y.s.events.boardConnected
  {
    hide Step;
    PressAsks(a);
    IdComes(Step(a, PressSw2(true)));
  }

  /** At rest but for the id that has been asked for. */
  predicate Asking(s: State) {
    s.net.uidReq && AtRest(s.(net := s.net.(uidReq := false)))
  }

  lemma PressAsks(a: System)
    requires AtRest(a.s)
    ensures var b := Step(a, PressSw2(true));
      Asking(b.s) && b.s.systemTimer == a.s.systemTimer && b.h.clock == a.h.clock
  {}

  lemma IdComes(b: System)
    requires Asking(b.s)
    ensures var y := Step(b, Online(false, Reply(API_GET_UID, RESP_SUCCESS, true)));
      y.s.devStatus == Programing && !y.s.events.boardConnected
  {
    hide BeforeUpdate;
    IdArrives(b, Online(false, Reply(API_GET_UID, RESP_SUCCESS, true)).w);
  }

  lemma IdArrives(b: System, w: World)
    requires Asking(b.s) && w.reply == Reply(API_GET_UID, RESP_SUCCESS, true)
    ensures var s := BeforeUpdate(b, w).s;
      && s.devStatus == Connected && s.mode == UidMode && s.net.authorizePass
      && s.events == NO_EVENTS.(boardConnected := w.boardFound, uidAvailable := true)
  {
    hide SendNext;
    var d := Detect(SwitchMode(b), w);
    assert CheckNetwork(d, w) == d;
    SendLeaves(d, w.sent);
  }

  lemma SendLeaves(y: System, sent: bool)
    ensures var z := SendNext(y, sent);
      && z.s.events == y.s.events && z.s.devStatus == y.s.devStatus && z.s.mode == y.s.mode
      && z.s.net.authorizePass == y.s.net.authorizePass
  {}

  // ----- Locked out -----

  /** Connected, not let in, and with no authorisation request under way or flagged. */
  predicate Locked(s: State) {
    && s.mode == UidMode && !s.events.modeSwitch && !s.net.offline && !s.net.authorizePass && !s.net.authorizeReq
    && s.msg.sendId != Auth
  }

  /** The events that get the device out of that: the mode button, a heartbeat that cannot be sent, and an
      authorisation that nobody has asked for. */
  predicate Unlocks(s: State, e: Event) {
    match e
    case PressSw3(steady) => steady
    case MainTurn(w) =>
      || (s.net.heartbeat && !w.heartbeatSent)
      || (w.reply.Reply? && w.reply.apiId == API_AUTH && w.reply.respCode == RESP_SUCCESS)
    case _ => false
  }

  /** A device gets there in two turns: its authorisation is refused, and the next reply, which answers a heartbeat,
      is a success and ends the authorisation request. */
  lemma LockedReached()
    ensures
      var refused := Online(true, Reply(API_AUTH, RESP_ERROR, false));
      var beat := Online(true, Reply(API_HEARTBEAT, RESP_SUCCESS, false));
      Locked(Run(UidMode, [refused, beat]).s)
  {
    hide Run, Step;
    var refused := Online(true, Reply(API_AUTH, RESP_ERROR, false));
    RunOfTwo(UidMode, refused, Online(true, Reply(API_HEARTBEAT, RESP_SUCCESS, false)));
    Refused();
    RefusalEnds(Step(Initial(UidMode), refused));
  }

  /** Connected and refused. */
  predicate Unwelcome(s: State) {
    && s.mode == UidMode && !s.events.modeSwitch && s.msg == MsgHandle(Auth, Auth, RESP_ERROR)
    && !s.net.offline && !s.net.heartbeat && !s.net.authorizeReq && !s.net.authorizePass
  }

  lemma Refused()
    ensures Unwelcome(Step(Initial(UidMode), Online(true, Reply(API_AUTH, RESP_ERROR, false))).s)
  {}

  lemma RefusalEnds(a: System)
    requires Unwelcome(a.s)
    ensures Locked(Step(a, Online(true, Reply(API_HEARTBEAT, RESP_SUCCESS, false))).s)
  {}

  /** Nothing new has been tried for the id. */
  predicate NoneFor(before: seq<Try>, now: seq<Try>, id: MsgId) {
    before <= now && forall i :: |before| <= i < |now| ==> now[i].id != id
  }

  lemma LockedSend(c: System, sent: bool)
    requires Locked(c.s)
    ensures var z := SendNext(c, sent);
      Locked(z.s) && z.s.devStatus == c.s.devStatus && NoneFor(c.h.tries, z.h.tries, Auth)
  {}

  lemma LockedReceive(m: System, r: Reply)
    requires Locked(m.s)
    ensures var z := Receive(m, r);
      && z.h.tries == m.h.tries && z.s.devStatus == m.s.devStatus
      && (Locked(z.s) <==> !(r.Reply? && r.apiId == API_AUTH && r.respCode == RESP_SUCCESS))
      && (z.s.net.authorizePass || Locked(z.s))
  {}

  lemma LockedTurn(y: System, w: World)
    requires Locked(y.s)
    ensures var z := Turn(y, w);
      && (Locked(z.s) <==> !Unlocks(y.s, MainTurn(w)))
      && NoneFor(y.h.tries, z.h.tries, Auth)
      && (Locked(z.s) ==> z.s.devStatus == y.s.devStatus)
  {
    hide SendNext, Receive, Update;
    var d := Detect(SwitchMode(y), w);
    var c := CheckNetwork(d, w);
    var z := BeforeUpdate(y, w);
    UpdateKeeps(z, w);
    if !(y.s.net.heartbeat && !w.heartbeatSent) {
      assert Locked(c.s) && c.h.tries == y.h.tries && c.s.devStatus == y.s.devStatus;
      LockedSend(c, w.sent);
      LockedReceive(SendNext(c, w.sent), w.reply);
      assert z == Receive(SendNext(c, w.sent), w.reply);
    }
  }

  /** Those events get it out, and no others do. */
  lemma LockedStep(y: System, e: Event)
    requires Locked(y.s)
    ensures var z := Step(y, e);
      && (Locked(z.s) <==> !Unlocks(y.s, e))
      && NoneFor(y.h.tries, z.h.tries, Auth)
      && (Locked(z.s) ==> z.s.devStatus == y.s.devStatus)
  {
    hide Turn;
    if e.MainTurn? {
      LockedTurn(y, e.w);
    }
  }

  /** None of the events gets it out. */
  predicate NeverUnlocked(y: System, es: seq<Event>)
    decreases |es|
  {
    es == [] || (NeverUnlocked(y, es[..|es| - 1]) && !Unlocks(RunFrom(y, es[..|es| - 1]).s, es[|es| - 1]))
  }

  /** However long such a device runs, it asks for no authorisation and its work goes no further. */
  lemma {:induction false} LockedRun(y: System, es: seq<Event>)
    requires Locked(y.s) && NeverUnlocked(y, es)
    ensures var z := RunFrom(y, es);
      Locked(z.s) && NoneFor(y.h.tries, z.h.tries, Auth) && z.s.devStatus == y.s.devStatus
    decreases |es|
  {
    hide Step, Locked, Unlocks;
    if es != [] {
      LockedRun(y, es[..|es| - 1]);
      LockedStep(RunFrom(y, es[..|es| - 1]), es[|es| - 1]);
    }
  }
}
