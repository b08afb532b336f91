/**
  * The client under the single-threaded adaptor, as a state machine. A step is one stretch of
  * library code between two points where user code may run, or one move of the network. User
  * callbacks are frames on an explicit call stack, so every nesting of API calls, callbacks
  * and `zookeeper_close` is a run of this machine.
  */
module Client {
  import opened Common

  // Reserved xids.
  const WATCHER_EVENT_XID: int := -1
  const PING_XID: int := -2
  const AUTH_XID: int := -4
  const SET_WATCHES_XID: int := -8

  // Session states; the negative ones are unrecoverable.
  const EXPIRED_SESSION: int := -112
  const AUTH_FAILED: int := -113
  const CLOSED: int := 0
  const CONNECTING: int := 1
  const ASSOCIATING: int := 2
  const CONNECTED: int := 3
  const READONLY: int := 5
  const NOTCONNECTED: int := 999

  predicate Ordinary(xid: int) {
    xid != WATCHER_EVENT_XID && xid != PING_XID && xid != AUTH_XID && xid != SET_WATCHES_XID
  }

  predicate IsConnected(state: int) {
    state == CONNECTED || state == READONLY
  }

  /** A frame from the server, up to the fields of its reply header the client acts on. */
  datatype Reply = Reply(xid: int, err: int)

  /** An entry of `completions_to_process`: a request with its outcome, or a watch event. */
  datatype Completion = Outcome(xid: int, err: int) | Event

  /** `Closed`: the descriptor has been closed but `zh->fd` still names it. */
  datatype Fd = NoFd | Open | Closed

  /** How far a call to zookeeper_process or zookeeper_interest has come in handling an error. */
  datatype Phase =
    | Running
    | Failed(rc: int)     // about to run cleanup
    | Draining(rc: int)   // descriptor closed, session event being delivered
    | Dropping            // queues emptied, authentication completions being called
    | Drained             // cleanup done, only completions left to run

  datatype Frame =
    | Api(phase: Phase)   // between api_prolog and api_epilog
    | Callback            // user code called from the library
    | Closing             // zookeeper_close deferred to an outer frame
    | Destroying          // zookeeper_close freeing the handle

  /** Connection and session fields of the handle. */
  datatype Session = Session(fd: Fd, state: int, clientId: int, seenRw: bool)

  /** Queues of the handle; requests and frames are named by their xids. */
  datatype Queues = Queues(toSend: seq<int>, toProcess: seq<Reply>, sent: seq<int>, completions: seq<Completion>)

  /** The call stack, innermost frame last, and the fields that decide when the handle goes. */
  datatype Calls = Calls(stack: seq<Frame>, refCounter: int, closeRequested: bool, destroyed: nat)

  /** The open connection: frames the server has not answered, replies the client has not read. */
  datatype Wire = Wire(atServer: seq<int>, unread: seq<Reply>)

  /** What has happened: requests accepted, completions delivered, and how often the two error branches were taken. */
  datatype Log = Log(nextXid: int, accepted: seq<int>, delivered: seq<Completion>, mismatches: nat, assertFailed: bool)

  datatype State = State(conn: Session, q: Queues, calls: Calls, wire: Wire, log: Log)

  datatype Action =
      // user code
    | Submit
    | AddAuth
    | EnterApi
    | Close
    | Return
      // library code
    | Connect(immediate: bool)
    | Prime
    | Handshake(sessionId: int, readOnly: bool, watches: bool, auths: nat)
    | Ping
    | SendFrame
    | Receive
    | ProcessReply
    | Deliver
    | Notify
    | Fail(rc: int)
    | FailConnect
    | BeginCleanup
    | DrainQueues
    | FinishCleanup
    | Exit
    | FinishDestroy
    | ForcedClose
      // network and server
    | Answer(err: int)
    | SendEvent
    | Rogue(reply: Reply)

  const NO_WIRE := Wire([], [])

  function Init(clientId: int, firstXid: int): State {
    State(Session(NoFd, NOTCONNECTED, clientId, clientId != 0), Queues([], [], [], []),
          Calls([], 0, false, 0), NO_WIRE, Log(firstXid, [], [], 0, false))
  }

  function Top(c: Calls): Frame
    requires c.stack != []
  {
    c.stack[|c.stack| - 1]
  }

  predicate UserTurn(c: Calls) {
    c.stack == [] || Top(c) == Callback
  }

  predicate TopIs(c: Calls, f: Frame) {
    c.stack != [] && Top(c) == f
  }

  /** The library is running and not in the middle of handling an error. */
  predicate InApi(s: State) {
    TopIs(s.calls, Api(Running))
  }

  /** The innermost frame may be in process_completions. */
  predicate RunsCompletions(c: Calls) {
    c.stack != [] && (Top(c) == Destroying || (Top(c).Api? && !Top(c).phase.Failed? && !Top(c).phase.Dropping?))
  }

  /** User code may call the library unless the handle has been freed. */
  predicate MayCall(c: Calls) {
    UserTurn(c) && c.destroyed == 0
  }

  /** That library code never runs on a freed handle is not assumed here. */
  predicate Enabled(s: State, a: Action) {
    match a
    case Submit => MayCall(s.calls)
    case AddAuth => MayCall(s.calls) && s.conn.state > 0
    case EnterApi => MayCall(s.calls) && s.conn.state >= 0
    case Close => MayCall(s.calls) && !s.calls.closeRequested
    case Return => TopIs(s.calls, Callback)
    case Connect(_) => InApi(s) && s.conn.fd == NoFd && s.conn.state >= 0
    case FailConnect => InApi(s) && s.conn.fd == NoFd && s.conn.state >= 0
    case Prime => InApi(s) && s.conn.fd == Open && s.conn.state == CONNECTING
    case Handshake(_, _, _, _) => InApi(s) && s.conn.fd == Open && s.conn.state == ASSOCIATING
    case Ping => InApi(s) && IsConnected(s.conn.state)
    case SendFrame => s.conn.fd == Open && IsConnected(s.conn.state) && s.q.toSend != []
    case Receive => InApi(s) && s.conn.fd == Open && IsConnected(s.conn.state) && s.wire.unread != []
    case ProcessReply => InApi(s) && s.q.toProcess != []
    case Deliver => RunsCompletions(s.calls) && s.q.completions != []
    case Notify => !UserTurn(s.calls)
    case Fail(_) => InApi(s)
    case BeginCleanup => s.calls.stack != [] && Top(s.calls).Api? && Top(s.calls).phase.Failed?
    case DrainQueues => s.calls.stack != [] && Top(s.calls).Api? && Top(s.calls).phase.Draining?
    case FinishCleanup => TopIs(s.calls, Api(Dropping))
    case Exit => InApi(s) || TopIs(s.calls, Api(Drained)) || TopIs(s.calls, Closing)
    case FinishDestroy => TopIs(s.calls, Destroying) && s.q.completions == []
    case ForcedClose => s.conn.fd != NoFd && (s.calls.stack == [] || (InApi(s) && s.conn.state >= 0))
    case Answer(_) => s.conn.fd == Open && s.wire.atServer != []
    case SendEvent => s.conn.fd == Open
    case Rogue(_) => s.conn.fd == Open
  }

  function Push(c: Calls, f: Frame): Calls {
    c.(stack := c.stack + [f])
  }

  function Pop(c: Calls): Calls
    requires c.stack != []
  {
    c.(stack := c.stack[..|c.stack| - 1])
  }

  function SetTop(c: Calls, f: Frame): Calls
    requires c.stack != []
  {
    Push(Pop(c), f)
  }

  /** The faked replies of free_completions. */
  function Fake(sent: seq<int>, reason: int): (r: seq<Completion>)
    ensures |r| == |sent| && forall i :: 0 <= i < |sent| ==> r[i] == Outcome(sent[i], reason)
  {
    seq(|sent|, i requires 0 <= i < |sent| => Outcome(sent[i], reason))
  }

  /** free_completions: every pending request is completed with the given code. */
  function FreeCompletions(q: Queues, reason: int): Queues {
    q.(sent := [], completions := q.completions + Fake(q.sent, reason))
  }

  /** cleanup_bufs: the frame queues are emptied too. */
  function CleanupBufs(q: Queues, reason: int): Queues {
    FreeCompletions(q, reason).(toSend := [], toProcess := [])
  }

  function Repeat(x: int, n: nat): seq<int> {
    if n == 0 then [] else [x] + Repeat(x, n - 1)
  }

  /** A request is accepted unless the session is beyond recovery or the handle is closing. */
  function NextSubmit(s: State): State {
    var xid := s.log.nextXid;
    if s.conn.state < 0 || s.calls.closeRequested then
      s.(log := s.log.(nextXid := xid + 1))
    else
      s.(log := s.log.(nextXid := xid + 1, accepted := s.log.accepted + [xid]),
      q := s.q.(sent := s.q.sent + [xid], toSend := s.q.toSend + [xid]))
  }

  /** zookeeper_close, called by the user. */
  function NextClose(s: State): State {
    var c := s.calls.(closeRequested := true, refCounter := s.calls.refCounter + 1);
    if c.refCounter > 1 then
      s.(calls := Push(c, Closing), q := FreeCompletions(s.q, ZCLOSING))
    else
      s.(calls := Push(c, Destroying), q := CleanupBufs(s.q, ZCLOSING))
  }

  /** The primer reply of a new connection. */
  function NextHandshake(s: State, sessionId: int, readOnly: bool, watches: bool, auths: nat): State
    requires s.calls.stack != []
  {
    var oldId := if s.conn.seenRw then s.conn.clientId else 0;
    var conn := s.conn.(seenRw := s.conn.seenRw || !readOnly);
    if oldId != 0 && oldId != sessionId then
      s.(conn := conn.(state := EXPIRED_SESSION), calls := SetTop(s.calls, Api(Failed(ZSESSIONEXPIRED))))
    else
      s.(conn := conn.(clientId := sessionId, state := if readOnly then READONLY else CONNECTED),
      q := s.q.(toSend := Repeat(AUTH_XID, auths) + (if watches then [SET_WATCHES_XID] else []) + s.q.toSend,
      completions := s.q.completions + [Event]))
  }

  /** One turn of the loop over `to_process` in zookeeper_process. */
  function NextProcessReply(s: State): State
    requires s.q.toProcess != [] && s.calls.stack != []
  {
    var reply := s.q.toProcess[0];
    var q := s.q.(toProcess := s.q.toProcess[1..]);
    if reply.xid == PING_XID || reply.xid == SET_WATCHES_XID then
      s.(q := q)
    else if reply.xid == WATCHER_EVENT_XID then
      s.(q := q.(completions := q.completions + [Event]))
    else if reply.xid == AUTH_XID then
      if reply.err == 0 then s.(q := q)
      else s.(q := q, conn := s.conn.(state := AUTH_FAILED), calls := SetTop(s.calls, Api(Failed(ZAUTHFAILED))))
    else if q.sent == [] then
      s.(q := q, log := s.log.(assertFailed := s.log.assertFailed || !s.calls.closeRequested))
    else if q.sent[0] != reply.xid then
      s.(q := q, log := s.log.(mismatches := s.log.mismatches + 1), calls := SetTop(s.calls, Api(Failed(ZRUNTIMEINCONSISTENCY))))
    else
      s.(q := q.(sent := q.sent[1..], completions := q.completions + [Outcome(reply.xid, reply.err)]))
  }

  /** One turn of process_completions: user code runs with the head of the queue. */
  function NextDeliver(s: State): State
    requires s.q.completions != []
  {
    var c := s.q.completions[0];
    s.(q := s.q.(completions := s.q.completions[1..]),
    log := s.log.(delivered := s.log.delivered + [c]),
    calls := Push(s.calls, Callback))
  }

  /** The first part of cleanup: close the descriptor and announce the state. */
  function NextBeginCleanup(s: State): State
    requires s.calls.stack != [] && Top(s.calls).Api? && Top(s.calls).phase.Failed?
  {
    var event := if s.conn.state < 0 || IsConnected(s.conn.state) then [Event] else [];
    s.(conn := s.conn.(fd := if s.conn.fd == NoFd then NoFd else Closed),
    q := s.q.(completions := s.q.completions + event),
    calls := SetTop(s.calls, Api(Draining(Top(s.calls).phase.rc))))
  }

  /** The second part: complete everything pending; nothing more comes from a closed descriptor. */
  function NextDrainQueues(s: State): State
    requires s.calls.stack != [] && Top(s.calls).Api? && Top(s.calls).phase.Draining?
  {
    s.(q := CleanupBufs(s.q, Top(s.calls).phase.rc),
    wire := if s.conn.fd == Open then s.wire else NO_WIRE,
    calls := SetTop(s.calls, Api(Dropping)))
  }

  /** The last part, after the authentication completions: forget the connection, whichever it is by now. */
  function NextFinishCleanup(s: State): State
    requires s.calls.stack != []
  {
    s.(conn := s.conn.(fd := NoFd, state := if s.conn.state < 0 then s.conn.state else CLOSED),
    wire := NO_WIRE,
    calls := SetTop(s.calls, Api(Drained)))
  }

  /** api_epilog: the last call to leave a handle that is to be closed starts freeing it. */
  function NextExit(s: State): State
    requires s.calls.stack != []
  {
    if s.calls.refCounter - 1 == 0 && s.calls.closeRequested then
      s.(calls := SetTop(s.calls, Destroying), q := CleanupBufs(s.q, ZCLOSING))
    else
      s.(calls := Pop(s.calls).(refCounter := s.calls.refCounter - 1))
  }

  function Next(s: State, a: Action): State
    requires Enabled(s, a)
  {
    match a
    case Submit => NextSubmit(s)
    case AddAuth =>
      if IsConnected(s.conn.state) || s.conn.state == ASSOCIATING
      then s.(q := s.q.(toSend := [AUTH_XID] + s.q.toSend)) else s
    case EnterApi => s.(calls := Push(s.calls.(refCounter := s.calls.refCounter + 1), Api(Running)))
    case Close => NextClose(s)
    case Return => s.(calls := Pop(s.calls))
    case Connect(immediate) =>
      s.(conn := s.conn.(fd := Open, state := if immediate then ASSOCIATING else CONNECTING), wire := NO_WIRE)
    case FailConnect => s.(conn := s.conn.(fd := Closed), calls := SetTop(s.calls, Api(Failed(ZCONNECTIONLOSS))))
    case Prime => s.(conn := s.conn.(state := ASSOCIATING))
    case Handshake(id, ro, watches, auths) => NextHandshake(s, id, ro, watches, auths)
    case Ping => s.(q := s.q.(toSend := s.q.toSend + [PING_XID]))
    case SendFrame =>
      s.(q := s.q.(toSend := s.q.toSend[1..]), wire := s.wire.(atServer := s.wire.atServer + [s.q.toSend[0]]))
    case Receive =>
      s.(wire := s.wire.(unread := s.wire.unread[1..]), q := s.q.(toProcess := s.q.toProcess + [s.wire.unread[0]]))
    case ProcessReply => NextProcessReply(s)
    case Deliver => NextDeliver(s)
    case Notify => s.(calls := Push(s.calls, Callback))
    case Fail(rc) => s.(calls := SetTop(s.calls, Api(Failed(rc))))
    case BeginCleanup => NextBeginCleanup(s)
    case DrainQueues => NextDrainQueues(s)
    case FinishCleanup => NextFinishCleanup(s)
    case Exit => NextExit(s)
    case FinishDestroy =>
      s.(calls := Pop(s.calls).(destroyed := s.calls.destroyed + 1), wire := NO_WIRE,
      conn := s.conn.(fd := NoFd, state := if s.conn.fd == NoFd then s.conn.state else CLOSED))
    case ForcedClose => s.(conn := s.conn.(fd := NoFd, state := NOTCONNECTED), wire := NO_WIRE)
    case Answer(err) =>
      s.(wire := Wire(s.wire.atServer[1..], s.wire.unread + [Reply(s.wire.atServer[0], err)]))
    case SendEvent => s.(wire := s.wire.(unread := s.wire.unread + [Reply(WATCHER_EVENT_XID, 0)]))
    case Rogue(reply) => s.(wire := s.wire.(unread := s.wire.unread + [reply]))
  }

  // ---------------------------------------------------------------------
  // Runs
  // ---------------------------------------------------------------------

  /** Every action is enabled when its turn comes. */
  predicate CanRun(s: State, run: seq<Action>)
    decreases |run|
  {
    run == [] || (Enabled(s, run[0]) && CanRun(Next(s, run[0]), run[1..]))
  }

  function Run(s: State, run: seq<Action>): State
    requires CanRun(s, run)
    decreases |run|
  {
    if run == [] then s else Run(Next(s, run[0]), run[1..])
  }

  lemma RunStep(s: State, a: Action, rest: seq<Action>)
    requires Enabled(s, a) && CanRun(Next(s, a), rest)
    ensures CanRun(s, [a] + rest) && Run(s, [a] + rest) == Run(Next(s, a), rest)
  {
    assert ([a] + rest)[1..] == rest;
  }

  /** Runs compose. */
  lemma {:induction false} RunAppend(s: State, a: seq<Action>, b: seq<Action>)
    requires CanRun(s, a) && CanRun(Run(s, a), b)
    ensures CanRun(s, a + b) && Run(s, a + b) == Run(Run(s, a), b)
    decreases |a|
  {
    if a == [] {
      assert a + b == b;
    } else {
      RunAppend(Next(s, a[0]), a[1..], b);
      RunStep(s, a[0], a[1..] + b);
      assert a + b == [a[0]] + (a[1..] + b);
    }
  }
}
