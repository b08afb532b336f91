/**
  * Whole library calls. `zookeeper_process`, `zookeeper_interest` and `zookeeper_close` are
  * composed from the handle's moves, with arbitrary user code at every point where the library
  * calls out, and each is proved to be a run of the client state machine in which every
  * operation of the user is carried out, in order, at the state it meets.
  */
module Process {
  import opened Common
  import opened Client
  import opened Completions
  import opened LifeCycle
  import opened Fifo
  import opened Handle

  // ---------------------------------------------------------------------
  // What the outside does
  // ---------------------------------------------------------------------

  /** What the socket gives `check_events`; `sends` frames go out before a send fails or would block. */
  datatype Events = Events(write: bool, read: bool, refused: bool, sendFails: bool, readFails: bool, sends: nat,
                           hello: Option<Hello>)

  /** A complete answer to the handshake, and what has to be sent again. */
  datatype Hello = Hello(sessionId: int, readOnly: bool, watches: bool, auths: nat)

  /** How a connection attempt goes. */
  datatype Attempted = Delayed | NoSocket | Refused | InProgress | Immediate

  /** What `zookeeper_interest` meets: a server list that makes the client move, the clock, the socket. */
  datatype Interest = Interest(moves: bool, attempt: Attempted, timedOut: bool, ping: bool, pingFails: bool, sends: nat)

  /**
    * The outside world as one stream. User code is the stretch up to `OpReturn`, or to the end
    * of the stream; a call made there goes on reading the same stream for its own callbacks.
    */
  datatype Op =
    | OpSubmit(sends: nat)
    | OpAddAuth(sends: nat)
    | OpClose
    | OpProcess(events: Events)
    | OpInterest(interest: Interest)
    | OpAuthCompletion   // the library calls an authentication completion next
    | OpReturn
    | OpNetwork(move: Action)

  /** The server answers in order, and the client is not told to change servers. */
  predicate Clean(script: seq<Op>) {
    forall op :: op in script ==> CleanOp(op)
  }

  predicate CleanOp(op: Op) {
    (op.OpNetwork? ==> Honest(op.move)) && (op.OpInterest? ==> !op.interest.moves)
  }

  predicate AllHonest(run: seq<Action>) {
    forall i :: 0 <= i < |run| ==> Honest(run[i])
  }

  // ---------------------------------------------------------------------
  // What an operation does before any user code can run
  // ---------------------------------------------------------------------

  function Sending(n: nat): (run: seq<Action>)
    ensures |run| == n
  {
    seq(n, _ => Action.SendFrame)
  }

  /** The frames a flush gets out when the socket takes up to k of them. */
  function Sendable(s: State, k: nat): (n: nat)
    ensures n <= |s.q.toSend|
  {
    if !IsConnected(s.conn.state) || s.conn.fd != Open then 0 else if k < |s.q.toSend| then k else |s.q.toSend|
  }

  /** A send is made that fails. */
  predicate SendBreaks(s: State, events: Events) {
    && events.write && IsConnected(s.conn.state) && s.q.toSend != []
    && (s.conn.fd == Closed || (events.sendFails && events.sends < |s.q.toSend|))
  }

  /** What reading from the connection does. */
  function Reads(s: State, events: Events): seq<Action> {
    if events.readFails || s.conn.fd == Closed then [Fail(ZCONNECTIONLOSS)]
    else if s.conn.state == ASSOCIATING && events.hello.Some? then
      var h := events.hello.value;
      [Handshake(h.sessionId, h.readOnly, h.watches, h.auths)]
    else if IsConnected(s.conn.state) && s.wire.unread != [] then [Receive]
    else []
  }

  /** The code `check_events` returns for a read. */
  function ReadCode(s: State, events: Events): int {
    if events.readFails || s.conn.fd == Closed then ZCONNECTIONLOSS
    else if s.conn.state == ASSOCIATING && events.hello.Some? then
      if Foreign(s, events.hello.value.sessionId) then ZSESSIONEXPIRED else ZOK
    else if IsConnected(s.conn.state) && s.wire.unread != [] then ZOK
    else ZNOTHING
  }

  /** The session was established under another id. */
  predicate Foreign(s: State, sessionId: int) {
    s.conn.seenRw && s.conn.clientId != 0 && s.conn.clientId != sessionId
  }

  function Reacts(s: State, events: Events): seq<Action> {
    if s.conn.fd == NoFd then []
    else if events.write && s.conn.state == CONNECTING then
      [if events.refused || s.conn.fd == Closed then Fail(ZCONNECTIONLOSS) else Prime]
    else
      Sending(if events.write then Sendable(s, events.sends) else 0)
      + (if SendBreaks(s, events) then [Fail(ZCONNECTIONLOSS)] else if events.read then Reads(s, events) else [])
  }

  /** The code `check_events` returns. */
  function EventCode(s: State, events: Events): int {
    if s.conn.fd == NoFd then ZINVALIDSTATE
    else if events.write && s.conn.state == CONNECTING then
      if events.refused || s.conn.fd == Closed then ZCONNECTIONLOSS else ZOK
    else if SendBreaks(s, events) then ZCONNECTIONLOSS
    else if events.read then ReadCode(s, events)
    else ZOK
  }

  /** What `zookeeper_interest` does: connect, give up, or keep the connection alive. */
  function Settles(s: State, i: Interest): seq<Action> {
    if s.conn.fd == NoFd then
      match i.attempt
      case Delayed => []
      case NoSocket => [Fail(ZSYSTEMERROR)]
      case Refused => [FailConnect]
      case _ => [Action.Connect(i.attempt == Immediate)]
    else if i.timedOut then [Fail(ZOPERATIONTIMEOUT)]
    else if IsConnected(s.conn.state) && i.ping && s.q.sent == [] then
      [Ping] + Sending(Sendable(s.(q := s.q.(toSend := s.q.toSend + [PING_XID])), i.sends))
    else []
  }

  function SettleCode(s: State, i: Interest): int {
    if s.conn.fd == NoFd then
      match i.attempt
      case NoSocket => ZSYSTEMERROR
      case Refused => ZCONNECTIONLOSS
      case _ => ZOK
    else if i.timedOut then ZOPERATIONTIMEOUT
    else if IsConnected(s.conn.state) && i.ping && s.q.sent == [] && (i.pingFails || s.conn.fd == Closed) then ZCONNECTIONLOSS
    else ZOK
  }

  /** After the new server list has been looked at. */
  function Rebalanced(s: State, i: Interest): State {
    if i.moves && s.conn.fd != NoFd
    then s.(conn := s.conn.(fd := NoFd, state := NOTCONNECTED), wire := NO_WIRE) else s
  }

  function Minds(s: State, i: Interest): seq<Action> {
    (if i.moves && s.conn.fd != NoFd then [ForcedClose] else []) + Settles(Rebalanced(s, i), i)
  }

  /** What an operation does first; nothing at all only where the library refuses the call. */
  function Opens(s: State, op: Op): seq<Action> {
    match op
    case OpSubmit(sends) => [Submit] + Sending(Sendable(NextSubmit(s), sends))
    case OpAddAuth(sends) =>
      if s.conn.state > 0 && MayCall(s.calls) then [AddAuth] + Sending(Sendable(Next(s, AddAuth), sends)) else []
    case OpClose => if s.calls.closeRequested then [] else [Close]
    case OpProcess(events) => if s.conn.state < 0 then [] else [EnterApi] + Reacts(s, events)
    case OpInterest(i) => if s.conn.state < 0 then [] else [EnterApi] + Minds(s, i)
    case OpNetwork(move) => if Happens(s, move) then [move] else []
    case OpAuthCompletion => if UserTurn(s.calls) then [] else [Notify]
    case OpReturn => if TopIs(s.calls, Callback) then [Return] else []
  }

  /** The network can do this now. */
  predicate Happens(s: State, move: Action) {
    s.conn.fd == Open && (move.SendEvent? || move.Rogue? || (move.Answer? && s.wire.atServer != []))
  }

  // ---------------------------------------------------------------------
  // Traces
  // ---------------------------------------------------------------------

  /** An operation of the stream carried out, a move of the library, or a return at the end of the stream. */
  datatype Deed = Did(op: Op) | Lib(a: Action) | Lapse

  /** What the library does of its own between two points where user code can run. */
  predicate LibraryMove(a: Action) {
    || a.ProcessReply? || a.Deliver? || a.Fail? || a.BeginCleanup? || a.DrainQueues? || a.FinishCleanup? || a.Exit? || a.FinishDestroy?
  }

  function Moves(s: State, d: Deed): seq<Action> {
    match d
    case Did(op) => Opens(s, op)
    case Lib(a) => [a]
    case Lapse => [Return]
  }

  /** How deeds turn into actions; what follows holds whatever the way. */
  type Meaning = (State, Deed) -> seq<Action>

  predicate CanDoBy(m: Meaning, s: State, trace: seq<Deed>)
    decreases |trace|
  {
    trace == [] || (CanRun(s, m(s, trace[0])) && CanDoBy(m, Run(s, m(s, trace[0])), trace[1..]))
  }

  function DoBy(m: Meaning, s: State, trace: seq<Deed>): State
    requires CanDoBy(m, s, trace)
    decreases |trace|
  {
    if trace == [] then s else DoBy(m, Run(s, m(s, trace[0])), trace[1..])
  }

  function RunBy(m: Meaning, s: State, trace: seq<Deed>): seq<Action>
    requires CanDoBy(m, s, trace)
    decreases |trace|
  {
    if trace == [] then [] else m(s, trace[0]) + RunBy(m, Run(s, m(s, trace[0])), trace[1..])
  }

  predicate CanDo(s: State, trace: seq<Deed>) {
    CanDoBy(Moves, s, trace)
  }

  function Do(s: State, trace: seq<Deed>): State
    requires CanDo(s, trace)
  {
    DoBy(Moves, s, trace)
  }

  /** The trace as a run of the machine. */
  function RunOf(s: State, trace: seq<Deed>): seq<Action>
    requires CanDo(s, trace)
  {
    RunBy(Moves, s, trace)
  }

  /** The operations carried out, in order. */
  function Ops(trace: seq<Deed>): seq<Op> {
    if trace == [] then [] else (if trace[0].Did? then [trace[0].op] else []) + Ops(trace[1..])
  }

  predicate LibOnly(trace: seq<Deed>) {
    forall i :: 0 <= i < |trace| && trace[i].Lib? ==> LibraryMove(trace[i].a)
  }

  lemma {:induction false} TraceIsRunBy(m: Meaning, s: State, trace: seq<Deed>)
    requires CanDoBy(m, s, trace)
    ensures CanRun(s, RunBy(m, s, trace)) && Run(s, RunBy(m, s, trace)) == DoBy(m, s, trace)
    decreases |trace|
  {
    if trace != [] {
      var acts := m(s, trace[0]);
      TraceIsRunBy(m, Run(s, acts), trace[1..]);
      RunAppend(s, acts, RunBy(m, Run(s, acts), trace[1..]));
    }
  }

  lemma TraceIsRun(s: State, trace: seq<Deed>)
    requires CanDo(s, trace)
    ensures CanRun(s, RunOf(s, trace)) && Run(s, RunOf(s, trace)) == Do(s, trace)
  {
    TraceIsRunBy(Moves, s, trace);
  }

  lemma {:induction false} DoAppendBy(m: Meaning, s: State, a: seq<Deed>, b: seq<Deed>)
    requires CanDoBy(m, s, a) && CanDoBy(m, DoBy(m, s, a), b)
    ensures CanDoBy(m, s, a + b) && DoBy(m, s, a + b) == DoBy(m, DoBy(m, s, a), b)
    decreases |a|
  {
    if a == [] {
      assert a + b == b;
    } else {
      assert (a + b)[0] == a[0] && (a + b)[1..] == a[1..] + b;
      DoAppendBy(m, Run(s, m(s, a[0])), a[1..], b);
    }
  }

  lemma DoAppend(s: State, a: seq<Deed>, b: seq<Deed>)
    requires CanDo(s, a) && CanDo(Do(s, a), b)
    ensures CanDo(s, a + b) && Do(s, a + b) == Do(Do(s, a), b)
  {
    DoAppendBy(Moves, s, a, b);
  }

  lemma {:induction false} OpsAppend(a: seq<Deed>, b: seq<Deed>)
    ensures Ops(a + b) == Ops(a) + Ops(b)
  {
    if a == [] {
      assert a + b == b;
    } else {
      assert (a + b)[0] == a[0] && (a + b)[1..] == a[1..] + b;
      OpsAppend(a[1..], b);
      Assoc(if a[0].Did? then [a[0].op] else [], Ops(a[1..]), Ops(b));
    }
  }

  lemma OneDeedBy(m: Meaning, s: State, d: Deed)
    requires CanRun(s, m(s, d))
    ensures CanDoBy(m, s, [d]) && DoBy(m, s, [d]) == Run(s, m(s, d))
  {
    var t := Run(s, m(s, d));
    assert [d][1..] == [];
    assert CanDoBy(m, t, []) && DoBy(m, t, []) == t;
  }

  lemma OneDeed(s: State, d: Deed)
    requires CanRun(s, Moves(s, d))
    ensures CanDo(s, [d]) && Do(s, [d]) == Run(s, Moves(s, d)) && Ops([d]) == if d.Did? then [d.op] else []
  {
    OneDeedBy(Moves, s, d);
    assert [d][1..] == [];
  }

  // ---------------------------------------------------------------------
  // Accounts of what happened
  // ---------------------------------------------------------------------

  /** The trace leads from s to t and carries out the stream down to `left`, whose end it reaches before it lapses. */
  ghost predicate IsAccount(s: State, script: seq<Op>, t: State, left: seq<Op>, trace: seq<Deed>) {
    && CanDo(s, trace) && Do(s, trace) == t && script == Ops(trace) + left
    && LibOnly(trace) && (Lapse in trace ==> left == [])
  }

  /**
    * The same, as the methods below carry it around: the trace itself comes into play only in
    * the lemmas that mention the key.
    */
  ghost predicate Account(s: State, script: seq<Op>, t: State, left: seq<Op>, trace: seq<Deed>) {
    && WellNested(t.calls) && |left| <= |script|
    && forall k {:trigger Key(k)} :: Key(k) ==> IsAccount(s, script, t, left, trace)
  }

  /** The given actions lead from s to t. */
  ghost predicate Went(s: State, acts: seq<Action>, t: State) {
    WellNested(t.calls) && forall k {:trigger Key(k)} :: Key(k) ==> CanRun(s, acts) && Run(s, acts) == t
  }

  /** First the given actions, then an account. */
  ghost predicate After(s: State, acts: seq<Action>, script: seq<Op>, t: State, left: seq<Op>, trace: seq<Deed>) {
    && WellNested(t.calls) && |left| <= |script|
    && forall k {:trigger Key(k)} :: Key(k) ==> CanRun(s, acts) && IsAccount(Run(s, acts), script, t, left, trace)
  }

  lemma Read(s: State, script: seq<Op>, t: State, left: seq<Op>, trace: seq<Deed>)
    requires Account(s, script, t, left, trace)
    ensures IsAccount(s, script, t, left, trace)
  {
    assert Key(0);
  }

  lemma Begin(s: State, script: seq<Op>)
    requires WellNested(s.calls)
    ensures Account(s, script, s, script, [])
  {
  }

  /** One more move of the library. */
  lemma Step(s: State, script: seq<Op>, t: State, left: seq<Op>, trace: seq<Deed>, a: Action)
    requires Account(s, script, t, left, trace) && Enabled(t, a) && LibraryMove(a)
    ensures Account(s, script, Next(t, a), left, trace + [Lib(a)]) && WellNested(Next(t, a).calls)
  {
    Read(s, script, t, left, trace);
    RunStep(t, a, []);
    assert [a] + [] == [a];
    More(s, script, t, left, trace, Lib(a));
    StepWellNested(t, a);
  }

  /** One more deed that reads nothing from the stream. */
  lemma More(s: State, script: seq<Op>, t: State, left: seq<Op>, trace: seq<Deed>, d: Deed)
    requires IsAccount(s, script, t, left, trace) && CanRun(t, Moves(t, d)) && !d.Did?
    requires (d.Lib? ==> LibraryMove(d.a)) && (d.Lapse? ==> left == [])
    ensures IsAccount(s, script, Run(t, Moves(t, d)), left, trace + [d])
  {
    OneDeed(t, d);
    DoAppend(s, trace, [d]);
    OpsAppend(trace, [d]);
    assert Ops(trace) + [] == Ops(trace);
  }

  /** The next operation of the stream, one that user code cannot interrupt. */
  lemma StepOp(s: State, script: seq<Op>, t: State, left: seq<Op>, trace: seq<Deed>, a: Action)
    requires Account(s, script, t, left, trace) && left != [] && Opens(t, left[0]) == [a] && Enabled(t, a)
    ensures Account(s, script, Next(t, a), left[1..], trace + [Did(left[0])]) && WellNested(Next(t, a).calls)
  {
    Read(s, script, t, left, trace);
    RunStep(t, a, []);
    assert [a] + [] == [a];
    MoreOp(s, script, t, left, trace, [a]);
    StepWellNested(t, a);
  }

  lemma MoreOp(s: State, script: seq<Op>, t: State, left: seq<Op>, trace: seq<Deed>, acts: seq<Action>)
    requires IsAccount(s, script, t, left, trace) && left != [] && acts == Opens(t, left[0]) && CanRun(t, acts)
    ensures IsAccount(s, script, Run(t, acts), left[1..], trace + [Did(left[0])])
  {
    var d := Did(left[0]);
    OneDeed(t, d);
    DoAppend(s, trace, [d]);
    OpsAppend(trace, [d]);
    assert left == [left[0]] + left[1..];
    Assoc(Ops(trace), [left[0]], left[1..]);
  }

  /** User code returns as the stream has ended. */
  lemma StepLapse(s: State, script: seq<Op>, t: State, trace: seq<Deed>)
    requires Account(s, script, t, [], trace) && Enabled(t, Return)
    ensures Account(s, script, Next(t, Return), [], trace + [Lapse]) && WellNested(Next(t, Return).calls)
  {
    Read(s, script, t, [], trace);
    RunStep(t, Return, []);
    assert [Return] + [] == [Return];
    More(s, script, t, [], trace, Lapse);
    StepWellNested(t, Return);
  }

  /** One more call. */
  lemma Then(s: State, script: seq<Op>, t: State, left: seq<Op>, trace: seq<Deed>,
             u: State, left': seq<Op>, trace': seq<Deed>)
    requires Account(s, script, t, left, trace) && Account(t, left, u, left', trace')
    ensures Account(s, script, u, left', trace + trace')
  {
    Read(s, script, t, left, trace);
    Read(t, left, u, left', trace');
    Chain(s, script, t, left, trace, u, left', trace');
  }

  lemma Chain(s: State, script: seq<Op>, t: State, left: seq<Op>, trace: seq<Deed>,
              u: State, left': seq<Op>, trace': seq<Deed>)
    requires IsAccount(s, script, t, left, trace) && IsAccount(t, left, u, left', trace')
    ensures IsAccount(s, script, u, left', trace + trace')
  {
    DoAppend(s, trace, trace');
    OpsAppend(trace, trace');
    Assoc(Ops(trace), Ops(trace'), left');
  }

  lemma Stand(s: State)
    requires WellNested(s.calls)
    ensures Went(s, [], s)
  {
  }

  lemma First(s: State, a: Action)
    requires WellNested(s.calls) && Enabled(s, a)
    ensures Went(s, [a], Next(s, a)) && WellNested(Next(s, a).calls)
  {
    RunStep(s, a, []);
    assert [a] + [] == [a];
    StepWellNested(s, a);
  }

  lemma GoOn(s: State, a: seq<Action>, t: State, b: seq<Action>, u: State)
    requires Went(s, a, t) && Went(t, b, u)
    ensures Went(s, a + b, u)
  {
    assert Key(0);
    RunAppend(s, a, b);
  }

  /** The actions, then the account. */
  lemma Join(s: State, acts: seq<Action>, t: State, script: seq<Op>, u: State, left: seq<Op>, trace: seq<Deed>)
    requires Went(s, acts, t) && Account(t, script, u, left, trace)
    ensures After(s, acts, script, u, left, trace)
  {
    assert Key(0);
  }

  lemma JoinNothing(s: State, acts: seq<Action>, t: State, script: seq<Op>)
    requires Went(s, acts, t)
    ensures After(s, acts, script, t, script, [])
  {
    Begin(t, script);
    Join(s, acts, t, script, t, script, []);
  }

  lemma JoinAfter(s: State, a: seq<Action>, t: State, b: seq<Action>, script: seq<Op>, u: State, left: seq<Op>, trace: seq<Deed>)
    requires Went(s, a, t) && After(t, b, script, u, left, trace)
    ensures After(s, a + b, script, u, left, trace)
  {
    assert Key(0);
    RunAppend(s, a, b);
  }

  lemma AfterThen(s: State, acts: seq<Action>, script: seq<Op>, t: State, left: seq<Op>, trace: seq<Deed>,
                  u: State, left': seq<Op>, trace': seq<Deed>)
    requires After(s, acts, script, t, left, trace) && Account(t, left, u, left', trace')
    ensures After(s, acts, script, u, left', trace + trace')
  {
    assert Key(0);
    Chain(Run(s, acts), script, t, left, trace, u, left', trace');
  }

  /** A deed in front of an account. */
  lemma Front(s: State, d: Deed, acts: seq<Action>, script: seq<Op>, t: State, left: seq<Op>, trace: seq<Deed>)
    requires acts == Moves(s, d) && CanRun(s, acts) && IsAccount(Run(s, acts), script, t, left, trace)
    requires !d.Lapse? && (d.Lib? ==> LibraryMove(d.a))
    ensures IsAccount(s, (if d.Did? then [d.op] else []) + script, t, left, [d] + trace)
  {
    OneDeed(s, d);
    DoAppend(s, [d], trace);
    OpsAppend([d], trace);
    Assoc(if d.Did? then [d.op] else [], Ops(trace), left);
  }

  /** A single move first is the first deed of an account. */
  lemma AfterMove(s: State, a: Action, script: seq<Op>, t: State, left: seq<Op>, trace: seq<Deed>)
    requires After(s, [a], script, t, left, trace) && LibraryMove(a)
    ensures Account(s, script, t, left, [Lib(a)] + trace)
  {
    assert Key(0);
    Front(s, Lib(a), [a], script, t, left, trace);
    assert [] + script == script;
  }

  /** An operation carried out. */
  lemma Done(s: State, op: Op, script: seq<Op>, t: State, left: seq<Op>, trace: seq<Deed>)
    requires After(s, Opens(s, op), script, t, left, trace)
    ensures Account(s, [op] + script, t, left, [Did(op)] + trace)
  {
    assert Key(0);
    Front(s, Did(op), Opens(s, op), script, t, left, trace);
  }

  // ---------------------------------------------------------------------
  // What every account keeps
  // ---------------------------------------------------------------------

  /** The session is beyond recovery or the handle gone. */
  predicate Finished(s: State) {
    s.conn.state < 0 || s.calls.destroyed > 0
  }

  /** What never goes away again. */
  predicate Persists(s: State, t: State) {
    && (s.calls.closeRequested ==> t.calls.closeRequested)
    && t.log.mismatches >= s.log.mismatches && t.calls.destroyed >= s.calls.destroyed
  }

  lemma StepPersists(s: State, a: Action)
    requires Enabled(s, a)
    ensures Persists(s, Next(s, a))
  {
  }

  lemma {:induction false} RunPersists(s: State, run: seq<Action>)
    requires CanRun(s, run)
    ensures Persists(s, Run(s, run))
    decreases |run|
  {
    if run != [] {
      StepPersists(s, run[0]);
      RunPersists(Next(s, run[0]), run[1..]);
    }
  }

  /** Only a new server list takes a state out of the unrecoverable ones, and no call with such a state looks at one. */
  lemma StepFinished(s: State, a: Action)
    requires Enabled(s, a) && !a.ForcedClose? && Finished(s)
    ensures Finished(Next(s, a))
  {
  }

  lemma {:induction false} RunFinished(s: State, run: seq<Action>)
    requires CanRun(s, run) && Finished(s) && forall i :: 0 <= i < |run| ==> !run[i].ForcedClose?
    ensures Finished(Run(s, run))
    decreases |run|
  {
    if run != [] {
      StepFinished(s, run[0]);
      forall i | 0 <= i < |run| - 1 ensures !run[1..][i].ForcedClose? { assert run[1..][i] == run[i + 1]; }
      RunFinished(Next(s, run[0]), run[1..]);
    }
  }

  lemma DeedFinished(s: State, d: Deed)
    requires CanRun(s, Moves(s, d)) && Finished(s) && (d.Lib? ==> LibraryMove(d.a))
    ensures Finished(Run(s, Moves(s, d)))
  {
    if s.calls.destroyed > 0 {
      RunPersists(s, Moves(s, d));
    } else {
      RunFinished(s, Moves(s, d));
    }
  }

  lemma {:induction false} TraceFinished(s: State, trace: seq<Deed>)
    requires CanDo(s, trace) && LibOnly(trace) && Finished(s)
    ensures Finished(Do(s, trace))
    decreases |trace|
  {
    if trace != [] {
      DeedFinished(s, trace[0]);
      LibOnlyTail(trace);
      TraceFinished(Run(s, Moves(s, trace[0])), trace[1..]);
    }
  }

  lemma LibOnlyTail(trace: seq<Deed>)
    requires LibOnly(trace) && trace != []
    ensures LibOnly(trace[1..])
  {
    forall i | 0 <= i < |trace| - 1 && trace[1..][i].Lib? ensures LibraryMove(trace[1..][i].a) { assert trace[1..][i] == trace[i + 1]; }
  }

  lemma Keeps(s: State, script: seq<Op>, t: State, left: seq<Op>, trace: seq<Deed>)
    requires Account(s, script, t, left, trace)
    ensures Persists(s, t) && (Finished(s) ==> Finished(t))
  {
    Read(s, script, t, left, trace);
    TraceIsRun(s, trace);
    RunPersists(s, RunOf(s, trace));
    if Finished(s) {
      TraceFinished(s, trace);
    }
  }

  lemma KeepsAfter(s: State, acts: seq<Action>, script: seq<Op>, t: State, left: seq<Op>, trace: seq<Deed>)
    requires After(s, acts, script, t, left, trace)
    ensures Persists(s, t)
  {
    assert Key(0);
    RunPersists(s, acts);
    TraceIsRun(Run(s, acts), trace);
    RunPersists(Run(s, acts), RunOf(Run(s, acts), trace));
  }

  // ---------------------------------------------------------------------
  // Clean streams
  // ---------------------------------------------------------------------

  lemma OpensHonest(s: State, op: Op)
    requires CleanOp(op)
    ensures AllHonest(Opens(s, op))
  {
    match op
    case OpProcess(events) => ReactsHonest(s, events);
    case OpInterest(i) => MindsHonest(s, i);
    case _ =>
  }

  lemma ReactsHonest(s: State, events: Events)
    ensures AllHonest(Reacts(s, events))
  {
  }

  lemma MindsHonest(s: State, i: Interest)
    requires !i.moves
    ensures AllHonest(Minds(s, i))
  {
    assert AllHonest(Settles(s, i)) && Minds(s, i) == Settles(s, i);
  }

  lemma DeedHonest(s: State, d: Deed)
    requires (d.Did? ==> CleanOp(d.op)) && (d.Lib? ==> LibraryMove(d.a))
    ensures AllHonest(Moves(s, d))
  {
    if d.Did? {
      OpensHonest(s, d.op);
    }
  }

  lemma {:induction false} TraceHonest(s: State, trace: seq<Deed>)
    requires CanDo(s, trace) && LibOnly(trace) && Clean(Ops(trace))
    ensures AllHonest(RunOf(s, trace))
    decreases |trace|
  {
    if trace != [] {
      OpsTail(trace);
      DeedHonest(s, trace[0]);
      LibOnlyTail(trace);
      TraceHonest(Run(s, Moves(s, trace[0])), trace[1..]);
    }
  }

  lemma OpsTail(trace: seq<Deed>)
    requires trace != []
    ensures trace[0].Did? ==> trace[0].op in Ops(trace)
    ensures forall op :: op in Ops(trace[1..]) ==> op in Ops(trace)
  {
  }

  /** An authentication completion is called only where the stream says so. */
  lemma DeedCallsNoAuth(s: State, d: Deed)
    requires d != Did(OpAuthCompletion) && (d.Lib? ==> LibraryMove(d.a))
    ensures Notify !in Moves(s, d)
  {
  }

  lemma {:induction false} TraceCallsNoAuth(s: State, trace: seq<Deed>)
    requires CanDo(s, trace) && LibOnly(trace) && OpAuthCompletion !in Ops(trace)
    ensures Notify !in RunOf(s, trace)
    decreases |trace|
  {
    if trace != [] {
      OpsTail(trace);
      DeedCallsNoAuth(s, trace[0]);
      LibOnlyTail(trace);
      TraceCallsNoAuth(Run(s, Moves(s, trace[0])), trace[1..]);
    }
  }

  /**
    * An in-order server keeps the queues aligned through any call, so no call meets a mismatch,
    * as long as no authentication completion finds or makes a connection under a cleanup.
    */
  lemma CleanCallStaysAligned(s: State, script: seq<Op>, t: State, left: seq<Op>, trace: seq<Deed>)
    requires Account(s, script, t, left, trace) && Clean(script) && Aligned(s) && WellNested(s.calls)
    requires CanDo(s, trace) && OrderlyRun(s, RunOf(s, trace))
    ensures Aligned(t) && t.log.mismatches == 0
  {
    Read(s, script, t, left, trace);
    forall op | op in Ops(trace) ensures op in script { assert op in Ops(trace) + left; }
    TraceHonest(s, trace);
    TraceIsRun(s, trace);
    InOrderServerNeverMismatches(s, RunOf(s, trace));
  }

  /** That is so, in particular, where no authentication completion is called at all. */
  lemma WithoutAuthCompletionsStaysOrderly(s: State, script: seq<Op>, t: State, left: seq<Op>, trace: seq<Deed>)
    requires Account(s, script, t, left, trace) && OpAuthCompletion !in script && DroppingOnTop(s.calls.stack)
    ensures CanDo(s, trace) && OrderlyRun(s, RunOf(s, trace))
  {
    Read(s, script, t, left, trace);
    forall op | op in Ops(trace) ensures op in script { assert op in Ops(trace) + left; }
    TraceCallsNoAuth(s, trace);
    TraceIsRun(s, trace);
    WithoutAuthCompletionsOrderly(s, RunOf(s, trace));
  }

  ghost predicate Ready(zh: ZHandle)
    reads zh
  {
    zh.Valid() && WellNested(zh.calls) && zh.calls.destroyed == 0
  }

  /** No reply waits to be processed, unless the handle is closing. */
  ghost predicate Idle(zh: ZHandle)
    reads zh
  {
    zh.toProcess == [] || zh.calls.closeRequested
  }

  // ---------------------------------------------------------------------
  // Calling out
  // ---------------------------------------------------------------------

  /** User code called by the library: every operation up to its return. */
  method UserCode(zh: ZHandle, script: seq<Op>) returns (left: seq<Op>, ghost trace: seq<Deed>)
    requires Ready(zh) && TopIs(zh.calls, Callback)
    modifies zh
    ensures zh.Valid() && Account(old(zh.Abs()), script, zh.Abs(), left, trace)
    ensures trace != [] && (trace[|trace| - 1] == Did(OpReturn) || trace[|trace| - 1] == Lapse)
    ensures zh.calls.stack == Pop(old(zh.calls)).stack && (old(Idle(zh)) ==> Idle(zh))
    ensures script == [] ==> left == [] && zh.Abs() == old(zh.Abs()).(calls := Pop(old(zh.calls)))
    ensures script != [] ==> |left| < |script|
    decreases |script|, 1
  {
    ghost var s := zh.Abs();
    left, trace := script, [];
    Begin(s, script);
    while left != [] && !left[0].OpReturn?
      invariant Ready(zh) && Account(s, script, zh.Abs(), left, trace) && zh.calls.stack == old(zh.calls.stack)
      invariant left == script ==> zh.Abs() == s
      invariant old(Idle(zh)) ==> Idle(zh)
      decreases |left|
    {
      ghost var t, rest := zh.Abs(), left;
      ghost var more;
      left, more := Perform(zh, left);
      Then(s, script, t, rest, trace, zh.Abs(), left, more);
      trace := trace + more;
    }
    if left != [] {
      StepOp(s, script, zh.Abs(), left, trace, Return);
      trace, left := trace + [Did(OpReturn)], left[1..];
    } else {
      StepLapse(s, script, zh.Abs(), trace);
      trace := trace + [Lapse];
    }
    zh.Return();
  }

  /** The chain of authentication completions, as many as the stream says. */
  method AuthCompletions(zh: ZHandle, script: seq<Op>) returns (left: seq<Op>, ghost trace: seq<Deed>)
    requires Ready(zh) && !UserTurn(zh.calls)
    modifies zh
    ensures Ready(zh) && Account(old(zh.Abs()), script, zh.Abs(), left, trace)
    ensures zh.calls.stack == old(zh.calls.stack) && (old(Idle(zh)) ==> Idle(zh))
    ensures |left| == |script| ==> left == script && zh.Abs() == old(zh.Abs())
    ensures left == [] || !left[0].OpAuthCompletion?
    decreases |script|, 2
  {
    ghost var s := zh.Abs();
    left, trace := script, [];
    Begin(s, script);
    while left != [] && left[0].OpAuthCompletion?
      invariant Ready(zh) && Account(s, script, zh.Abs(), left, trace) && zh.calls.stack == old(zh.calls.stack)
      invariant |left| == |script| ==> left == script && zh.Abs() == s
      invariant old(Idle(zh)) ==> Idle(zh)
      decreases |left|
    {
      StepOp(s, script, zh.Abs(), left, trace, Notify);
      trace, left := trace + [Did(OpAuthCompletion)], left[1..];
      zh.Notify();
      ghost var t, rest := zh.Abs(), left;
      ghost var more;
      left, more := UserCode(zh, left);
      Then(s, script, t, rest, trace, zh.Abs(), left, more);
      trace := trace + more;
    }
  }

  /** process_completions: user code runs for every completion, also for those it adds itself. */
  method ProcessCompletions(zh: ZHandle, script: seq<Op>) returns (left: seq<Op>, ghost trace: seq<Deed>)
    requires Ready(zh) && RunsCompletions(zh.calls)
    modifies zh
    ensures Ready(zh) && Account(old(zh.Abs()), script, zh.Abs(), left, trace)
    ensures zh.calls.stack == old(zh.calls.stack) && zh.completionsToProcess == [] && (old(Idle(zh)) ==> Idle(zh))
    decreases |script|, 3
  {
    ghost var s := zh.Abs();
    left, trace := script, [];
    Begin(s, script);
    while zh.completionsToProcess != []
      invariant Ready(zh) && Account(s, script, zh.Abs(), left, trace) && zh.calls.stack == old(zh.calls.stack)
      invariant old(Idle(zh)) ==> Idle(zh)
      decreases |left|, |zh.completionsToProcess|
    {
      ghost var t, rest := zh.Abs(), left;
      ghost var more;
      left, more := DeliverOne(zh, left);
      Then(s, script, t, rest, trace, zh.Abs(), left, more);
      trace := trace + more;
    }
  }

  /** One completion and the user code it calls. */
  method DeliverOne(zh: ZHandle, script: seq<Op>) returns (left: seq<Op>, ghost trace: seq<Deed>)
    requires Ready(zh) && RunsCompletions(zh.calls) && zh.completionsToProcess != []
    modifies zh
    ensures Ready(zh) && Account(old(zh.Abs()), script, zh.Abs(), left, trace)
    ensures zh.calls.stack == old(zh.calls.stack) && (old(Idle(zh)) ==> Idle(zh))
    ensures |left| < |script| || (left == script && |zh.completionsToProcess| < old(|zh.completionsToProcess|))
    decreases |script|, 2
  {
    ghost var s := zh.Abs();
    Begin(s, script);
    Step(s, script, s, script, [], Deliver);
    zh.DeliverNext();
    ghost var t := zh.Abs();
    left, trace := UserCode(zh, script);
    Then(s, script, t, script, [] + [Lib(Deliver)], zh.Abs(), left, trace);
    trace := [] + [Lib(Deliver)] + trace;
  }

  /** The next operation of the stream, made by user code or happening on the network meanwhile. */
  method Perform(zh: ZHandle, script: seq<Op>) returns (left: seq<Op>, ghost trace: seq<Deed>)
    requires Ready(zh) && UserTurn(zh.calls) && script != [] && (script[0].OpReturn? ==> zh.calls.stack == [])
    modifies zh
    ensures zh.Valid() && Account(old(zh.Abs()), script, zh.Abs(), left, trace)
    ensures zh.calls.stack == old(zh.calls.stack) && |left| < |script| && (old(Idle(zh)) ==> Idle(zh))
    ensures trace != [] && trace[0] == Did(script[0])
    decreases |script|, 0
  {
    ghost var s := zh.Abs();
    left, trace := LibraryCall(zh, script[0], script[1..]);
    Done(s, script[0], script[1..], zh.Abs(), left, trace);
    assert [script[0]] + script[1..] == script;
    trace := [Did(script[0])] + trace;
  }

  method LibraryCall(zh: ZHandle, op: Op, script: seq<Op>) returns (left: seq<Op>, ghost trace: seq<Deed>)
    requires Ready(zh) && UserTurn(zh.calls) && (op.OpReturn? ==> zh.calls.stack == [])
    modifies zh
    ensures zh.Valid() && After(old(zh.Abs()), Opens(old(zh.Abs()), op), script, zh.Abs(), left, trace)
    ensures zh.calls.stack == old(zh.calls.stack) && (old(Idle(zh)) ==> Idle(zh))
    decreases |script|, 15
  {
    ghost var s := zh.Abs();
    left, trace := script, [];
    var rc;
    match op
    case OpSubmit(sends) => AsyncCall(zh, sends); JoinNothing(s, Opens(s, op), zh.Abs(), script);
    case OpAddAuth(sends) => AddAuthCall(zh, sends); JoinNothing(s, Opens(s, op), zh.Abs(), script);
    case OpNetwork(move) => NetworkMove(zh, move); JoinNothing(s, Opens(s, op), zh.Abs(), script);
    case OpClose => left, trace := CloseCall(zh, script);
    case OpProcess(events) => rc, left, trace := ZookeeperProcess(zh, events, script);
    case OpInterest(i) => rc, left, trace := ZookeeperInterest(zh, i, script);
    case _ =>
      Stand(s);
      JoinNothing(s, [], s, script);
  }

  method NetworkMove(zh: ZHandle, move: Action)
    requires Ready(zh)
    modifies zh
    ensures Ready(zh) && Went(old(zh.Abs()), Opens(old(zh.Abs()), OpNetwork(move)), zh.Abs())
    ensures zh.calls == old(zh.calls) && zh.toProcess == old(zh.toProcess)
  {
    if zh.conn.fd == Open && (move.SendEvent? || move.Rogue? || (move.Answer? && zh.wire.atServer != [])) {
      First(zh.Abs(), move);
      zh.Network(move);
    } else {
      Stand(zh.Abs());
    }
  }

  // ---------------------------------------------------------------------
  // Requests
  // ---------------------------------------------------------------------

  /** Sends up to the given number of frames, as far as the connection allows. */
  method FlushFrames(zh: ZHandle, sends: nat)
    requires Ready(zh)
    modifies zh
    ensures Ready(zh) && Went(old(zh.Abs()), Sending(Sendable(old(zh.Abs()), sends)), zh.Abs())
    ensures zh.calls == old(zh.calls) && zh.conn == old(zh.conn) && zh.toProcess == old(zh.toProcess)
    ensures zh.completionsToProcess == old(zh.completionsToProcess) && zh.wire.unread == old(zh.wire.unread)
    ensures zh.log == old(zh.log)
  {
    ghost var s := zh.Abs();
    Stand(s);
    var i := 0;
    while i < sends && zh.toSend != [] && IsConnected(zh.conn.state) && zh.conn.fd == Open
      invariant Ready(zh) && Went(s, Sending(i), zh.Abs())
      invariant 0 <= i <= Sendable(s, sends) && i + |zh.toSend| == old(|zh.toSend|)
      invariant zh.calls == old(zh.calls) && zh.conn == old(zh.conn) && zh.toProcess == old(zh.toProcess)
      invariant zh.completionsToProcess == old(zh.completionsToProcess) && zh.wire.unread == old(zh.wire.unread)
      invariant zh.log == old(zh.log)
    {
      ghost var t := zh.Abs();
      First(t, Action.SendFrame);
      zh.SendFrame();
      GoOn(s, Sending(i), t, [Action.SendFrame], zh.Abs());
      assert Sending(i + 1) == Sending(i) + [Action.SendFrame];
      i := i + 1;
    }
  }

  /** An asynchronous request: queued or refused, and an attempt to send. */
  method AsyncCall(zh: ZHandle, sends: nat)
    requires Ready(zh) && UserTurn(zh.calls)
    modifies zh
    ensures Ready(zh) && Went(old(zh.Abs()), Opens(old(zh.Abs()), OpSubmit(sends)), zh.Abs())
    ensures zh.calls == old(zh.calls) && zh.toProcess == old(zh.toProcess)
  {
    ghost var s := zh.Abs();
    First(s, Submit);
    var rc := zh.Submit();
    ghost var t := zh.Abs();
    FlushFrames(zh, sends);
    GoOn(s, [Submit], t, Sending(Sendable(t, sends)), zh.Abs());
  }

  method AddAuthCall(zh: ZHandle, sends: nat)
    requires Ready(zh) && UserTurn(zh.calls)
    modifies zh
    ensures Ready(zh) && Went(old(zh.Abs()), Opens(old(zh.Abs()), OpAddAuth(sends)), zh.Abs())
    ensures zh.calls == old(zh.calls) && zh.toProcess == old(zh.toProcess)
  {
    ghost var s := zh.Abs();
    Stand(s);
    if zh.conn.state > 0 {
      First(s, AddAuth);
      zh.AddAuth();
      ghost var t := zh.Abs();
      FlushFrames(zh, sends);
      GoOn(s, [AddAuth], t, Sending(Sendable(t, sends)), zh.Abs());
    }
  }

  // ---------------------------------------------------------------------
  // Closing and cleaning up
  // ---------------------------------------------------------------------

  /** destroy: what is left completes, and the handle is gone. */
  method Destroy(zh: ZHandle, script: seq<Op>) returns (left: seq<Op>, ghost trace: seq<Deed>)
    requires Ready(zh) && TopIs(zh.calls, Destroying)
    modifies zh
    ensures zh.Valid() && Account(old(zh.Abs()), script, zh.Abs(), left, trace)
    ensures zh.calls.stack == [] && zh.calls.destroyed == 1 && zh.calls.closeRequested && zh.completionsToProcess == []
    decreases |script|, 5
  {
    ghost var s := zh.Abs();
    assert |zh.calls.stack| == 1;
    left, trace := FinishCalls(zh, script);
    Keeps(s, script, zh.Abs(), left, trace);
    Step(s, script, zh.Abs(), left, trace, Action.FinishDestroy);
    zh.FinishDestroy();
    trace := trace + [Lib(Action.FinishDestroy)];
  }

  /** The authentication completions, then all others. */
  method FinishCalls(zh: ZHandle, script: seq<Op>) returns (left: seq<Op>, ghost trace: seq<Deed>)
    requires Ready(zh) && RunsCompletions(zh.calls) && !UserTurn(zh.calls)
    modifies zh
    ensures Ready(zh) && Account(old(zh.Abs()), script, zh.Abs(), left, trace)
    ensures zh.calls.stack == old(zh.calls.stack) && zh.completionsToProcess == [] && (old(Idle(zh)) ==> Idle(zh))
    decreases |script|, 4
  {
    ghost var s := zh.Abs();
    left, trace := AuthCompletions(zh, script);
    ghost var t, rest := zh.Abs(), left;
    ghost var more;
    left, more := ProcessCompletions(zh, left);
    Then(s, script, t, rest, trace, zh.Abs(), left, more);
    trace := trace + more;
  }

  /** api_epilog: the last frame of a closing handle destroys it. */
  method Leave(zh: ZHandle, script: seq<Op>) returns (left: seq<Op>, ghost trace: seq<Deed>)
    requires Ready(zh) && Enabled(zh.Abs(), Exit)
    modifies zh
    ensures zh.Valid() && Account(old(zh.Abs()), script, zh.Abs(), left, trace)
    ensures zh.calls.stack == Pop(old(zh.calls)).stack && zh.calls.closeRequested == old(zh.calls.closeRequested)
    ensures zh.calls.destroyed == 1 <==> old(zh.calls.closeRequested) && |old(zh.calls.stack)| == 1
    ensures old(zh.completionsToProcess) == [] ==> zh.completionsToProcess == []
    ensures old(Idle(zh)) ==> Idle(zh)
    decreases |script|, 6
  {
    ghost var s := zh.Abs();
    LastReference(zh.calls);
    Begin(s, script);
    Step(s, script, s, script, [], Exit);
    var last := zh.calls.refCounter - 1 == 0 && zh.calls.closeRequested;
    zh.ApiEpilog();
    left, trace := script, [] + [Lib(Exit)];
    if last {
      ghost var t := zh.Abs();
      ghost var more;
      left, more := Destroy(zh, left);
      Then(s, script, t, script, trace, zh.Abs(), left, more);
      trace := trace + more;
    }
  }

  /** zookeeper_close, which takes effect once. */
  method CloseCall(zh: ZHandle, script: seq<Op>) returns (left: seq<Op>, ghost trace: seq<Deed>)
    requires Ready(zh) && UserTurn(zh.calls)
    modifies zh
    ensures zh.Valid() && After(old(zh.Abs()), Opens(old(zh.Abs()), OpClose), script, zh.Abs(), left, trace)
    ensures zh.calls.stack == old(zh.calls.stack) && zh.calls.closeRequested
    ensures !old(zh.calls.closeRequested) && old(zh.calls.stack) == [] ==> zh.calls.destroyed == 1
    decreases |script|, 8
  {
    ghost var s := zh.Abs();
    if zh.calls.closeRequested {
      Stand(s);
      JoinNothing(s, [], s, script);
      return script, [];
    }
    if zh.calls.stack != [] {
      BottomHoldsReference(zh.calls.stack);
    }
    First(s, Action.Close);
    zh.Close();
    ghost var t := zh.Abs();
    if Top(zh.calls) == Destroying {
      left, trace := Destroy(zh, script);
    } else {
      left, trace := DeferClose(zh, script);
    }
    Join(s, [Action.Close], t, script, zh.Abs(), left, trace);
  }

  /** An outer call will free the handle. */
  method DeferClose(zh: ZHandle, script: seq<Op>) returns (left: seq<Op>, ghost trace: seq<Deed>)
    requires Ready(zh) && TopIs(zh.calls, Closing) && zh.calls.closeRequested && |zh.calls.stack| > 1
    modifies zh
    ensures zh.Valid() && Account(old(zh.Abs()), script, zh.Abs(), left, trace)
    ensures zh.calls.stack == Pop(old(zh.calls)).stack && zh.calls.closeRequested
    decreases |script|, 7
  {
    ghost var s := zh.Abs();
    left, trace := AuthCompletions(zh, script);
    Keeps(s, script, zh.Abs(), left, trace);
    ghost var t, rest := zh.Abs(), left;
    ghost var more;
    left, more := Leave(zh, left);
    Then(s, script, t, rest, trace, zh.Abs(), left, more);
    trace := trace + more;
  }

  /** cleanup: the connection is dropped and everything pending completes with the error. */
  method Cleanup(zh: ZHandle, script: seq<Op>) returns (left: seq<Op>, ghost trace: seq<Deed>)
    requires Ready(zh) && Enabled(zh.Abs(), BeginCleanup)
    modifies zh
    ensures Ready(zh) && Account(old(zh.Abs()), script, zh.Abs(), left, trace)
    ensures zh.calls.stack == SetTop(old(zh.calls), Api(Drained)).stack && zh.completionsToProcess == [] && Idle(zh)
    decreases |script|, 6
  {
    ghost var s := zh.Abs();
    left, trace := Announce(zh, script);
    ghost var t, rest := zh.Abs(), left;
    ghost var more;
    left, more := Drain(zh, left);
    Then(s, script, t, rest, trace, zh.Abs(), left, more);
    trace := trace + more;
    t, rest := zh.Abs(), left;
    left, more := Drop(zh, left);
    Then(s, script, t, rest, trace, zh.Abs(), left, more);
    trace := trace + more;
  }

  /** The first part: the descriptor is closed, and a session event delivered if the state calls for one. */
  method Announce(zh: ZHandle, script: seq<Op>) returns (left: seq<Op>, ghost trace: seq<Deed>)
    requires Ready(zh) && Enabled(zh.Abs(), BeginCleanup)
    modifies zh
    ensures Ready(zh) && Account(old(zh.Abs()), script, zh.Abs(), left, trace)
    ensures zh.calls.stack == SetTop(old(zh.calls), Api(Draining(Top(old(zh.calls)).phase.rc))).stack
    decreases |script|, 4
  {
    ghost var s := zh.Abs();
    var announces := zh.conn.state < 0 || IsConnected(zh.conn.state);
    Begin(s, script);
    Step(s, script, s, script, [], Action.BeginCleanup);
    zh.BeginCleanup();
    left, trace := script, [] + [Lib(Action.BeginCleanup)];
    if announces {
      ghost var t := zh.Abs();
      ghost var more;
      left, more := ProcessCompletions(zh, script);
      Then(s, script, t, script, trace, zh.Abs(), left, more);
      trace := trace + more;
    }
  }

  /** The second part: everything pending is completed, and authentication completions are called. */
  method Drain(zh: ZHandle, script: seq<Op>) returns (left: seq<Op>, ghost trace: seq<Deed>)
    requires Ready(zh) && Enabled(zh.Abs(), Action.DrainQueues)
    modifies zh
    ensures Ready(zh) && Account(old(zh.Abs()), script, zh.Abs(), left, trace)
    ensures zh.calls.stack == SetTop(old(zh.calls), Api(Dropping)).stack && Idle(zh)
    decreases |script|, 4
  {
    ghost var s := zh.Abs();
    Begin(s, script);
    Step(s, script, s, script, [], Action.DrainQueues);
    zh.DrainQueues();
    ghost var t := zh.Abs();
    left, trace := AuthCompletions(zh, script);
    Then(s, script, t, script, [] + [Lib(Action.DrainQueues)], zh.Abs(), left, trace);
    trace := [] + [Lib(Action.DrainQueues)] + trace;
  }

  /** The last part: the connection is forgotten and the completions run. */
  method Drop(zh: ZHandle, script: seq<Op>) returns (left: seq<Op>, ghost trace: seq<Deed>)
    requires Ready(zh) && Enabled(zh.Abs(), Action.FinishCleanup) && Idle(zh)
    modifies zh
    ensures Ready(zh) && Account(old(zh.Abs()), script, zh.Abs(), left, trace)
    ensures zh.calls.stack == SetTop(old(zh.calls), Api(Drained)).stack && zh.completionsToProcess == [] && Idle(zh)
    decreases |script|, 4
  {
    ghost var s := zh.Abs();
    Begin(s, script);
    Step(s, script, s, script, [], Action.FinishCleanup);
    zh.FinishCleanup();
    ghost var t := zh.Abs();
    left, trace := ProcessCompletions(zh, script);
    Then(s, script, t, script, [] + [Lib(Action.FinishCleanup)], zh.Abs(), left, trace);
    trace := [] + [Lib(Action.FinishCleanup)] + trace;
  }

  /** handle_socket_error_msg on a call that is under way. */
  method HandleError(zh: ZHandle, rc: int, script: seq<Op>) returns (left: seq<Op>, ghost trace: seq<Deed>)
    requires Ready(zh) && InApi(zh.Abs())
    modifies zh
    ensures Ready(zh) && After(old(zh.Abs()), [Fail(rc)], script, zh.Abs(), left, trace)
    ensures zh.calls.stack == SetTop(old(zh.calls), Api(Drained)).stack && zh.completionsToProcess == [] && Idle(zh)
    decreases |script|, 7
  {
    ghost var s := zh.Abs();
    First(s, Fail(rc));
    zh.FailWith(rc);
    ghost var t := zh.Abs();
    left, trace := Cleanup(zh, script);
    Join(s, [Fail(rc)], t, script, zh.Abs(), left, trace);
  }

  // ---------------------------------------------------------------------
  // zookeeper_process
  // ---------------------------------------------------------------------

  /** The frame of the call under way has stayed, running or drained. */
  twostate predicate FrameKept(zh: ZHandle, ok: bool)
    reads zh
  {
    && old(zh.calls.stack) != []
    && (zh.calls.stack == old(zh.calls.stack) || (!ok && zh.calls.stack == SetTop(old(zh.calls), Api(Drained)).stack))
  }

  /** check_events: at most one step of the connection, one flush and one frame read, with the code that says which. */
  method CheckEvents(zh: ZHandle, events: Events, script: seq<Op>) returns (rc: int, left: seq<Op>, ghost trace: seq<Deed>)
    requires Ready(zh) && InApi(zh.Abs())
    modifies zh
    ensures Ready(zh) && After(old(zh.Abs()), Reacts(old(zh.Abs()), events), script, zh.Abs(), left, trace)
    ensures rc == EventCode(old(zh.Abs()), events) && FrameKept(zh, rc == ZOK)
    ensures rc != ZOK && old(Idle(zh)) ==> Idle(zh)
    decreases |script|, 9
  {
    ghost var s := zh.Abs();
    if zh.conn.fd == NoFd {
      Stand(s);
      JoinNothing(s, [], s, script);
      return ZINVALIDSTATE, script, [];
    }
    if events.write && zh.conn.state == CONNECTING {
      if events.refused || zh.conn.fd == Closed {
        left, trace := HandleError(zh, ZCONNECTIONLOSS, script);
        return ZCONNECTIONLOSS, left, trace;
      }
      First(s, Prime);
      zh.PrimeConnection();
      JoinNothing(s, [Prime], zh.Abs(), script);
      return ZOK, script, [];
    }
    var sendBreaks := events.write && IsConnected(zh.conn.state) && zh.toSend != []
                      && (zh.conn.fd == Closed || (events.sendFails && events.sends < |zh.toSend|));
    FlushFrames(zh, if events.write then events.sends else 0);
    ghost var t, sent := zh.Abs(), Sending(Sendable(s, if events.write then events.sends else 0));
    assert Sendable(s, if events.write then events.sends else 0) == if events.write then Sendable(s, events.sends) else 0;
    if sendBreaks {
      left, trace := HandleError(zh, ZCONNECTIONLOSS, script);
      JoinAfter(s, sent, t, [Fail(ZCONNECTIONLOSS)], script, zh.Abs(), left, trace);
      return ZCONNECTIONLOSS, left, trace;
    }
    if events.read {
      rc, left, trace := ReadEvents(zh, events, script);
      JoinAfter(s, sent, t, Reads(t, events), script, zh.Abs(), left, trace);
    } else {
      rc, left, trace := ZOK, script, [];
      JoinNothing(s, sent, t, script);
      assert sent + [] == sent;
    }
  }

  /** The read half: a failure, the answer to the handshake, a reply, or nothing. */
  method ReadEvents(zh: ZHandle, events: Events, script: seq<Op>) returns (rc: int, left: seq<Op>, ghost trace: seq<Deed>)
    requires Ready(zh) && InApi(zh.Abs()) && zh.conn.fd != NoFd
    modifies zh
    ensures Ready(zh) && After(old(zh.Abs()), Reads(old(zh.Abs()), events), script, zh.Abs(), left, trace)
    ensures rc == ReadCode(old(zh.Abs()), events) && FrameKept(zh, rc == ZOK)
    ensures rc != ZOK && old(Idle(zh)) ==> Idle(zh)
    decreases |script|, 8
  {
    ghost var s := zh.Abs();
    if events.readFails || zh.conn.fd == Closed {
      left, trace := HandleError(zh, ZCONNECTIONLOSS, script);
      rc := ZCONNECTIONLOSS;
    } else if zh.conn.state == ASSOCIATING && events.hello.Some? {
      rc, left, trace := FinishPrimer(zh, events.hello.value, script);
    } else if IsConnected(zh.conn.state) && zh.wire.unread != [] {
      First(s, Receive);
      zh.ReceiveFrame();
      JoinNothing(s, [Receive], zh.Abs(), script);
      rc, left, trace := ZOK, script, [];
    } else {
      Stand(s);
      JoinNothing(s, [], s, script);
      rc, left, trace := ZNOTHING, script, [];
    }
  }

  /** The answer to the handshake: the session expires, or is announced to the user at once. */
  method FinishPrimer(zh: ZHandle, hello: Hello, script: seq<Op>) returns (rc: int, left: seq<Op>, ghost trace: seq<Deed>)
    requires Ready(zh) && InApi(zh.Abs()) && zh.conn.fd == Open && zh.conn.state == ASSOCIATING
    modifies zh
    ensures Ready(zh)
    ensures After(old(zh.Abs()), [Handshake(hello.sessionId, hello.readOnly, hello.watches, hello.auths)], script,
                  zh.Abs(), left, trace)
    ensures rc == (if Foreign(old(zh.Abs()), hello.sessionId) then ZSESSIONEXPIRED else ZOK) && FrameKept(zh, rc == ZOK)
    ensures rc != ZOK && old(Idle(zh)) ==> Idle(zh)
    decreases |script|, 7
  {
    ghost var s := zh.Abs();
    ghost var a := Handshake(hello.sessionId, hello.readOnly, hello.watches, hello.auths);
    First(s, a);
    rc := zh.FinishHandshake(hello.sessionId, hello.readOnly, hello.watches, hello.auths);
    ghost var t := zh.Abs();
    if rc == ZOK {
      left, trace := ProcessCompletions(zh, script);
    } else {
      left, trace := Cleanup(zh, script);
    }
    Join(s, [a], t, script, zh.Abs(), left, trace);
  }

  /** The codes the dispatch of replies can end with, and what each of them means. */
  predicate ReplyCode(rc: int, s: State, t: State) {
    || rc == ZOK
    || (rc == ZAUTHFAILED && Finished(t))
    || (rc == ZINVALIDSTATE && t.calls.closeRequested)
    || (rc == ZRUNTIMEINCONSISTENCY && t.log.mismatches > s.log.mismatches)
  }

  /** The loop over `to_process`, with the authentication completions called inside it. */
  method ProcessReplies(zh: ZHandle, script: seq<Op>) returns (rc: int, left: seq<Op>, ghost trace: seq<Deed>)
    requires Ready(zh) && InApi(zh.Abs())
    modifies zh
    ensures Ready(zh) && Account(old(zh.Abs()), script, zh.Abs(), left, trace)
    ensures ReplyCode(rc, old(zh.Abs()), zh.Abs()) && FrameKept(zh, rc == ZOK)
    ensures Idle(zh) && (rc == ZOK ==> zh.toProcess == [])
    decreases |script|, 11
  {
    ghost var s := zh.Abs();
    Begin(s, script);
    left, trace, rc := script, [], ZOK;
    while zh.toProcess != [] && rc == ZOK
      invariant Ready(zh) && Account(s, script, zh.Abs(), left, trace) && FrameKept(zh, rc == ZOK)
      invariant ReplyCode(rc, s, zh.Abs()) && (rc != ZOK ==> Idle(zh))
      decreases rc == ZOK, |left|, |zh.toProcess|
    {
      ghost var t, rest := zh.Abs(), left;
      Keeps(s, script, t, left, trace);
      ghost var more;
      rc, left, more := OneReply(zh, left);
      Then(s, script, t, rest, trace, zh.Abs(), left, more);
      trace := trace + more;
    }
  }

  /** One reply, with the authentication completions it calls and the cleanup it may end in. */
  method OneReply(zh: ZHandle, script: seq<Op>) returns (rc: int, left: seq<Op>, ghost trace: seq<Deed>)
    requires Ready(zh) && InApi(zh.Abs()) && zh.toProcess != []
    modifies zh
    ensures Ready(zh) && Account(old(zh.Abs()), script, zh.Abs(), left, trace)
    ensures ReplyCode(rc, old(zh.Abs()), zh.Abs()) && (rc != ZOK ==> Idle(zh))
    ensures FrameKept(zh, rc == ZOK) && (|left| < |script| || rc != ZOK || |zh.toProcess| < old(|zh.toProcess|))
    decreases |script|, 10
  {
    ghost var s := zh.Abs();
    var isAuth := zh.toProcess[0].xid == AUTH_XID;
    rc := TakeReply(zh, script);
    ghost var t := zh.Abs();
    rc, left, trace := AfterReply(zh, isAuth, rc, script, s);
    Then(s, script, t, script, [Lib(ProcessReply)], zh.Abs(), left, trace);
    trace := [Lib(ProcessReply)] + trace;
  }

  /** The reply alone. */
  method TakeReply(zh: ZHandle, ghost script: seq<Op>) returns (rc: int)
    requires Ready(zh) && InApi(zh.Abs()) && zh.toProcess != []
    modifies zh
    ensures Ready(zh) && Account(old(zh.Abs()), script, zh.Abs(), script, [Lib(ProcessReply)])
    ensures ReplyCode(rc, old(zh.Abs()), zh.Abs()) && zh.log.mismatches >= old(zh.log.mismatches)
    ensures |zh.toProcess| < old(|zh.toProcess|)
    ensures if old(zh.toProcess)[0].xid == AUTH_XID then rc == ZOK || (rc == ZAUTHFAILED && zh.conn.state < 0) else rc != ZAUTHFAILED
    ensures rc == ZOK || rc == ZINVALIDSTATE ==> zh.calls == old(zh.calls)
    ensures rc != ZOK && rc != ZINVALIDSTATE ==> zh.calls == SetTop(old(zh.calls), Api(Failed(rc)))
  {
    OneMove(zh.Abs(), script, ProcessReply);
    rc := zh.DispatchReply();
  }

  /** A single move of the library. */
  lemma OneMove(s: State, script: seq<Op>, a: Action)
    requires WellNested(s.calls) && Enabled(s, a) && LibraryMove(a)
    ensures Account(s, script, Next(s, a), script, [Lib(a)]) && WellNested(Next(s, a).calls)
  {
    Begin(s, script);
    Step(s, script, s, script, [], a);
    assert [] + [Lib(a)] == [Lib(a)];
  }

  /** What a reply entails: authentication completions, or the cleanup after a mismatch. */
  method AfterReply(zh: ZHandle, isAuth: bool, code: int, script: seq<Op>, ghost s: State)
    returns (rc: int, left: seq<Op>, ghost trace: seq<Deed>)
    requires Ready(zh) && s.log.mismatches <= zh.log.mismatches && ReplyCode(code, s, zh.Abs())
    requires TopIs(zh.calls, Api(if code == ZOK || code == ZINVALIDSTATE then Running else Failed(code)))
    requires if isAuth then code == ZOK || (code == ZAUTHFAILED && zh.conn.state < 0) else code != ZAUTHFAILED
    modifies zh
    ensures Ready(zh) && Account(old(zh.Abs()), script, zh.Abs(), left, trace)
    ensures ReplyCode(rc, s, zh.Abs()) && (rc != ZOK ==> Idle(zh)) && (rc == ZOK ==> code == ZOK)
    ensures rc == ZINVALIDSTATE ==> code == ZINVALIDSTATE
    ensures rc == ZOK || rc == ZINVALIDSTATE ==> zh.calls.stack == old(zh.calls.stack)
    ensures rc != ZOK && rc != ZINVALIDSTATE ==> zh.calls.stack == SetTop(old(zh.calls), Api(Drained)).stack
    ensures rc == ZOK ==> |left| < |script| || zh.toProcess == old(zh.toProcess)
    decreases |script|, 9
  {
    ghost var t := zh.Abs();
    rc := code;
    if isAuth {
      rc, left, trace := AfterAuth(zh, code, script);
    } else if code == ZRUNTIMEINCONSISTENCY {
      left, trace := Cleanup(zh, script);
      Keeps(t, script, zh.Abs(), left, trace);
    } else {
      Begin(t, script);
      left, trace := script, [];
    }
  }

  /** The authentication completions, and the cleanup if the session is lost by then. */
  method AfterAuth(zh: ZHandle, code: int, script: seq<Op>) returns (rc: int, left: seq<Op>, ghost trace: seq<Deed>)
    requires Ready(zh) && TopIs(zh.calls, Api(if code == ZOK then Running else Failed(code)))
    requires code == ZOK || (code == ZAUTHFAILED && zh.conn.state < 0)
    modifies zh
    ensures Ready(zh) && Account(old(zh.Abs()), script, zh.Abs(), left, trace)
    ensures rc == ZOK || (rc == ZAUTHFAILED && Finished(zh.Abs()) && Idle(zh))
    ensures rc == ZOK ==> zh.calls.stack == old(zh.calls.stack) && TopIs(zh.calls, Api(Running))
    ensures rc == ZOK ==> |left| < |script| || zh.toProcess == old(zh.toProcess)
    ensures rc != ZOK ==> zh.calls.stack == SetTop(old(zh.calls), Api(Drained)).stack
    decreases |script|, 8
  {
    ghost var s := zh.Abs();
    rc := code;
    left, trace := AuthCompletions(zh, script);
    Keeps(s, script, zh.Abs(), left, trace);
    ghost var t, rest, more := zh.Abs(), left, [];
    if rc != ZOK {
      left, more := Cleanup(zh, left);
    } else if zh.conn.state < 0 {
      rc := ZAUTHFAILED;
      left, more := HandleError(zh, rc, left);
      AfterMove(t, Fail(rc), rest, zh.Abs(), left, more);
      more := [Lib(Fail(rc))] + more;
    } else {
      return;
    }
    Keeps(t, rest, zh.Abs(), left, more);
    Then(s, script, t, rest, trace, zh.Abs(), left, more);
    trace := trace + more;
  }

  /** A call that has kept its frame, running or drained, leaves the stack as it found it. */
  lemma FrameLeaves(before: Calls, entered: Calls, after: Calls)
    requires entered.stack == before.stack + [Api(Running)]
    requires after.stack == entered.stack || after.stack == SetTop(entered, Api(Drained)).stack
    ensures after.stack != [] && Pop(after).stack == before.stack && (Top(after) == Api(Running) || Top(after) == Api(Drained))
  {
  }

  /** The code of the call: that of the events, and if those went well, that of the replies. */
  predicate CallCode(rc: int, s: State, events: Events, t: State) {
    if EventCode(s, events) != ZOK then rc == EventCode(s, events) else ReplyCode(rc, s, t)
  }

  /**
    * zookeeper_process, all of it: the events decide what happens first and the code; on success
    * every reply has been processed and every completion delivered.
    */
  method ZookeeperProcess(zh: ZHandle, events: Events, script: seq<Op>)
    returns (rc: int, left: seq<Op>, ghost trace: seq<Deed>)
    requires Ready(zh) && UserTurn(zh.calls)
    modifies zh
    ensures zh.Valid() && After(old(zh.Abs()), Opens(old(zh.Abs()), OpProcess(events)), script, zh.Abs(), left, trace)
    ensures if old(zh.conn.state) < 0 then rc == ZINVALIDSTATE else CallCode(rc, old(zh.Abs()), events, zh.Abs())
    ensures zh.calls.stack == old(zh.calls.stack) && (old(Idle(zh)) ==> Idle(zh))
    ensures rc == ZOK ==> zh.completionsToProcess == [] && Idle(zh)
    ensures old(zh.conn.state) >= 0 && EventCode(old(zh.Abs()), events) == ZOK
            && !zh.calls.closeRequested && zh.conn.state >= 0 && zh.log.mismatches == old(zh.log.mismatches)
            ==> rc == ZOK && zh.toProcess == [] && zh.completionsToProcess == []
    decreases |script|, 14
  {
    ghost var s := zh.Abs();
    if zh.conn.state < 0 {
      Stand(s);
      JoinNothing(s, [], s, script);
      return ZINVALIDSTATE, script, [];
    }
    First(s, EnterApi);
    zh.ApiProlog();
    ghost var t := zh.Abs();
    rc, left, trace := ProcessFrame(zh, events, script);
    SameReaction(s, t, events);
    JoinAfter(s, [EnterApi], t, Reacts(t, events), script, zh.Abs(), left, trace);
  }

  lemma SameReaction(s: State, t: State, events: Events)
    requires t.conn == s.conn && t.q == s.q && t.wire == s.wire
    ensures Reacts(t, events) == Reacts(s, events) && EventCode(t, events) == EventCode(s, events)
  {
  }

  /** From behind the prolog to the epilog. */
  method ProcessFrame(zh: ZHandle, events: Events, script: seq<Op>) returns (rc: int, left: seq<Op>, ghost trace: seq<Deed>)
    requires Ready(zh) && InApi(zh.Abs())
    modifies zh
    ensures zh.Valid() && After(old(zh.Abs()), Reacts(old(zh.Abs()), events), script, zh.Abs(), left, trace)
    ensures CallCode(rc, old(zh.Abs()), events, zh.Abs()) && (old(Idle(zh)) ==> Idle(zh))
    ensures zh.calls.stack == Pop(old(zh.calls)).stack && (rc == ZOK ==> zh.completionsToProcess == [] && Idle(zh))
    decreases |script|, 13
  {
    ghost var s, before := zh.Abs(), Pop(zh.calls);
    rc, left, trace := ProcessBody(zh, events, script);
    ghost var t, rest := zh.Abs(), left;
    FrameLeaves(before, s.calls, zh.calls);
    ghost var more;
    left, more := Leave(zh, left);
    Keeps(t, rest, zh.Abs(), left, more);
    AfterThen(s, Reacts(s, events), script, t, rest, trace, zh.Abs(), left, more);
    trace := trace + more;
  }

  /** Between prolog and epilog. */
  method ProcessBody(zh: ZHandle, events: Events, script: seq<Op>) returns (rc: int, left: seq<Op>, ghost trace: seq<Deed>)
    requires Ready(zh) && InApi(zh.Abs())
    modifies zh
    ensures Ready(zh) && After(old(zh.Abs()), Reacts(old(zh.Abs()), events), script, zh.Abs(), left, trace)
    ensures CallCode(rc, old(zh.Abs()), events, zh.Abs()) && FrameKept(zh, rc == ZOK)
    ensures (old(Idle(zh)) ==> Idle(zh)) && (rc == ZOK ==> zh.completionsToProcess == [] && Idle(zh))
    decreases |script|, 12
  {
    ghost var s := zh.Abs();
    rc, left, trace := CheckEvents(zh, events, script);
    if rc != ZOK {
      return;
    }
    ghost var t, rest, more := zh.Abs(), left, [];
    KeepsAfter(s, Reacts(s, events), script, t, left, trace);
    rc, left, more := ProcessReplies(zh, left);
    AfterThen(s, Reacts(s, events), script, t, rest, trace, zh.Abs(), left, more);
    trace := trace + more;
    if rc != ZOK {
      return;
    }
    t, rest := zh.Abs(), left;
    left, more := ProcessCompletions(zh, left);
    AfterThen(s, Reacts(s, events), script, t, rest, trace, zh.Abs(), left, more);
    trace := trace + more;
  }

  /** With nothing left to deliver, every request is delivered or still pending: none whose reply was read is held back. */
  lemma NothingHeldBack(s: State, script: seq<Op>, t: State, left: seq<Op>, trace: seq<Deed>)
    requires Account(s, script, t, left, trace) && InOrder(s.q, s.log) && Numbered(s.log) && t.q.completions == []
    ensures Outcomes(t.log.delivered) + t.q.sent == t.log.accepted
  {
    Read(s, script, t, left, trace);
    TraceIsRun(s, trace);
    ExactlyOnceInOrder(s, RunOf(s, trace));
    assert Outcomes(t.log.delivered) + [] == Outcomes(t.log.delivered);
  }

  // ---------------------------------------------------------------------
  // zookeeper_interest
  // ---------------------------------------------------------------------

  /** zookeeper_interest: the new server list, the connection attempt, the time-out, the ping. */
  method ZookeeperInterest(zh: ZHandle, i: Interest, script: seq<Op>) returns (rc: int, left: seq<Op>, ghost trace: seq<Deed>)
    requires Ready(zh) && UserTurn(zh.calls)
    modifies zh
    ensures zh.Valid() && After(old(zh.Abs()), Opens(old(zh.Abs()), OpInterest(i)), script, zh.Abs(), left, trace)
    ensures rc == if old(zh.conn.state) < 0 then ZINVALIDSTATE else SettleCode(Rebalanced(old(zh.Abs()), i), i)
    ensures zh.calls.stack == old(zh.calls.stack) && (old(Idle(zh)) ==> Idle(zh))
    decreases |script|, 11
  {
    ghost var s := zh.Abs();
    if zh.conn.state < 0 {
      Stand(s);
      JoinNothing(s, [], s, script);
      return ZINVALIDSTATE, script, [];
    }
    First(s, EnterApi);
    zh.ApiProlog();
    ghost var t := zh.Abs();
    rc, left, trace := InterestFrame(zh, i, script);
    SameMind(s, t, i);
    JoinAfter(s, [EnterApi], t, Minds(t, i), script, zh.Abs(), left, trace);
  }

  lemma SameMind(s: State, t: State, i: Interest)
    requires t.conn == s.conn && t.q == s.q && t.wire == s.wire
    ensures Minds(t, i) == Minds(s, i) && SettleCode(Rebalanced(t, i), i) == SettleCode(Rebalanced(s, i), i)
  {
  }

  method InterestFrame(zh: ZHandle, i: Interest, script: seq<Op>) returns (rc: int, left: seq<Op>, ghost trace: seq<Deed>)
    requires Ready(zh) && InApi(zh.Abs()) && zh.conn.state >= 0
    modifies zh
    ensures zh.Valid() && After(old(zh.Abs()), Minds(old(zh.Abs()), i), script, zh.Abs(), left, trace)
    ensures rc == SettleCode(Rebalanced(old(zh.Abs()), i), i)
    ensures zh.calls.stack == Pop(old(zh.calls)).stack && (old(Idle(zh)) ==> Idle(zh))
    decreases |script|, 10
  {
    ghost var s, before := zh.Abs(), Pop(zh.calls);
    rc, left, trace := InterestMoves(zh, i, script);
    ghost var t, rest := zh.Abs(), left;
    FrameLeaves(before, s.calls, zh.calls);
    ghost var more;
    left, more := Leave(zh, left);
    AfterThen(s, Minds(s, i), script, t, rest, trace, zh.Abs(), left, more);
    trace := trace + more;
  }

  /** A new server list first. */
  method InterestMoves(zh: ZHandle, i: Interest, script: seq<Op>) returns (rc: int, left: seq<Op>, ghost trace: seq<Deed>)
    requires Ready(zh) && InApi(zh.Abs()) && zh.conn.state >= 0
    modifies zh
    ensures Ready(zh) && After(old(zh.Abs()), Minds(old(zh.Abs()), i), script, zh.Abs(), left, trace)
    ensures rc == SettleCode(Rebalanced(old(zh.Abs()), i), i) && FrameKept(zh, false) && (old(Idle(zh)) ==> Idle(zh))
    decreases |script|, 9
  {
    ghost var s := zh.Abs();
    Stand(s);
    if i.moves && zh.conn.fd != NoFd {
      First(s, ForcedClose);
      zh.ForceClose();
    }
    ghost var r := zh.Abs();
    rc, left, trace := InterestBody(zh, i, script);
    JoinAfter(s, if i.moves && s.conn.fd != NoFd then [ForcedClose] else [], r, Settles(r, i), script, zh.Abs(), left, trace);
  }

  method InterestBody(zh: ZHandle, i: Interest, script: seq<Op>) returns (rc: int, left: seq<Op>, ghost trace: seq<Deed>)
    requires Ready(zh) && InApi(zh.Abs()) && zh.conn.state >= 0
    modifies zh
    ensures Ready(zh) && After(old(zh.Abs()), Settles(old(zh.Abs()), i), script, zh.Abs(), left, trace)
    ensures rc == SettleCode(old(zh.Abs()), i) && FrameKept(zh, false) && (old(Idle(zh)) ==> Idle(zh))
    decreases |script|, 8
  {
    ghost var s := zh.Abs();
    left, trace, rc := script, [], ZOK;
    if zh.conn.fd == NoFd {
      match i.attempt
      case Delayed =>
        Stand(s);
        JoinNothing(s, [], s, script);
      case NoSocket =>
        left, trace := HandleError(zh, ZSYSTEMERROR, script);
        rc := ZSYSTEMERROR;
      case Refused =>
        left, trace := RefusedConnect(zh, script);
        rc := ZCONNECTIONLOSS;
      case _ =>
        First(s, Action.Connect(i.attempt == Immediate));
        zh.Connect(i.attempt == Immediate);
        JoinNothing(s, [Action.Connect(i.attempt == Immediate)], zh.Abs(), script);
    } else if i.timedOut {
      left, trace := HandleError(zh, ZOPERATIONTIMEOUT, script);
      rc := ZOPERATIONTIMEOUT;
    } else if IsConnected(zh.conn.state) && i.ping && zh.sentRequests == [] {
      rc := if i.pingFails || zh.conn.fd == Closed then ZCONNECTIONLOSS else ZOK;
      SendPing(zh, i.sends);
      JoinNothing(s, Settles(s, i), zh.Abs(), script);
    } else {
      Stand(s);
      JoinNothing(s, [], s, script);
    }
  }

  /** connect() fails: the descriptor is cleaned up like any other. */
  method RefusedConnect(zh: ZHandle, script: seq<Op>) returns (left: seq<Op>, ghost trace: seq<Deed>)
    requires Ready(zh) && Enabled(zh.Abs(), FailConnect)
    modifies zh
    ensures Ready(zh) && After(old(zh.Abs()), [FailConnect], script, zh.Abs(), left, trace)
    ensures zh.calls.stack == SetTop(old(zh.calls), Api(Drained)).stack && Idle(zh)
    decreases |script|, 7
  {
    ghost var s := zh.Abs();
    First(s, Action.FailConnect);
    zh.FailConnect();
    ghost var t := zh.Abs();
    left, trace := Cleanup(zh, script);
    Join(s, [Action.FailConnect], t, script, zh.Abs(), left, trace);
  }

  method SendPing(zh: ZHandle, sends: nat)
    requires Ready(zh) && Enabled(zh.Abs(), Ping)
    modifies zh
    ensures Ready(zh) && zh.calls == old(zh.calls) && zh.toProcess == old(zh.toProcess)
    ensures var s := old(zh.Abs());
            Went(s, [Ping] + Sending(Sendable(s.(q := s.q.(toSend := s.q.toSend + [PING_XID])), sends)), zh.Abs())
  {
    ghost var s := zh.Abs();
    First(s, Ping);
    zh.QueuePing();
    ghost var t := zh.Abs();
    FlushFrames(zh, sends);
    GoOn(s, [Ping], t, Sending(Sendable(t, sends)), zh.Abs());
  }

  // ---------------------------------------------------------------------
  // Whole programs
  // ---------------------------------------------------------------------

  /**
    * A user program from the first call on a fresh handle to the end of the stream or of the
    * handle. The trace carries out every operation of the stream, in order; whatever it does in
    * callbacks and whatever the server does, requests complete in order and at most once; when
    * the handle is gone all of them have; and an in-order server is never found out of order,
    * unless an authentication completion finds or makes a connection under a cleanup.
    */
  method Program(clientId: int, firstXid: int, script: seq<Op>) returns (zh: ZHandle, left: seq<Op>, ghost trace: seq<Deed>)
    ensures IsAccount(Init(clientId, firstXid), script, zh.Abs(), left, trace) && (left == [] || zh.calls.destroyed == 1)
    ensures Outcomes(zh.log.delivered) <= zh.log.accepted && Numbered(zh.log)
    ensures zh.calls.stack == [] && (zh.calls.destroyed == 1 <==> zh.calls.closeRequested)
    ensures zh.calls.destroyed == 1 ==> Outcomes(zh.log.delivered) == zh.log.accepted
    ensures firstXid > 0 && Clean(script) && OrderlyRun(Init(clientId, firstXid), RunOf(Init(clientId, firstXid), trace)) ==>
              zh.log.mismatches == 0 && !zh.log.assertFailed
    ensures firstXid > 0 && Clean(script) && OpAuthCompletion !in script ==> zh.log.mismatches == 0 && !zh.log.assertFailed
  {
    zh := new ZHandle(clientId, firstXid);
    ghost var s := zh.Abs();
    left, trace := script, [];
    Begin(s, script);
    while left != [] && zh.calls.destroyed == 0
      invariant fresh(zh) && zh.Valid() && Account(s, script, zh.Abs(), left, trace) && zh.calls.stack == []
      decreases |left|
    {
      ghost var t, rest := zh.Abs(), left;
      ghost var more;
      left, more := Perform(zh, left);
      Then(s, script, t, rest, trace, zh.Abs(), left, more);
      trace := trace + more;
    }
    ProgramFacts(clientId, firstXid, script, zh.Abs(), left, trace);
  }

  lemma ProgramFacts(clientId: int, firstXid: int, script: seq<Op>, t: State, left: seq<Op>, trace: seq<Deed>)
    requires Account(Init(clientId, firstXid), script, t, left, trace) && t.calls.stack == []
    ensures IsAccount(Init(clientId, firstXid), script, t, left, trace)
    ensures Outcomes(t.log.delivered) <= t.log.accepted && Numbered(t.log)
    ensures t.calls.destroyed == 1 <==> t.calls.closeRequested
    ensures t.calls.destroyed == 1 ==> Outcomes(t.log.delivered) == t.log.accepted
    ensures firstXid > 0 && Clean(script) && OrderlyRun(Init(clientId, firstXid), RunOf(Init(clientId, firstXid), trace)) ==>
              t.log.mismatches == 0 && !t.log.assertFailed
    ensures firstXid > 0 && Clean(script) && OpAuthCompletion !in script ==> t.log.mismatches == 0 && !t.log.assertFailed
  {
    var s := Init(clientId, firstXid);
    Read(s, script, t, left, trace);
    TraceIsRun(s, trace);
    AllCompletedBeforeFree(clientId, firstXid, RunOf(s, trace));
    FreedOnceByLastFrame(s, RunOf(s, trace));
    assert Outcomes(t.log.delivered) <= Outcomes(t.log.delivered) + Outcomes(t.q.completions) + t.q.sent;
    if OpAuthCompletion !in script {
      WithoutAuthCompletionsStaysOrderly(s, script, t, left, trace);
    }
    if firstXid > 0 && Clean(script) && OrderlyRun(s, RunOf(s, trace)) {
      assert InFlight(s.q, NO_WIRE) == [];
      CleanCallStaysAligned(s, script, t, left, trace);
    }
  }
}
