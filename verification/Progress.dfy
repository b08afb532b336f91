/**
  * Progress: what the events of a call come to, and that a connected client whose server
  * answers completes everything it has accepted.
  */
module Progress {
  import opened Common
  import opened Client
  import opened Completions
  import opened LifeCycle
  import opened Fifo
  import opened Codes
  import opened Frames
  import opened Process

  // ---------------------------------------------------------------------
  // The events of zookeeper_process
  // ---------------------------------------------------------------------

  function Sent(s: State, n: nat): State
    requires n <= |s.q.toSend|
  {
    s.(q := s.q.(toSend := s.q.toSend[n..]), wire := s.wire.(atServer := s.wire.atServer + s.q.toSend[..n]))
  }

  lemma SentKeepsLine(s: State, n: nat)
    requires n <= |s.q.toSend|
    ensures Sent(s, n).wire.atServer + Sent(s, n).q.toSend == s.wire.atServer + s.q.toSend
  {
    assert s.q.toSend[..n] + s.q.toSend[n..] == s.q.toSend;
    Assoc(s.wire.atServer, s.q.toSend[..n], s.q.toSend[n..]);
  }

  lemma {:induction false} SendingRuns(s: State, n: nat)
    requires n <= |s.q.toSend| && (n > 0 ==> s.conn.fd == Open && IsConnected(s.conn.state))
    ensures CanRun(s, Sending(n)) && Run(s, Sending(n)) == Sent(s, n)
    decreases n
  {
    if n == 0 {
      assert Sent(s, 0) == s;
    } else {
      var t := Next(s, Action.SendFrame);
      SendingRuns(t, n - 1);
      assert Sending(n) == [Action.SendFrame] + Sending(n - 1);
      RunStep(s, Action.SendFrame, Sending(n - 1));
      assert Sent(t, n - 1) == Sent(s, n) by {
        assert t.wire.atServer + t.q.toSend[..n - 1] == s.wire.atServer + s.q.toSend[..n];
      }
    }
  }

  /** How many frames the socket takes. */
  function Taken(s: State, events: Events): (n: nat)
    ensures n <= |s.q.toSend|
  {
    if !events.write || s.conn.fd != Open || !(s.conn.state == 3 || s.conn.state == 5) then 0
    else if events.sends < |s.q.toSend| then events.sends else |s.q.toSend|
  }

  /** The connection breaks: it cannot be made, or a send or a read that is made fails. */
  predicate Breaks(s: State, events: Events) {
    if s.conn.state == 1 && events.write then events.refused || s.conn.fd == Closed
    else
      || (events.read && (events.readFails || s.conn.fd == Closed))
      || (events.write && (s.conn.state == 3 || s.conn.state == 5) && s.q.toSend != []
          && (s.conn.fd == Closed || (events.sendFails && events.sends < |s.q.toSend|)))
  }

  /** Without a descriptor nothing happens, and the call says so. */
  lemma NoDescriptor(s: State, events: Events)
    requires s.conn.fd == NoFd
    ensures Reacts(s, events) == [] && EventCode(s, events) == -9
  {
  }

  /** A connection that breaks fails the call with the loss, after the frames that still got out. */
  lemma BrokenConnection(s: State, events: Events)
    requires InApi(s) && s.conn.fd != NoFd && Breaks(s, events)
    ensures EventCode(s, events) == -4 && CanRun(s, Reacts(s, events))
    ensures Run(s, Reacts(s, events)) == Sent(s, Taken(s, events)).(calls := SetTop(s.calls, Api(Failed(-4))))
  {
    var n := Taken(s, events);
    SendingRuns(s, n);
    var u := Sent(s, n);
    RunStep(u, Fail(-4), []);
    assert [Fail(-4)] + [] == [Fail(-4)];
    RunAppend(s, Sending(n), [Fail(-4)]);
    if s.conn.state == 1 && events.write {
      assert n == 0 && Sending(0) + [Fail(-4)] == [Fail(-4)];
    }
    assert Reacts(s, events) == Sending(n) + [Fail(-4)];
  }

  /** A connection that is made (1) goes on to the handshake (2). */
  lemma ConnectionMade(s: State, events: Events)
    requires InApi(s) && s.conn.fd == Open && !Breaks(s, events) && s.conn.state == 1 && events.write
    ensures EventCode(s, events) == 0 && CanRun(s, Reacts(s, events))
    ensures Run(s, Reacts(s, events)) == s.(conn := s.conn.(state := 2))
  {
    RunStep(s, Prime, []);
    assert [Prime] + [] == [Prime];
  }

  /** The answer to the handshake (2) connects the session or, under another id, ends it with expiry. */
  lemma HandshakeAnswered(s: State, events: Events)
    requires InApi(s) && s.conn.fd == Open && !Breaks(s, events) && s.conn.state == 2 && events.read && events.hello.Some?
    ensures CanRun(s, Reacts(s, events))
    ensures var h, t := events.hello.value, Run(s, Reacts(s, events));
            if Connects(s, Handshake(h.sessionId, h.readOnly, h.watches, h.auths))
            then EventCode(s, events) == 0 && t.conn.state == (if h.readOnly then 5 else 3) && t.calls == s.calls
            else EventCode(s, events) == -112 && t.conn.state == -112 && TopIs(t.calls, Api(Failed(-112)))
  {
    var h := events.hello.value;
    var a := Handshake(h.sessionId, h.readOnly, h.watches, h.auths);
    RunStep(s, a, []);
    assert [a] + [] == [a];
    assert Sending(0) + [a] == [a];
    assert Reacts(s, events) == [a];
    HandshakeRestores(s, a);
  }

  /**
    * On a connection that is up (3 or 5) and holds, exactly the frames the socket takes go out, in
    * order, and one reply that has come is read; with nothing to read the call says so (-117).
    */
  lemma FramesMove(s: State, events: Events)
    requires InApi(s) && s.conn.fd == Open && !Breaks(s, events) && (s.conn.state == 3 || s.conn.state == 5)
    ensures CanRun(s, Reacts(s, events))
    ensures var n, comes, t := Taken(s, events), events.read && s.wire.unread != [], Run(s, Reacts(s, events));
            && t.q.toSend == s.q.toSend[n..] && t.wire.atServer == s.wire.atServer + s.q.toSend[..n]
            && t.q.toProcess == s.q.toProcess + (if comes then [s.wire.unread[0]] else [])
            && t.wire.unread == (if comes then s.wire.unread[1..] else s.wire.unread)
            && t.conn == s.conn && t.calls == s.calls
            && EventCode(s, events) == if events.read && !comes then -117 else 0
  {
    var n, comes := Taken(s, events), events.read && s.wire.unread != [];
    SendingRuns(s, n);
    MoveActions(s, events);
    var u := Sent(s, n);
    if comes {
      ReadOne(u);
      RunAppend(s, Sending(n), [Receive]);
    }
  }

  lemma MoveActions(s: State, events: Events)
    requires s.conn.fd == Open && !Breaks(s, events) && (s.conn.state == 3 || s.conn.state == 5)
    ensures var n, comes := Taken(s, events), events.read && s.wire.unread != [];
            && Reacts(s, events) == (if comes then Sending(n) + [Receive] else Sending(n))
            && EventCode(s, events) == if events.read && !comes then -117 else 0
  {
    assert Sending(Taken(s, events)) + [] == Sending(Taken(s, events));
  }

  lemma ReadOne(u: State)
    requires Enabled(u, Receive)
    ensures CanRun(u, [Receive]) && Run(u, [Receive]) == Next(u, Receive)
  {
    RunStep(u, Receive, []);
    assert [Receive] + [] == [Receive];
  }

  // ---------------------------------------------------------------------
  // zookeeper_interest
  // ---------------------------------------------------------------------

  /** Without a descriptor a connection is attempted: it fails the call, comes up (1), or is up (2). */
  lemma AttemptDecides(s: State, i: Interest)
    requires InApi(s) && s.conn.fd == NoFd && s.conn.state >= 0
    ensures CanRun(s, Settles(s, i))
    ensures var t, rc := Run(s, Settles(s, i)), SettleCode(s, i);
            match i.attempt
            case Delayed => t == s && rc == 0
            case NoSocket => TopIs(t.calls, Api(Failed(-1))) && t.conn == s.conn && rc == -1
            case Refused => TopIs(t.calls, Api(Failed(-4))) && t.conn == s.conn.(fd := Closed) && rc == -4
            case InProgress => t.calls == s.calls && t.conn.fd == Open && t.conn.state == 1 && rc == 0
            case Immediate => t.calls == s.calls && t.conn.fd == Open && t.conn.state == 2 && rc == 0
  {
    var acts := Settles(s, i);
    if acts != [] {
      RunStep(s, acts[0], []);
      assert [acts[0]] + [] == acts;
    }
  }

  /** A ping is due when nothing else is under way on a connection that is up. */
  predicate PingDue(s: State, i: Interest) {
    (s.conn.state == 3 || s.conn.state == 5) && i.ping && s.q.sent == []
  }

  /**
    * With one, a silence that is too long fails the call (-7); otherwise the client pings when that
    * is due, queueing exactly one ping (-2) behind the frames, and nothing else changes.
    */
  lemma ConnectionKept(s: State, i: Interest)
    requires InApi(s) && s.conn.fd != NoFd && s.conn.state >= 0
    ensures CanRun(s, Settles(s, i))
    ensures var t, rc := Run(s, Settles(s, i)), SettleCode(s, i);
            && (i.timedOut ==> TopIs(t.calls, Api(Failed(-7))) && rc == -7)
            && (!i.timedOut ==> t.calls == s.calls && t.conn == s.conn && t.q.sent == s.q.sent && t.q.toProcess == s.q.toProcess)
            && (!i.timedOut && !PingDue(s, i) ==> t == s && rc == 0)
            && (!i.timedOut && PingDue(s, i) ==>
                  && t.wire.atServer + t.q.toSend == s.wire.atServer + s.q.toSend + [-2]
                  && (rc == 0 || rc == -4) && (rc == -4 <==> i.pingFails || s.conn.fd == Closed))
  {
    if i.timedOut {
      RunStep(s, Fail(-7), []);
      assert [Fail(-7)] + [] == [Fail(-7)];
    } else if PingDue(s, i) {
      PingGoesOut(s, i.sends);
    }
  }

  lemma PingGoesOut(s: State, sends: nat)
    requires Enabled(s, Ping)
    ensures var u := s.(q := s.q.(toSend := s.q.toSend + [-2]));
            var run := [Ping] + Sending(Sendable(u, sends));
            && CanRun(s, run)
            && var t := Run(s, run);
            && t.calls == s.calls && t.conn == s.conn && t.q.sent == s.q.sent && t.q.toProcess == s.q.toProcess
            && t.wire.atServer + t.q.toSend == s.wire.atServer + s.q.toSend + [-2]
  {
    var u := s.(q := s.q.(toSend := s.q.toSend + [-2]));
    var n := Sendable(u, sends);
    SendingRuns(u, n);
    assert Next(s, Ping) == u;
    RunStep(s, Ping, Sending(n));
    SentKeepsLine(u, n);
    Assoc(s.wire.atServer, s.q.toSend, [-2]);
  }

  // ---------------------------------------------------------------------
  // Everything is served
  // ---------------------------------------------------------------------

  /** Replies that are coming carry the codes the server means to give; authentications succeed. */
  ghost predicate Agrees(s: State, errs: int -> int) {
    forall r :: Coming(s, r) ==> if Ordinary(r.xid) then r.err == errs(r.xid) else r.xid == AUTH_XID ==> r.err == 0
  }

  /** A call is under way on a connection that is up. */
  ghost predicate Live(s: State, errs: int -> int) {
    && InApi(s) && s.conn.fd == Open && IsConnected(s.conn.state) && !s.calls.closeRequested && s.calls.destroyed == 0
    && WellNested(s.calls) && Behind(s, []) && Agrees(s, errs)
  }

  /** The request is pending, or is told the code the server means to give. */
  predicate Owed(s: State, x: int, errs: int -> int) {
    x in s.q.sent || Outcome(x, errs(x)) in Told(s)
  }

  /** One of the moves that bring requests forward: a send, an answer, a read, a reply processed. */
  predicate Serves(s: State, a: Action, errs: int -> int) {
    || a == Action.SendFrame || a == Receive || a == ProcessReply
    || (s.wire.atServer != [] && a == Answer(if Ordinary(s.wire.atServer[0]) then errs(s.wire.atServer[0]) else 0))
  }

  /** Steps to the end of the line, over all frames. */
  function Distance(s: State): nat {
    4 * |s.q.toSend| + 3 * |s.wire.atServer| + 2 * |s.wire.unread| + |s.q.toProcess|
  }

  lemma ServeStep(s: State, a: Action, errs: int -> int)
    requires Live(s, errs) && Enabled(s, a) && Serves(s, a, errs)
    ensures Live(Next(s, a), errs) && Distance(Next(s, a)) < Distance(s)
    ensures forall x :: Owed(s, x, errs) ==> Owed(Next(s, a), x, errs)
  {
    var t := Next(s, a);
    StepWellNested(s, a);
    if a == ProcessReply {
      ReplyServes(s, errs);
    } else {
      StepBehind(s, a, []);
      assert forall r :: Coming(t, r) ==> Coming(s, r) || (a.Answer? && r == Reply(s.wire.atServer[0], a.err));
    }
  }

  lemma ReplyServes(s: State, errs: int -> int)
    requires Live(s, errs) && Enabled(s, ProcessReply)
    ensures var t := Next(s, ProcessReply);
            && Behind(t, []) && Agrees(t, errs) && t.calls == s.calls && t.conn == s.conn
            && forall x :: Owed(s, x, errs) ==> Owed(t, x, errs)
  {
    var r, t := s.q.toProcess[0], Next(s, ProcessReply);
    assert Coming(s, r);
    assert forall q :: Coming(t, q) ==> Coming(s, q);
    if Ordinary(r.xid) {
      OrdinaryReply(s);
      assert Told(t) == Told(s) + [Outcome(r.xid, r.err)];
    } else {
      ReservedReply(s);
      assert t.q.completions == s.q.completions || t.q.completions == s.q.completions + [Event];
    }
  }

  /** The next move, if a frame is anywhere on its way. */
  function NextMove(s: State, errs: int -> int): Action {
    if s.q.toProcess != [] then ProcessReply
    else if s.wire.unread != [] then Receive
    else if s.wire.atServer != [] then Answer(if Ordinary(s.wire.atServer[0]) then errs(s.wire.atServer[0]) else 0)
    else Action.SendFrame
  }

  lemma {:induction false} FramesRunOut(s: State, errs: int -> int) returns (run: seq<Action>)
    requires Live(s, errs)
    ensures CanRun(s, run)
    ensures var t := Run(s, run);
            Live(t, errs) && t.q.sent == [] && forall x :: Owed(s, x, errs) ==> Outcome(x, errs(x)) in Told(t)
    decreases Distance(s)
  {
    if Distance(s) == 0 {
      run := [];
      assert InFlight(s.q, s.wire) == [];
    } else {
      var a := NextMove(s, errs);
      ServeStep(s, a, errs);
      var rest := FramesRunOut(Next(s, a), errs);
      RunStep(s, a, rest);
      run := [a] + rest;
    }
  }

  lemma {:induction false} CompletionsRunOut(s: State) returns (run: seq<Action>)
    requires InApi(s)
    ensures CanRun(s, run)
    ensures var t := Run(s, run);
            t.q == s.q.(completions := []) && t.log == s.log.(delivered := Told(s)) && t.calls == s.calls && t.conn == s.conn
    decreases |s.q.completions|
  {
    if s.q.completions == [] {
      run := [];
      assert Told(s) == s.log.delivered;
    } else {
      var u := Next(s, Deliver);
      var t := Next(u, Return);
      assert t.calls == s.calls;
      assert Told(t) == Told(s) by { Assoc(s.log.delivered, [s.q.completions[0]], s.q.completions[1..]); }
      var rest := CompletionsRunOut(t);
      RunStep(u, Return, rest);
      RunStep(s, Deliver, [Return] + rest);
      run := [Deliver] + ([Return] + rest);
    }
  }

  /**
    * From every state in which the client is connected and its queues are aligned, a server that
    * answers can bring it to complete everything: there is a run at whose end nothing is pending
    * or queued, every request has been delivered, and each that was pending with the server's code.
    */
  lemma EverythingIsServed(s: State, errs: int -> int) returns (run: seq<Action>)
    requires Live(s, errs) && InOrder(s.q, s.log) && Numbered(s.log)
    ensures CanRun(s, run)
    ensures var t := Run(s, run);
            && t.q.sent == [] && t.q.completions == [] && Outcomes(t.log.delivered) == t.log.accepted
            && forall x :: x in s.q.sent ==> Outcome(x, errs(x)) in t.log.delivered
  {
    var serving := FramesRunOut(s, errs);
    var u := Run(s, serving);
    var delivering := CompletionsRunOut(u);
    RunAppend(s, serving, delivering);
    run := serving + delivering;
    ExactlyOnceInOrder(s, run);
    var t := Run(s, run);
    assert Outcomes(t.q.completions) == [] && Outcomes(t.log.delivered) + [] + [] == Outcomes(t.log.delivered);
    forall x | x in s.q.sent ensures Outcome(x, errs(x)) in t.log.delivered { assert Owed(s, x, errs); }
  }

  // ---------------------------------------------------------------------
  // Requests and moves
  // ---------------------------------------------------------------------

  /** On a connection that is up, an accepted request goes out at once, behind what was waiting, as far as the socket takes frames. */
  lemma RequestGoesOut(s: State, sends: nat)
    requires MayCall(s.calls) && !s.calls.closeRequested && s.conn.fd == Open && (s.conn.state == 3 || s.conn.state == 5)
    ensures CanRun(s, Opens(s, OpSubmit(sends)))
    ensures var t, line := Run(s, Opens(s, OpSubmit(sends))), s.q.toSend + [s.log.nextXid];
            var n := if sends < |line| then sends else |line|;
            && t.q.toSend == line[n..] && t.wire.atServer == s.wire.atServer + line[..n]
            && t.q.sent == s.q.sent + [s.log.nextXid] && t.log.accepted == s.log.accepted + [s.log.nextXid]
  {
    var u := Next(s, Submit);
    var n := Process.Sendable(u, sends);
    SendingRuns(u, n);
    RunStep(s, Submit, Sending(n));
  }

  /** A client told to move drops its connection and attempts the next one in the same call, keeping its queues. */
  lemma MoveReconnects(s: State, i: Interest)
    requires InApi(s) && s.conn.state >= 0 && s.conn.fd != NoFd && i.moves && (i.attempt == InProgress || i.attempt == Immediate)
    ensures CanRun(s, Minds(s, i))
    ensures var t := Run(s, Minds(s, i));
            && t.conn.fd == Open && t.conn.state == (if i.attempt == InProgress then 1 else 2)
            && t.wire == NO_WIRE && t.q == s.q && t.calls == s.calls
  {
    var u := Next(s, ForcedClose);
    var acts := Settles(u, i);
    AttemptDecides(u, i);
    RunStep(u, acts[0], []);
    assert [acts[0]] + [] == acts;
    RunStep(s, ForcedClose, acts);
  }

  /** In a whole program, too, every code delivered has its origin. */
  lemma ProgramCodes(clientId: int, firstXid: int, script: seq<Op>, t: State, left: seq<Op>, trace: seq<Deed>, x: int, e: int)
    requires Account(Init(clientId, firstXid), script, t, left, trace) && Outcome(x, e) in t.log.delivered
    ensures CanDo(Init(clientId, firstXid), trace)
    ensures var s := Init(clientId, firstXid);
            var run := RunOf(s, trace);
            Given(s, run, x, e, FromReply) || Given(s, run, x, e, FromCleanup) || Given(s, run, x, e, FromClose)
  {
    var s := Init(clientId, firstXid);
    Process.Read(s, script, t, left, trace);
    TraceIsRun(s, trace);
    DeliveredCodes(clientId, firstXid, RunOf(s, trace), x, e);
  }
}
