/**
  * Session safety: unrecoverable states stay unrecoverable, and a session once established
  * with a read/write server keeps its id or expires.
  */
module SessionSafety {
  import opened Common
  import opened Client
  import opened LifeCycle

  predicate Cleans(phase: Phase) {
    phase.Failed? || phase.Draining? || phase.Dropping?
  }

  /** Some call on the stack is going to close the descriptor or is just doing so. */
  ghost predicate CleanupPending(stack: seq<Frame>) {
    exists i :: 0 <= i < |stack| && stack[i].Api? && Cleans(stack[i].phase)
  }

  /** The session is lost and, unless a call is still cleaning up, the connection closed. */
  ghost predicate Lost(s: State) {
    s.conn.state < 0 && (s.conn.fd != NoFd ==> CleanupPending(s.calls.stack))
  }

  /** While the handle lives, a lost session leaves no open descriptor between calls; a freed handle has none. */
  ghost predicate LostIsClosed(s: State) {
    WellNested(s.calls) && Quiet(s)
  }

  ghost predicate Quiet(s: State) {
    && (s.calls.destroyed == 0 && s.conn.state < 0 ==> Lost(s))
    && (s.calls.destroyed > 0 ==> s.conn.fd == NoFd)
  }

  lemma PendingBelow(stack: seq<Frame>, stack': seq<Frame>)
    requires CleanupPending(stack) && |stack| <= |stack'| && forall i :: 0 <= i < |stack| ==> stack'[i] == stack[i]
    ensures CleanupPending(stack')
  {
    var i :| 0 <= i < |stack| && stack[i].Api? && Cleans(stack[i].phase);
    assert stack'[i] == stack[i];
  }

  /** A frame that is not cleaning up may leave or change: the others still count. */
  lemma PendingUnderTop(stack: seq<Frame>)
    requires CleanupPending(stack)
    requires var top := stack[|stack| - 1]; !(top.Api? && Cleans(top.phase))
    ensures CleanupPending(stack[..|stack| - 1])
  {
    var i :| 0 <= i < |stack| && stack[i].Api? && Cleans(stack[i].phase);
    assert stack[..|stack| - 1][i] == stack[i];
  }

  lemma PendingOnTop(c: Calls, phase: Phase)
    requires c.stack != [] && Cleans(phase)
    ensures CleanupPending(SetTop(c, Api(phase)).stack)
  {
    assert SetTop(c, Api(phase)).stack[|c.stack| - 1] == Api(phase);
  }

  lemma StepLostIsClosed(s: State, a: Action)
    requires Enabled(s, a) && LostIsClosed(s)
    ensures LostIsClosed(Next(s, a))
  {
    StepWellNested(s, a);
    StepQuiet(s, a);
  }

  lemma StepQuiet(s: State, a: Action)
    requires Enabled(s, a) && Quiet(s)
    requires s.calls.stack != [] ==> s.calls.destroyed == 0
    ensures Quiet(Next(s, a))
  {
    var c, t := s.calls, Next(s, a);
    match a
    case EnterApi =>
    case Close =>
      if s.conn.state < 0 && s.conn.fd != NoFd { PendingBelow(c.stack, t.calls.stack); }
    case Return =>
      if s.conn.state < 0 && s.conn.fd != NoFd { PendingUnderTop(c.stack); }
    case Deliver =>
      if s.conn.state < 0 && s.conn.fd != NoFd { PendingBelow(c.stack, t.calls.stack); }
    case Notify =>
      if s.conn.state < 0 && s.conn.fd != NoFd { PendingBelow(c.stack, t.calls.stack); }
    case Handshake(_, _, _, _) => PendingOnTop(c, Failed(ZSESSIONEXPIRED));
    case ProcessReply =>
      PendingOnTop(c, Failed(ZAUTHFAILED));
      PendingOnTop(c, Failed(ZRUNTIMEINCONSISTENCY));
    case Fail(rc) => PendingOnTop(c, Failed(rc));
    case FailConnect => PendingOnTop(c, Failed(ZCONNECTIONLOSS));
    case BeginCleanup => PendingOnTop(c, Draining(Top(c).phase.rc));
    case DrainQueues => PendingOnTop(c, Dropping);
    case Exit =>
      if s.conn.state < 0 && s.conn.fd != NoFd {
        PendingUnderTop(c.stack);
        PendingBelow(c.stack[..|c.stack| - 1], t.calls.stack);
      }
    case _ =>
  }

  /** Unrecoverable states are absorbing while the handle lives. */
  lemma StepStaysLost(s: State, a: Action)
    requires Enabled(s, a) && LostIsClosed(s) && s.conn.state < 0
    ensures Next(s, a).calls.destroyed > 0 || Next(s, a).conn.state < 0
  {
  }

  /**
    * Over every run: once the session is lost it stays lost until the handle is freed, and
    * between calls no descriptor is open.
    */
  lemma {:induction false} LostStaysLost(s: State, run: seq<Action>)
    requires CanRun(s, run) && LostIsClosed(s)
    ensures var t := Run(s, run);
            && LostIsClosed(t)
            && (s.conn.state < 0 && t.calls.destroyed == 0 ==> t.conn.state < 0)
            && (t.conn.state < 0 && t.calls.destroyed == 0 && t.calls.stack == [] ==> t.conn.fd == NoFd)
    decreases |run|
  {
    if run != [] {
      StepLostIsClosed(s, run[0]);
      if s.conn.state < 0 {
        StepStaysLost(s, run[0]);
      }
      if Next(s, run[0]).calls.destroyed > 0 {
        FreedIsFinal(Next(s, run[0]), run[1..]);
      }
      LostStaysLost(Next(s, run[0]), run[1..]);
    }
  }

  /** Nothing happens to a handle that has been freed: no frame is left to touch it, and no connection. */
  lemma FreedIsFinal(s: State, run: seq<Action>)
    requires CanRun(s, run) && LostIsClosed(s) && s.calls.destroyed > 0
    ensures run == []
  {
  }

  // ---------------------------------------------------------------------
  // The session id
  // ---------------------------------------------------------------------

  /** The session has been established with a read/write server. */
  predicate Established(s: State) {
    s.conn.seenRw && s.conn.clientId != 0
  }

  lemma StepKeepsId(s: State, a: Action)
    requires Enabled(s, a) && Established(s)
    ensures Established(Next(s, a)) && Next(s, a).conn.clientId == s.conn.clientId
  {
  }

  /** Over every run an established session keeps its id. */
  lemma {:induction false} EstablishedKeepsId(s: State, run: seq<Action>)
    requires CanRun(s, run) && Established(s)
    ensures Established(Run(s, run)) && Run(s, run).conn.clientId == s.conn.clientId
    decreases |run|
  {
    if run != [] {
      StepKeepsId(s, run[0]);
      EstablishedKeepsId(Next(s, run[0]), run[1..]);
    }
  }

  lemma HandshakeDecides(s: State, a: Action)
    requires Enabled(s, a) && a.Handshake? && Established(s)
    ensures IsConnected(Next(s, a).conn.state) <==> a.sessionId == s.conn.clientId
    ensures a.sessionId != s.conn.clientId ==> Next(s, a).conn.state == EXPIRED_SESSION
  {
  }

  /**
    * A handshake connects an established session exactly when it carries the session's id;
    * any other id expires it for good: no later step of any run connects again.
    */
  lemma ForeignIdExpires(s: State, a: Action, run: seq<Action>)
    requires Enabled(s, a) && a.Handshake? && Established(s) && LostIsClosed(s)
    requires CanRun(Next(s, a), run)
    ensures IsConnected(Next(s, a).conn.state) <==> a.sessionId == s.conn.clientId
    ensures a.sessionId != s.conn.clientId ==>
              && Next(s, a).conn.state == EXPIRED_SESSION
              && (Run(Next(s, a), run).calls.destroyed == 0 ==> Run(Next(s, a), run).conn.state < 0)
  {
    var t := Next(s, a);
    StepLostIsClosed(s, a);
    HandshakeDecides(s, a);
    LostStaysLost(t, run);
  }

  /** Over every run, the session counts as established by a read/write server exactly when one has answered. */
  lemma {:induction false} EstablishedByReadWriteServer(s: State, run: seq<Action>)
    requires CanRun(s, run)
    ensures Run(s, run).conn.seenRw <==> s.conn.seenRw || exists i :: 0 <= i < |run| && run[i].Handshake? && !run[i].readOnly
    decreases |run|
  {
    if run != [] {
      var rest := run[1..];
      EstablishedByReadWriteServer(Next(s, run[0]), rest);
      StepSeesReadWrite(s, run[0]);
      if i :| 0 <= i < |rest| && rest[i].Handshake? && !rest[i].readOnly {
        assert run[i + 1] == rest[i];
      }
      if i :| 0 < i < |run| && run[i].Handshake? && !run[i].readOnly {
        assert rest[i - 1] == run[i];
      }
    }
  }

  lemma StepSeesReadWrite(s: State, a: Action)
    requires Enabled(s, a)
    ensures Next(s, a).conn.seenRw <==> s.conn.seenRw || (a.Handshake? && !a.readOnly)
  {
  }

  /** Connecting (1), associating (2), connected (3) or read-only (5): there is a descriptor, open or just closed. */
  predicate HasDescriptor(conn: Session) {
    conn.state == 1 || conn.state == 2 || conn.state == 3 || conn.state == 5 ==> conn.fd != NoFd
  }

  lemma StepHasDescriptor(s: State, a: Action)
    requires Enabled(s, a) && HasDescriptor(s.conn)
    ensures HasDescriptor(Next(s, a).conn)
  {
  }

  /** Over every run the handle counts as connected or connecting only while it has a descriptor. */
  lemma {:induction false} ConnectedHasDescriptor(s: State, run: seq<Action>)
    requires CanRun(s, run) && HasDescriptor(s.conn)
    ensures HasDescriptor(Run(s, run).conn)
    decreases |run|
  {
    if run != [] {
      StepHasDescriptor(s, run[0]);
      ConnectedHasDescriptor(Next(s, run[0]), run[1..]);
    }
  }

  /** A handle that resumes a session is bound to its id from the start, a new one to none. */
  lemma ResumedIsEstablished(clientId: int, firstXid: int)
    ensures Established(Init(clientId, firstXid)) <==> clientId != 0
    ensures !Init(clientId, firstXid).conn.seenRw <==> clientId == 0
  {
  }

  /** The session is lost in this step: by an answer under another id (-112) or a refused authentication (-113). */
  predicate Loses(s: State, a: Action, state: int) {
    || (a.Handshake? && Established(s) && a.sessionId != s.conn.clientId && state == -112)
    || (a == ProcessReply && s.q.toProcess != [] && s.q.toProcess[0].xid == AUTH_XID && s.q.toProcess[0].err != 0 && state == -113)
  }

  predicate LostBy(s: State, run: seq<Action>, state: int)
    decreases |run|
  {
    run != [] && Enabled(s, run[0]) && (Loses(s, run[0], state) || LostBy(Next(s, run[0]), run[1..], state))
  }

  /** Such a step loses the session, and no other step does. */
  lemma StepLoses(s: State, a: Action, state: int)
    requires Enabled(s, a)
    ensures Loses(s, a, state) ==> Next(s, a).conn.state == state
    ensures state < 0 && Next(s, a).conn.state == state ==> s.conn.state == state || Loses(s, a, state)
  {
  }

  /** Over every run a session is lost only in one of these ways, and the state says in which. */
  lemma {:induction false} LostOnlyBy(s: State, run: seq<Action>)
    requires CanRun(s, run) && Run(s, run).conn.state < 0
    ensures s.conn.state == Run(s, run).conn.state || LostBy(s, run, Run(s, run).conn.state)
    decreases |run|
  {
    if run != [] {
      LostOnlyBy(Next(s, run[0]), run[1..]);
      StepLoses(s, run[0], Run(s, run).conn.state);
    }
  }

  lemma StepStaysShut(s: State, a: Action)
    requires Enabled(s, a) && s.conn.fd != Open && !a.Connect?
    ensures Next(s, a).conn.fd != Open
  {
  }

  lemma {:induction false} OnlyConnectOpens(s: State, run: seq<Action>)
    requires CanRun(s, run) && s.conn.fd != Open && forall i :: 0 <= i < |run| ==> !run[i].Connect?
    ensures Run(s, run).conn.fd != Open
    decreases |run|
  {
    if run != [] {
      StepStaysShut(s, run[0]);
      forall i | 0 <= i < |run| - 1 ensures !run[1..][i].Connect? { assert run[1..][i] == run[i + 1]; }
      OnlyConnectOpens(Next(s, run[0]), run[1..]);
    }
  }

  /** From the beginning of a cleanup on, nothing is sent, answered or read until there is a new connection. */
  lemma CleanupSilences(s: State, run: seq<Action>, a: Action)
    requires Enabled(s, BeginCleanup) && CanRun(Next(s, BeginCleanup), run) && forall i :: 0 <= i < |run| ==> !run[i].Connect?
    requires Enabled(Run(Next(s, BeginCleanup), run), a)
    ensures !a.SendFrame? && !a.Receive? && !a.Answer? && !a.Handshake?
  {
    OnlyConnectOpens(Next(s, BeginCleanup), run);
  }
}
