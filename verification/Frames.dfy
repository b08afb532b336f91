/**
  * Frames: every frame the client queues is counted until it is answered or lost with its
  * connection, and what restores a session goes out before everything else.
  */
module Frames {
  import opened Common
  import opened Client

  function Count(xids: seq<int>, x: int): nat {
    if xids == [] then 0 else (if xids[0] == x then 1 else 0) + Count(xids[1..], x)
  }

  lemma {:induction false} CountAppend(a: seq<int>, b: seq<int>, x: int)
    ensures Count(a + b, x) == Count(a, x) + Count(b, x)
  {
    if a == [] {
      assert a + b == b;
    } else {
      assert (a + b)[0] == a[0] && (a + b)[1..] == a[1..] + b;
      CountAppend(a[1..], b, x);
    }
  }

  lemma CountOne(y: int, x: int)
    ensures Count([y], x) == if y == x then 1 else 0
  {
    assert [y][1..] == [];
  }

  lemma CountHead(xids: seq<int>, x: int)
    requires xids != []
    ensures Count(xids, x) == (if xids[0] == x then 1 else 0) + Count(xids[1..], x)
  {
  }

  lemma {:induction false} CountRepeat(y: int, n: nat, x: int)
    ensures Count(Repeat(y, n), x) == if y == x then n else 0
  {
    if n > 0 {
      assert Repeat(y, n)[1..] == Repeat(y, n - 1);
      CountRepeat(y, n - 1, x);
    }
  }

  // ---------------------------------------------------------------------
  // What comes in and what leaves
  // ---------------------------------------------------------------------

  /** The answer to a handshake is accepted: no session was established, or it has the session's id. */
  predicate Connects(s: State, a: Action) {
    a.Handshake? && (s.conn.seenRw && s.conn.clientId != 0 ==> s.conn.clientId == a.sessionId)
  }

  /**
    * Frames with the xid that the step queues: an accepted request, an authentication (-4) on a
    * connection that is up or coming up, a ping (-2), and for an accepted handshake one frame for
    * each authentication and one (-8) for the watches, if there are any.
    */
  function Queued(s: State, a: Action, x: int): nat {
    match a
    case Submit => if s.conn.state >= 0 && !s.calls.closeRequested && x == s.log.nextXid then 1 else 0
    case AddAuth => if x == -4 && (s.conn.state == 2 || s.conn.state == 3 || s.conn.state == 5) then 1 else 0
    case Ping => if x == -2 then 1 else 0
    case Handshake(_, _, watches, auths) =>
      if !Connects(s, a) then 0 else if x == -4 then auths else if x == -8 && watches then 1 else 0
    case _ => 0
  }

  /** Frames with the xid, queued or sent and not yet answered. */
  function Outstanding(s: State, x: int): nat {
    Count(s.q.toSend, x) + Count(s.wire.atServer, x)
  }

  /** Frames with the xid that the step takes away: answered, dropped from the queue, or lost with the connection. */
  function Gone(s: State, a: Action, x: int): nat {
    match a
    case Answer(_) => if s.wire.atServer != [] && s.wire.atServer[0] == x then 1 else 0
    case DrainQueues => Count(s.q.toSend, x) + (if s.conn.fd == Open then 0 else Count(s.wire.atServer, x))
    case Close => if s.calls.refCounter <= 0 then Count(s.q.toSend, x) else 0
    case Exit => if s.calls.refCounter == 1 && s.calls.closeRequested then Count(s.q.toSend, x) else 0
    case Connect(_) => Count(s.wire.atServer, x)
    case FinishCleanup => Count(s.wire.atServer, x)
    case FinishDestroy => Count(s.wire.atServer, x)
    case ForcedClose => Count(s.wire.atServer, x)
    case _ => 0
  }

  function AllQueued(s: State, run: seq<Action>, x: int): nat
    requires CanRun(s, run)
    decreases |run|
  {
    if run == [] then 0 else Queued(s, run[0], x) + AllQueued(Next(s, run[0]), run[1..], x)
  }

  function AllGone(s: State, run: seq<Action>, x: int): nat
    requires CanRun(s, run)
    decreases |run|
  {
    if run == [] then 0 else Gone(s, run[0], x) + AllGone(Next(s, run[0]), run[1..], x)
  }

  lemma HandshakeQueues(s: State, a: Action, x: int)
    requires Enabled(s, a) && a.Handshake?
    ensures Count(Next(s, a).q.toSend, x) == Count(s.q.toSend, x) + Queued(s, a, x) && Next(s, a).wire == s.wire
  {
    var auths, watches := Repeat(AUTH_XID, a.auths), if a.watches then [SET_WATCHES_XID] else [];
    CountAppend(auths + watches, s.q.toSend, x);
    CountAppend(auths, watches, x);
    CountRepeat(AUTH_XID, a.auths, x);
    CountOne(SET_WATCHES_XID, x);
  }

  lemma StepConserves(s: State, a: Action, x: int)
    requires Enabled(s, a)
    ensures Outstanding(Next(s, a), x) + Gone(s, a, x) == Outstanding(s, x) + Queued(s, a, x)
  {
    match a
    case Submit =>
      CountAppend(s.q.toSend, [s.log.nextXid], x);
      CountOne(s.log.nextXid, x);
    case AddAuth =>
      CountAppend([AUTH_XID], s.q.toSend, x);
      CountOne(AUTH_XID, x);
    case Ping =>
      CountAppend(s.q.toSend, [PING_XID], x);
      CountOne(PING_XID, x);
    case Handshake(_, _, _, _) => HandshakeQueues(s, a, x);
    case SendFrame =>
      CountHead(s.q.toSend, x);
      CountAppend(s.wire.atServer, [s.q.toSend[0]], x);
      CountOne(s.q.toSend[0], x);
    case Answer(_) => CountHead(s.wire.atServer, x);
    case _ =>
  }

  /** Over every run and for every xid: queued frames are outstanding, answered or lost, and there are no others. */
  lemma {:induction false} FramesConserved(s: State, run: seq<Action>, x: int)
    requires CanRun(s, run)
    ensures Outstanding(Run(s, run), x) + AllGone(s, run, x) == Outstanding(s, x) + AllQueued(s, run, x)
    decreases |run|
  {
    if run != [] {
      StepConserves(s, run[0], x);
      FramesConserved(Next(s, run[0]), run[1..], x);
    }
  }

  // ---------------------------------------------------------------------
  // Restoring a session
  // ---------------------------------------------------------------------

  /** Accepted handshakes that had watches to restore. */
  function Restorations(s: State, run: seq<Action>): nat
    requires CanRun(s, run)
    decreases |run|
  {
    if run == [] then 0
    else (if Connects(s, run[0]) && run[0].watches then 1 else 0) + Restorations(Next(s, run[0]), run[1..])
  }

  lemma {:induction false} RestorationsAreQueued(s: State, run: seq<Action>)
    requires CanRun(s, run) && s.log.nextXid > 0
    ensures AllQueued(s, run, SET_WATCHES_XID) == Restorations(s, run)
    decreases |run|
  {
    if run != [] {
      StepNumbersUp(s, run[0]);
      RestorationsAreQueued(Next(s, run[0]), run[1..]);
    }
  }

  lemma StepNumbersUp(s: State, a: Action)
    requires Enabled(s, a) && s.log.nextXid > 0
    ensures Next(s, a).log.nextXid > 0
  {
  }

  /** Over every run of a fresh handle, each accepted handshake with watches to restore has sent them again, and nothing else has. */
  lemma WatchesSentAgain(clientId: int, firstXid: int, run: seq<Action>)
    requires firstXid > 0 && CanRun(Init(clientId, firstXid), run)
    ensures var s := Init(clientId, firstXid);
            Outstanding(Run(s, run), SET_WATCHES_XID) + AllGone(s, run, SET_WATCHES_XID) == Restorations(s, run)
  {
    var s := Init(clientId, firstXid);
    RestorationsAreQueued(s, run);
    FramesConserved(s, run, SET_WATCHES_XID);
  }

  predicate Restores(x: int) {
    x == AUTH_XID || x == SET_WATCHES_XID
  }

  /** What restores the session stands before requests and pings. */
  predicate RestoresFirst(xids: seq<int>) {
    forall i, j :: 0 <= i < j < |xids| && Restores(xids[j]) ==> Restores(xids[i])
  }

  lemma StepRestoresFirst(s: State, a: Action)
    requires Enabled(s, a) && s.log.nextXid > 0 && RestoresFirst(s.q.toSend)
    ensures RestoresFirst(Next(s, a).q.toSend)
  {
    if a.Handshake? {
      var front := Repeat(AUTH_XID, a.auths) + (if a.watches then [SET_WATCHES_XID] else []);
      RepeatAll(AUTH_XID, a.auths);
      assert forall i :: 0 <= i < |front| ==> Restores(front[i]);
    }
  }

  lemma {:induction false} RepeatAll(y: int, n: nat)
    ensures |Repeat(y, n)| == n && forall i :: 0 <= i < n ==> Repeat(y, n)[i] == y
  {
    if n > 0 {
      RepeatAll(y, n - 1);
    }
  }

  /** Over every run, authentications and watches are sent before all requests and pings that wait with them. */
  lemma {:induction false} SessionRestoredFirst(s: State, run: seq<Action>)
    requires CanRun(s, run) && s.log.nextXid > 0 && RestoresFirst(s.q.toSend)
    ensures RestoresFirst(Run(s, run).q.toSend)
    decreases |run|
  {
    if run != [] {
      StepRestoresFirst(s, run[0]);
      StepNumbersUp(s, run[0]);
      SessionRestoredFirst(Next(s, run[0]), run[1..]);
    }
  }

  /**
    * An accepted handshake: first one frame for each authentication, then the watches, then what
    * was waiting; the state is read-only (5) exactly when the server said so, and otherwise
    * connected (3). A refused one queues nothing.
    */
  lemma HandshakeRestores(s: State, a: Action)
    requires Enabled(s, a) && a.Handshake?
    ensures var t, k := Next(s, a), a.auths + if a.watches then 1 else 0;
            if Connects(s, a) then
              && |t.q.toSend| == k + |s.q.toSend| && (forall i :: 0 <= i < a.auths ==> t.q.toSend[i] == -4)
              && (a.watches ==> t.q.toSend[a.auths] == -8) && t.q.toSend[k..] == s.q.toSend
              && t.conn.state == (if a.readOnly then 5 else 3) && t.conn.clientId == a.sessionId
            else t.q.toSend == s.q.toSend && t.conn.state == -112
  {
    RepeatAll(AUTH_XID, a.auths);
    var front := Repeat(AUTH_XID, a.auths) + (if a.watches then [SET_WATCHES_XID] else []);
    assert (front + s.q.toSend)[|front|..] == s.q.toSend;
  }
}
