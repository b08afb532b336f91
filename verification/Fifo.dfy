/**
  * Against a server that answers each connection's requests in order, the reply at the head of
  * the line is always for the request at the head of `sent_requests`.
  */
module Fifo {
  import opened Common
  import opened Client
  import opened Completions
  import opened LifeCycle

  /** The xids of ordinary requests, in order. */
  function Ordinaries(xids: seq<int>): seq<int> {
    if xids == [] then [] else (if Ordinary(xids[0]) then [xids[0]] else []) + Ordinaries(xids[1..])
  }

  function Xids(replies: seq<Reply>): (r: seq<int>)
    ensures |r| == |replies| && forall i :: 0 <= i < |r| ==> r[i] == replies[i].xid
  {
    seq(|replies|, i requires 0 <= i < |replies| => replies[i].xid)
  }

  lemma {:induction false} OrdinariesAppend(a: seq<int>, b: seq<int>)
    ensures Ordinaries(a + b) == Ordinaries(a) + Ordinaries(b)
  {
    if a == [] {
      assert a + b == b;
    } else {
      assert (a + b)[0] == a[0] && (a + b)[1..] == a[1..] + b;
      OrdinariesAppend(a[1..], b);
      Assoc(if Ordinary(a[0]) then [a[0]] else [], Ordinaries(a[1..]), Ordinaries(b));
    }
  }

  lemma {:induction false} OrdinariesSkip(xid: int, n: nat)
    requires !Ordinary(xid)
    ensures Ordinaries(Repeat(xid, n)) == []
  {
    if n > 0 {
      assert Repeat(xid, n)[1..] == Repeat(xid, n - 1);
      OrdinariesSkip(xid, n - 1);
    }
  }

  /** Everything on its way, from the reply next in line to the request queued last. */
  function InFlight(q: Queues, wire: Wire): seq<int> {
    Xids(q.toProcess) + Xids(wire.unread) + wire.atServer + q.toSend
  }

  /**
    * The pending requests are those no reply will come for, then the ordinary frames in flight
    * in the same order, unless a close has dropped them all; without a descriptor nothing is
    * on the wire.
    */
  ghost predicate Behind(s: State, lost: seq<int>) {
    && (!s.calls.closeRequested ==> s.q.sent == lost + Ordinaries(InFlight(s.q, s.wire)))
    && (s.calls.closeRequested ==> s.q.sent == [])
    && (s.conn.fd == NoFd ==> s.wire == NO_WIRE)
    && s.log.nextXid > 0
  }

  /** Every pending request has its reply coming, and neither error branch was taken. */
  ghost predicate Aligned(s: State) {
    && s.log.mismatches == 0 && !s.log.assertFailed
    && (Parting(s) || (Behind(s, []) && Undisturbed(s)))
  }

  /**
    * A cleanup has emptied the queues and is about to leave a connection that was made behind
    * its back: nothing is pending, and what is on the wire will not be read.
    */
  ghost predicate Parting(s: State) {
    && TopIs(s.calls, Api(Dropping)) && Api(Dropping) !in Pop(s.calls).stack && s.conn.fd == Open
    && s.q.sent == [] && s.q.toSend == [] && s.q.toProcess == [] && s.log.nextXid > 0
  }

  /** Under a cleanup that has emptied the queues there is no connection. */
  ghost predicate Undisturbed(s: State) {
    Api(Dropping) in s.calls.stack ==> s.conn.fd != Open && s.wire == NO_WIRE
  }

  /**
    * The server answers requests in order, and the client is not told to change servers; pings
    * and authentications may be answered at any time and any number of times.
    */
  predicate Honest(a: Action) {
    !a.ForcedClose? && (a.Rogue? ==> !Ordinary(a.reply.xid))
  }

  /** An authentication completion that a cleanup calls neither finds a connection nor makes one. */
  predicate Orderly(s: State, a: Action) {
    && (a.Connect? ==> Api(Dropping) !in s.calls.stack)
    && (a.Notify? && TopIs(s.calls, Api(Dropping)) ==> s.conn.fd != Open)
  }

  predicate OrderlyRun(s: State, run: seq<Action>)
    decreases |run|
  {
    run != [] && Enabled(s, run[0]) ==> Orderly(s, run[0]) && OrderlyRun(Next(s, run[0]), run[1..])
  }

  /** Only the position of frames in flight matters. */
  lemma SameFlight(s: State, t: State, lost: seq<int>)
    requires Behind(s, lost) && t.q.sent == s.q.sent
    requires Ordinaries(InFlight(t.q, t.wire)) == Ordinaries(InFlight(s.q, s.wire))
    requires t.calls.closeRequested == s.calls.closeRequested && t.log.nextXid == s.log.nextXid
    requires t.conn.fd == NoFd ==> t.wire == NO_WIRE
    ensures Behind(t, lost)
  {
  }

  /** Only reserved frames were added anywhere in flight. */
  lemma ReservedInserted(before: seq<int>, reserved: seq<int>, after: seq<int>)
    requires Ordinaries(reserved) == []
    ensures Ordinaries(before + reserved + after) == Ordinaries(before + after)
  {
    OrdinariesAppend(before + reserved, after);
    OrdinariesAppend(before, reserved);
    OrdinariesAppend(before, after);
  }

  lemma OneReserved(xid: int)
    requires !Ordinary(xid)
    ensures Ordinaries([xid]) == []
  {
    assert [xid][1..] == [];
  }

  /** A front insertion into `to_send` goes between the wire and the queue. */
  lemma FrontInsertKeepsFlight(q: Queues, wire: Wire, reserved: seq<int>)
    requires Ordinaries(reserved) == []
    ensures Ordinaries(InFlight(q.(toSend := reserved + q.toSend), wire)) == Ordinaries(InFlight(q, wire))
  {
    var before := Xids(q.toProcess) + Xids(wire.unread) + wire.atServer;
    ReservedInserted(before, reserved, q.toSend);
    assert InFlight(q.(toSend := reserved + q.toSend), wire) == before + reserved + q.toSend;
  }

  lemma SubmitBehind(s: State, lost: seq<int>)
    requires Behind(s, lost)
    ensures Behind(NextSubmit(s), lost)
  {
    var t, xid, flight := NextSubmit(s), s.log.nextXid, InFlight(s.q, s.wire);
    if !(s.conn.state < 0 || s.calls.closeRequested) {
      OrdinariesAppend(flight, [xid]);
      assert Ordinaries([xid]) == [xid] by { assert [xid][1..] == []; }
      assert InFlight(t.q, t.wire) == flight + [xid];
      assert lost + Ordinaries(flight) + [xid] == lost + (Ordinaries(flight) + [xid]);
    }
  }

  lemma HandshakeBehind(s: State, a: Action, lost: seq<int>)
    requires Behind(s, lost) && Enabled(s, a) && a.Handshake?
    ensures Behind(Next(s, a), lost)
  {
    var reserved := Repeat(AUTH_XID, a.auths) + (if a.watches then [SET_WATCHES_XID] else []);
    OrdinariesSkip(AUTH_XID, a.auths);
    OneReserved(SET_WATCHES_XID);
    OrdinariesAppend(Repeat(AUTH_XID, a.auths), if a.watches then [SET_WATCHES_XID] else []);
    FrontInsertKeepsFlight(s.q, s.wire, reserved);
  }

  lemma ReceiveKeepsFlight(q: Queues, wire: Wire)
    requires wire.unread != []
    ensures InFlight(q.(toProcess := q.toProcess + [wire.unread[0]]), wire.(unread := wire.unread[1..])) == InFlight(q, wire)
  {
    var r, rest := wire.unread[0], wire.unread[1..];
    assert Xids(q.toProcess + [r]) + Xids(rest) == Xids(q.toProcess) + Xids(wire.unread);
  }

  lemma AnswerKeepsFlight(q: Queues, wire: Wire, err: int)
    requires wire.atServer != []
    ensures InFlight(q, Wire(wire.atServer[1..], wire.unread + [Reply(wire.atServer[0], err)])) == InFlight(q, wire)
  {
    var x := wire.atServer[0];
    var p := Xids(q.toProcess);
    assert Xids(wire.unread + [Reply(x, err)]) == Xids(wire.unread) + [x];
    assert p + (Xids(wire.unread) + [x]) + wire.atServer[1..] == p + Xids(wire.unread) + wire.atServer;
  }

  lemma PingKeepsFlight(q: Queues, wire: Wire)
    ensures Ordinaries(InFlight(q.(toSend := q.toSend + [PING_XID]), wire)) == Ordinaries(InFlight(q, wire))
  {
    OneReserved(PING_XID);
    OrdinariesAppend(InFlight(q, wire), [PING_XID]);
    assert InFlight(q.(toSend := q.toSend + [PING_XID]), wire) == InFlight(q, wire) + [PING_XID];
  }

  /** A reply to no request, such as a watch event. */
  lemma ExtraKeepsFlight(q: Queues, wire: Wire, reply: Reply)
    requires !Ordinary(reply.xid)
    ensures Ordinaries(InFlight(q, wire.(unread := wire.unread + [reply]))) == Ordinaries(InFlight(q, wire))
  {
    var before, after := Xids(q.toProcess) + Xids(wire.unread), wire.atServer + q.toSend;
    var unread := wire.unread + [reply];
    OneReserved(reply.xid);
    ReservedInserted(before, [reply.xid], after);
    assert Xids(unread) == Xids(wire.unread) + [reply.xid];
    assert InFlight(q, wire.(unread := unread)) == before + [reply.xid] + after;
    assert InFlight(q, wire) == before + after;
  }

  /** The rest of the line once the reply at its head is taken off. */
  lemma HeadOfFlight(q: Queues, wire: Wire)
    requires q.toProcess != []
    ensures var x, rest := q.toProcess[0].xid, InFlight(q.(toProcess := q.toProcess[1..]), wire);
            Ordinaries(InFlight(q, wire)) == (if Ordinary(x) then [x] else []) + Ordinaries(rest)
  {
    var x, rest := q.toProcess[0].xid, InFlight(q.(toProcess := q.toProcess[1..]), wire);
    assert Xids(q.toProcess) == [x] + Xids(q.toProcess[1..]);
    assert InFlight(q, wire) == [x] + rest;
    assert InFlight(q, wire)[1..] == rest;
  }

  /** A reply to a reserved frame leaves the pending requests alone. */
  lemma ReservedReply(s: State)
    requires Enabled(s, ProcessReply) && !Ordinary(s.q.toProcess[0].xid)
    ensures var t := NextProcessReply(s);
            && t.q.sent == s.q.sent && t.wire == s.wire && t.conn.fd == s.conn.fd && t.log == s.log
            && Ordinaries(InFlight(t.q, t.wire)) == Ordinaries(InFlight(s.q, s.wire))
            && t.calls.closeRequested == s.calls.closeRequested
  {
    HeadOfFlight(s.q, s.wire);
    var t := NextProcessReply(s);
    assert InFlight(t.q, t.wire) == InFlight(s.q.(toProcess := s.q.toProcess[1..]), s.wire);
  }

  /** With nothing lost, the head of the line is the head of the queue: it completes. */
  lemma OrdinaryReply(s: State)
    requires Behind(s, []) && Enabled(s, ProcessReply) && Ordinary(s.q.toProcess[0].xid) && !s.calls.closeRequested
    ensures var t := NextProcessReply(s);
            && s.q.sent == [s.q.toProcess[0].xid] + t.q.sent
            && t.q.sent == Ordinaries(InFlight(t.q, t.wire))
            && t.q.completions == s.q.completions + [Outcome(s.q.toProcess[0].xid, s.q.toProcess[0].err)]
            && t.wire == s.wire && t.conn == s.conn && t.log == s.log && t.calls == s.calls
  {
    HeadOfFlight(s.q, s.wire);
    var x := s.q.toProcess[0].xid;
    var rest := Ordinaries(InFlight(s.q.(toProcess := s.q.toProcess[1..]), s.wire));
    assert s.q.sent == [x] + rest;
    var t := NextProcessReply(s);
    assert t.q.sent == rest;
    assert InFlight(t.q, t.wire) == InFlight(s.q.(toProcess := s.q.toProcess[1..]), s.wire);
  }

  lemma ProcessReplyAligned(s: State)
    requires Aligned(s) && Enabled(s, ProcessReply)
    ensures Aligned(NextProcessReply(s))
  {
    if !Ordinary(s.q.toProcess[0].xid) {
      ReservedReply(s);
    } else if !s.calls.closeRequested {
      OrdinaryReply(s);
    }
  }

  /** The steps that move frames. */
  predicate MovesFrames(a: Action) {
    a.Submit? || a.AddAuth? || a.Handshake? || a.Ping? || a.SendFrame? || a.Receive? || a.Answer? || a.SendEvent?
    || a.Rogue?
  }

  lemma MoveBehind(s: State, a: Action, lost: seq<int>)
    requires Behind(s, lost) && Enabled(s, a) && MovesFrames(a) && Honest(a)
    ensures Behind(Next(s, a), lost)
  {
    var t := Next(s, a);
    match a
    case Submit => SubmitBehind(s, lost);
    case AddAuth =>
      OneReserved(AUTH_XID);
      FrontInsertKeepsFlight(s.q, s.wire, [AUTH_XID]);
    case Handshake(_, _, _, _) => HandshakeBehind(s, a, lost);
    case Ping => PingKeepsFlight(s.q, s.wire);
    case SendFrame =>
      assert InFlight(t.q, t.wire) == InFlight(s.q, s.wire) by { assert s.q.toSend == [s.q.toSend[0]] + t.q.toSend; }
    case Receive => ReceiveKeepsFlight(s.q, s.wire);
    case Answer(err) => AnswerKeepsFlight(s.q, s.wire, err);
    case SendEvent => ExtraKeepsFlight(s.q, s.wire, Reply(WATCHER_EVENT_XID, 0));
    case Rogue(reply) => ExtraKeepsFlight(s.q, s.wire, reply);
  }

  /**
    * Every step but the processing of a reply; a cleanup that finds no connection forgets what
    * was lost.
    */
  lemma StepBehind(s: State, a: Action, lost: seq<int>)
    requires Behind(s, lost) && WellNested(s.calls) && Enabled(s, a) && Honest(a) && a != ProcessReply
    requires (a.DrainQueues? ==> s.conn.fd != Open) && (a.FinishCleanup? ==> s.wire == NO_WIRE)
    ensures Behind(Next(s, a), if a.DrainQueues? then [] else lost)
  {
    var t := Next(s, a);
    if MovesFrames(a) {
      MoveBehind(s, a, lost);
    } else if a.DrainQueues? {
      assert InFlight(t.q, t.wire) == [];
    } else if a.FinishCleanup? {
      SameFlight(s, t, lost);
    } else if t.conn.fd != NoFd || s.conn.fd == NoFd {
      if t.calls.closeRequested == s.calls.closeRequested && !t.calls.closeRequested {
        SameFlight(s, t, lost);
      }
    }
  }

  lemma StepAligned(s: State, a: Action)
    requires Aligned(s) && WellNested(s.calls) && Enabled(s, a) && Honest(a) && Orderly(s, a)
    ensures Aligned(Next(s, a))
  {
    if a == ProcessReply {
      ProcessReplyAligned(s);
    } else {
      StepKeepsErrorLog(s, a);
      if Parting(s) {
        PartingStep(s, a);
      } else if a == DrainQueues && s.conn.fd == Open {
        LeavesConnection(s);
      } else {
        StepBehind(s, a, []);
        StepUndisturbed(s, a);
      }
    }
  }

  /** The queues are emptied over a new connection. */
  lemma LeavesConnection(s: State)
    requires Enabled(s, DrainQueues) && s.conn.fd == Open && Undisturbed(s) && s.log.nextXid > 0
    ensures Parting(Next(s, DrainQueues))
  {
    var t := Next(s, DrainQueues);
    assert Pop(t.calls).stack == Pop(s.calls).stack;
    assert forall f :: f in Pop(s.calls).stack ==> f in s.calls.stack;
  }

  /** Nothing but the network moves until the cleanup lets the connection go. */
  lemma PartingStep(s: State, a: Action)
    requires Parting(s) && Enabled(s, a) && Orderly(s, a)
    ensures if a == FinishCleanup then Behind(Next(s, a), []) && Undisturbed(Next(s, a)) else Parting(Next(s, a))
  {
    if a == FinishCleanup {
      var t := Next(s, a);
      assert InFlight(t.q, t.wire) == [];
      assert Api(Dropping) !in t.calls.stack;
    }
  }

  lemma StepUndisturbed(s: State, a: Action)
    requires Undisturbed(s) && Enabled(s, a) && Orderly(s, a) && (a == DrainQueues ==> s.conn.fd != Open)
    ensures Undisturbed(Next(s, a))
  {
    var t := Next(s, a);
    if Api(Dropping) in t.calls.stack && a != DrainQueues {
      assert Api(Dropping) in s.calls.stack;
    }
  }

  lemma StepKeepsErrorLog(s: State, a: Action)
    requires Enabled(s, a) && a != ProcessReply
    ensures Next(s, a).log.mismatches == s.log.mismatches && Next(s, a).log.assertFailed == s.log.assertFailed
  {
  }

  /**
    * Over every orderly run against an in-order server the queues stay aligned, so the
    * out-of-order branch and the empty-queue assertion are never reached.
    */
  lemma {:induction false} InOrderServerNeverMismatches(s: State, run: seq<Action>)
    requires CanRun(s, run) && Aligned(s) && WellNested(s.calls)
    requires (forall i :: 0 <= i < |run| ==> Honest(run[i])) && OrderlyRun(s, run)
    ensures Aligned(Run(s, run))
    decreases |run|
  {
    if run != [] {
      StepAligned(s, run[0]);
      StepWellNested(s, run[0]);
      InOrderServerNeverMismatches(Next(s, run[0]), run[1..]);
    }
  }

  /** In particular from a fresh handle, as long as request numbers stay positive. */
  lemma FreshHandleNeverMismatches(clientId: int, firstXid: int, run: seq<Action>)
    requires firstXid > 0 && CanRun(Init(clientId, firstXid), run)
    requires (forall i :: 0 <= i < |run| ==> Honest(run[i])) && OrderlyRun(Init(clientId, firstXid), run)
    ensures var s := Run(Init(clientId, firstXid), run);
            && s.log.mismatches == 0 && !s.log.assertFailed
            && (!s.calls.closeRequested && !Parting(s) ==> s.q.sent == Ordinaries(InFlight(s.q, s.wire)))
  {
    assert InFlight(Init(clientId, firstXid).q, NO_WIRE) == [];
    InOrderServerNeverMismatches(Init(clientId, firstXid), run);
  }

  // ---------------------------------------------------------------------
  // Changing servers
  // ---------------------------------------------------------------------

  /**
    * A close forced by a new server list drops the connection without completing what was
    * sent on it: the queues stay aligned exactly when every pending request is still in the
    * handle's own queues, as an unprocessed reply or an unsent frame.
    */
  lemma ForcedCloseAlignedIff(s: State)
    requires Aligned(s) && Enabled(s, ForcedClose) && !s.calls.closeRequested
    ensures Aligned(Next(s, ForcedClose)) <==> s.q.sent == Ordinaries(Xids(s.q.toProcess) + s.q.toSend)
  {
    var t := Next(s, ForcedClose);
    assert InFlight(t.q, t.wire) == Xids(s.q.toProcess) + s.q.toSend;
  }

  /**
    * Which requests are then waited for in vain: the ones on the connection. They stand behind
    * those whose replies are still to be processed and before those still to be sent.
    */
  lemma ForcedCloseLoses(s: State)
    requires Aligned(s) && Enabled(s, ForcedClose) && !s.calls.closeRequested
    ensures var lost := Ordinaries(Xids(s.wire.unread) + s.wire.atServer);
            && s.q.sent == Ordinaries(Xids(s.q.toProcess)) + lost + Ordinaries(s.q.toSend)
            && (s.q.toProcess == [] ==> Behind(Next(s, ForcedClose), lost))
  {
    var t := Next(s, ForcedClose);
    var before, outstanding, after := Xids(s.q.toProcess), Xids(s.wire.unread) + s.wire.atServer, s.q.toSend;
    assert InFlight(s.q, s.wire) == before + outstanding + after;
    OrdinariesAppend(before + outstanding, after);
    OrdinariesAppend(before, outstanding);
    assert InFlight(t.q, t.wire) == before + after;
    if before == [] {
      assert before + after == after && Ordinaries(before) == [];
    }
  }

  // A request, a connection, a handshake and a send: then the new list arrives.
  const SUBMITTED: seq<Action> := [Submit, EnterApi, Connect(true)]
  const SENT: seq<Action> := [Handshake(7, false, false, 0), SendFrame]

  const WAITING := State(Session(Open, ASSOCIATING, 0, false), Queues([1], [], [1], []), Calls([Api(Running)], 1, false, 0),
                         NO_WIRE, Log(2, [1], [], 0, false))

  lemma SubmittedRuns()
    ensures CanRun(Init(0, 1), SUBMITTED) && Run(Init(0, 1), SUBMITTED) == WAITING
  {
    var s0 := Init(0, 1);
    var s1 := Next(s0, Submit);
    var s2 := Next(s1, EnterApi);
    assert Next(s2, Connect(true)) == WAITING;
    RunStep(s2, Connect(true), []);
    RunStep(s1, EnterApi, [Connect(true)]);
    RunStep(s0, Submit, [EnterApi, Connect(true)]);
  }

  lemma SentRuns()
    ensures CanRun(WAITING, SENT)
    ensures var s := Run(WAITING, SENT);
            && s.q == Queues([], [], [1], [Event]) && s.wire == Wire([1], []) && s.calls == WAITING.calls
            && s.conn == Session(Open, CONNECTED, 7, true) && s.log == WAITING.log
  {
    var s := Next(WAITING, SENT[0]);
    assert s.q.toSend == [1];
    RunStep(s, SendFrame, []);
    RunStep(WAITING, SENT[0], [SendFrame]);
  }

  /** One request at the server is enough to break the alignment, in a run from a fresh handle. */
  lemma ForcedCloseBreaksAlignment()
    ensures CanRun(Init(0, 1), SUBMITTED + SENT)
    ensures var s := Run(Init(0, 1), SUBMITTED + SENT);
            Aligned(s) && Enabled(s, ForcedClose) && !Aligned(Next(s, ForcedClose))
  {
    SubmittedRuns();
    SentRuns();
    RunAppend(Init(0, 1), SUBMITTED, SENT);
    var s := Run(Init(0, 1), SUBMITTED + SENT);
    assert InFlight(s.q, s.wire) == [1] && Ordinaries([1]) == [1] by { assert [1][1..] == []; }
    assert Xids(s.q.toProcess) + s.q.toSend == [];
    ForcedCloseAlignedIff(s);
  }

  /** A reply that comes while older requests are lost is refused, and completes nothing. */
  lemma LateReplyRefused(s: State, lost: seq<int>)
    requires Behind(s, lost) && lost != [] && InOrder(s.q, s.log) && Numbered(s.log) && !s.calls.closeRequested
    requires Enabled(s, ProcessReply) && Ordinary(s.q.toProcess[0].xid)
    ensures NextProcessReply(s).log.mismatches == s.log.mismatches + 1 && NextProcessReply(s).q.completions == s.q.completions
  {
    HeadOfFlight(s.q, s.wire);
    var x, k := s.q.toProcess[0].xid, |s.log.accepted| - |s.q.sent|;
    assert s.q.sent[0] == lost[0] && s.q.sent[|lost|] == x;
    assert s.log.accepted[k] == s.q.sent[0] && s.log.accepted[k + |lost|] == x;
  }

  lemma StepLagging(s: State, a: Action, lost: seq<int>)
    requires Behind(s, lost) && lost != [] && InOrder(s.q, s.log) && Numbered(s.log) && !s.calls.closeRequested
    requires WellNested(s.calls) && Enabled(s, a) && Honest(a) && a != DrainQueues && a != FinishCleanup && a != Close
    ensures Next(s, a).log.mismatches > s.log.mismatches || Behind(Next(s, a), lost)
    ensures !Next(s, a).calls.closeRequested
    ensures Next(s, a).log.mismatches >= s.log.mismatches
  {
    if a == ProcessReply {
      LaggingReply(s, lost);
    } else {
      StepBehind(s, a, lost);
      StepKeepsErrorLog(s, a);
      OnlyCloseCloses(s, a);
    }
  }

  lemma LaggingReply(s: State, lost: seq<int>)
    requires Behind(s, lost) && lost != [] && InOrder(s.q, s.log) && Numbered(s.log) && !s.calls.closeRequested
    requires Enabled(s, ProcessReply)
    ensures var t := NextProcessReply(s);
            && (t.log.mismatches > s.log.mismatches || Behind(t, lost)) && t.log.mismatches >= s.log.mismatches
            && !t.calls.closeRequested
  {
    if Ordinary(s.q.toProcess[0].xid) {
      LateReplyRefused(s, lost);
    } else {
      ReservedReply(s);
    }
  }

  lemma OnlyCloseCloses(s: State, a: Action)
    requires Enabled(s, a) && a != Close
    ensures Next(s, a).calls.closeRequested == s.calls.closeRequested
  {
  }

  lemma {:induction false} MismatchesStay(s: State, run: seq<Action>)
    requires CanRun(s, run)
    ensures Run(s, run).log.mismatches >= s.log.mismatches
    decreases |run|
  {
    if run != [] {
      if run[0] != ProcessReply {
        StepKeepsErrorLog(s, run[0]);
      }
      MismatchesStay(Next(s, run[0]), run[1..]);
    }
  }

  /**
    * After a close that lost requests, until the next cleanup or close and against the same
    * in-order server, every run ends refused as out of order or still waiting for them.
    */
  lemma {:induction false} ForcedCloseBlocksReplies(s: State, run: seq<Action>, lost: seq<int>)
    requires Behind(s, lost) && lost != [] && InOrder(s.q, s.log) && Numbered(s.log) && !s.calls.closeRequested
    requires WellNested(s.calls) && CanRun(s, run)
    requires forall i :: 0 <= i < |run| ==> Honest(run[i]) && run[i] != DrainQueues && run[i] != FinishCleanup && run[i] != Close
    ensures Run(s, run).log.mismatches > s.log.mismatches || Behind(Run(s, run), lost)
    decreases |run|
  {
    if run != [] {
      var t := Next(s, run[0]);
      StepLagging(s, run[0], lost);
      if t.log.mismatches > s.log.mismatches {
        MismatchesStay(t, run[1..]);
      } else {
        StepWellNested(s, run[0]);
        StepInOrder(s, run[0]);
        StepNumbered(s, run[0]);
        ForcedCloseBlocksReplies(t, run[1..], lost);
      }
    }
  }

  // ---------------------------------------------------------------------
  // Connecting under a cleanup
  // ---------------------------------------------------------------------

  /**
    * A cleanup that finishes over a connection made by an authentication completion drops it like
    * a forced close: the queues stay aligned exactly when nothing pending is on that connection.
    */
  lemma FinishCleanupAlignedIff(s: State)
    requires Behind(s, []) && s.log.mismatches == 0 && !s.log.assertFailed && !s.calls.closeRequested
    requires Enabled(s, FinishCleanup)
    ensures Aligned(Next(s, FinishCleanup)) <==> s.q.sent == Ordinaries(Xids(s.q.toProcess) + s.q.toSend)
  {
    var t := Next(s, FinishCleanup);
    assert InFlight(t.q, t.wire) == Xids(s.q.toProcess) + s.q.toSend;
  }

  /**
    * An authentication completion called while the cleanup stands over a new connection starts
    * with aligned queues exactly when nothing ordinary is on that connection.
    */
  lemma PartingIsBehindIff(s: State)
    requires Parting(s) && !s.calls.closeRequested
    ensures Behind(s, []) <==> Ordinaries(Xids(s.wire.unread) + s.wire.atServer) == []
  {
    assert InFlight(s.q, s.wire) == Xids(s.wire.unread) + s.wire.atServer;
  }

  /** A cleanup that has emptied the queues has not called out. */
  predicate DroppingOnTop(stack: seq<Frame>) {
    forall i :: 0 <= i < |stack| - 1 ==> stack[i] != Api(Dropping)
  }

  lemma StepDroppingOnTop(s: State, a: Action)
    requires Enabled(s, a) && a != Notify && DroppingOnTop(s.calls.stack)
    ensures DroppingOnTop(Next(s, a).calls.stack) && (a.Connect? ==> Api(Dropping) !in s.calls.stack)
  {
  }

  /** Where no authentication completion is called, every run is orderly. */
  lemma {:induction false} WithoutAuthCompletionsOrderly(s: State, run: seq<Action>)
    requires CanRun(s, run) && DroppingOnTop(s.calls.stack)
    requires forall i :: 0 <= i < |run| ==> run[i] != Notify
    ensures OrderlyRun(s, run)
    decreases |run|
  {
    if run != [] {
      StepDroppingOnTop(s, run[0]);
      forall i | 0 <= i < |run| - 1 ensures run[1..][i] != Notify { assert run[1..][i] == run[i + 1]; }
      WithoutAuthCompletionsOrderly(Next(s, run[0]), run[1..]);
    }
  }

  // No socket for a first attempt; the authentication completion that the cleanup calls connects,
  // submits and sends; then the cleanup goes on.
  const FAILING: seq<Action> := [EnterApi, Fail(ZSYSTEMERROR), BeginCleanup]
  const CLEANING: seq<Action> := [DrainQueues, Notify]
  const CONNECTING_UNDER: seq<Action> := [EnterApi, Connect(true), Handshake(7, false, false, 0), Exit]
  const SENDING_UNDER: seq<Action> := [Submit, SendFrame, Return]

  const ENTERED := Init(0, 1).(calls := Calls([Api(Running)], 1, false, 0))
  const BROKEN := Init(0, 1).(calls := Calls([Api(Failed(ZSYSTEMERROR))], 1, false, 0))
  const FAILED := State(Session(NoFd, NOTCONNECTED, 0, false), Queues([], [], [], []),
                        Calls([Api(Draining(ZSYSTEMERROR))], 1, false, 0), NO_WIRE, Log(1, [], [], 0, false))
  const CALLED_BACK := State(Session(NoFd, NOTCONNECTED, 0, false), Queues([], [], [], []),
                             Calls([Api(Dropping), Callback], 1, false, 0), NO_WIRE, Log(1, [], [], 0, false))
  const CONNECTED_UNDER := State(Session(Open, CONNECTED, 7, true), Queues([], [], [], [Event]),
                                 Calls([Api(Dropping), Callback], 1, false, 0), NO_WIRE, Log(1, [], [], 0, false))

  lemma FailingRuns()
    ensures CanRun(Init(0, 1), FAILING) && Run(Init(0, 1), FAILING) == FAILED
  {
    var s0, s1, s2 := Init(0, 1), ENTERED, BROKEN;
    EnteringFails();
    BrokenIsCleaned();
    RunStep(s2, BeginCleanup, []);
    RunStep(s1, Fail(ZSYSTEMERROR), [BeginCleanup]);
    RunStep(s0, EnterApi, [Fail(ZSYSTEMERROR), BeginCleanup]);
  }

  lemma EnteringFails()
    ensures Enabled(Init(0, 1), EnterApi) && Next(Init(0, 1), EnterApi) == ENTERED
    ensures Enabled(ENTERED, Fail(ZSYSTEMERROR)) && Next(ENTERED, Fail(ZSYSTEMERROR)) == BROKEN
  {
  }

  lemma BrokenIsCleaned()
    ensures Enabled(BROKEN, BeginCleanup) && Next(BROKEN, BeginCleanup) == FAILED
  {
  }

  lemma CleaningRuns()
    ensures CanRun(FAILED, CLEANING) && Run(FAILED, CLEANING) == CALLED_BACK
  {
    var s1 := Next(FAILED, DrainQueues);
    assert s1.calls.stack == [Api(Dropping)];
    assert Next(s1, Notify) == CALLED_BACK;
    RunStep(s1, Notify, []);
    RunStep(FAILED, DrainQueues, [Notify]);
  }

  lemma ConnectingRuns()
    ensures CanRun(CALLED_BACK, CONNECTING_UNDER) && Run(CALLED_BACK, CONNECTING_UNDER) == CONNECTED_UNDER
  {
    var hello := Handshake(7, false, false, 0);
    var s1 := Next(CALLED_BACK, EnterApi);
    var s2 := Next(s1, Connect(true));
    var s3 := Next(s2, hello);
    assert s3.calls.stack == [Api(Dropping), Callback, Api(Running)];
    assert Next(s3, Exit) == CONNECTED_UNDER;
    RunStep(s3, Exit, []);
    RunStep(s2, hello, [Exit]);
    RunStep(s1, Connect(true), [hello, Exit]);
    RunStep(CALLED_BACK, EnterApi, [Connect(true), hello, Exit]);
  }

  lemma SendingRuns()
    ensures CanRun(CONNECTED_UNDER, SENDING_UNDER)
    ensures var s := Run(CONNECTED_UNDER, SENDING_UNDER);
            && s.q == Queues([], [], [1], [Event]) && s.wire == Wire([1], []) && s.calls.stack == [Api(Dropping)]
            && !s.calls.closeRequested && s.conn.fd == Open && s.log == Log(2, [1], [], 0, false)
  {
    var s1 := Next(CONNECTED_UNDER, Submit);
    var s2 := Next(s1, SendFrame);
    RunStep(s2, Return, []);
    RunStep(s1, SendFrame, [Return]);
    RunStep(CONNECTED_UNDER, Submit, [SendFrame, Return]);
  }

  lemma UnderCleanupRuns()
    ensures CanRun(CALLED_BACK, CONNECTING_UNDER + SENDING_UNDER)
    ensures Run(CALLED_BACK, CONNECTING_UNDER + SENDING_UNDER) == Run(CONNECTED_UNDER, SENDING_UNDER)
  {
    ConnectingRuns();
    SendingRuns();
    RunAppend(CALLED_BACK, CONNECTING_UNDER, SENDING_UNDER);
  }

  /** One request sent from there is enough: the cleanup forgets the connection but not the request. */
  lemma ConnectingUnderCleanupBreaksAlignment()
    ensures var run := FAILING + (CLEANING + (CONNECTING_UNDER + SENDING_UNDER));
            && CanRun(Init(0, 1), run) && (forall i :: 0 <= i < |run| ==> Honest(run[i]))
            && var s := Run(Init(0, 1), run);
            Behind(s, []) && Enabled(s, FinishCleanup) && !Aligned(Next(s, FinishCleanup))
  {
    FailingRuns();
    CleaningRuns();
    UnderCleanupRuns();
    SendingRuns();
    RunAppend(FAILED, CLEANING, CONNECTING_UNDER + SENDING_UNDER);
    RunAppend(Init(0, 1), FAILING, CLEANING + (CONNECTING_UNDER + SENDING_UNDER));
    LostUnderCleanup(Run(CONNECTED_UNDER, SENDING_UNDER));
  }

  lemma LostUnderCleanup(s: State)
    requires s.q == Queues([], [], [1], [Event]) && s.wire == Wire([1], []) && s.calls.stack == [Api(Dropping)]
    requires !s.calls.closeRequested && s.conn.fd == Open && s.log == Log(2, [1], [], 0, false)
    ensures Behind(s, []) && Enabled(s, FinishCleanup) && !Aligned(Next(s, FinishCleanup))
  {
    assert InFlight(s.q, s.wire) == [1] && Ordinaries([1]) == [1] by { assert [1][1..] == []; }
    assert Xids(s.q.toProcess) + s.q.toSend == [];
    FinishCleanupAlignedIff(s);
  }
}
