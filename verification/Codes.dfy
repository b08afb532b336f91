/**
  * What user code is told: every code it gets was given by the server, by a failure or by a
  * close, and every event it gets was raised once.
  */
module Codes {
  import opened Common
  import opened Client
  import opened Completions
  import opened LifeCycle
  import opened Fifo

  /** Everything user code has been told or will be told by what is queued. */
  function Told(s: State): seq<Completion> {
    s.log.delivered + s.q.completions
  }

  // ---------------------------------------------------------------------
  // Where a code comes from
  // ---------------------------------------------------------------------

  datatype Origin = FromReply | FromServer | FromCleanup | FromClose

  /** In this step, in this state, request x is given the code e. */
  predicate Gives(s: State, a: Action, x: int, e: int, o: Origin) {
    match o
    case FromReply => a == ProcessReply && s.q.toProcess != [] && s.q.toProcess[0] == Reply(x, e)
    case FromServer => a == Answer(e) && s.wire.atServer != [] && s.wire.atServer[0] == x
    case FromCleanup => a == DrainQueues && x in s.q.sent && TopIs(s.calls, Api(Draining(e)))
    case FromClose => (a == Close || (a == Exit && s.calls.closeRequested)) && x in s.q.sent && e == -116
  }

  /** Some step of the run does. */
  predicate Given(s: State, run: seq<Action>, x: int, e: int, o: Origin)
    decreases |run|
  {
    run != [] && Enabled(s, run[0]) && (Gives(s, run[0], x, e, o) || Given(Next(s, run[0]), run[1..], x, e, o))
  }

  lemma FakeHolds(sent: seq<int>, reason: int, x: int, e: int)
    requires Outcome(x, e) in Fake(sent, reason)
    ensures x in sent && e == reason
  {
  }

  /** A step tells user code nothing of its own invention. */
  lemma StepTells(s: State, a: Action, x: int, e: int)
    requires Enabled(s, a) && Outcome(x, e) in Told(Next(s, a)) && Outcome(x, e) !in Told(s)
    ensures Gives(s, a, x, e, FromReply) || Gives(s, a, x, e, FromCleanup) || Gives(s, a, x, e, FromClose)
  {
    var t, c := Next(s, a), Outcome(x, e);
    if a != Deliver {
      assert c in t.q.completions && c !in s.q.completions;
      if a == DrainQueues {
        FakeHolds(s.q.sent, Top(s.calls).phase.rc, x, e);
      } else if a == Close || a == Exit {
        FakeHolds(s.q.sent, ZCLOSING, x, e);
      }
    }
  }

  /**
    * Over every run, a request is told a code only if a reply with its xid carried that code, or
    * it was pending in a cleanup of that code, or it was pending when the handle was closed and
    * the code is ZCLOSING.
    */
  lemma {:induction false} EveryCodeHasItsOrigin(s: State, run: seq<Action>, x: int, e: int)
    requires CanRun(s, run) && Outcome(x, e) in Told(Run(s, run))
    ensures || Outcome(x, e) in Told(s)
            || Given(s, run, x, e, FromReply) || Given(s, run, x, e, FromCleanup) || Given(s, run, x, e, FromClose)
    decreases |run|
  {
    if run != [] {
      EveryCodeHasItsOrigin(Next(s, run[0]), run[1..], x, e);
      if Outcome(x, e) in Told(Next(s, run[0])) && Outcome(x, e) !in Told(s) {
        StepTells(s, run[0], x, e);
      }
    }
  }

  /** The reply is on its way to the client. */
  predicate Coming(s: State, r: Reply) {
    r in s.q.toProcess || r in s.wire.unread
  }

  /** Against a server that answers only what it was asked, replies to requests come from its answers. */
  lemma StepBrings(s: State, a: Action, x: int, e: int)
    requires Enabled(s, a) && Honest(a) && Ordinary(x) && Coming(Next(s, a), Reply(x, e)) && !Coming(s, Reply(x, e))
    ensures Gives(s, a, x, e, FromServer)
  {
  }

  /**
    * Against an in-order server the code a request is told is the one the server answered it
    * with, unless it was pending in a cleanup of that code or at the close.
    */
  lemma {:induction false} CodeIsTheServers(s: State, run: seq<Action>, x: int, e: int)
    requires CanRun(s, run) && (forall i :: 0 <= i < |run| ==> Honest(run[i])) && Ordinary(x)
    requires Outcome(x, e) in Told(Run(s, run)) || Coming(Run(s, run), Reply(x, e))
    ensures || Outcome(x, e) in Told(s) || Coming(s, Reply(x, e))
            || Given(s, run, x, e, FromServer) || Given(s, run, x, e, FromCleanup) || Given(s, run, x, e, FromClose)
    decreases |run|
  {
    if run != [] {
      var t := Next(s, run[0]);
      forall i | 0 <= i < |run| - 1 ensures Honest(run[1..][i]) { assert run[1..][i] == run[i + 1]; }
      CodeIsTheServers(t, run[1..], x, e);
      if Outcome(x, e) in Told(t) && Outcome(x, e) !in Told(s) {
        StepTells(s, run[0], x, e);
      }
      if Coming(t, Reply(x, e)) && !Coming(s, Reply(x, e)) {
        StepBrings(s, run[0], x, e);
      }
    }
  }

  /** From a fresh handle nothing else is left: whatever has been delivered has one of these origins. */
  lemma DeliveredCodes(clientId: int, firstXid: int, run: seq<Action>, x: int, e: int)
    requires var s := Init(clientId, firstXid); CanRun(s, run) && Outcome(x, e) in Run(s, run).log.delivered
    ensures var s := Init(clientId, firstXid);
            Given(s, run, x, e, FromReply) || Given(s, run, x, e, FromCleanup) || Given(s, run, x, e, FromClose)
    ensures Ordinary(x) && (forall i :: 0 <= i < |run| ==> Honest(run[i])) ==>
              var s := Init(clientId, firstXid);
              Given(s, run, x, e, FromServer) || Given(s, run, x, e, FromCleanup) || Given(s, run, x, e, FromClose)
  {
    var s := Init(clientId, firstXid);
    assert Outcome(x, e) in Told(Run(s, run));
    EveryCodeHasItsOrigin(s, run, x, e);
    if Ordinary(x) && forall i :: 0 <= i < |run| ==> Honest(run[i]) {
      CodeIsTheServers(s, run, x, e);
    }
  }

  // ---------------------------------------------------------------------
  // Where the code of a cleanup comes from
  // ---------------------------------------------------------------------

  /** The call that has the frame is cleaning up, or is about to, with the code e. */
  predicate FailedWith(f: Frame, e: int) {
    f == Api(Failed(e)) || f == Api(Draining(e))
  }

  /**
    * This step makes the call fail with e: -4 for a refused connection, -112 for an answer under
    * another session id, -115 for a refused authentication, -2 for a reply out of order, and
    * otherwise the code of the failed call itself.
    */
  predicate FailsWith(s: State, a: Action, e: int) {
    || a == Fail(e)
    || (a == FailConnect && e == -4)
    || (a.Handshake? && s.conn.seenRw && s.conn.clientId != 0 && s.conn.clientId != a.sessionId && e == -112)
    || (a == ProcessReply && s.q.toProcess != [] && s.q.toProcess[0].xid == AUTH_XID && s.q.toProcess[0].err != 0 && e == -115)
    || (a == ProcessReply && s.q.toProcess != [] && Ordinary(s.q.toProcess[0].xid) && s.q.sent != []
        && s.q.sent[0] != s.q.toProcess[0].xid && e == -2)
  }

  /** The frame at depth d is there all along. */
  predicate Stays(s: State, run: seq<Action>, d: nat)
    decreases |run|
  {
    d < |s.calls.stack| && (run != [] && Enabled(s, run[0]) ==> Stays(Next(s, run[0]), run[1..], d))
  }

  /** In some step the call at depth d failed with e, and it has not returned since. */
  predicate FailedSince(s: State, run: seq<Action>, d: nat, e: int)
    decreases |run|
  {
    run != [] && Enabled(s, run[0])
    && ((FailsWith(s, run[0], e) && |s.calls.stack| == d + 1 && Stays(Next(s, run[0]), run[1..], d))
        || FailedSince(Next(s, run[0]), run[1..], d, e))
  }

  lemma StepFails(s: State, a: Action, d: nat, e: int)
    requires Enabled(s, a) && d < |Next(s, a).calls.stack| && FailedWith(Next(s, a).calls.stack[d], e)
    ensures (d < |s.calls.stack| && FailedWith(s.calls.stack[d], e)) || (FailsWith(s, a, e) && |s.calls.stack| == d + 1)
  {
  }

  /** And such a step does make the call fail. */
  lemma FailureFails(s: State, a: Action, e: int)
    requires Enabled(s, a) && FailsWith(s, a, e)
    ensures TopIs(Next(s, a).calls, Api(Failed(e))) && Pop(Next(s, a).calls) == Pop(s.calls)
  {
  }

  /** Over every run, a call cleans up with a code only if it failed with that code. */
  lemma {:induction false} CleanupCodeIsTheFailures(s: State, run: seq<Action>, d: nat, e: int)
    requires CanRun(s, run) && d < |Run(s, run).calls.stack| && FailedWith(Run(s, run).calls.stack[d], e)
    ensures (Stays(s, run, d) && FailedWith(s.calls.stack[d], e)) || FailedSince(s, run, d, e)
    decreases |run|
  {
    if run != [] {
      var t := Next(s, run[0]);
      CleanupCodeIsTheFailures(t, run[1..], d, e);
      if Stays(t, run[1..], d) && FailedWith(t.calls.stack[d], e) {
        StepFails(s, run[0], d, e);
      }
    }
  }

  // ---------------------------------------------------------------------
  // Events
  // ---------------------------------------------------------------------

  function CountEvents(cs: seq<Completion>): nat {
    if cs == [] then 0 else (if cs[0].Event? then 1 else 0) + CountEvents(cs[1..])
  }

  lemma {:induction false} CountEventsAppend(a: seq<Completion>, b: seq<Completion>)
    ensures CountEvents(a + b) == CountEvents(a) + CountEvents(b)
  {
    if a == [] {
      assert a + b == b;
    } else {
      assert (a + b)[0] == a[0] && (a + b)[1..] == a[1..] + b;
      CountEventsAppend(a[1..], b);
    }
  }

  lemma {:induction false} FakeHasNoEvents(sent: seq<int>, reason: int)
    ensures CountEvents(Fake(sent, reason)) == 0
  {
    if sent != [] {
      assert Fake(sent, reason)[1..] == Fake(sent[1..], reason);
      FakeHasNoEvents(sent[1..], reason);
    }
  }

  /** A watch event read, a session established, or a session or connection lost. */
  predicate Raises(s: State, a: Action) {
    || (a == ProcessReply && s.q.toProcess != [] && s.q.toProcess[0].xid == -1)
    || (a.Handshake? && (s.conn.seenRw && s.conn.clientId != 0 ==> s.conn.clientId == a.sessionId))
    || (a == BeginCleanup && (s.conn.state < 0 || s.conn.state == 3 || s.conn.state == 5))
  }

  function Raised(s: State, run: seq<Action>): nat
    requires CanRun(s, run)
    decreases |run|
  {
    if run == [] then 0 else (if Raises(s, run[0]) then 1 else 0) + Raised(Next(s, run[0]), run[1..])
  }

  lemma DeliverKeepsEvents(s: State)
    requires s.q.completions != []
    ensures CountEvents(Told(NextDeliver(s))) == CountEvents(Told(s))
  {
    var c := s.q.completions[0];
    assert s.q.completions == [c] + s.q.completions[1..];
    Assoc(s.log.delivered, [c], s.q.completions[1..]);
  }

  lemma OneMore(cs: seq<Completion>, c: Completion)
    ensures CountEvents(cs + [c]) == CountEvents(cs) + if c.Event? then 1 else 0
  {
    CountEventsAppend(cs, [c]);
    assert [c][1..] == [];
  }

  /** The queue alone. */
  lemma StepQueuesEvents(s: State, a: Action)
    requires Enabled(s, a) && a != Deliver
    ensures Next(s, a).log.delivered == s.log.delivered
    ensures CountEvents(Next(s, a).q.completions) == CountEvents(s.q.completions) + if Raises(s, a) then 1 else 0
  {
    OneMore(s.q.completions, Event);
    match a
    case ProcessReply => ReplyQueuesEvents(s);
    case DrainQueues => DrainRaisesNothing(s.q, Top(s.calls).phase.rc);
    case Close => DrainRaisesNothing(s.q, ZCLOSING);
    case Exit => DrainRaisesNothing(s.q, ZCLOSING);
    case BeginCleanup => assert s.q.completions + [] == s.q.completions;
    case _ =>
  }

  lemma ReplyQueuesEvents(s: State)
    requires Enabled(s, ProcessReply)
    ensures NextProcessReply(s).log.delivered == s.log.delivered
    ensures CountEvents(NextProcessReply(s).q.completions) == CountEvents(s.q.completions) + if Raises(s, ProcessReply) then 1 else 0
  {
    OneMore(s.q.completions, Event);
    OneMore(s.q.completions, Outcome(s.q.toProcess[0].xid, s.q.toProcess[0].err));
  }

  lemma StepRaises(s: State, a: Action)
    requires Enabled(s, a)
    ensures CountEvents(Told(Next(s, a))) == CountEvents(Told(s)) + if Raises(s, a) then 1 else 0
  {
    if a == Deliver {
      DeliverKeepsEvents(s);
    } else {
      StepQueuesEvents(s, a);
      CountEventsAppend(s.log.delivered, s.q.completions);
      CountEventsAppend(s.log.delivered, Next(s, a).q.completions);
    }
  }

  lemma DrainRaisesNothing(q: Queues, reason: int)
    ensures CountEvents(FreeCompletions(q, reason).completions) == CountEvents(q.completions)
  {
    CountEventsAppend(q.completions, Fake(q.sent, reason));
    FakeHasNoEvents(q.sent, reason);
  }

  /** Over every run user code is told of every event once, and of no other. */
  lemma {:induction false} EveryEventIsTold(s: State, run: seq<Action>)
    requires CanRun(s, run)
    ensures CountEvents(Told(Run(s, run))) == CountEvents(Told(s)) + Raised(s, run)
    decreases |run|
  {
    if run != [] {
      StepRaises(s, run[0]);
      EveryEventIsTold(Next(s, run[0]), run[1..]);
    }
  }
}
