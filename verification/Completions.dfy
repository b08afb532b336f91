/**
  * Exactly-once, in-order completion, whatever the server sends and however calls nest.
  */
module Completions {
  import opened Common
  import opened Client

  /** The requests among queued completions, in order. */
  function Outcomes(cs: seq<Completion>): seq<int> {
    if cs == [] then [] else (if cs[0].Outcome? then [cs[0].xid] else []) + Outcomes(cs[1..])
  }

  lemma {:induction false} OutcomesAppend(a: seq<Completion>, b: seq<Completion>)
    ensures Outcomes(a + b) == Outcomes(a) + Outcomes(b)
  {
    if a == [] {
      assert a + b == b;
    } else {
      assert (a + b)[0] == a[0] && (a + b)[1..] == a[1..] + b;
      OutcomesAppend(a[1..], b);
      Assoc(if a[0].Outcome? then [a[0].xid] else [], Outcomes(a[1..]), Outcomes(b));
    }
  }

  lemma {:induction false} OutcomesOfFake(sent: seq<int>, reason: int)
    ensures Outcomes(Fake(sent, reason)) == sent
  {
    if sent != [] {
      assert Fake(sent, reason)[1..] == Fake(sent[1..], reason);
      OutcomesOfFake(sent[1..], reason);
    }
  }

  /** Delivered, then ready to run, then pending: together the accepted requests in order. */
  ghost predicate InOrder(q: Queues, log: Log) {
    Outcomes(log.delivered) + Outcomes(q.completions) + q.sent == log.accepted
  }

  /** Accepted requests are numbered upwards, so no two are the same. */
  ghost predicate Numbered(log: Log) {
    && (forall i :: 0 <= i < |log.accepted| ==> log.accepted[i] < log.nextXid)
    && (forall i, j :: 0 <= i < j < |log.accepted| ==> log.accepted[i] < log.accepted[j])
  }

  lemma FreeCompletionsInOrder(q: Queues, log: Log, reason: int)
    requires InOrder(q, log)
    ensures InOrder(FreeCompletions(q, reason), log)
  {
    OutcomesAppend(q.completions, Fake(q.sent, reason));
    OutcomesOfFake(q.sent, reason);
    Assoc(Outcomes(log.delivered), Outcomes(q.completions), q.sent);
    assert log.accepted + [] == log.accepted;
  }

  lemma QueueEventInOrder(q: Queues, log: Log)
    requires InOrder(q, log)
    ensures InOrder(q.(completions := q.completions + [Event]), log)
  {
    OutcomesAppend(q.completions, [Event]);
    assert Outcomes([Event]) == [];
  }

  lemma QueueOutcomeInOrder(q: Queues, log: Log, err: int)
    requires InOrder(q, log) && q.sent != []
    ensures InOrder(q.(sent := q.sent[1..], completions := q.completions + [Outcome(q.sent[0], err)]), log)
  {
    var x, c, o := q.sent[0], Outcome(q.sent[0], err), Outcomes(q.completions);
    OutcomesAppend(q.completions, [c]);
    assert Outcomes([c]) == [x] by { assert [c][1..] == []; }
    assert q.sent == [x] + q.sent[1..];
    Assoc(Outcomes(log.delivered) + o, [x], q.sent[1..]);
    Assoc(Outcomes(log.delivered), o, [x]);
  }

  lemma DeliverInOrder(s: State)
    requires InOrder(s.q, s.log) && s.q.completions != []
    ensures InOrder(NextDeliver(s).q, NextDeliver(s).log)
  {
    var c := s.q.completions[0];
    var head := if c.Outcome? then [c.xid] else [];
    OutcomesAppend(s.log.delivered, [c]);
    assert Outcomes([c]) == head by { assert [c][1..] == []; }
    Assoc(Outcomes(s.log.delivered), head, Outcomes(s.q.completions[1..]));
  }

  lemma StepInOrder(s: State, a: Action)
    requires Enabled(s, a) && InOrder(s.q, s.log)
    ensures InOrder(Next(s, a).q, Next(s, a).log)
  {
    QueueEventInOrder(s.q, s.log);
    match a
    case Submit =>
      Assoc(Outcomes(s.log.delivered) + Outcomes(s.q.completions), s.q.sent, [s.log.nextXid]);
    case ProcessReply => if s.q.sent != [] { QueueOutcomeInOrder(s.q, s.log, s.q.toProcess[0].err); }
    case Deliver => DeliverInOrder(s);
    case Close => FreeCompletionsInOrder(s.q, s.log, ZCLOSING);
    case Exit => FreeCompletionsInOrder(s.q, s.log, ZCLOSING);
    case DrainQueues => FreeCompletionsInOrder(s.q, s.log, Top(s.calls).phase.rc);
    case BeginCleanup => assert s.q.completions + [] == s.q.completions;
    case _ =>
  }

  lemma StepNumbered(s: State, a: Action)
    requires Enabled(s, a) && Numbered(s.log)
    ensures Numbered(Next(s, a).log)
  {
  }

  /**
    * In every reachable state each accepted request is in exactly one place, and requests
    * reach user code in the order they were submitted, each once.
    */
  lemma {:induction false} ExactlyOnceInOrder(s: State, run: seq<Action>)
    requires CanRun(s, run) && InOrder(s.q, s.log) && Numbered(s.log)
    ensures InOrder(Run(s, run).q, Run(s, run).log) && Numbered(Run(s, run).log)
    decreases |run|
  {
    if run != [] {
      StepInOrder(s, run[0]);
      StepNumbered(s, run[0]);
      ExactlyOnceInOrder(Next(s, run[0]), run[1..]);
    }
  }
}
