/**
  * Deferred close: over every nesting of API calls and callbacks the handle is freed once,
  * when the last call that still uses it returns.
  */
module LifeCycle {
  import opened Common
  import opened Client
  import opened Completions

  /** Frames that hold a reference to the handle. */
  function References(stack: seq<Frame>): nat {
    if stack == [] then 0
    else References(stack[..|stack| - 1]) + (if stack[|stack| - 1] == Callback then 0 else 1)
  }

  lemma ReferencesPush(stack: seq<Frame>, f: Frame)
    ensures References(stack + [f]) == References(stack) + (if f == Callback then 0 else 1)
  {
    assert (stack + [f])[..|stack|] == stack;
  }

  lemma {:induction false} BottomHoldsReference(stack: seq<Frame>)
    requires stack != [] && stack[0] != Callback
    ensures References(stack) >= 1
  {
    if |stack| > 1 {
      BottomHoldsReference(stack[..|stack| - 1]);
    }
  }

  /** The outermost frame of every stack is a library call. */
  ghost predicate Rooted(stack: seq<Frame>) {
    stack != [] ==> stack[0] != Callback
  }

  /** Only the outermost frame frees the handle. */
  ghost predicate DestroysAtRoot(stack: seq<Frame>) {
    forall i :: 1 <= i < |stack| ==> stack[i] != Destroying
  }

  ghost predicate WellNested(c: Calls) {
    && Rooted(c.stack) && DestroysAtRoot(c.stack)
    && (c.destroyed == 0 ==> c.refCounter == References(c.stack))
    && (c.stack != [] && c.stack[0] == Destroying ==> c.closeRequested)
    && c.destroyed <= 1
    && (c.destroyed == 1 ==> c.stack == [] && c.closeRequested)
    && (c.stack == [] && c.closeRequested ==> c.destroyed == 1)
    && (Closing in c.stack ==> c.closeRequested)
  }

  lemma PushWellNested(c: Calls, f: Frame, c': Calls)
    requires WellNested(c) && c.destroyed == 0
    requires c'.stack == c.stack + [f] && c'.destroyed == 0
    requires c'.refCounter == c.refCounter + (if f == Callback then 0 else 1)
    requires c.closeRequested ==> c'.closeRequested
    requires f == Callback ==> c.stack != []
    requires f == Destroying ==> c.stack == []
    requires f == Closing || f == Destroying ==> c'.closeRequested
    requires c.closeRequested == c'.closeRequested || f == Closing || f == Destroying
    ensures WellNested(c')
  {
    ReferencesPush(c.stack, f);
  }

  lemma SetTopWellNested(c: Calls, f: Frame)
    requires WellNested(c) && c.destroyed == 0 && c.stack != [] && Top(c) != Callback && f != Callback
    requires f == Destroying ==> |c.stack| == 1
    requires f == Closing || f == Destroying ==> c.closeRequested
    ensures WellNested(SetTop(c, f))
  {
    ReferencesSetTop(c.stack, f);
    FramesSetTop(c.stack, f);
  }

  lemma FramesSetTop(stack: seq<Frame>, f: Frame)
    requires stack != [] && Rooted(stack) && DestroysAtRoot(stack) && f != Callback && (f == Destroying ==> |stack| == 1)
    ensures var t := stack[..|stack| - 1] + [f];
            && Rooted(t) && DestroysAtRoot(t) && (t[0] == Destroying ==> stack[0] == Destroying || f == Destroying)
            && (Closing in t ==> Closing in stack || f == Closing)
  {
    var t, n := stack[..|stack| - 1] + [f], |stack| - 1;
    assert forall i :: 0 <= i < n ==> t[i] == stack[i];
    assert t[n] == f;
  }

  lemma ReferencesSetTop(stack: seq<Frame>, f: Frame)
    requires stack != [] && stack[|stack| - 1] != Callback && f != Callback
    ensures References(stack[..|stack| - 1] + [f]) == References(stack)
  {
    ReferencesPush(stack[..|stack| - 1], f);
  }

  /** The counter reaches zero exactly when the outermost frame leaves. */
  lemma LastReference(c: Calls)
    requires WellNested(c) && c.destroyed == 0 && c.stack != [] && Top(c) != Callback
    ensures c.refCounter == 1 <==> |c.stack| == 1
  {
    var rest := c.stack[..|c.stack| - 1];
    if rest != [] {
      assert rest[0] == c.stack[0];
      BottomHoldsReference(rest);
    } else {
      assert References(rest) == 0;
    }
  }

  lemma PopWellNested(c: Calls, c': Calls)
    requires WellNested(c) && c.destroyed == 0 && c.stack != []
    requires c'.stack == Pop(c).stack && c'.closeRequested == c.closeRequested && c'.destroyed == 0
    requires c'.refCounter == c.refCounter - (if Top(c) == Callback then 0 else 1)
    requires c'.stack != [] || !c.closeRequested
    ensures WellNested(c')
  {
    assert forall i :: 0 <= i < |c'.stack| ==> c'.stack[i] == c.stack[i];
  }

  lemma ExitWellNested(s: State)
    requires Enabled(s, Exit) && WellNested(s.calls)
    ensures WellNested(NextExit(s).calls)
  {
    LastReference(s.calls);
    if s.calls.refCounter - 1 == 0 && s.calls.closeRequested {
      SetTopWellNested(s.calls, Destroying);
    } else {
      PopWellNested(s.calls, NextExit(s).calls);
    }
  }

  lemma CloseWellNested(s: State)
    requires Enabled(s, Close) && WellNested(s.calls)
    ensures WellNested(NextClose(s).calls)
  {
    if s.calls.stack == [] {
      PushWellNested(s.calls, Destroying, NextClose(s).calls);
    } else {
      BottomHoldsReference(s.calls.stack);
      PushWellNested(s.calls, Closing, NextClose(s).calls);
    }
  }

  /** The steps that enter or leave a frame. */
  predicate MovesFrame(a: Action) {
    a.EnterApi? || a.Close? || a.Return? || a.Deliver? || a.Notify? || a.Exit? || a.FinishDestroy?
  }

  /** Other steps change the innermost frame at most, from one phase of a call to another. */
  lemma PhaseWellNested(s: State, a: Action)
    requires Enabled(s, a) && WellNested(s.calls) && !MovesFrame(a)
    ensures WellNested(Next(s, a).calls)
  {
    var c := s.calls;
    match a
    case Handshake(_, _, _, _) => SetTopWellNested(c, Api(Failed(ZSESSIONEXPIRED)));
    case ProcessReply =>
      SetTopWellNested(c, Api(Failed(ZAUTHFAILED)));
      SetTopWellNested(c, Api(Failed(ZRUNTIMEINCONSISTENCY)));
    case Fail(rc) => SetTopWellNested(c, Api(Failed(rc)));
    case BeginCleanup => SetTopWellNested(c, Api(Draining(Top(c).phase.rc)));
    case FailConnect => SetTopWellNested(c, Api(Failed(ZCONNECTIONLOSS)));
    case DrainQueues => SetTopWellNested(c, Api(Dropping));
    case FinishCleanup => SetTopWellNested(c, Api(Drained));
    case _ =>
  }

  lemma StepWellNested(s: State, a: Action)
    requires Enabled(s, a) && WellNested(s.calls)
    ensures WellNested(Next(s, a).calls)
  {
    var c, c' := s.calls, Next(s, a).calls;
    if !MovesFrame(a) {
      PhaseWellNested(s, a);
    } else {
      match a
      case EnterApi => PushWellNested(c, Api(Running), c');
      case Close => CloseWellNested(s);
      case Return =>
        assert c.stack[0] != Callback;
        PopWellNested(c, c');
      case Deliver => PushWellNested(c, Callback, c');
      case Notify => PushWellNested(c, Callback, c');
      case Exit => ExitWellNested(s);
      case FinishDestroy => assert |c.stack| == 1;
    }
  }

  /**
    * Over every run the handle is freed at most once, never under a frame that still uses it,
    * and as soon as a close has been requested and no frame is left.
    */
  lemma {:induction false} FreedOnceByLastFrame(s: State, run: seq<Action>)
    requires CanRun(s, run) && WellNested(s.calls)
    ensures var c := Run(s, run).calls;
            && WellNested(c)
            && c.destroyed <= 1
            && (c.destroyed == 1 <==> c.closeRequested && c.stack == [])
    decreases |run|
  {
    if run != [] {
      StepWellNested(s, run[0]);
      FreedOnceByLastFrame(Next(s, run[0]), run[1..]);
    }
  }

  // ---------------------------------------------------------------------
  // Nothing is accepted after close, and nothing is left behind
  // ---------------------------------------------------------------------

  /** Once a close is requested nothing is pending; once the handle is gone nothing is queued. */
  ghost predicate NothingLeft(s: State) {
    && (s.calls.closeRequested ==> s.q.sent == [])
    && (s.calls.destroyed > 0 ==> s.q.completions == [])
  }

  lemma StepNothingLeft(s: State, a: Action)
    requires Enabled(s, a) && NothingLeft(s) && WellNested(s.calls)
    ensures NothingLeft(Next(s, a))
  {
  }

  lemma StepAcceptsNothingAfterClose(s: State, a: Action)
    requires Enabled(s, a) && s.calls.closeRequested
    ensures Next(s, a).calls.closeRequested && Next(s, a).log.accepted == s.log.accepted
  {
  }

  lemma {:induction false} NothingAcceptedAfterClose(s: State, run: seq<Action>)
    requires CanRun(s, run) && s.calls.closeRequested
    ensures Run(s, run).log.accepted == s.log.accepted
    decreases |run|
  {
    if run != [] {
      StepAcceptsNothingAfterClose(s, run[0]);
      NothingAcceptedAfterClose(Next(s, run[0]), run[1..]);
    }
  }

  lemma {:induction false} RunNothingLeft(s: State, run: seq<Action>)
    requires CanRun(s, run) && NothingLeft(s) && WellNested(s.calls)
    ensures NothingLeft(Run(s, run))
    decreases |run|
  {
    if run != [] {
      StepNothingLeft(s, run[0]);
      StepWellNested(s, run[0]);
      RunNothingLeft(Next(s, run[0]), run[1..]);
    }
  }

  /** In every run that frees the handle, every accepted request was completed first, in order. */
  lemma AllCompletedBeforeFree(clientId: int, firstXid: int, run: seq<Action>)
    requires CanRun(Init(clientId, firstXid), run)
    ensures var s := Run(Init(clientId, firstXid), run);
            && InOrder(s.q, s.log) && Numbered(s.log)
            && (s.calls.destroyed > 0 ==> Outcomes(s.log.delivered) == s.log.accepted)
  {
    var s0 := Init(clientId, firstXid);
    ExactlyOnceInOrder(s0, run);
    RunNothingLeft(s0, run);
    FreedOnceByLastFrame(s0, run);
    var s := Run(s0, run);
    if s.calls.destroyed > 0 {
      assert Outcomes(s.q.completions) == [];
    }
  }
}
