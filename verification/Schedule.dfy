/**
  * What a schedule of queueing, flushing and reading comes to, counted in bytes: how far each
  * side gets is a function of what the socket does, and a socket that keeps moving something
  * delivers everything.
  */
module Schedule {
  import opened Common
  import opened Framing

  // ---------------------------------------------------------------------
  // Reading
  // ---------------------------------------------------------------------

  /** The bytes one recv call yields out of those that have arrived. */
  function Received(io: IO, want: nat, available: nat): (k: nat)
    ensures k <= want && k <= available
  {
    Min(Taken(io, want), available)
  }

  /** The offset after the length prefix has been asked for. */
  function HeaderEnd(off: nat, io1: IO, available: nat): (e: nat)
    ensures off <= e <= off + available && (off < 4 ==> e <= 4)
  {
    if off < 4 then off + Received(io1, 4 - off, available) else off
  }

  /** How far the payload gets, from an offset behind the prefix. */
  function BodyEnd(mid: nat, len: nat, io2: IO, available: nat): (e: nat)
    ensures mid <= e <= mid + available && (mid <= 4 + len ==> e <= 4 + len)
  {
    if mid >= 4 + len then mid else mid + Received(io2, 4 + len - mid, available)
  }

  function BodyCode(mid: nat, len: nat, io2: IO, available: nat): int {
    if io2 == Broken then -1 else if BodyEnd(mid, len, io2, available) == 4 + len then 1 else 0
  }

  /** How far the reading of a frame of the given length gets. */
  function RecvEnd(off: nat, len: nat, io1: IO, io2: IO, available: nat): (e: nat)
    ensures off <= e <= off + available && (off <= 4 + len ==> e <= 4 + len)
  {
    var mid := HeaderEnd(off, io1, available);
    if mid < 4 then mid else BodyEnd(mid, len, io2, available - (mid - off))
  }

  /** -1 exactly when a call that was made failed, 1 exactly when the frame is complete, 0 otherwise. */
  function RecvCode(off: nat, len: nat, io1: IO, io2: IO, available: nat): int {
    var mid := HeaderEnd(off, io1, available);
    if off < 4 && io1 == Broken then -1
    else if mid < 4 then 0
    else BodyCode(mid, len, io2, available - (mid - off))
  }

  // ---------------------------------------------------------------------
  // Schedules
  // ---------------------------------------------------------------------

  /** What happens next: a frame is queued, the sender flushes, or the receiver reads. */
  datatype Turn = Queue(p: Payload) | Flushes(wait: bool, attempts: seq<Attempt>) | Read(io1: IO, io2: IO)

  /** The send queue, the bytes in the socket, the frames read, and how much of the next one. */
  datatype Progress = Progress(queue: seq<Buf>, pipe: nat, done: nat, off: nat)

  const START := Progress([], 0, 0, 0)

  /** The state after a turn, and whether the connection broke in it. */
  datatype Turned = Turned(progress: Progress, broken: bool)

  /** The length of the frame being read; any length will do when none is left. */
  function NextLength(all: seq<Payload>, done: nat): (n: nat)
    ensures n > 0
  {
    if done < |all| then |all[done]| else 1
  }

  function TakeTurn(p: Progress, all: seq<Payload>, turn: Turn): Turned {
    match turn
    case Queue(f) => Turned(p.(queue := p.queue + [Buf(f, 0)]), false)
    case Flushes(wait, attempts) =>
      var f := Flush(p.queue, wait, attempts);
      Turned(p.(queue := f.queue, pipe := p.pipe + f.moved), f.rc == ZCONNECTIONLOSS || f.rc == ZSYSTEMERROR)
    case Read(io1, io2) =>
      var len := NextLength(all, p.done);
      var end := RecvEnd(p.off, len, io1, io2, p.pipe);
      var pipe := p.pipe - (end - p.off);
      match RecvCode(p.off, len, io1, io2, p.pipe)
      case 1 => Turned(p.(pipe := pipe, done := p.done + 1, off := 0), false)
      case code => Turned(p.(pipe := pipe, off := end), code == -1)
  }

  /** All turns up to the end or to the one that breaks the connection. */
  function After(p: Progress, all: seq<Payload>, turns: seq<Turn>): Turned
    decreases |turns|
  {
    if turns == [] then Turned(p, false)
    else
      var t := TakeTurn(p, all, turns[0]);
      if t.broken then t else After(t.progress, all, turns[1..])
  }

  lemma {:induction false} AfterAppend(p: Progress, all: seq<Payload>, a: seq<Turn>, b: seq<Turn>)
    ensures After(p, all, a + b) ==
            if After(p, all, a).broken then After(p, all, a) else After(After(p, all, a).progress, all, b)
    decreases |a|
  {
    if a == [] {
      assert a + b == b;
    } else {
      assert (a + b)[0] == a[0] && (a + b)[1..] == a[1..] + b;
      AfterAppend(TakeTurn(p, all, a[0]).progress, all, a[1..], b);
    }
  }

  /** The frames queued by the turns. */
  function QueuedBy(turns: seq<Turn>): seq<Payload> {
    if turns == [] then [] else (if turns[0].Queue? then [turns[0].p] else []) + QueuedBy(turns[1..])
  }

  // ---------------------------------------------------------------------
  // Conservation
  // ---------------------------------------------------------------------

  function Bytes(ps: seq<Payload>): nat {
    if ps == [] then 0 else 4 + |ps[0]| + Bytes(ps[1..])
  }

  /** The bytes of the queue still to be sent. */
  function Unsent(q: seq<Buf>): int {
    if q == [] then 0 else 4 + |q[0].payload| - q[0].off + Unsent(q[1..])
  }

  predicate AllUnfinished(q: seq<Buf>) {
    forall i :: 0 <= i < |q| ==> Unfinished(q[i])
  }

  /** The bytes of the expected frames still to be read. */
  function Unread(p: Progress, all: seq<Payload>): int
    requires p.done <= |all|
  {
    Bytes(all[p.done..]) - p.off
  }

  /** Every byte still to be read is in the socket, in the queue, or in a frame to be queued later. */
  ghost predicate Balanced(p: Progress, all: seq<Payload>, later: seq<Payload>) {
    && p.done <= |all| && AllUnfinished(p.queue)
    && (p.done < |all| ==> p.off < 4 + |all[p.done]|) && (p.done == |all| ==> p.off == 0)
    && p.pipe + Unsent(p.queue) + Bytes(later) == Unread(p, all)
  }

  lemma {:induction false} UnsentSnoc(q: seq<Buf>, b: Buf)
    ensures Unsent(q + [b]) == Unsent(q) + 4 + |b.payload| - b.off
  {
    if q == [] {
      assert q + [b] == [b] && [b][1..] == [];
    } else {
      assert (q + [b])[0] == q[0] && (q + [b])[1..] == q[1..] + [b];
      UnsentSnoc(q[1..], b);
    }
  }

  lemma {:induction false} UnsentPositive(q: seq<Buf>)
    requires AllUnfinished(q)
    ensures Unsent(q) >= |q|
  {
    if q != [] {
      assert Unfinished(q[0]);
      TailUnfinished(q);
      UnsentPositive(q[1..]);
    }
  }

  lemma TailUnfinished(q: seq<Buf>)
    requires AllUnfinished(q) && q != []
    ensures AllUnfinished(q[1..])
  {
    forall i | 0 <= i < |q| - 1 ensures Unfinished(q[1..][i]) {
      assert Unfinished(q[i + 1]);
    }
  }

  /** One attempt takes from the head exactly what it moves. */
  lemma AttemptConserves(q: seq<Buf>, a: Attempt)
    requires AllUnfinished(q) && q != []
    ensures AllUnfinished(AfterAttempt(q, a)) && HeadMoved(q, a) + Unsent(AfterAttempt(q, a)) == Unsent(q)
  {
    TailUnfinished(q);
    assert Unfinished(q[0]);
    if HeadCode(q, a) != 1 {
      var b := Buf(q[0].payload, q[0].off + HeadMoved(q, a));
      assert ([b] + q[1..])[1..] == q[1..];
      forall i | 0 <= i < |q| ensures Unfinished(([b] + q[1..])[i]) {
        if i > 0 { assert Unfinished(q[1..][i - 1]); }
      }
    }
  }

  /** A flush moves exactly what leaves the queue; a waiting one that succeeds empties it. */
  lemma {:induction false} FlushConserves(q: seq<Buf>, wait: bool, attempts: seq<Attempt>)
    requires AllUnfinished(q)
    ensures var f := Flush(q, wait, attempts);
            && AllUnfinished(f.queue) && f.moved + Unsent(f.queue) == Unsent(q)
            && (f.rc == ZOK || f.rc == ZCONNECTIONLOSS || (wait && (f.rc == ZOPERATIONTIMEOUT || f.rc == ZSYSTEMERROR)))
            && (wait && f.rc == ZOK ==> f.queue == [])
    decreases |q|, |attempts|
  {
    if q != [] {
      var a := if attempts != [] then attempts[0] else LAST_ATTEMPT;
      var rest := if attempts != [] then attempts[1..] else [];
      AttemptConserves(q, a);
      if (!wait || a.poll == Ready) && (HeadCode(q, a) == 1 || (HeadCode(q, a) == 0 && wait)) {
        FlushConserves(AfterAttempt(q, a), wait, rest);
      }
    }
  }

  lemma BytesFrom(all: seq<Payload>, done: nat)
    requires done < |all|
    ensures Bytes(all[done..]) == 4 + |all[done]| + Bytes(all[done + 1..])
  {
    assert all[done..][1..] == all[done + 1..];
  }

  lemma TurnBalanced(p: Progress, all: seq<Payload>, turn: Turn, later: seq<Payload>)
    requires Balanced(p, all, (if turn.Queue? then [turn.p] else []) + later)
    ensures Balanced(TakeTurn(p, all, turn).progress, all, later)
  {
    assert [] + later == later;
    match turn
    case Queue(f) =>
      assert ([f] + later)[1..] == later;
      UnsentSnoc(p.queue, Buf(f, 0));
    case Flushes(wait, attempts) => FlushConserves(p.queue, wait, attempts);
    case Read(io1, io2) => ReadBalanced(p, all, io1, io2, later);
  }

  lemma ReadBalanced(p: Progress, all: seq<Payload>, io1: IO, io2: IO, later: seq<Payload>)
    requires Balanced(p, all, later)
    ensures Balanced(TakeTurn(p, all, Read(io1, io2)).progress, all, later)
  {
    var len := NextLength(all, p.done);
    RecvFacts(p.off, len, io1, io2, p.pipe);
    CountsBalanced(p, all, RecvEnd(p.off, len, io1, io2, p.pipe), later);
  }

  /** A read stays within the frame and what has arrived, and succeeds exactly at the end of the frame. */
  lemma RecvFacts(off: nat, len: nat, io1: IO, io2: IO, available: nat)
    requires off < 4 + len && len > 0
    ensures var end := RecvEnd(off, len, io1, io2, available);
            off <= end <= 4 + len && end - off <= available && (RecvCode(off, len, io1, io2, available) == 1 <==> end == 4 + len)
  {
  }

  /** Reading up to an offset moves bytes from the socket to the frame, nothing else. */
  lemma CountsBalanced(p: Progress, all: seq<Payload>, end: nat, later: seq<Payload>)
    requires Balanced(p, all, later)
    requires p.off <= end <= 4 + NextLength(all, p.done) && end - p.off <= p.pipe
    ensures var complete := end == 4 + NextLength(all, p.done);
            Balanced(Progress(p.queue, p.pipe - (end - p.off), if complete then p.done + 1 else p.done,
                              if complete then 0 else end), all, later)
  {
    UnsentPositive(p.queue);
    if p.done < |all| {
      BytesFrom(all, p.done);
    } else {
      assert all[p.done..] == [];
    }
  }

  lemma {:induction false} ScheduleBalanced(p: Progress, all: seq<Payload>, turns: seq<Turn>, later: seq<Payload>)
    requires Balanced(p, all, QueuedBy(turns) + later) && !After(p, all, turns).broken
    ensures Balanced(After(p, all, turns).progress, all, later)
    decreases |turns|
  {
    if turns == [] {
      assert [] + later == later;
    } else {
      var rest := QueuedBy(turns[1..]) + later;
      Assoc(if turns[0].Queue? then [turns[0].p] else [], QueuedBy(turns[1..]), later);
      TurnBalanced(p, all, turns[0], rest);
      ScheduleBalanced(TakeTurn(p, all, turns[0]).progress, all, turns[1..], later);
    }
  }

  // ---------------------------------------------------------------------
  // Progress
  // ---------------------------------------------------------------------

  predicate Moves(io: IO) {
    io.Moved? && io.n > 0
  }

  /** The first attempt moves something and none breaks the connection. */
  predicate LiveFlush(turn: Turn) {
    && turn.Flushes? && turn.attempts != [] && turn.attempts[0].poll == Ready
    && Moves(turn.attempts[0].prefix) && Moves(turn.attempts[0].payload)
    && forall i :: 0 <= i < |turn.attempts| ==> Harmless(turn.attempts[i])
  }

  predicate Harmless(a: Attempt) {
    a.poll != PollFailed && a.prefix != Broken && a.payload != Broken
  }

  predicate LiveRead(turn: Turn) {
    turn.Read? && Moves(turn.io1) && Moves(turn.io2)
  }

  /** Alternating flushes and reads, each of which moves at least one byte if there is one. */
  predicate LiveRounds(turns: seq<Turn>) {
    turns == [] || (|turns| >= 2 && LiveFlush(turns[0]) && LiveRead(turns[1]) && LiveRounds(turns[2..]))
  }

  lemma {:induction false} HarmlessFlush(q: seq<Buf>, wait: bool, attempts: seq<Attempt>)
    requires forall i :: 0 <= i < |attempts| ==> Harmless(attempts[i])
    ensures var f := Flush(q, wait, attempts); f.rc == ZOK || f.rc == ZOPERATIONTIMEOUT
    decreases |q|, |attempts|
  {
    if q != [] {
      var a := if attempts != [] then attempts[0] else LAST_ATTEMPT;
      var rest := if attempts != [] then attempts[1..] else [];
      assert Harmless(a);
      if (!wait || a.poll == Ready) && (HeadCode(q, a) == 1 || (HeadCode(q, a) == 0 && wait)) {
        forall i | 0 <= i < |rest| ensures Harmless(rest[i]) {
          assert Harmless(attempts[i + 1]);
        }
        HarmlessFlush(AfterAttempt(q, a), wait, rest);
      }
    }
  }

  /** A live flush puts something into the socket unless the queue is empty. */
  lemma LiveFlushMoves(p: Progress, all: seq<Payload>, turn: Turn, later: seq<Payload>)
    requires Balanced(p, all, later) && LiveFlush(turn)
    ensures var t := TakeTurn(p, all, turn);
            && !t.broken && t.progress == p.(queue := t.progress.queue, pipe := t.progress.pipe)
            && Balanced(t.progress, all, later)
            && (p.queue != [] ==> t.progress.pipe > p.pipe)
  {
    assert [] + later == later;
    TurnBalanced(p, all, turn, later);
    HarmlessFlush(p.queue, turn.wait, turn.attempts);
    if p.queue != [] {
      assert Unfinished(p.queue[0]);
      assert HeadMoved(p.queue, turn.attempts[0]) > 0;
    }
  }

  /** A live read takes something out of the socket unless it is empty. */
  lemma LiveReadMoves(p: Progress, all: seq<Payload>, turn: Turn, later: seq<Payload>)
    requires Balanced(p, all, later) && LiveRead(turn)
    ensures var t := TakeTurn(p, all, turn);
            && !t.broken && Balanced(t.progress, all, later)
            && (p.pipe > 0 ==> Unread(t.progress, all) < Unread(p, all))
            && Unread(t.progress, all) <= Unread(p, all)
  {
    assert [] + later == later;
    TurnBalanced(p, all, turn, later);
    UnsentPositive(p.queue);
    if p.done < |all| {
      BytesFrom(all, p.done);
    }
  }

  lemma NothingUnread(p: Progress, all: seq<Payload>)
    requires Balanced(p, all, []) && Unread(p, all) <= 0
    ensures p.done == |all| && p.pipe == 0 && p.queue == []
  {
    UnsentPositive(p.queue);
    if p.done < |all| {
      BytesFrom(all, p.done);
    } else {
      assert all[p.done..] == [];
    }
  }

  /** As many live rounds as there are bytes left deliver every frame. */
  lemma {:induction false} RoundsDeliver(p: Progress, all: seq<Payload>, rounds: seq<Turn>)
    requires Balanced(p, all, []) && LiveRounds(rounds) && |rounds| >= 2 * Unread(p, all)
    ensures var t := After(p, all, rounds);
            !t.broken && t.progress.done == |all| && t.progress.queue == [] && t.progress.pipe == 0
    decreases |rounds|
  {
    if rounds == [] {
      NothingUnread(p, all);
    } else {
      LiveFlushMoves(p, all, rounds[0], []);
      var q := TakeTurn(p, all, rounds[0]).progress;
      LiveReadMoves(q, all, rounds[1], []);
      var r := TakeTurn(q, all, rounds[1]).progress;
      assert rounds[1..][0] == rounds[1] && rounds[1..][1..] == rounds[2..];
      if Unread(p, all) <= 0 {
        NothingUnread(p, all);
      } else {
        UnsentPositive(p.queue);
        assert q.pipe > 0;
      }
      RoundsDeliver(r, all, rounds[2..]);
    }
  }

  /**
    * Whatever happened before, short of a broken connection, a tail of at least as many live
    * rounds as the frames have bytes delivers all of them.
    */
  lemma EveryFrameArrives(turns: seq<Turn>, rounds: seq<Turn>)
    requires var all := QueuedBy(turns + rounds);
             && !After(START, all, turns).broken && LiveRounds(rounds) && |rounds| >= 2 * Bytes(all)
    ensures var all := QueuedBy(turns + rounds);
            var t := After(START, all, turns + rounds);
            !t.broken && t.progress.done == |all| && t.progress.queue == [] && t.progress.pipe == 0
  {
    var all := QueuedBy(turns + rounds);
    QueuedAppend(turns, rounds);
    RoundsQueueNothing(rounds);
    assert QueuedBy(turns) + [] == all && all[0..] == all;
    ScheduleBalanced(START, all, turns, []);
    var p := After(START, all, turns).progress;
    BytesOfTail(all, p.done);
    RoundsDeliver(p, all, rounds);
    AfterAppend(START, all, turns, rounds);
  }

  lemma {:induction false} BytesOfTail(all: seq<Payload>, done: nat)
    requires done <= |all|
    ensures Bytes(all[done..]) <= Bytes(all)
  {
    if done == 0 {
      assert all[0..] == all;
    } else {
      BytesOfTail(all, done - 1);
      BytesFrom(all, done - 1);
    }
  }

  lemma {:induction false} QueuedAppend(a: seq<Turn>, b: seq<Turn>)
    ensures QueuedBy(a + b) == QueuedBy(a) + QueuedBy(b)
  {
    if a == [] {
      assert a + b == b;
    } else {
      assert (a + b)[0] == a[0] && (a + b)[1..] == a[1..] + b;
      QueuedAppend(a[1..], b);
      Assoc(if a[0].Queue? then [a[0].p] else [], QueuedBy(a[1..]), QueuedBy(b));
    }
  }

  lemma {:induction false} RoundsQueueNothing(rounds: seq<Turn>)
    requires LiveRounds(rounds)
    ensures QueuedBy(rounds) == []
  {
    if rounds != [] {
      RoundsQueueNothing(rounds[2..]);
      assert rounds[1..][0] == rounds[1] && rounds[1..][1..] == rounds[2..];
    }
  }

  // ---------------------------------------------------------------------
  // Codes by their cause
  // ---------------------------------------------------------------------

  /** Some attempt meets a broken socket. */
  predicate MeetsBroken(attempts: seq<Attempt>) {
    exists i :: 0 <= i < |attempts| && (attempts[i].prefix == Broken || attempts[i].payload == Broken)
  }

  predicate MeetsPoll(attempts: seq<Attempt>, poll: Poll) {
    exists i :: 0 <= i < |attempts| && attempts[i].poll == poll
  }

  lemma TailMeets(attempts: seq<Attempt>)
    requires attempts != []
    ensures MeetsBroken(attempts[1..]) ==> MeetsBroken(attempts)
    ensures MeetsPoll(attempts[1..], PollFailed) ==> MeetsPoll(attempts, PollFailed)
  {
    var rest := attempts[1..];
    assert forall i :: 0 <= i < |rest| ==> rest[i] == attempts[i + 1];
  }

  /**
    * A flush reports a lost connection (-4) only after a send that broke, a failed wait (-1) only
    * after a poll that failed, and a time-out (-7) only when it was told to wait and has frames left.
    */
  lemma {:induction false} FlushCodeHasItsCause(q: seq<Buf>, wait: bool, attempts: seq<Attempt>)
    requires AllUnfinished(q)
    ensures var f := Flush(q, wait, attempts);
            && (f.rc == 0 || f.rc == -4 || f.rc == -1 || f.rc == -7)
            && (f.rc == -4 ==> MeetsBroken(attempts)) && (f.rc == -1 ==> wait && MeetsPoll(attempts, PollFailed))
            && (f.rc == -7 ==> wait && f.queue != [])
    decreases |q|, |attempts|
  {
    if q != [] {
      var a := if attempts != [] then attempts[0] else LAST_ATTEMPT;
      var rest := if attempts != [] then attempts[1..] else [];
      if attempts != [] {
        TailMeets(attempts);
      }
      AttemptConserves(q, a);
      assert Unfinished(q[0]);
      if (!wait || a.poll == Ready) && (HeadCode(q, a) == 1 || (HeadCode(q, a) == 0 && wait)) {
        FlushCodeHasItsCause(AfterAttempt(q, a), wait, rest);
      }
    }
  }

  /** The first attempt already decides when it cannot wait or its send breaks. */
  lemma FlushFailsAtOnce(q: seq<Buf>, wait: bool, attempts: seq<Attempt>)
    requires AllUnfinished(q) && q != [] && attempts != []
    ensures wait && attempts[0].poll == TimedOut ==> Flush(q, wait, attempts) == Flushed(-7, q, 0)
    ensures wait && attempts[0].poll == PollFailed ==> Flush(q, wait, attempts) == Flushed(-1, q, 0)
    ensures (wait ==> attempts[0].poll == Ready) && q[0].off < 4 && attempts[0].prefix == Broken ==> Flush(q, wait, attempts).rc == -4
    ensures (wait ==> attempts[0].poll == Ready) && q[0].off >= 4 && attempts[0].payload == Broken ==> Flush(q, wait, attempts).rc == -4
  {
  }
}
