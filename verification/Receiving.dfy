/**
  * The receiving side of the framing, and whole transfers: whatever the socket does on either
  * side, the receiver rebuilds the frames that were queued.
  */
module Receiving {
  import opened Common
  import opened Jute
  import opened Framing
  import opened Schedule

  /**
    * A buffer being read. Until the four length bytes are in, they overlay the host integer
    * `len`, which starts as the size of the structure; then `body` is what has arrived of `len` bytes.
    */
  datatype InBuf = InBuf(header: seq<byte>, off: nat, len: int, body: seq<byte>)

  const SIZEOF_BUFFER_LIST: byte := 24

  function Allocated(): InBuf {
    InBuf([SIZEOF_BUFFER_LIST, 0, 0, 0], 0, 0, [])
  }

  /** The length field of a little-endian host while it is being filled. */
  function RawLen(header: seq<byte>): int
    requires |header| == 4
  {
    var u := header[0] as int + 0x100 * header[1] as int + 0x1_0000 * header[2] as int + 0x100_0000 * header[3] as int;
    if u >= 0x8000_0000 then u - 0x1_0000_0000 else u
  }

  /** What the buffer holds is the beginning of the frame of p. */
  ghost predicate Holds(b: InBuf, p: Payload) {
    |b.header| == 4 && b.off < 4 + |p| && forall k {:trigger Key(k)} :: Key(k) ==> Matches(b, p)
  }

  ghost predicate Matches(b: InBuf, p: Payload)
    requires |b.header| == 4 && b.off < 4 + |p|
  {
    && (b.off < 4 ==> b.header[3] == 0 && b.header[..b.off] == EncodeInt(|p| as int32)[..b.off])
    && (b.off >= 4 ==> b.len == |p| && b.body == p[..b.off - 4])
  }

  /** The bytes that have arrived are the frame of p from an offset on, and what comes behind it. */
  ghost predicate Arriving(incoming: seq<byte>, off: nat, p: Payload, rest: seq<byte>) {
    off <= 4 + |p| && forall k {:trigger Key(k)} :: Key(k) ==> incoming <= Frame(p)[off..] + rest
  }

  /**
    * Reads at most to the end of the frame, exactly as far as the two calls and the bytes that
    * have arrived allow: 1 is returned exactly when the frame is complete, and then its payload
    * is what was sent.
    */
  method RecvBuffer(buff: InBuf, io1: IO, io2: IO, incoming: seq<byte>, ghost p: Payload, ghost rest: seq<byte>)
    returns (rc: int, after: InBuf, taken: nat)
    requires Holds(buff, p) && Arriving(incoming, buff.off, p, rest)
    ensures rc == RecvCode(buff.off, |p|, io1, io2, |incoming|)
    ensures after.off == buff.off + taken == RecvEnd(buff.off, |p|, io1, io2, |incoming|)
    ensures rc == 1 ==> after.body == p
    ensures rc != 1 ==> Holds(after, p)
    ensures taken == 0 ==> after == buff
  {
    if buff.off < 4 {
      rc, after, taken := RecvHeader(buff, io1, io2, incoming, p, rest);
    } else {
      rc, after, taken := RecvBody(buff, io2, incoming, p, rest);
    }
  }

  /** The length first, and the payload if that is complete. */
  method RecvHeader(buff: InBuf, io1: IO, io2: IO, incoming: seq<byte>, ghost p: Payload, ghost rest: seq<byte>)
    returns (rc: int, after: InBuf, taken: nat)
    requires Holds(buff, p) && buff.off < 4 && Arriving(incoming, buff.off, p, rest)
    ensures rc == RecvCode(buff.off, |p|, io1, io2, |incoming|)
    ensures after.off == buff.off + taken == RecvEnd(buff.off, |p|, io1, io2, |incoming|)
    ensures rc == 1 ==> after.body == p
    ensures rc != 1 ==> Holds(after, p)
    ensures taken == 0 ==> after == buff
  {
    TwoHalves(buff.off, |p|, io1, io2, |incoming|);
    if io1 == Broken {
      return -1, buff, 0;
    }
    after, taken := ReadPrefix(buff, io1, incoming, p, rest);
    if after.off < 4 {
      HeaderUnfinished(after, p);
      return if after.off == RawLen(after.header) + 4 then 1 else 0, after, taken;
    }
    var more;
    rc, after, more := RecvBody(after, io2, incoming[taken..], p, rest);
    taken := taken + more;
  }

  lemma TwoHalves(off: nat, len: nat, io1: IO, io2: IO, available: nat)
    requires off < 4
    ensures var k := Received(io1, 4 - off, available);
            var code, end := RecvCode(off, len, io1, io2, available), RecvEnd(off, len, io1, io2, available);
            if io1 == Broken then code == -1 && end == off
            else if off + k < 4 then code == 0 && end == off + k
            else code == BodyCode(4, len, io2, available - k) && end == BodyEnd(4, len, io2, available - k)
  {
  }


  /** The second half, once the length is known. */
  method RecvBody(buff: InBuf, io2: IO, incoming: seq<byte>, ghost p: Payload, ghost rest: seq<byte>)
    returns (rc: int, after: InBuf, taken: nat)
    requires Holds(buff, p) && buff.off >= 4 && Arriving(incoming, buff.off, p, rest)
    ensures rc == BodyCode(buff.off, |p|, io2, |incoming|)
    ensures after.off == buff.off + taken == BodyEnd(buff.off, |p|, io2, |incoming|)
    ensures rc == 1 ==> after.body == p
    ensures rc != 1 ==> Holds(after, p)
    ensures taken == 0 ==> after == buff
  {
    if io2 == Broken {
      return -1, buff, 0;
    }
    after, taken := ReadBody(buff, io2, incoming, p, rest);
    rc := if after.off == after.len + 4 then 1 else 0;
    if rc == 1 {
      assert p[..|p|] == p;
    }
  }

  /** Less than four bytes of the header never make up a length that ends the frame. */
  lemma HeaderUnfinished(buff: InBuf, p: Payload)
    requires Holds(buff, p) && buff.off < 4
    ensures buff.off != RawLen(buff.header) + 4
  {
    assert Key(0);
  }

  method ReadPrefix(buff: InBuf, io1: IO, incoming: seq<byte>, ghost p: Payload, ghost rest: seq<byte>)
    returns (after: InBuf, taken: nat)
    requires Holds(buff, p) && Arriving(incoming, buff.off, p, rest) && buff.off < 4
    ensures taken == Received(io1, 4 - buff.off, |incoming|) && (taken == 0 ==> after == buff)
    ensures after.off == buff.off + taken && Holds(after, p)
    ensures Arriving(incoming[taken..], after.off, p, rest)
  {
    taken, after := Received(io1, 4 - buff.off, |incoming|), buff;
    IncomingLeft(buff.off, taken, incoming, p, rest);
    if taken > 0 {
      after := ReadHeader(buff, taken, incoming, p, rest);
    }
  }

  /** Behind the bytes taken come the next ones of the frame. */
  lemma IncomingLeft(off: nat, taken: nat, incoming: seq<byte>, p: Payload, rest: seq<byte>)
    requires off + taken <= 4 + |p| && Arriving(incoming, off, p, rest) && taken <= |incoming|
    ensures Arriving(incoming[taken..], off + taken, p, rest)
  {
    assert Key(0);
    assert (Frame(p)[off..] + rest)[taken..] == Frame(p)[off + taken..] + rest;
  }

  method ReadBody(buff: InBuf, io2: IO, incoming: seq<byte>, ghost p: Payload, ghost rest: seq<byte>)
    returns (after: InBuf, got: nat)
    requires Holds(buff, p) && buff.off >= 4 && Arriving(incoming, buff.off, p, rest)
    ensures got == Received(io2, 4 + |p| - buff.off, |incoming|)
    ensures after == InBuf(buff.header, buff.off + got, |p|, p[..buff.off + got - 4]) && (got == 0 ==> after == buff)
  {
    assert Key(0);
    got := Received(io2, buff.len - (buff.off - 4), |incoming|);
    BodyBytes(buff.off, got, incoming, p, rest);
    after := buff.(body := buff.body + incoming[..got], off := buff.off + got);
  }

  method ReadHeader(buff: InBuf, k: nat, incoming: seq<byte>, ghost p: Payload, ghost rest: seq<byte>) returns (after: InBuf)
    requires Holds(buff, p) && Arriving(incoming, buff.off, p, rest)
    requires buff.off < 4 && 0 < k <= 4 - buff.off && k <= |incoming|
    ensures after.off == buff.off + k && Holds(after, p)
  {
    assert Key(0);
    var header := buff.header[..buff.off] + incoming[..k] + buff.header[buff.off + k..];
    var off := buff.off + k;
    ghost var nlen := EncodeInt(|p| as int32);
    assert Frame(p)[buff.off..off] == nlen[buff.off..off];
    assert incoming[..k] == Frame(p)[buff.off..off];
    assert header[..off] == nlen[..off] by { assert nlen[..buff.off] + nlen[buff.off..off] == nlen[..off]; }
    after := InBuf(header, off, 0, []);
    if off == 4 {
      assert header == nlen;
      IntRoundTrip(|p| as int32);
      after := InBuf(header, off, DecodeInt(header) as int, []);
    }
  }

  /** The next bytes in are the next bytes of the payload. */
  lemma BodyBytes(off: nat, k: nat, incoming: seq<byte>, p: Payload, rest: seq<byte>)
    requires 4 <= off && off + k <= 4 + |p| && k <= |incoming| && Arriving(incoming, off, p, rest)
    ensures p[..off - 4] + incoming[..k] == p[..off + k - 4]
  {
    assert Key(0);
    var f := Frame(p);
    assert forall i :: 0 <= i < k ==> incoming[i] == (f[off..] + rest)[i] == f[off + i] == p[off + i - 4];
  }

  // ---------------------------------------------------------------------
  // The receiver
  // ---------------------------------------------------------------------

  /** The part of the expected stream that has not been read. */
  ghost function StillAhead(done: nat, input: Option<InBuf>, expected: seq<Payload>): seq<byte>
    requires done <= |expected| && (input.Some? && done < |expected| ==> input.value.off <= 4 + |expected[done]|)
  {
    if done == |expected| then []
    else (if input.Some? then Frame(expected[done])[input.value.off..] else Frame(expected[done])) + Stream(expected[done + 1..])
  }

  /** The complete frames are the first expected ones, and the buffer holds the start of the next. */
  ghost predicate Rebuilding(toProcess: seq<Payload>, input: Option<InBuf>, expected: seq<Payload>) {
    && toProcess <= expected
    && (input.Some? && |toProcess| < |expected| ==> Holds(input.value, expected[|toProcess|]))
    && (input.Some? && |toProcess| == |expected| ==> input.value == Allocated())
  }

  /** How much of the next frame has been read. */
  function Offset(input: Option<InBuf>): nat {
    if input.Some? then input.value.off else 0
  }

  /** The state of the receiver, and the bytes still ahead of it. */
  ghost predicate Position(got: seq<Payload>, input: Option<InBuf>, expected: seq<Payload>, ahead: seq<byte>) {
    forall k {:trigger Key(k)} :: Key(k) ==> Rebuilding(got, input, expected) && ahead == StillAhead(|got|, input, expected)
  }

  class Receiver {
    var input: Option<InBuf>
    var toProcess: seq<Payload>
    ghost const expected: seq<Payload>
    ghost var ahead: seq<byte>

    ghost predicate Valid()
      reads this
    {
      Position(toProcess, input, expected, ahead)
    }

    constructor (ghost expected: seq<Payload>)
      ensures Valid() && this.expected == expected && toProcess == [] && input.None? && ahead == Stream(expected)
    {
      NothingRead(expected);
      input, toProcess := None, [];
      this.expected, ahead := expected, Stream(expected);
    }

    /** The read half of check_events: at most one frame is completed. */
    method ReadEvent(incoming: seq<byte>, io1: IO, io2: IO) returns (rc: int, taken: nat)
      requires Valid() && incoming <= ahead
      modifies this
      ensures Valid() && taken <= |incoming| && ahead == old(ahead)[taken..]
      ensures var off, len := old(Offset(input)), NextLength(expected, old(|toProcess|));
              && rc == RecvCode(off, len, io1, io2, |incoming|) && off + taken == RecvEnd(off, len, io1, io2, |incoming|)
              && |toProcess| == old(|toProcess|) + (if rc == 1 then 1 else 0)
              && Offset(input) == (if rc == 1 then 0 else off + taken)
    {
      if input.None? {
        AllocatedHoldsNothing(toProcess, expected, ahead);
        input := Some(Allocated());
      }
      var after;
      rc, after, taken := ReadInput(input.value, incoming, io1, io2, toProcess, expected, ahead);
      if rc == 1 {
        toProcess := toProcess + [after.body];
        input := None;
      } else {
        input := Some(after);
      }
      ahead := ahead[taken..];
    }
  }

  lemma NothingRead(expected: seq<Payload>)
    ensures Position([], None, expected, Stream(expected))
  {
  }

  /** Reads on in the current buffer. */
  method ReadInput(buff: InBuf, incoming: seq<byte>, io1: IO, io2: IO,
                   ghost got: seq<Payload>, ghost expected: seq<Payload>, ghost ahead: seq<byte>)
    returns (rc: int, after: InBuf, taken: nat)
    requires Position(got, Some(buff), expected, ahead) && incoming <= ahead
    ensures rc == RecvCode(buff.off, NextLength(expected, |got|), io1, io2, |incoming|)
    ensures after.off == buff.off + taken == RecvEnd(buff.off, NextLength(expected, |got|), io1, io2, |incoming|)
    ensures taken <= |incoming|
    ensures rc == 1 ==> 0 < |after.body| < 0x8000_0000 && Position(got + [after.body], None, expected, ahead[taken..])
    ensures rc != 1 ==> Position(got, Some(after), expected, ahead[taken..])
  {
    ghost var p, rest := IncomingPair(got, buff, expected, incoming, ahead);
    rc, after, taken := RecvBuffer(buff, io1, io2, incoming, p, rest);
    if rc == 1 {
      ReadCompletes(got, buff, taken, expected, ahead);
    } else {
      ReadContinues(got, buff, after, taken, expected, ahead);
    }
  }

  /** The frame being read and the stream behind it; any frame will do when none is expected. */
  lemma IncomingPair(got: seq<Payload>, buff: InBuf, expected: seq<Payload>, incoming: seq<byte>, ahead: seq<byte>)
    returns (p: Payload, rest: seq<byte>)
    requires Position(got, Some(buff), expected, ahead) && incoming <= ahead
    ensures |got| < |expected| ==> p == expected[|got|]
    ensures |got| >= |expected| ==> incoming == [] && buff.off == 0
    ensures |p| == NextLength(expected, |got|) && Holds(buff, p) && Arriving(incoming, buff.off, p, rest)
  {
    assert Key(0);
    if |got| < |expected| {
      p, rest := expected[|got|], Stream(expected[|got| + 1..]);
    } else {
      p, rest := [0], [];
    }
  }

  lemma AllocatedHoldsNothing(got: seq<Payload>, expected: seq<Payload>, ahead: seq<byte>)
    requires Position(got, None, expected, ahead)
    ensures Position(got, Some(Allocated()), expected, ahead)
  {
    assert Key(0);
    if |got| < |expected| {
      var p := expected[|got|];
      assert Frame(p)[0..] == Frame(p);
    }
  }

  lemma ReadCompletes(got: seq<Payload>, buff: InBuf, taken: nat, expected: seq<Payload>, ahead: seq<byte>)
    requires Position(got, Some(buff), expected, ahead) && |got| < |expected|
    requires buff.off + taken == 4 + |expected[|got|]|
    ensures taken <= |ahead| && Position(got + [expected[|got|]], None, expected, ahead[taken..])
  {
    assert Key(0);
    var n, f := |got|, Frame(expected[|got|]);
    assert ahead == f[buff.off..] + Stream(expected[n + 1..]);
    AdvanceUnread(expected, n, buff.off, taken);
    NextGot(got, expected);
  }

  lemma NextGot(got: seq<Payload>, expected: seq<Payload>)
    requires got <= expected && |got| < |expected|
    ensures got + [expected[|got|]] <= expected
  {
    assert expected[..|got| + 1] == got + [expected[|got|]];
  }

  lemma ReadContinues(got: seq<Payload>, buff: InBuf, after: InBuf, taken: nat, expected: seq<Payload>, ahead: seq<byte>)
    requires Position(got, Some(buff), expected, ahead) && after.off == buff.off + taken
    requires |got| < |expected| ==> Holds(after, expected[|got|])
    requires |got| >= |expected| ==> after == buff && taken == 0
    ensures taken <= |ahead| && Position(got, Some(after), expected, ahead[taken..])
  {
    assert Key(0);
    if |got| < |expected| {
      AdvanceUnread(expected, |got|, buff.off, taken);
    }
  }

  /** Reading on within a frame, or to its end. */
  lemma AdvanceUnread(expected: seq<Payload>, done: nat, off: nat, taken: nat)
    requires done < |expected| && off + taken <= 4 + |expected[done]|
    ensures var f, rest := Frame(expected[done]), Stream(expected[done + 1..]);
            && (f[off..] + rest)[taken..] == f[off + taken..] + rest
            && (off + taken == 4 + |expected[done]| ==> f[off + taken..] + rest == StillAhead(done + 1, None, expected))
  {
    var f := Frame(expected[done]);
    assert f[off..][taken..] == f[off + taken..];
    if done + 1 < |expected| {
      assert expected[done + 1..][1..] == expected[done + 2..];
    }
  }

  // ---------------------------------------------------------------------
  // Whole transfers
  // ---------------------------------------------------------------------

  /** c bytes of the stream have been read and the next ones are in the pipe. */
  ghost predicate Piped(stream: seq<byte>, c: nat, pipe: seq<byte>, sent: seq<byte>) {
    c + |pipe| <= |stream| && pipe == stream[c..c + |pipe|] && sent == stream[..c + |pipe|]
  }

  /** Piped, and what the receiver still expects is the stream from there on. */
  ghost predicate Flowing(stream: seq<byte>, c: nat, pipe: seq<byte>, sent: seq<byte>, ahead: seq<byte>) {
    forall k {:trigger Key(k)} :: Key(k) ==> Piped(stream, c, pipe, sent) && ahead == stream[c..]
  }

  lemma FlowIn(stream: seq<byte>, c: nat, pipe: seq<byte>, sent: seq<byte>, ahead: seq<byte>, out: seq<byte>)
    requires Flowing(stream, c, pipe, sent, ahead) && sent + out <= stream
    ensures Flowing(stream, c, pipe + out, sent + out, ahead)
  {
    assert Key(0);
    assert (sent + out)[c..] == pipe + out;
  }

  lemma PipeIsAhead(stream: seq<byte>, c: nat, pipe: seq<byte>, sent: seq<byte>, ahead: seq<byte>)
    requires Flowing(stream, c, pipe, sent, ahead)
    ensures pipe <= ahead
  {
    assert Key(0);
  }

  lemma FlowOut(stream: seq<byte>, c: nat, pipe: seq<byte>, sent: seq<byte>, ahead: seq<byte>, taken: nat)
    requires Flowing(stream, c, pipe, sent, ahead) && taken <= |pipe| && taken <= |ahead|
    ensures Flowing(stream, c + taken, pipe[taken..], sent, ahead[taken..])
  {
    assert Key(0);
  }

  /** What a sender has sent is a prefix of the stream of everything it will have queued. */
  lemma SentIsPrefix(q: seq<Buf>, sent: seq<byte>, dequeued: seq<Payload>, later: seq<Payload>)
    requires Conserved(q, sent, dequeued)
    ensures sent <= Stream(dequeued + Payloads(q) + later)
    ensures q == [] && later == [] ==> sent == Stream(dequeued + Payloads(q) + later)
  {
    var more := Payloads(q) + later;
    assert dequeued + Payloads(q) + later == dequeued + more;
    StreamAppend(dequeued, more);
    if q != [] {
      assert more[0] == q[0].payload;
      assert SentOfHead(q) <= Frame(more[0]);
    }
  }

  lemma SomethingAhead(toProcess: seq<Payload>, input: Option<InBuf>, expected: seq<Payload>)
    requires Rebuilding(toProcess, input, expected) && |toProcess| < |expected|
    ensures StillAhead(|toProcess|, input, expected) != []
  {
    var p := expected[|toProcess|];
    assert |Frame(p)| == 4 + |p|;
  }

  lemma NothingAhead(toProcess: seq<Payload>, input: Option<InBuf>, expected: seq<Payload>)
    requires Rebuilding(toProcess, input, expected) && StillAhead(|toProcess|, input, expected) == []
    ensures toProcess == expected
  {
    if |toProcess| < |expected| {
      SomethingAhead(toProcess, input, expected);
    }
  }

  /** The turn leads from p to q. */
  ghost predicate Advances(p: Progress, all: seq<Payload>, turn: Turn, q: Progress, broken: bool) {
    forall k {:trigger Key(k)} :: Key(k) ==> Turned(q, broken) == TakeTurn(p, all, turn)
  }

  /** The sender has queued all frames but those still to come. */
  ghost predicate Queues(sender: Sender, all: seq<Payload>, later: seq<Payload>)
    reads sender
  {
    forall k {:trigger Key(k)} :: Key(k) ==> sender.Valid() && sender.Queued() + later == all
  }

  /** A sender, a receiver, and the bytes between them. */
  class Link {
    const sender: Sender
    const receiver: Receiver
    var pipe: seq<byte>
    ghost var c: nat

    /** `later` are the frames still to be queued. */
    ghost predicate Valid(later: seq<Payload>)
      reads this, sender, receiver
    {
      && receiver.Valid() && Queues(sender, receiver.expected, later)
      && Flowing(Stream(receiver.expected), c, pipe, sender.sent, receiver.ahead)
    }

    constructor (ghost all: seq<Payload>)
      ensures Valid(all) && fresh(sender) && fresh(receiver) && receiver.expected == all && Reached() == START
    {
      sender := new Sender();
      receiver := new Receiver(all);
      pipe, c := [], 0;
      new;
      assert Key(0);
      NothingPiped(all);
    }

    /** How far the transfer has come. */
    ghost function Reached(): Progress
      reads this, sender, receiver
    {
      Progress(sender.toSend, |pipe|, |receiver.toProcess|, Offset(receiver.input))
    }

    method Enqueue(p: Payload, ghost later: seq<Payload>)
      requires Valid([p] + later)
      modifies sender
      ensures Valid(later) && Advances(old(Reached()), receiver.expected, Queue(p), Reached(), false)
    {
      assert Key(0);
      Assoc(sender.Queued(), [p], later);
      sender.QueueBufferBytes(p);
    }

    method FlushTurn(wait: bool, attempts: seq<Attempt>, ghost later: seq<Payload>) returns (broken: bool)
      requires Valid(later)
      modifies this, sender
      ensures Valid(later)
      ensures Advances(old(Reached()), receiver.expected, Flushes(wait, attempts), Reached(), broken)
    {
      ghost var before, p := sender.sent, Reached();
      var rc, out := FlushAll(sender, wait, attempts, receiver.expected, later);
      FlowIn(Stream(receiver.expected), c, pipe, before, receiver.ahead, out);
      pipe := pipe + out;
      broken := rc == ZCONNECTIONLOSS || rc == ZSYSTEMERROR;
      FlushCounts(p, receiver.expected, wait, attempts, Flushed(rc, sender.toSend, |out|));
    }

    method ReadTurn(io1: IO, io2: IO, ghost later: seq<Payload>) returns (broken: bool)
      requires Valid(later)
      modifies this, receiver
      ensures Valid(later)
      ensures Advances(old(Reached()), receiver.expected, Read(io1, io2), Reached(), broken)
    {
      ghost var p := Reached();
      var rc, taken := PullBeside(sender, receiver, pipe, io1, io2, c, later);
      broken := rc < 0;
      ghost var q := Progress(sender.toSend, |pipe| - taken, |receiver.toProcess|, Offset(receiver.input));
      assert Advances(p, receiver.expected, Read(io1, io2), q, broken);
      Took(taken, later, q);
    }

    /** The socket is shorter by what was taken. */
    method Took(taken: nat, ghost later: seq<Payload>, ghost q: Progress)
      requires receiver.Valid() && Queues(sender, receiver.expected, later) && taken <= |pipe|
      requires Flowing(Stream(receiver.expected), c + taken, pipe[taken..], sender.sent, receiver.ahead)
      requires q == Progress(sender.toSend, |pipe| - taken, |receiver.toProcess|, Offset(receiver.input))
      modifies this
      ensures Valid(later) && Reached() == q
    {
      pipe := pipe[taken..];
      c := c + taken;
    }

    method Take(turn: Turn, ghost later: seq<Payload>) returns (broken: bool)
      requires Valid((if turn.Queue? then [turn.p] else []) + later)
      modifies this, sender, receiver
      ensures Valid(later)
      ensures Advances(old(Reached()), receiver.expected, turn, Reached(), broken)
    {
      assert [] + later == later;
      broken := false;
      match turn
      case Queue(p) => Enqueue(p, later);
      case Flushes(wait, attempts) => broken := FlushTurn(wait, attempts, later);
      case Read(io1, io2) => broken := ReadTurn(io1, io2, later);
    }
  }

  /** What is flushed goes on with the stream of all frames. */
  method FlushAll(sender: Sender, wait: bool, attempts: seq<Attempt>, ghost all: seq<Payload>, ghost later: seq<Payload>)
    returns (rc: int, out: seq<byte>)
    requires Queues(sender, all, later)
    modifies sender
    ensures Queues(sender, all, later) && sender.sent == old(sender.sent) + out <= Stream(all)
    ensures Flushed(rc, sender.toSend, |out|) == Flush(old(sender.toSend), wait, attempts)
  {
    assert Key(0);
    rc, out := sender.FlushSendQueue(true, wait, attempts);
    SentIsPrefix(sender.toSend, sender.sent, sender.dequeued, later);
  }

  /** What a flush does to the counts. */
  lemma FlushCounts(p: Progress, all: seq<Payload>, wait: bool, attempts: seq<Attempt>, f: Flushed)
    requires f == Flush(p.queue, wait, attempts)
    ensures Advances(p, all, Flushes(wait, attempts), p.(queue := f.queue, pipe := p.pipe + f.moved),
                     f.rc == ZCONNECTIONLOSS || f.rc == ZSYSTEMERROR)
  {
  }

  /** A read from the socket keeps the stream flowing. */
  method Pull(receiver: Receiver, pipe: seq<byte>, io1: IO, io2: IO,
              ghost c: nat, ghost sent: seq<byte>, ghost queue: seq<Buf>, ghost stream: seq<byte>)
    returns (rc: int, taken: nat)
    requires receiver.Valid() && Flowing(stream, c, pipe, sent, receiver.ahead)
    modifies receiver
    ensures receiver.Valid() && taken <= |pipe|
    ensures Flowing(stream, c + taken, pipe[taken..], sent, receiver.ahead)
    ensures Advances(Progress(queue, |pipe|, old(|receiver.toProcess|), old(Offset(receiver.input))), receiver.expected,
                     Read(io1, io2), Progress(queue, |pipe| - taken, |receiver.toProcess|, Offset(receiver.input)), rc < 0)
  {
    ghost var ahead := receiver.ahead;
    ghost var p := Progress(queue, |pipe|, |receiver.toProcess|, Offset(receiver.input));
    PipeIsAhead(stream, c, pipe, sent, ahead);
    rc, taken := receiver.ReadEvent(pipe, io1, io2);
    FlowOut(stream, c, pipe, sent, ahead, taken);
    ReadCounts(p, receiver.expected, io1, io2, rc, taken,
               Progress(queue, |pipe| - taken, |receiver.toProcess|, Offset(receiver.input)));
  }

  /** A read leaves the sender alone. */
  method PullBeside(sender: Sender, receiver: Receiver, pipe: seq<byte>, io1: IO, io2: IO, ghost c: nat, ghost later: seq<Payload>)
    returns (rc: int, taken: nat)
    requires receiver.Valid() && Queues(sender, receiver.expected, later)
    requires Flowing(Stream(receiver.expected), c, pipe, sender.sent, receiver.ahead)
    modifies receiver
    ensures receiver.Valid() && Queues(sender, receiver.expected, later) && taken <= |pipe|
    ensures Flowing(Stream(receiver.expected), c + taken, pipe[taken..], sender.sent, receiver.ahead)
    ensures Advances(Progress(sender.toSend, |pipe|, old(|receiver.toProcess|), old(Offset(receiver.input))), receiver.expected,
                     Read(io1, io2), Progress(sender.toSend, |pipe| - taken, |receiver.toProcess|, Offset(receiver.input)), rc < 0)
  {
    rc, taken := Pull(receiver, pipe, io1, io2, c, sender.sent, sender.toSend, Stream(receiver.expected));
  }

  /** What a read does to the counts. */
  lemma ReadCounts(p: Progress, all: seq<Payload>, io1: IO, io2: IO, rc: int, taken: nat, q: Progress)
    requires rc == RecvCode(p.off, NextLength(all, p.done), io1, io2, p.pipe)
    requires p.off + taken == RecvEnd(p.off, NextLength(all, p.done), io1, io2, p.pipe) && taken <= p.pipe
    requires q == Progress(p.queue, p.pipe - taken, if rc == 1 then p.done + 1 else p.done, if rc == 1 then 0 else p.off + taken)
    ensures Advances(p, all, Read(io1, io2), q, rc < 0)
  {
  }

  lemma NothingPiped(all: seq<Payload>)
    ensures Stream(all)[0..] == Stream(all) && Piped(Stream(all), 0, [], [])
    ensures Conserved([], [], []) && Rebuilding([], None, all) && StillAhead(0, None, all) == Stream(all)
    ensures [] + Payloads([]) + all == all
  {
    assert [] + all == all;
  }

  /** The frames read are the first ones queued; all of them exactly when nothing is left anywhere. */
  lemma AllArrived(link: Link, later: seq<Payload>)
    requires link.Valid(later)
    ensures link.receiver.toProcess <= link.receiver.expected
    ensures link.receiver.toProcess == link.receiver.expected <==>
            later == [] && link.sender.toSend == [] && link.pipe == []
  {
    assert Key(0);
    var all, sender, r := link.receiver.expected, link.sender, link.receiver;
    SentIsPrefix(sender.toSend, sender.sent, sender.dequeued, later);
    if later == [] && sender.toSend == [] && link.pipe == [] {
      NothingAhead(r.toProcess, r.input, all);
    }
    if r.toProcess == all {
      assert link.c == |Stream(all)|;
      assert sender.sent == Stream(all);
      SentAllMeansEmpty(sender.toSend, sender.sent, sender.dequeued, later);
    }
  }

  /** Only when nothing is queued or to be queued have all bytes been sent. */
  lemma SentAllMeansEmpty(q: seq<Buf>, sent: seq<byte>, dequeued: seq<Payload>, later: seq<Payload>)
    requires Conserved(q, sent, dequeued) && sent == Stream(dequeued + Payloads(q) + later)
    ensures q == [] && later == []
  {
    var more := Payloads(q) + later;
    Assoc(dequeued, Payloads(q), later);
    StreamAppend(dequeued, more);
    assert |SentOfHead(q)| == |Stream(more)|;
    if q == [] {
      EmptyStream(more);
    } else {
      HeadOutlasts(q, more);
    }
  }

  lemma EmptyStream(ps: seq<Payload>)
    ensures Stream(ps) == [] <==> ps == []
  {
    if ps != [] {
      FrameInStream(ps);
    }
  }

  /** A partly sent head is shorter than the stream it begins. */
  lemma HeadOutlasts(q: seq<Buf>, more: seq<Payload>)
    requires IsSendQueue(q) && q != [] && Payloads(q) <= more
    ensures |SentOfHead(q)| < |Stream(more)|
  {
    assert more[0] == q[0].payload && Unfinished(q[0]);
    FrameInStream(more);
  }

  lemma FrameInStream(ps: seq<Payload>)
    requires ps != []
    ensures |Stream(ps)| >= 4 + |ps[0]|
  {
  }

  /**
    * For every schedule of queueing, flushing and reading and every behaviour of the socket,
    * the receiver has exactly as many of the queued frames, in order, as the byte counts of the
    * schedule say.
    */
  method Transfer(turns: seq<Turn>) returns (received: seq<Payload>, drained: bool)
    ensures var all := QueuedBy(turns);
            var t := After(START, all, turns);
            && t.progress.done <= |all| && received == all[..t.progress.done]
            && (drained <==> received == all)
  {
    ghost var all := QueuedBy(turns);
    var link := new Link(all);
    var left, broken := turns, false;
    while left != [] && !broken
      invariant link.receiver.expected == all && link.Valid(QueuedBy(left))
      invariant fresh(link) && fresh(link.sender) && fresh(link.receiver)
      invariant After(START, all, turns) == if broken then Turned(link.Reached(), true) else After(link.Reached(), all, left)
      decreases |left|
    {
      broken := link.Take(left[0], QueuedBy(left[1..]));
      assert Key(0);
      left := left[1..];
    }
    AllArrived(link, QueuedBy(left));
    received := link.receiver.toProcess;
    drained := link.sender.toSend == [] && link.pipe == [] && QueuedBy(left) == [];
  }
}
