/**
  * Length-prefixed frames over a socket that moves any number of bytes at a time: `send_buffer`
  * and `flush_send_queue` on one side, `recv_buffer` and `check_events` on the other.
  */
module Framing {
  import opened Common
  import opened Jute

  /** The outcome of one send or recv call on a non-blocking socket. */
  datatype IO = Moved(n: nat) | WouldBlock | Broken

  /** An ordinary frame's payload: not empty, and its length fits a 32-bit integer. */
  type Payload = p: seq<byte> | 0 < |p| < 0x8000_0000 witness [0]

  function Frame(p: Payload): seq<byte> {
    EncodeInt(|p| as int32) + p
  }

  /** Four bytes of length, the highest first, and then the payload. */
  lemma FrameLayout(p: Payload)
    ensures |Frame(p)| == 4 + |p| && Frame(p)[..4] == LengthBytes(|p|) && Frame(p)[4..] == p
  {
    LengthIsBigEndian(|p|);
  }

  /** The bytes of a sequence of frames. */
  function Stream(ps: seq<Payload>): seq<byte> {
    if ps == [] then [] else Frame(ps[0]) + Stream(ps[1..])
  }

  lemma {:induction false} StreamAppend(a: seq<Payload>, b: seq<Payload>)
    ensures Stream(a + b) == Stream(a) + Stream(b)
  {
    if a == [] {
      assert a + b == b;
    } else {
      assert (a + b)[0] == a[0] && (a + b)[1..] == a[1..] + b;
      StreamAppend(a[1..], b);
      Assoc(Frame(a[0]), Stream(a[1..]), Stream(b));
    }
  }

  /** A frame on its way out; `off` counts the prefix and the payload. */
  datatype Buf = Buf(payload: Payload, off: nat)

  predicate Unfinished(b: Buf) {
    b.off < 4 + |b.payload|
  }

  function Min(a: nat, b: nat): nat {
    if a < b then a else b
  }

  lemma JoinSlices(f: seq<byte>, a: nat, b: nat, c: nat)
    requires a <= b <= c <= |f|
    ensures f[a..b] + f[b..c] == f[a..c]
  {
  }

  /** The bytes one call moves when there are `want` to move. */
  function Taken(io: IO, want: nat): (k: nat)
    ensures k <= want
  {
    if io.Moved? then Min(io.n, want) else 0
  }

  /** The offset after the length prefix has been offered to the socket. */
  function PrefixEnd(off: nat, io1: IO): (e: nat)
    ensures off <= e && (off < 4 ==> e <= 4)
  {
    if off < 4 then off + Taken(io1, 4 - off) else off
  }

  /** How far a frame of the given length gets: the payload goes out only behind the whole prefix. */
  function SendEnd(off: nat, len: nat, io1: IO, io2: IO): (e: nat)
    ensures off <= e && (off <= 4 + len ==> e <= 4 + len)
  {
    var mid := PrefixEnd(off, io1);
    if mid < 4 || mid >= 4 + len then mid else mid + Taken(io2, 4 + len - mid)
  }

  /** -1 exactly when a call that was made failed, 1 exactly when the frame is out, 0 otherwise. */
  function SendCode(off: nat, len: nat, io1: IO, io2: IO): int {
    if (off < 4 && io1 == Broken) || (PrefixEnd(off, io1) >= 4 && io2 == Broken) then -1
    else if SendEnd(off, len, io1, io2) == 4 + len then 1
    else 0
  }

  /** The length prefix of f, or what is left of it. */
  method SendPrefix(nlen: seq<byte>, off: nat, io1: IO, ghost f: seq<byte>) returns (off': nat, out: seq<byte>)
    requires off < 4 == |nlen| && nlen <= f
    ensures off' == PrefixEnd(off, io1) && out == f[off..off']
  {
    var k := Taken(io1, 4 - off);
    off', out := off + k, nlen[off..off + k];
  }

  /** The payload of f, or what is left of it. */
  method SendPayload(p: seq<byte>, off: nat, io2: IO, ghost f: seq<byte>) returns (off': nat, out: seq<byte>)
    requires 4 <= off <= |f| && f[4..] == p
    ensures off' == off + Taken(io2, |f| - off) && out == f[off..off']
  {
    var k := Taken(io2, |p| - (off - 4));
    off', out := off + k, p[off - 4..off - 4 + k];
    SliceOfTail(f, 4, off, off + k);
  }

  lemma SliceOfTail(f: seq<byte>, m: nat, a: nat, b: nat)
    requires m <= a <= b <= |f|
    ensures f[m..][a - m..b - m] == f[a..b]
  {
  }

  /**
    * Sends as much of one buffer as the socket takes: what goes out is the next stretch of the
    * frame, exactly as far as the two calls allow, and 1 is returned exactly when that completes it.
    */
  method SendBuffer(buff: Buf, io1: IO, io2: IO) returns (rc: int, after: Buf, out: seq<byte>)
    requires Unfinished(buff)
    ensures after == Buf(buff.payload, SendEnd(buff.off, |buff.payload|, io1, io2))
    ensures out == Frame(buff.payload)[buff.off..after.off]
    ensures rc == SendCode(buff.off, |buff.payload|, io1, io2)
  {
    var nlen := EncodeInt(|buff.payload| as int32);
    var off;
    rc, off, out := SendBytes(nlen, buff.payload, buff.off, io1, io2, Frame(buff.payload));
    after := Buf(buff.payload, off);
  }

  /** The two calls, for any length prefix. */
  method SendBytes(nlen: seq<byte>, p: Payload, start: nat, io1: IO, io2: IO, ghost f: seq<byte>)
    returns (rc: int, off: nat, out: seq<byte>)
    requires |nlen| == 4 && f == nlen + p && start < |f|
    ensures off == SendEnd(start, |p|, io1, io2) && rc == SendCode(start, |p|, io1, io2)
    ensures out == f[start..off]
  {
    off, out := start, [];
    if off < 4 {
      if io1 == Broken {
        return -1, off, [];
      }
      if io1 == WouldBlock {
        return 0, off, [];
      }
      off, out := SendPrefix(nlen, off, io1, f);
    }
    if off >= 4 {
      if io2 == Broken {
        return -1, off, out;
      }
      var more;
      ghost var mid := off;
      off, more := SendPayload(p, off, io2, f);
      JoinSlices(f, start, mid, off);
      out := out + more;
    }
    rc := if off == |p| + 4 then 1 else 0;
  }

  // ---------------------------------------------------------------------
  // The send queue
  // ---------------------------------------------------------------------

  function Payloads(q: seq<Buf>): seq<Payload> {
    if q == [] then [] else [q[0].payload] + Payloads(q[1..])
  }

  /** Only the head may be partly sent, and never completely. */
  predicate IsSendQueue(q: seq<Buf>) {
    && (forall i :: 0 <= i < |q| ==> Unfinished(q[i]))
    && (forall i :: 1 <= i < |q| ==> q[i].off == 0)
  }

  function SentOfHead(q: seq<Buf>): seq<byte>
    requires IsSendQueue(q)
  {
    if q == [] then [] else Frame(q[0].payload)[..q[0].off]
  }

  /** What the socket has taken is the dequeued frames, complete, and the sent part of the head. */
  ghost predicate Conserved(q: seq<Buf>, sent: seq<byte>, dequeued: seq<Payload>) {
    IsSendQueue(q) && sent == Stream(dequeued) + SentOfHead(q)
  }

  /** What waiting for the socket gave. */
  datatype Poll = Ready | TimedOut | PollFailed

  /** One turn of the flush: the wait, if asked for, and the sends of length prefix and payload. */
  datatype Attempt = Attempt(poll: Poll, prefix: IO, payload: IO)

  /** When no more attempts are given, the time is up and the socket would block. */
  const LAST_ATTEMPT := Attempt(TimedOut, WouldBlock, WouldBlock)

  function HeadCode(q: seq<Buf>, a: Attempt): int
    requires q != []
  {
    SendCode(q[0].off, |q[0].payload|, a.prefix, a.payload)
  }

  /** The bytes one attempt takes from the head of the queue. */
  function HeadMoved(q: seq<Buf>, a: Attempt): nat
    requires q != []
  {
    SendEnd(q[0].off, |q[0].payload|, a.prefix, a.payload) - q[0].off
  }

  /** The queue after one attempt to send its head, which goes only when it is complete. */
  function AfterAttempt(q: seq<Buf>, a: Attempt): seq<Buf>
    requires q != []
  {
    if HeadCode(q, a) == 1 then q[1..]
    else [Buf(q[0].payload, q[0].off + HeadMoved(q, a))] + q[1..]
  }

  /** What a flush leaves behind: its code, the queue, and how many bytes went out. */
  datatype Flushed = Flushed(rc: int, queue: seq<Buf>, moved: nat)

  function AfterMoved(n: nat, f: Flushed): Flushed {
    f.(moved := n + f.moved)
  }

  /** The flush as a function of the queue and of what polls and sends give. */
  function Flush(q: seq<Buf>, wait: bool, attempts: seq<Attempt>): Flushed
    decreases |q|, |attempts|
  {
    if q == [] then Flushed(ZOK, [], 0)
    else
      var a := if attempts != [] then attempts[0] else LAST_ATTEMPT;
      var rest := if attempts != [] then attempts[1..] else [];
      if wait && a.poll != Ready then
        Flushed(if a.poll == TimedOut then ZOPERATIONTIMEOUT else ZSYSTEMERROR, q, 0)
      else if HeadCode(q, a) < 0 then Flushed(ZCONNECTIONLOSS, AfterAttempt(q, a), HeadMoved(q, a))
      else if HeadCode(q, a) == 0 && !wait then Flushed(ZOK, AfterAttempt(q, a), HeadMoved(q, a))
      else AfterMoved(HeadMoved(q, a), Flush(AfterAttempt(q, a), wait, rest))
  }

  /** One turn of the flush, behind n bytes already sent. */
  lemma FlushTurn(q: seq<Buf>, wait: bool, attempts: seq<Attempt>, n: nat)
    requires q != []
    ensures var a := if attempts != [] then attempts[0] else LAST_ATTEMPT;
            var rest := if attempts != [] then attempts[1..] else [];
            AfterMoved(n, Flush(q, wait, attempts)) ==
            if wait && a.poll != Ready then
              Flushed(if a.poll == TimedOut then ZOPERATIONTIMEOUT else ZSYSTEMERROR, q, n)
            else if HeadCode(q, a) < 0 then Flushed(ZCONNECTIONLOSS, AfterAttempt(q, a), n + HeadMoved(q, a))
            else if HeadCode(q, a) == 0 && !wait then Flushed(ZOK, AfterAttempt(q, a), n + HeadMoved(q, a))
            else AfterMoved(n + HeadMoved(q, a), Flush(AfterAttempt(q, a), wait, rest))
  {
  }

  class Sender {
    var toSend: seq<Buf>
    /** Everything the socket has taken so far. */
    ghost var sent: seq<byte>
    /** The frames removed from the queue so far. */
    ghost var dequeued: seq<Payload>

    ghost predicate Valid()
      reads this
    {
      Conserved(toSend, sent, dequeued)
    }

    /** Every frame ever queued, in order. */
    ghost function Queued(): seq<Payload>
      reads this
    {
      dequeued + Payloads(toSend)
    }

    constructor ()
      ensures Valid() && toSend == [] && sent == [] && dequeued == []
    {
      toSend, sent, dequeued := [], [], [];
    }

    method QueueBufferBytes(p: Payload)
      requires Valid()
      modifies this
      ensures Valid() && Queued() == old(Queued()) + [p] && sent == old(sent)
      ensures toSend == old(toSend) + [Buf(p, 0)]
    {
      PayloadsSnoc(toSend, Buf(p, 0));
      Assoc(dequeued, Payloads(toSend), [p]);
      toSend := toSend + [Buf(p, 0)];
    }

    /**
      * Sends frames while the handle is connected: until the socket would block, or, when told to
      * wait, until all is sent or the time is up. A missing attempt stands for that end.
      */
    method FlushSendQueue(connected: bool, wait: bool, attempts: seq<Attempt>) returns (rc: int, out: seq<byte>)
      requires Valid()
      modifies this
      ensures Valid() && Queued() == old(Queued()) && sent == old(sent) + out
      ensures connected ==> Flushed(rc, toSend, |out|) == Flush(old(toSend), wait, attempts)
      ensures !connected ==> rc == ZOK && out == [] && toSend == old(toSend)
    {
      rc, out := ZOK, [];
      if !connected {
        return;
      }
      var left := attempts;
      ghost var q, queued, before := toSend, Queued(), sent;
      while toSend != []
        invariant Kept(queued, before + out) && rc == ZOK
        invariant Flush(q, wait, attempts) == AfterMoved(|out|, Flush(toSend, wait, left))
        decreases |toSend|, |left|
      {
        FlushTurn(toSend, wait, left, |out|);
        var attempt := if left != [] then left[0] else LAST_ATTEMPT;
        left := if left != [] then left[1..] else [];
        if wait && attempt.poll != Ready {
          return if attempt.poll == TimedOut then ZOPERATIONTIMEOUT else ZSYSTEMERROR, out;
        }
        var sendRc, more := SendHead(attempt, queued, before + out);
        Assoc(before, out, more);
        out := out + more;
        if sendRc < 0 {
          return ZCONNECTIONLOSS, out;
        }
        if sendRc == 0 && !wait {
          return ZOK, out;
        }
      }
    }

    /** The invariant, with the frames ever queued and the bytes sent. */
    ghost predicate Kept(queued: seq<Payload>, bytes: seq<byte>)
      reads this
    {
      Valid() && Queued() == queued && sent == bytes
    }

    /** Sends what it can of the frame at the head, which leaves the queue exactly when it is complete. */
    method SendHead(attempt: Attempt, ghost queued: seq<Payload>, ghost bytes: seq<byte>) returns (rc: int, more: seq<byte>)
      requires Kept(queued, bytes) && toSend != []
      modifies this
      ensures Kept(queued, bytes + more)
      ensures rc == HeadCode(old(toSend), attempt) && |more| == HeadMoved(old(toSend), attempt)
      ensures toSend == AfterAttempt(old(toSend), attempt)
    {
      var head;
      rc, head, more := SendBuffer(toSend[0], attempt.prefix, attempt.payload);
      if rc == 1 {
        ConservedDone(toSend, sent, dequeued, head, more);
        sent, dequeued := sent + more, dequeued + [head.payload];
        toSend := toSend[1..];
      } else {
        ConservedHead(toSend, sent, dequeued, head, more);
        sent := sent + more;
        toSend := [head] + toSend[1..];
      }
    }
  }

  lemma {:induction false} PayloadsSnoc(q: seq<Buf>, b: Buf)
    ensures Payloads(q + [b]) == Payloads(q) + [b.payload]
  {
    if q == [] {
      assert q + [b] == [b] && [b][1..] == [];
    } else {
      assert (q + [b])[1..] == q[1..] + [b];
      PayloadsSnoc(q[1..], b);
    }
  }

  /** Bytes that leave the head of the queue arrive at the end of what was sent. */
  lemma HeadAdvances(q: seq<Buf>, sent: seq<byte>, dequeued: seq<Payload>, head: Buf, more: seq<byte>)
    requires Conserved(q, sent, dequeued) && q != []
    requires head.payload == q[0].payload && q[0].off <= head.off <= 4 + |head.payload|
    requires more == Frame(head.payload)[q[0].off..head.off]
    ensures sent + more == Stream(dequeued) + Frame(head.payload)[..head.off]
  {
    var f := Frame(head.payload);
    JoinSlices(f, 0, q[0].off, head.off);
    var d := Stream(dequeued);
    assert d + f[..q[0].off] + more == d + (f[..q[0].off] + more);
  }

  /** The head is still unfinished. */
  lemma ConservedHead(q: seq<Buf>, sent: seq<byte>, dequeued: seq<Payload>, head: Buf, more: seq<byte>)
    requires Conserved(q, sent, dequeued) && q != [] && Unfinished(head)
    requires head.payload == q[0].payload && q[0].off <= head.off
    requires more == Frame(head.payload)[q[0].off..head.off]
    ensures Conserved([head] + q[1..], sent + more, dequeued) && Payloads([head] + q[1..]) == Payloads(q)
  {
    HeadAdvances(q, sent, dequeued, head, more);
    assert ([head] + q[1..])[1..] == q[1..];
  }

  /** The head is sent and leaves the queue. */
  lemma ConservedDone(q: seq<Buf>, sent: seq<byte>, dequeued: seq<Payload>, head: Buf, more: seq<byte>)
    requires Conserved(q, sent, dequeued) && q != []
    requires head.payload == q[0].payload && q[0].off <= head.off == 4 + |head.payload|
    requires more == Frame(head.payload)[q[0].off..head.off]
    ensures Conserved(q[1..], sent + more, dequeued + [head.payload])
    ensures dequeued + [head.payload] + Payloads(q[1..]) == dequeued + Payloads(q)
  {
    var p := head.payload;
    TailIsSendQueue(q);
    assert sent + more == Stream(dequeued + [p]) + [] by {
      HeadAdvances(q, sent, dequeued, head, more);
      assert Frame(p)[..head.off] == Frame(p);
      StreamAppend(dequeued, [p]);
      StreamOne(p);
    }
    PayloadsShift(dequeued, q);
  }

  lemma TailIsSendQueue(q: seq<Buf>)
    requires IsSendQueue(q) && q != []
    ensures IsSendQueue(q[1..]) && SentOfHead(q[1..]) == []
  {
    assert forall i :: 0 <= i < |q| - 1 ==> q[1..][i] == q[i + 1];
  }

  lemma PayloadsShift(dequeued: seq<Payload>, q: seq<Buf>)
    requires q != []
    ensures dequeued + [q[0].payload] + Payloads(q[1..]) == dequeued + Payloads(q)
  {
  }

  lemma StreamOne(p: Payload)
    ensures Stream([p]) == Frame(p)
  {
    assert [p][1..] == [];
  }
}
