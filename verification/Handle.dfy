/**
  * The handle as the library updates it: the loops of zookeeper.c over its queues, each proved
  * to make the steps of the client state machine.
  */
module Handle {
  import opened Common
  import opened Client

  class ZHandle {
    var conn: Session
    var toSend: seq<int>
    var toProcess: seq<Reply>
    var sentRequests: seq<int>
    var completionsToProcess: seq<Completion>
    var calls: Calls
    var xid: int
    /** The other end of the connection. */
    var wire: Wire
    ghost var log: Log

    ghost predicate Valid()
      reads this
    {
      log.nextXid == xid
    }

    ghost function Abs(): State
      reads this
    {
      State(conn, Queues(toSend, toProcess, sentRequests, completionsToProcess), calls, wire, log)
    }

    constructor (clientId: int, firstXid: int)
      ensures Valid() && Abs() == Init(clientId, firstXid)
    {
      conn := Session(NoFd, NOTCONNECTED, clientId, clientId != 0);
      toSend, toProcess, sentRequests, completionsToProcess := [], [], [], [];
      calls, xid := Calls([], 0, false, 0), firstXid;
      wire, log := NO_WIRE, Log(firstXid, [], [], 0, false);
    }

    /** An asynchronous request: completion entry and frame are queued together or not at all. */
    method Submit() returns (rc: int)
      requires Valid()
      modifies this
      ensures Valid() && Abs() == NextSubmit(old(Abs()))
      ensures rc == ZOK <==> log.accepted == old(log.accepted) + [old(xid)]
      ensures rc != ZOK ==> sentRequests == old(sentRequests) && toSend == old(toSend)
    {
      var h := xid;
      xid := xid + 1;
      log := log.(nextXid := xid);
      if conn.state < 0 {
        return ZINVALIDSTATE;
      }
      rc := DoAddCompletion(h);
      if rc >= 0 {
        toSend := toSend + [h];
        log := log.(accepted := log.accepted + [h]);
      }
      rc := if rc < 0 then ZMARSHALLINGERROR else ZOK;
    }

    method DoAddCompletion(h: int) returns (rc: int)
      modifies this`sentRequests
      ensures rc == if calls.closeRequested then ZINVALIDSTATE else ZOK
      ensures sentRequests == if calls.closeRequested then old(sentRequests) else old(sentRequests) + [h]
    {
      if !calls.closeRequested {
        sentRequests := sentRequests + [h];
        rc := ZOK;
      } else {
        rc := ZINVALIDSTATE;
      }
    }

    /** Pending requests move, oldest first, behind the completions already queued. */
    method FreeCompletions(reason: int)
      modifies this`sentRequests, this`completionsToProcess
      ensures Abs() == old(Abs()).(q := Client.FreeCompletions(old(Abs()).q, reason))
    {
      var tmp := sentRequests;
      sentRequests := [];
      var i := 0;
      while i < |tmp|
        invariant 0 <= i <= |tmp| && sentRequests == []
        invariant completionsToProcess == old(completionsToProcess) + Fake(tmp[..i], reason)
      {
        assert Fake(tmp[..i + 1], reason) == Fake(tmp[..i], reason) + [Outcome(tmp[i], reason)];
        completionsToProcess := completionsToProcess + [Outcome(tmp[i], reason)];
        i := i + 1;
      }
      assert tmp[..i] == tmp;
    }

    method CleanupBufs(reason: int)
      modifies this`toSend, this`toProcess, this`sentRequests, this`completionsToProcess
      ensures Abs() == old(Abs()).(q := Client.CleanupBufs(old(Abs()).q, reason))
    {
      while toSend != []
        modifies this`toSend
      {
        toSend := toSend[1..];
      }
      while toProcess != []
        modifies this`toProcess
      {
        toProcess := toProcess[1..];
      }
      FreeCompletions(reason);
    }

    /** One turn of the dispatch loop of zookeeper_process. */
    method DispatchReply() returns (rc: int)
      requires Valid() && Enabled(Abs(), ProcessReply)
      modifies this
      ensures Valid() && Abs() == Next(old(Abs()), ProcessReply)
      ensures |toProcess| == old(|toProcess|) - 1
      ensures rc == ZOK || rc == ZINVALIDSTATE ==> calls == old(calls)
      ensures rc != ZOK && rc != ZINVALIDSTATE ==> calls == SetTop(old(calls), Api(Failed(rc)))
      ensures rc == ZOK || rc == ZINVALIDSTATE || rc == ZAUTHFAILED || rc == ZRUNTIMEINCONSISTENCY
      ensures rc == ZRUNTIMEINCONSISTENCY ==> log.mismatches > old(log.mismatches)
      ensures log.mismatches >= old(log.mismatches) && (rc == ZAUTHFAILED ==> conn.state < 0)
      ensures rc == ZINVALIDSTATE ==> calls.closeRequested
      ensures if old(toProcess)[0].xid == AUTH_XID then rc == ZOK || rc == ZAUTHFAILED else rc != ZAUTHFAILED
    {
      var bptr := toProcess[0];
      toProcess := toProcess[1..];
      rc := ZOK;
      if bptr.xid == PING_XID {
      } else if bptr.xid == WATCHER_EVENT_XID {
        completionsToProcess := completionsToProcess + [Event];
      } else if bptr.xid == SET_WATCHES_XID {
      } else if bptr.xid == AUTH_XID {
        if bptr.err != 0 {
          conn := conn.(state := AUTH_FAILED);
          calls := SetTop(calls, Api(Failed(ZAUTHFAILED)));
          rc := ZAUTHFAILED;
        }
      } else if sentRequests == [] {
        if calls.closeRequested {
          rc := ZINVALIDSTATE;
        } else {
          log := log.(assertFailed := true);
        }
      } else {
        var cptr := sentRequests[0];
        sentRequests := sentRequests[1..];
        if cptr != bptr.xid {
          sentRequests := [cptr] + sentRequests;
          log := log.(mismatches := log.mismatches + 1);
          calls := SetTop(calls, Api(Failed(ZRUNTIMEINCONSISTENCY)));
          rc := ZRUNTIMEINCONSISTENCY;
        } else {
          completionsToProcess := completionsToProcess + [Outcome(cptr, bptr.err)];
        }
      }
    }

    /** Takes a counted reference down; the last one to leave a closing handle starts freeing it. */
    method ApiEpilog()
      requires Valid() && calls.stack != []
      modifies this
      ensures Valid() && Abs() == NextExit(old(Abs()))
    {
      var left := calls.refCounter - 1;
      if left == 0 && calls.closeRequested {
        CleanupBufs(ZCLOSING);
        calls := SetTop(calls, Destroying).(refCounter := left + 1);
      } else {
        calls := Pop(calls).(refCounter := left);
      }
    }

    /** Closes at once, or completes what is pending and leaves the rest to the outer calls. */
    method Close()
      requires Valid()
      modifies this
      ensures Valid() && Abs() == NextClose(old(Abs()))
    {
      calls := calls.(closeRequested := true, refCounter := calls.refCounter + 1);
      if calls.refCounter > 1 {
        FreeCompletions(ZCLOSING);
        calls := Push(calls, Closing);
      } else {
        CleanupBufs(ZCLOSING);
        calls := Push(calls, Destroying);
      }
    }

    /** Queues one frame for every registered authentication, each in front of all others. */
    method SendAuthInfo(auths: nat)
      modifies this`toSend
      ensures toSend == Repeat(AUTH_XID, auths) + old(toSend)
    {
      var i := 0;
      while i < auths
        invariant 0 <= i <= auths && toSend == Repeat(AUTH_XID, i) + old(toSend)
      {
        toSend := [AUTH_XID] + toSend;
        i := i + 1;
      }
    }

    /**
      * The answer to the handshake: a foreign id expires an established session; otherwise the
      * watches and, before them, the authentications go out ahead of everything queued.
      */
    method FinishHandshake(sessionId: int, readOnly: bool, watches: bool, auths: nat) returns (rc: int)
      requires Valid() && calls.stack != []
      modifies this
      ensures Valid() && Abs() == NextHandshake(old(Abs()), sessionId, readOnly, watches, auths)
      ensures rc == ZOK <==> conn.state != EXPIRED_SESSION
      ensures rc == ZOK || rc == ZSESSIONEXPIRED
      ensures rc != ZOK ==> toSend == old(toSend) && conn.clientId == old(conn.clientId)
    {
      var oldId := if conn.seenRw then conn.clientId else 0;
      conn := conn.(seenRw := conn.seenRw || !readOnly);
      if oldId != 0 && oldId != sessionId {
        conn := conn.(state := EXPIRED_SESSION);
        calls := SetTop(calls, Api(Failed(ZSESSIONEXPIRED)));
        return ZSESSIONEXPIRED;
      }
      conn := conn.(clientId := sessionId, state := if readOnly then READONLY else CONNECTED);
      ghost var queued := toSend;
      if watches {
        toSend := [SET_WATCHES_XID] + toSend;
      }
      SendAuthInfo(auths);
      assert toSend == Repeat(AUTH_XID, auths) + (if watches then [SET_WATCHES_XID] else []) + queued;
      completionsToProcess := completionsToProcess + [Event];
      rc := ZOK;
    }

    /** Closes the descriptor and queues the session event, if the session state calls for one. */
    method BeginCleanup()
      requires Valid() && calls.stack != [] && Top(calls).Api? && Top(calls).phase.Failed?
      modifies this
      ensures Valid() && Abs() == NextBeginCleanup(old(Abs()))
    {
      conn := conn.(fd := if conn.fd == NoFd then NoFd else Closed);
      if conn.state < 0 || IsConnected(conn.state) {
        completionsToProcess := completionsToProcess + [Event];
      } else {
        assert completionsToProcess == completionsToProcess + [];
      }
      calls := SetTop(calls, Api(Draining(Top(calls).phase.rc)));
    }

    /** Drains the queues with the error code. */
    method DrainQueues()
      requires Valid() && calls.stack != [] && Top(calls).Api? && Top(calls).phase.Draining?
      modifies this
      ensures Valid() && Abs() == NextDrainQueues(old(Abs()))
    {
      CleanupBufs(Top(calls).phase.rc);
      wire := if conn.fd == Open then wire else NO_WIRE;
      calls := SetTop(calls, Api(Dropping));
    }

    /** Forgets the connection. */
    method FinishCleanup()
      requires Valid() && TopIs(calls, Api(Dropping))
      modifies this
      ensures Valid() && Abs() == NextFinishCleanup(old(Abs()))
    {
      conn := conn.(fd := NoFd);
      if conn.state >= 0 {
        conn := conn.(state := CLOSED);
      }
      wire := NO_WIRE;
      calls := SetTop(calls, Api(Drained));
    }

    // Moves between two points where user code may run.

    method ApiProlog()
      requires Valid() && Enabled(Abs(), EnterApi)
      modifies this
      ensures Valid() && Abs() == Next(old(Abs()), EnterApi)
    {
      calls := Push(calls.(refCounter := calls.refCounter + 1), Api(Running));
    }

    method Return()
      requires Valid() && Enabled(Abs(), Action.Return)
      modifies this
      ensures Valid() && Abs() == Next(old(Abs()), Action.Return)
    {
      calls := Pop(calls);
    }

    /** Calls user code outside process_completions: an authentication completion. */
    method Notify()
      requires Valid() && Enabled(Abs(), Action.Notify)
      modifies this
      ensures Valid() && Abs() == Next(old(Abs()), Action.Notify)
    {
      calls := Push(calls, Callback);
    }

    /** Takes the first queued completion and calls its user code. */
    method DeliverNext()
      requires Valid() && Enabled(Abs(), Deliver)
      modifies this
      ensures Valid() && Abs() == Next(old(Abs()), Deliver)
    {
      var cptr := completionsToProcess[0];
      completionsToProcess := completionsToProcess[1..];
      log := log.(delivered := log.delivered + [cptr]);
      calls := Push(calls, Callback);
    }

    method AddAuth()
      requires Valid() && Enabled(Abs(), Action.AddAuth)
      modifies this
      ensures Valid() && Abs() == Next(old(Abs()), Action.AddAuth)
    {
      if IsConnected(conn.state) || conn.state == ASSOCIATING {
        toSend := [AUTH_XID] + toSend;
      }
    }

    method Connect(immediate: bool)
      requires Valid() && Enabled(Abs(), Action.Connect(immediate))
      modifies this
      ensures Valid() && Abs() == Next(old(Abs()), Action.Connect(immediate))
    {
      conn := conn.(fd := Open, state := if immediate then ASSOCIATING else CONNECTING);
      wire := NO_WIRE;
    }

    /** The server's address is refused at once. */
    method FailConnect()
      requires Valid() && Enabled(Abs(), Action.FailConnect)
      modifies this
      ensures Valid() && Abs() == Next(old(Abs()), Action.FailConnect)
    {
      conn := conn.(fd := Closed);
      calls := SetTop(calls, Api(Failed(ZCONNECTIONLOSS)));
    }

    method PrimeConnection()
      requires Valid() && Enabled(Abs(), Prime)
      modifies this
      ensures Valid() && Abs() == Next(old(Abs()), Prime)
    {
      conn := conn.(state := ASSOCIATING);
    }

    method QueuePing()
      requires Valid() && Enabled(Abs(), Ping)
      modifies this
      ensures Valid() && Abs() == Next(old(Abs()), Ping)
    {
      toSend := toSend + [PING_XID];
    }

    /** The frame at the head of the queue has gone out completely. */
    method SendFrame()
      requires Valid() && Enabled(Abs(), Action.SendFrame)
      modifies this
      ensures Valid() && Abs() == Next(old(Abs()), Action.SendFrame)
    {
      wire := wire.(atServer := wire.atServer + [toSend[0]]);
      toSend := toSend[1..];
    }

    /** A reply has come in completely. */
    method ReceiveFrame()
      requires Valid() && Enabled(Abs(), Receive)
      modifies this
      ensures Valid() && Abs() == Next(old(Abs()), Receive)
    {
      toProcess := toProcess + [wire.unread[0]];
      wire := wire.(unread := wire.unread[1..]);
    }

    /** A new server list drops the connection. */
    method ForceClose()
      requires Valid() && Enabled(Abs(), ForcedClose)
      modifies this
      ensures Valid() && Abs() == Next(old(Abs()), ForcedClose)
    {
      conn := conn.(fd := NoFd, state := NOTCONNECTED);
      wire := NO_WIRE;
    }

    method FailWith(rc: int)
      requires Valid() && Enabled(Abs(), Fail(rc))
      modifies this
      ensures Valid() && Abs() == Next(old(Abs()), Fail(rc))
    {
      calls := SetTop(calls, Api(Failed(rc)));
    }

    method FinishDestroy()
      requires Valid() && Enabled(Abs(), Action.FinishDestroy)
      modifies this
      ensures Valid() && Abs() == Next(old(Abs()), Action.FinishDestroy)
    {
      calls := Pop(calls).(destroyed := calls.destroyed + 1);
      wire := NO_WIRE;
      conn := conn.(fd := NoFd, state := if conn.fd == NoFd then conn.state else CLOSED);
    }

    /** Something happens at the other end. */
    method Network(move: Action)
      requires Valid() && Enabled(Abs(), move) && (move.Answer? || move.SendEvent? || move.Rogue?)
      modifies this
      ensures Valid() && Abs() == Next(old(Abs()), move)
    {
      match move
      case Answer(err) => wire := Wire(wire.atServer[1..], wire.unread + [Reply(wire.atServer[0], err)]);
      case SendEvent => wire := wire.(unread := wire.unread + [Reply(WATCHER_EVENT_XID, 0)]);
      case Rogue(reply) => wire := wire.(unread := wire.unread + [reply]);
    }
  }
}
