/**
  * Reconnecting: the handshake and the watch manager together.
  */
module Reconnect {
  import opened Common
  import opened Client
  import opened Frames
  import opened Handle
  import opened Jute
  import opened Records
  import opened Watches
  import opened WatchHistory
  import SetWatches
  import WatchTables

  /**
    * An accepted handshake queues the request that restores the watches exactly when one is
    * still waited for, after the authentications and before everything else; the request names
    * exactly the watched paths. A handshake under another session's id queues nothing.
    */
  method Restore(zh: ZHandle, m: WatchTables.WatchManager, lastZxid: int64, sessionId: int, readOnly: bool, auths: nat,
                 ghost run: seq<Event>)
    returns (rc: int, req: Option<Value>)
    requires zh.Valid() && Enabled(zh.Abs(), Handshake(sessionId, readOnly, false, auths))
    requires m.Valid() && m.Abs() == After(run) && SetWatches.PathsPassed(run)
    requires forall which: Which :: |Get(m.Abs(), which)| < 0x8000_0000
    modifies zh
    ensures zh.Valid() && (rc == ZOK <==> Connects(old(zh.Abs()), Handshake(sessionId, readOnly, false, auths)))
    ensures req.None? <==> SetWatches.NothingWatched(run)
    ensures req.Some? ==> Conforms(SET_WATCHES, req.value) && SetWatches.TellsWatched(lastZxid, req.value, run)
    ensures rc == ZOK ==> Restored(zh.toSend, auths, !SetWatches.NothingWatched(run), old(zh.toSend))
    ensures rc != ZOK ==> zh.toSend == old(zh.toSend)
  {
    req := SetWatches.SendWatchesAfter(lastZxid, m, run);
    ghost var s := zh.Abs();
    rc := zh.FinishHandshake(sessionId, readOnly, req.Some?, auths);
    HandshakeRestores(s, Handshake(sessionId, readOnly, req.Some?, auths));
  }

  /** The queue: authentications (-4), the watches (-8) if there are any, and what waited before. */
  predicate Restored(toSend: seq<int>, auths: nat, watched: bool, before: seq<int>) {
    var k := auths + if watched then 1 else 0;
    && |toSend| == k + |before| && (forall i :: 0 <= i < auths ==> toSend[i] == -4)
    && (watched ==> toSend[auths] == -8) && toSend[k..] == before
  }
}
