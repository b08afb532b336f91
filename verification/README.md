# ZooKeeper C client: a verified model

A Dafny model of the hard parts of the Apache ZooKeeper 3.5.8 C client under its single-threaded
adaptor, with proofs over all inputs and all runs. `dafny verify dfyconfig.toml` checks it.

| modules | what they cover |
|---|---|
| `Client`, `Completions`, `LifeCycle`, `Fifo`, `Codes`, `Frames`, `SessionSafety` | requests, completions and their codes, frames, session and handle life cycle as a state machine whose steps lie between the points where user code can run |
| `Handle`, `Process`, `Progress` | the handle as the library updates it, whole library calls composed from its moves, with arbitrary user code in every callback, and what they achieve |
| `Multi` | completing an asynchronous multi from the bytes of its reply |
| `Jute`, `Archive`, `Records`, `Handshake` | the wire format, the growing output buffer, the generated (de)serializers as methods over schemas, the hand-written handshake messages |
| `Framing`, `Schedule`, `Receiving` | length-prefixed frames over a socket that moves any number of bytes, and what a schedule of sends and reads comes to |
| `HashTable`, `HashIterator` | the chained table on the heap, its expansion and its walks |
| `Watches`, `WatchHistory`, `WatchTables`, `SetWatches`, `Reconnect` | the watch manager's three tables, what runs do to them, their implementation on the heap, and the request that restores them when a handshake is accepted |
| `AddrVec`, `Rebalance`, `Uniform`, `ServerCycle`, `Landing` | server lists, rebalancing odds, the shuffle, choosing the next server, and where clients end up |
| `Path`, `Chroot` | node paths and the client-side chroot |

The state machine keeps an explicit call stack of API frames, callbacks and pending closes, so a run
is any nesting of user code and library code together with any behaviour of network and server. Only user
code is kept from touching a freed handle; that library code never does is proved. Random
draws, socket outcomes and the hash function are parameters and the theorems hold for all of them.

Where the code and what one would expect of it differ, the model follows the code:

- A NULL string is written as length -1 and refused when read; a NULL buffer round-trips
  (`Jute.RoundTripIffNoNullString`).
- A string with a NUL inside is read whole but written back only up to the NUL
  (`Jute.RewrittenStringIffNoNul`).
- A vector deserializer returns the code of its end marker, so an element's error is lost
  (`Jute.VectorSwallowsElementError`); a code of 0 can be trusted for schemas without vectors
  (`Jute.VectorFreeCodeIsTrusted`, `Jute.VectorCodeSaysNothing`).
- A server list change can close the connection without completing what was sent on it; the next reply
  is then taken as out of order (`Fifo.ForcedCloseAlignedIff`, `Fifo.ForcedCloseBlocksReplies`).
- A cleanup calls authentication completions after it has emptied the queues and before it forgets the
  connection, so a connection made or found by one of them is lost with what was sent on it
  (`Fifo.FinishCleanupAlignedIff`, `Fifo.ConnectingUnderCleanupBreaksAlignment`).
- The odds of a shrinking server list are computed from 32-bit products that wrap for very long lists,
  which can leave a new server idle (`Rebalance.RebalancingIsFairIff`, `Rebalance.WrappedOddsAreUnfair`).
- `sub_string` compares bytes, not components (`Chroot.SubStringIsClientPathIff`), and the chroot with a slash
  behind it is no client's path (`Chroot.PrependReachesAll`).
- A NULL watcher is always reported as present (`WatchHistory.RemovedIsGoneIff`).
- Addresses are compared without ports (`AddrVec.PortsDoNotMatter`).

## Model

| member | source | states |
|---|---|---|
| `Completions.StepInOrder` | zookeeper-client-c/src/zookeeper.c:2869-3002 | every step of the client machine keeps delivered ++ queued outcomes ++ `sent_requests` equal to the accepted requests in order |
| `Completions.ExactlyOnceInOrder` | zookeeper-client-c/src/zookeeper.c:2797-2826 | over every run, whatever the server sends and however calls nest, each accepted request is in exactly one of pending, queued or delivered, and delivery is in submission order; xids of accepted requests are strictly increasing, so none is counted twice |
| `Codes.EveryCodeHasItsOrigin` | zookeeper-client-c/src/zookeeper.c:2936-2994 | over every run, whatever the server sends, a request is told a code only if a reply with its xid carried that code, or it was pending in a cleanup of that code, or it was pending at the close and the code is ZCLOSING |
| `Codes.CodeIsTheServers` | zookeeper-client-c/src/zookeeper.c:2936-2994 | against an in-order server the code a request is told is the one the server answered that request with, unless it was pending in a cleanup of that code or at the close |
| `Codes.DeliveredCodes` | zookeeper-client-c/src/zookeeper.c:2797-2826 | so for everything a fresh handle has delivered |
| `Codes.CleanupCodeIsTheFailures` | zookeeper-client-c/src/zookeeper.c:1771-1803 | over every run a call cleans up with a code only if that very call failed with it: connection loss on a refused connection, expiry on another session's id, authentication failure on a refused authentication, inconsistency on a reply out of order, and otherwise the code it failed with |
| `Codes.FailureFails` | zookeeper-client-c/src/zookeeper.c:2869-3002 | and each of those causes does fail the call with its code |
| `Codes.EveryEventIsTold` | zookeeper-client-c/src/zookeeper.c:2900-2917 | over every run user code is told of exactly as many events as watch events were read, sessions established and connections or sessions lost |
| `LifeCycle.NothingAcceptedAfterClose` | zookeeper-client-c/src/zookeeper.c:3178-3197 | from the first `zookeeper_close` on, no run accepts another request |
| `LifeCycle.AllCompletedBeforeFree` | zookeeper-client-c/src/zookeeper.c:564-573 | in every run from a fresh handle that frees it, the delivered requests are all the accepted ones, in order |
| `LifeCycle.StepWellNested` | zookeeper-client-c/src/zookeeper.c:3296-3355 | every step keeps the reference counter equal to the number of frames holding the handle, and lets only the outermost frame free it |
| `LifeCycle.LastReference` | zookeeper-client-c/src/zookeeper.c:2546-2556 | the counter drops to zero exactly when the outermost frame leaves |
| `LifeCycle.FreedOnceByLastFrame` | zookeeper-client-c/src/st_adaptor.c:72-76 | over every nesting of API calls, callbacks and a close, the handle is freed at most once, never under a frame that uses it, and is freed exactly when a close was requested and no frame is left |
| `SessionSafety.FreedIsFinal` | zookeeper-client-c/src/zookeeper.c:3347-3350 | no step of the library or the network is possible on a freed handle: no frame is left to touch it and no connection |
| `Fifo.StepAligned` | zookeeper-client-c/src/zookeeper.c:2936-2963 | against an in-order server every step keeps xids(`sent_requests`) equal to the ordinary xids in unprocessed replies, unread replies, at the server and in `to_send`, in that order; pings and authentications may be answered at any time |
| `Fifo.StepBehind` | zookeeper-client-c/src/zookeeper.c:1929-1964 | front-inserted auth and SetWatches frames, pings, watch events, sends, receives and answers keep that order, also behind requests whose replies were lost; a cleanup forgets the lost ones |
| `Fifo.OrdinaryReply` | zookeeper-client-c/src/zookeeper.c:2936-2963 | an ordinary reply then finds its own request at the head of the queue and completes it with the code it carries, touching nothing else |
| `Fifo.InOrderServerNeverMismatches` | zookeeper-client-c/src/zookeeper.c:2936-2963 | over every run in which ordinary requests are answered in order, no new server list closes the connection, and no authentication completion called by a cleanup finds or makes a connection, the alignment holds, so the out-of-order branch and the empty-queue assertion are unreachable |
| `Fifo.FreshHandleNeverMismatches` | zookeeper-client-c/src/zookeeper.c:2936-2963 | the same for every run of a fresh handle with positive xids |
| `Fifo.ForcedCloseAlignedIff` | zookeeper-client-c/src/zookeeper.c:1034-1039 | a close forced by a new server list keeps the alignment if and only if every pending request is still in the handle's own queues, as an unprocessed reply or an unsent frame |
| `Fifo.ForcedCloseLoses` | zookeeper-client-c/src/zookeeper.c:1034-1039 | whatever is still to be processed, `sent_requests` is made up of the requests with unprocessed replies, then those lost with the connection (at the server or in unread replies), then the unsent ones; with nothing to process, exactly the lost ones are waited for in vain |
| `Fifo.ForcedCloseBreaksAlignment` | zookeeper-client-c/src/zookeeper.c:1034-1039 | a run from a fresh handle, of a request, a connection, a handshake and a send, after which the forced close breaks the alignment |
| `Fifo.LateReplyRefused` | zookeeper-client-c/src/zookeeper.c:2950-2963 | with requests lost, the next ordinary reply takes the out-of-order branch and completes nothing |
| `Fifo.ForcedCloseBlocksReplies` | zookeeper-client-c/src/zookeeper.c:1034-1039 | after such a loss every run up to the next cleanup or close is either refused as out of order or still waiting behind the lost requests |
| `Fifo.FinishCleanupAlignedIff` | zookeeper-client-c/src/zookeeper.c:1751-1793 | a cleanup that finishes over a connection made meanwhile by an authentication completion keeps the alignment if and only if nothing pending is on that connection |
| `Fifo.PartingIsBehindIff` | zookeeper-client-c/src/zookeeper.c:1731-1747 | an authentication completion called while the cleanup stands over a new connection finds aligned queues if and only if no ordinary frame is on it |
| `Fifo.ConnectingUnderCleanupBreaksAlignment` | zookeeper-client-c/src/zookeeper.c:1731-1793 | a run from a fresh handle in which an authentication completion, called by a cleanup, connects and sends a request: the cleanup then forgets the connection but not the request |
| `Fifo.WithoutAuthCompletionsOrderly` | zookeeper-client-c/src/zookeeper.c:1731-1747 | where no authentication completion is called, no run can do that |
| `Frames.FramesConserved` | zookeeper-client-c/src/zookeeper.c:3444-3480 | over every run and for every xid, the frames queued (accepted requests, pings, authentications, watches) are those outstanding, answered or lost with their connection, and there are no others |
| `Frames.WatchesSentAgain` | zookeeper-client-c/src/zookeeper.c:2525-2532 | over every run of a fresh handle the SetWatches frames ever queued are as many as the accepted handshakes that had watches to restore |
| `Frames.HandshakeRestores` | zookeeper-client-c/src/zookeeper.c:2498-2534 | an accepted handshake puts one frame for each authentication first, then the watches, then what was waiting, and the state is read-only exactly on a read-only answer; a refused one queues nothing and expires the session |
| `Frames.SessionRestoredFirst` | zookeeper-client-c/src/zookeeper.c:1883-1964 | over every run, authentications and watches stand before all requests and pings that wait with them |
| `Reconnect.Restore` | zookeeper-client-c/src/zookeeper.c:2498-2534 | handshake and watch manager together: after any history of watches an accepted handshake queues the SetWatches request exactly when some watcher still waits, and the request names exactly the watched paths |
| `SessionSafety.StepLostIsClosed` | zookeeper-client-c/src/zookeeper.c:1771-1803 | every step keeps: a lost session has no descriptor unless a call on the stack is still cleaning up |
| `SessionSafety.LostStaysLost` | zookeeper-client-c/src/zookeeper.c:1822-1838 | over every run a negative state stays negative until the handle is freed, and between calls its descriptor is gone |
| `SessionSafety.EstablishedKeepsId` | zookeeper-client-c/src/zookeeper.c:2498-2534 | over every run a session established with a read/write server keeps its id |
| `SessionSafety.EstablishedByReadWriteServer` | zookeeper-client-c/src/zookeeper.c:2504-2505 | over every run the session counts as established exactly when a read/write server has answered, now or before |
| `SessionSafety.ResumedIsEstablished` | zookeeper-client-c/src/zookeeper.c:1194-1195 | a handle that resumes a session is bound to its id from the start, a new one to none |
| `SessionSafety.LostOnlyBy` | zookeeper-client-c/src/zookeeper.c:1822-1838 | over every run a session is lost only by an answer under another id or a refused authentication, and the state says which |
| `SessionSafety.StepLoses` | zookeeper-client-c/src/zookeeper.c:1822-1838 | and either of them does lose it |
| `SessionSafety.ConnectedHasDescriptor` | zookeeper-client-c/src/zookeeper.c:1771-1793 | over every run the handle counts as connected or connecting only while it has a descriptor |
| `SessionSafety.CleanupSilences` | zookeeper-client-c/src/zookeeper.c:1771-1793 | from the beginning of a cleanup on nothing is sent, answered or read until a new connection is made |
| `SessionSafety.ForeignIdExpires` | zookeeper-client-c/src/zookeeper.c:2498-2534 | a handshake connects an established session if and only if it carries its id; any other id expires it and no later run connects it again |
| `Handle.ZHandle.Submit` | zookeeper-client-c/src/zookeeper.c:3444-3480 | an asynchronous request queues completion and frame together or neither, and is the machine's submit step |
| `Handle.ZHandle.DoAddCompletion` | zookeeper-client-c/src/zookeeper.c:3178-3197 | a completion is queued at the end unless a close has been requested |
| `Handle.ZHandle.FreeCompletions` | zookeeper-client-c/src/zookeeper.c:1685-1749 | the drain loop moves all pending requests, oldest first, behind the queued completions |
| `Handle.ZHandle.CleanupBufs` | zookeeper-client-c/src/zookeeper.c:1751-1762 | both frame queues end empty and all pending requests are drained |
| `Handle.ZHandle.DispatchReply` | zookeeper-client-c/src/zookeeper.c:2892-2994 | one turn of the dispatch loop is the machine's reply step, including the re-queueing on a mismatch, and its code says which branch was taken |
| `Handle.ZHandle.ApiEpilog` | zookeeper-client-c/src/zookeeper.c:2551-2556 | leaving a call is the machine's exit step: only the last reference to a closing handle frees it |
| `Handle.ZHandle.Close` | zookeeper-client-c/src/zookeeper.c:3296-3355 | `zookeeper_close` frees at once without outer calls, and otherwise completes what is pending and defers |
| `Handle.ZHandle.SendAuthInfo` | zookeeper-client-c/src/zookeeper.c:1883-1900 | one authentication frame per registration, all ahead of what was queued |
| `Handle.ZHandle.FinishHandshake` | zookeeper-client-c/src/zookeeper.c:2498-2534 | the handshake reply is the machine's step; on a foreign id the queue and the session id stay and the session expires |
| `Handle.ZHandle.FinishCleanup` | zookeeper-client-c/src/zookeeper.c:1783-1789 | after the authentication completions the connection is forgotten, whichever it is by then, and only a recoverable state is reset |
| `Handle.ZHandle.DrainQueues` | zookeeper-client-c/src/zookeeper.c:1751-1762 | both frame queues are emptied and everything pending is completed with the error code, while descriptor and state are still as they were |
| `Process.UserCode` | zookeeper-client-c/src/zookeeper.c:2797-2826 | user code called by the library: every operation it makes is carried out, in order, each beginning with exactly the actions the state it meets calls for, and it ends with its return, leaving the frames below it alone |
| `Process.ProcessCompletions` | zookeeper-client-c/src/zookeeper.c:2797-2826 | every queued completion, also those its own callbacks add, is delivered before it returns; the call stack is as before |
| `Process.Cleanup` | zookeeper-client-c/src/zookeeper.c:1771-1793 | the whole cleanup, with the session event, the drain, the authentication completions before the reset and the completions after it, carries out every operation user code makes in between and ends with nothing undelivered and no reply unprocessed |
| `Process.CheckEvents` | zookeeper-client-c/src/zookeeper.c:2452-2544 | given the socket's events and the state, exactly the step of the connection, the sends and the read they call for, and exactly the code `EventCode`: invalid state without a descriptor, connection loss on a failed or closed one, expiry on a foreign id, nothing when there is nothing to read |
| `Process.ProcessReplies` | zookeeper-client-c/src/zookeeper.c:2886-2996 | the dispatch loop with the authentication completions called inside it ends with success and nothing left to process, with an authentication failure and the session lost, with an invalid state under a requested close, or with an inconsistency after a new mismatch, and in no other way |
| `Process.CloseCall` | zookeeper-client-c/src/zookeeper.c:3296-3355 | `zookeeper_close` as a whole: freed at once without outer calls, otherwise deferred with the stack unchanged |
| `Process.Leave` | zookeeper-client-c/src/zookeeper.c:2551-2556 | leaving a call frees the handle exactly when it is the last frame of a closing one |
| `Process.ZookeeperProcess` | zookeeper-client-c/src/zookeeper.c:2869-3002 | the whole call, from prolog to epilog and with arbitrary user code in every callback: its code is that of the events or, if those went well, of the replies; without a close, a lost session or a mismatch it succeeds, and every reply read is processed and every completion delivered before it returns |
| `Process.ZookeeperInterest` | zookeeper-client-c/src/zookeeper.c:2261-2450 | the whole call: the close that a new server list forces, then exactly the connection attempt, its failure, the time-out or the ping the state calls for, with exactly the code that belongs to it; the call stack is as before |
| `Progress.NoDescriptor` | zookeeper-client-c/src/zookeeper.c:2452-2456 | without a descriptor the events do nothing, and the code is ZINVALIDSTATE |
| `Progress.BrokenConnection` | zookeeper-client-c/src/zookeeper.c:2457-2490 | a connection that cannot be made, or a send or read that fails, fails the call with ZCONNECTIONLOSS after the frames that still got out |
| `Progress.ConnectionMade` | zookeeper-client-c/src/zookeeper.c:2458-2472 | a connection that is made goes on to the handshake |
| `Progress.HandshakeAnswered` | zookeeper-client-c/src/zookeeper.c:2498-2534 | the answer to the handshake connects the session, read-only or not, or expires it under another id, and the code says which |
| `Progress.FramesMove` | zookeeper-client-c/src/zookeeper.c:2473-2497 | on a connection that holds, exactly the frames the socket takes go out, in order, and one reply that has come is read; with nothing to read the code is ZNOTHING |
| `Progress.AttemptDecides` | zookeeper-client-c/src/zookeeper.c:2298-2368 | without a descriptor a connection attempt is delayed, fails the call without a socket or refused, is under way, or is up, with the code for each |
| `Progress.ConnectionKept` | zookeeper-client-c/src/zookeeper.c:2370-2407 | with one, too long a silence fails the call with ZOPERATIONTIMEOUT; otherwise exactly one ping is queued when one is due, and nothing else changes |
| `Progress.RequestGoesOut` | zookeeper-client-c/src/zookeeper.c:3444-3480 | an accepted request goes out at once behind what was waiting, as far as the socket takes frames |
| `Progress.MoveReconnects` | zookeeper-client-c/src/zookeeper.c:1034-1039 | a client told to move drops its connection and attempts the next one in the same call, keeping its queues |
| `Progress.EverythingIsServed` | zookeeper-client-c/src/zookeeper.c:2869-3002 | from every state in which the client is connected and its queues are aligned there is a run, of sends, answers, reads and deliveries alone, after which nothing is pending and every request has been delivered, each that was pending with the server's code |
| `Progress.ProgramCodes` | zookeeper-client-c/src/zookeeper.c:2869-3002 | in a whole user program every code delivered has one of the origins above |
| `Process.CleanCallStaysAligned` | zookeeper-client-c/src/zookeeper.c:2936-2963 | an in-order server keeps the queues aligned through any such call, unless an authentication completion finds or makes a connection under a cleanup, so none reports an inconsistency |
| `Process.WithoutAuthCompletionsStaysOrderly` | zookeeper-client-c/src/zookeeper.c:1731-1747 | that exception cannot occur in a program that has no authentication completion called |
| `Process.NothingHeldBack` | zookeeper-client-c/src/zookeeper.c:2797-2826 | after any call that leaves nothing to deliver, every accepted request has been delivered or is still pending: none whose reply was processed is held back |
| `Process.Program` | zookeeper-client-c/src/zookeeper.c:2869-3002 | a whole user program on a fresh handle carries out every operation, in order, down to the end of the program or of the handle; requests complete in order and at most once, all of them once the handle is gone, and an in-order server is never found out of order (under the condition above, or whenever no authentication completion is called) |
| `Multi.BuildEntries` | zookeeper-client-c/src/zookeeper.c:4121-4226 | one completion entry per operation, in order, of the kind its type demands; unimplemented exactly on an unknown type, and otherwise a marshalling error exactly when a path is invalid in its operation's mode under the chroot, the session is lost or the handle closing |
| `Multi.CheckPath` | zookeeper-client-c/src/zookeeper.c:3405-3421 | bad arguments exactly when the path the server would see is invalid in the operation's mode, checked before the session |
| `Multi.AnswerOfOperation` | zookeeper-client-c/src/zookeeper.c:4140-4203 | the operation numbers 1 and 19 are answered by a path, 5 by a stat, 2 and 13 by nothing, and no other number is accepted |
| `Multi.SlotHoldsOwnPart` | zookeeper-client-c/src/zookeeper.c:2647-2676 | a slot gets the code of its own part, and a result exactly when the operation succeeded and has one; it stands for the bytes of that part |
| `Multi.HeaderLayout` | zookeeper-client-c/generated/zookeeper.jute.c:22-30 | a multi header is nine bytes: type, one byte for the end, error |
| `Multi.DeserializeMulti` | zookeeper-client-c/src/zookeeper.c:2647-2676 | for every reply that answers the operations, each is told its own part once and in order, the bytes are consumed exactly, and the code is the first counting error |
| `Multi.FirstErrorIsFirst` | zookeeper-client-c/src/zookeeper.c:2659-2666 | that code is 0 exactly when every error part is 0 or -2 (ZRUNTIMEINCONSISTENCY), and otherwise the earliest that is neither |
| `Multi.CleanupFailedMulti` | zookeeper-client-c/src/zookeeper.c:2637-2645 | every operation gets the failure code, in order |
| `Multi.CompleteMulti` | zookeeper-client-c/src/zookeeper.c:2779-2789 | slot i is filled exactly once, as call i, and the multi's own completion is the last call, for success and for failure |
| `HashTable.Table.constructor` | zookeeper-client-c/src/hashtable/hashtable.c:29-53 | an empty table of the first prime size above the requested one: larger than it, and every smaller prime of the list is not |
| `HashTable.Table.Search` | zookeeper-client-c/src/hashtable/hashtable.c:161-178 | the lookup is the map's lookup |
| `HashTable.Table.Insert` | zookeeper-client-c/src/hashtable/hashtable.c:136-158 | a fresh key is added to the map, through an expansion if the load limit is passed; the entry count stays the map's size |
| `HashTable.Table.Expand` | zookeeper-client-c/src/hashtable/hashtable.c:70-98 | the next prime size, same map, same entries: no lookup changes; refused only at the last prime |
| `HashTable.Table.LoadIsBounded` | zookeeper-client-c/src/hashtable/hashtable.c:136-147 | fewer entries than 0.65 times the buckets, plus one, unless the table has its largest size |
| `HashTable.Rehash` | zookeeper-client-c/src/hashtable/hashtable.c:77-98 | relinking every entry of one table into another loses and invents nothing and puts each into the bucket of its hash |
| `HashTable.Table.Remove` | zookeeper-client-c/src/hashtable/hashtable.c:181-211 | removes exactly the key and returns its value |
| `HashTable.InsertLayout` | zookeeper-client-c/src/hashtable/hashtable.c:148-157 | linking an entry at the head of its bucket turns the chains of a map into the chains of the extended map |
| `HashTable.RemoveLayout` | zookeeper-client-c/src/hashtable/hashtable.c:196-206 | unlinking one entry turns the chains of a map into the chains of the map without its key |
| `HashTable.LayoutIsMap` | zookeeper-client-c/src/hashtable/hashtable.c:70-98 | the entries in table order have pairwise different keys, are the map's, and are as many |
| `HashIterator.Replay` | zookeeper-client-c/src/hashtable/hashtable.c:136-211 | for every hash function and every run of puts, lookups and removals, with all expansions, the table answers like a finite map |
| `HashIterator.Iterator.constructor` | zookeeper-client-c/src/hashtable/hashtable_itr.c:11-35 | the walk starts at the first entry and has the whole table ahead |
| `HashIterator.Iterator.Advance` | zookeeper-client-c/src/hashtable/hashtable_itr.c:41-76 | exactly the current entry leaves what is still ahead |
| `HashIterator.Iterator.Remove` | zookeeper-client-c/src/hashtable/hashtable_itr.c:86-112 | the current entry leaves the table and the walk, and nothing else does |
| `HashIterator.FlatAfterDrop` | zookeeper-client-c/src/hashtable/hashtable_itr.c:92-109 | dropping the current entry leaves exactly the later ones ahead, in order |
| `HashIterator.CollectKeys` | zookeeper-client-c/src/zk_hashtable.c:203-218 | every key of the table exactly once, as SetWatches sends them |
| `HashIterator.CleanTable` | zookeeper-client-c/src/zk_hashtable.c:123-136 | removing while walking terminates with an empty table |
| `Watches.CopyIsUnion` | zookeeper-client-c/src/zk_hashtable.c:161-178 | copying into a duplicate-free list gives the duplicate-free union |
| `Watches.CopyWatchers` | zookeeper-client-c/src/zk_hashtable.c:228-236 | the copy loop computes that union |
| `Watches.RemoveWatcherFromList` | zookeeper-client-c/src/zk_hashtable.c:362-389 | the walk with its separate head test removes exactly the given watcher |
| `WatchTables.WatchManager.ActivateWatcher` | zookeeper-client-c/src/zk_hashtable.c:326-337 | the reply code selects the table and the watcher is added there once (which table, by request and code, is `WatchHistory.ActivationByCode`) |
| `WatchTables.WatchManager.CollectWatchers` | zookeeper-client-c/src/zk_hashtable.c:285-316 | a node event takes its path's lists out of the tables it selects into one duplicate-free list |
| `WatchTables.WatchManager.CollectSessionWatchers` | zookeeper-client-c/src/zk_hashtable.c:238-258 | a session event reaches the default watcher and every registered one once and removes none |
| `WatchTables.WatchManager.RemoveWatchers` | zookeeper-client-c/src/zk_hashtable.c:424-441 | the watcher type selects the tables a removal touches |
| `WatchTables.WatchManager.HasWatcher` | zookeeper-client-c/src/zk_hashtable.c:443-476 | true exactly when a selected table has the watcher, NULL always counting as present |
| `WatchTables.WatchTable.Add` | zookeeper-client-c/src/zk_hashtable.c:180-200 | on the heap: a new path gets a list object in the hash table, a known one has its list changed in place, and no other path sees it |
| `WatchTables.WatchTable.MoveTo` | zookeeper-client-c/src/zk_hashtable.c:260-270 | a path's list leaves the hash table and joins the delivery list without duplicates |
| `WatchTables.WatchTable.RemoveWatcher` | zookeeper-client-c/src/zk_hashtable.c:391-413 | the watcher leaves the path's list, and the path the table when the list is empty or the watcher NULL |
| `WatchTables.Replay` | zookeeper-client-c/src/zk_hashtable.c:260-337 | for every hash function and every run of activations, node events and removals on the three heap tables, the tables end and every event delivers exactly as the history says |
| `SetWatches.SendSetWatches` | zookeeper-client-c/src/zookeeper.c:1929-1964 | nothing is sent when the manager's tables are empty; otherwise a server decoding the request finds exactly the paths of each table, each once, in its vector |
| `SetWatches.SendWatchesAfter` | zookeeper-client-c/src/zookeeper.c:1929-1964 | after any run of the watch manager each vector names exactly the paths for which a watcher was activated in that table and not cleared since, and nothing is sent if and only if there are none |
| `SetWatches.PathsAreWatched` | zookeeper-client-c/src/zk_hashtable.c:180-200 | no path outlives its watchers: after any run it is in a table if and only if some activation there has not been cleared |
| `WatchHistory.ListsStayGood` | zookeeper-client-c/src/zk_hashtable.c:180-200 | over every run all watcher lists are non-empty and duplicate-free |
| `WatchHistory.EventDeliversAndClears` | zookeeper-client-c/src/zk_hashtable.c:260-316 | a node event's delivery list is the duplicate-free union of its path's lists in the selected tables; exactly those registrations end |
| `WatchHistory.RemoveTakesPrecisely` | zookeeper-client-c/src/zk_hashtable.c:391-413 | a removal ends exactly the registrations of the given watcher, or of all watchers for NULL, at that path in the selected tables |
| `WatchHistory.RemovedIsGoneIff` | zookeeper-client-c/src/zk_hashtable.c:340-360 | after a removal `pathHasWatcher` is false if and only if the watcher is not NULL |
| `WatchHistory.ArmedIffHistory` | zookeeper-client-c/src/zk_hashtable.c:260-337 | never lost, never invented: after any run a watcher is registered if and only if some reply activated it and nothing cleared it since |
| `WatchHistory.ActivationByCode` | zookeeper-client-c/src/zookeeper.c:540-558 | an exists or data request answered 0 arms in the node table, an exists request answered -101 in the exist table, a children request answered 0 in the child table; any other reply changes nothing |
| `WatchHistory.ToldExactlyTheNews` | zookeeper-client-c/src/zk_hashtable.c:285-316 | after any run a node event is delivered to a watcher if and only if it is news (created, deleted or changed for data and exists watches, deleted or child for child watches) and some reply left the watcher waiting for it with neither news nor a removal since |
| `WatchHistory.FirstNewsIsTold` | zookeeper-client-c/src/zk_hashtable.c:285-316 | in particular the first news after a reply reaches the watcher, and ends its waiting |
| `WatchHistory.FoundIffWaits` | zookeeper-client-c/src/zk_hashtable.c:443-476 | `pathHasWatcher` finds a watcher other than NULL if and only if it is waiting for what the watcher type stands for |
| `WatchHistory.WatchesAreOneShot` | zookeeper-client-c/src/zk_hashtable.c:260-337 | over any run, node-event deliveries plus open registrations of a watcher for a path never exceed its activations |
| `Jute.IntRoundTrip` | zookeeper-client-c/src/recordio.c:73-84 | 32-bit integers survive the wire |
| `Jute.LongRoundTrip` | zookeeper-client-c/src/recordio.c:101-112 | 64-bit integers survive the wire |
| `Jute.IntIsBigEndian` | zookeeper-client-c/src/recordio.c:73-84 | the four bytes of an integer are the digits of its two's complement to the base 256, the highest first |
| `Jute.LongIsBigEndian` | zookeeper-client-c/src/recordio.c:85-112 | and the eight bytes of a long |
| `Jute.ScalarLayout` | zookeeper-client-c/src/recordio.c:121-182 | a boolean is one byte; a buffer, string or vector begins with its length in four bytes, the highest first, and NULL is four bytes 255 |
| `Jute.FieldStands` | zookeeper-client-c/generated/zookeeper.jute.c:22-30 | each field stands right behind those before it and right before those after it |
| `Jute.ElementStands` | zookeeper-client-c/generated/zookeeper.jute.c:198-209 | and so does each element of a vector |
| `Jute.RoundTrip` | zookeeper-client-c/src/recordio.c:73-281 | for every schema, nested records and vectors included, decoding an encoding followed by any tail gives the value (booleans 0 or 1) and leaves exactly the tail |
| `Jute.RoundTripIffNoNullString` | zookeeper-client-c/src/recordio.c:260-281 | the round trip holds if and only if the value has no NULL string |
| `Jute.PrefixFree` | zookeeper-client-c/src/recordio.c:73-281 | no encoding of a record type is a proper prefix of another, and equal encodings mean equal values |
| `Jute.DecodedIsEncoded` | zookeeper-client-c/src/recordio.c:191-281 | bytes that decode to a canonical value (fully read, booleans 0 or 1, no NUL inside a string) are its encoding followed by the rest |
| `Jute.DecodesCanonicallyIffEncoding` | zookeeper-client-c/src/recordio.c:191-281 | decoding gives a canonical value if and only if the bytes begin with an encoding of a value C code can hold |
| `Jute.RewrittenStringIffNoNul` | zookeeper-client-c/src/recordio.c:161-182 | writing back a string that was read gives the bytes it was read from if and only if it holds no NUL |
| `Jute.NulStringIsNoEncoding` | zookeeper-client-c/src/recordio.c:260-281 | a concrete string with a NUL inside is read without error although no value encodes to it |
| `Jute.VectorSwallowsElementError` | zookeeper-client-c/generated/zookeeper.jute.c:210-221 | a concrete vector whose element fails is reported as read without error |
| `Jute.CompleteIffNoError` | zookeeper-client-c/generated/zookeeper.jute.c:210-221 | for every schema and input the value is fully read if and only if no part of it met an error, passed on or not |
| `Jute.VectorFreeCodeIsTrusted` | zookeeper-client-c/generated/zookeeper.jute.c:31-39 | for every schema without vectors the code is 0 if and only if everything was read |
| `Jute.VectorCodeSaysNothing` | zookeeper-client-c/generated/zookeeper.jute.c:210-221 | a vector's code is always 0; one of vector-free elements is fully read if and only if its count was read and the loop over its elements ended without an error |
| `Jute.FixedSizeErrors` | zookeeper-client-c/src/recordio.c:191-236 | booleans, integers and longs are refused with E2BIG exactly when the input is too short |
| `Jute.StringErrors` | zookeeper-client-c/src/recordio.c:260-281 | a string is refused with E2BIG when the input is too short and with EINVAL when its length is negative, and not otherwise |
| `Jute.BufferErrors` | zookeeper-client-c/src/recordio.c:237-257 | a buffer of length -1 is NULL, any other negative length ENOMEM, and too little input E2BIG |
| `Jute.TruncatedIsRefused` | zookeeper-client-c/src/recordio.c:191-281 | without vectors, an encoding cut short anywhere is refused with E2BIG |
| `Archive.OArchive.ResizeBuffer` | zookeeper-client-c/src/recordio.c:50-63 | doubling reaches the length in 32 bits, stays below twice of it and keeps every byte |
| `Archive.OArchive.Put` | zookeeper-client-c/src/recordio.c:73-84 | appends exactly the bytes; capacity stays 128*2^k and at most max(128, 4 * bytes written) |
| `Archive.OArchive.SerializeBytes` | zookeeper-client-c/src/recordio.c:135-160 | appends length and bytes, or the length -1 for NULL |
| `Archive.OArchive.SerializeString` | zookeeper-client-c/src/recordio.c:161-182 | appends the string up to its first NUL with that length, or the length -1 for NULL |
| `Archive.IArchive.DeserializeBuffer` | zookeeper-client-c/src/recordio.c:237-259 | reads, refuses or gives NULL exactly as the reference decoder, and advances the offset alike |
| `Archive.IArchive.DeserializeString` | zookeeper-client-c/src/recordio.c:260-281 | the same, with every negative length refused |
| `Archive.ZooHtonll` | zookeeper-client-c/src/recordio.c:85-99 | on a host that keeps the highest or the lowest byte first, the in-place swap turns the host's bytes of a long into network order and back |
| `Records.Serialize` | zookeeper-client-c/generated/zookeeper.jute.c:22-30 | for every schema the serializer appends exactly the encoding |
| `Records.SerializeElems` | zookeeper-client-c/generated/zookeeper.jute.c:198-209 | the vector loop appends the elements' encodings in order |
| `Records.Deserialize` | zookeeper-client-c/generated/zookeeper.jute.c:31-39 | for every schema the deserializer returns, stores and consumes what `Decode` says |
| `Records.DeserializeElems` | zookeeper-client-c/generated/zookeeper.jute.c:210-221 | the vector loop, with the elements after a failed one left untouched |
| `Records.WriteThenRead` | zookeeper-client-c/generated/zookeeper.jute.c:22-57 | a record written to a growing archive and read back is the record |
| `Handshake.SerializePrimeConnect` | zookeeper-client-c/src/zookeeper.c:1966-1995 | the hand-written request is byte for byte the generated ConnectRequest encoding followed by the read-only flag, and fills the 45-byte buffer |
| `Handshake.RequestParts` | zookeeper-client-c/src/zookeeper.c:1966-1995 | version, last zxid, time-out, session id, password length, password and flag stand at offsets 0, 4, 12, 16, 24, 28 and 44 |
| `Handshake.DeserializePrimeResponse` | zookeeper-client-c/src/zookeeper.c:1997-2029 | the hand-written reader recovers every field of a response laid out as the generated ConnectResponse with length and read-only flag |
| `Handshake.ResponseParts` | zookeeper-client-c/src/zookeeper.c:1997-2029 | length, version, time-out, session id, password length, password and flag stand at offsets 0, 4, 8, 12, 20, 24 and 40 |
| `Framing.SendBuffer` | zookeeper-client-c/src/zookeeper.c:1569-1612 | what leaves is the next stretch of length prefix and payload, exactly as far as the two send calls allow; the code is -1 exactly when a call made failed and 1 exactly when the frame is out |
| `Framing.Sender.QueueBufferBytes` | zookeeper-client-c/src/zookeeper.c:1535-1542 | a frame is queued last and unsent |
| `Framing.FrameLayout` | zookeeper-client-c/src/zookeeper.c:1569-1580 | a frame is its length in four bytes, the highest first, and its payload |
| `Framing.Sender.FlushSendQueue` | zookeeper-client-c/src/zookeeper.c:4380-4445 | for every outcome of polls and sends, code, remaining queue and number of bytes are those of the reference flush; the bytes out are the dequeued frames plus the sent part of the head |
| `Framing.Sender.SendHead` | zookeeper-client-c/src/zookeeper.c:4427-4441 | one attempt takes exactly the bytes the socket accepts from the head, which leaves the queue exactly when complete |
| `Framing.ConservedDone` | zookeeper-client-c/src/zookeeper.c:4437-4439 | completing the head moves its whole frame from the queue to what was sent, byte for byte |
| `Schedule.FlushConserves` | zookeeper-client-c/src/zookeeper.c:4380-4445 | a flush moves exactly the bytes that leave the queue, fails only with the codes of the source, and a waiting one that succeeds empties the queue |
| `Schedule.FlushCodeHasItsCause` | zookeeper-client-c/src/zookeeper.c:4380-4445 | a flush reports a lost connection only after a send that broke, a failed wait only after a poll that failed, and a time-out only when told to wait and with frames left |
| `Schedule.FlushFailsAtOnce` | zookeeper-client-c/src/zookeeper.c:4390-4432 | a first attempt that cannot wait or whose send breaks decides the code |
| `Receiving.RecvBuffer` | zookeeper-client-c/src/zookeeper.c:1619-1677 | for every split of the incoming bytes the read gets exactly as far as the two recv calls and the bytes arrived allow; the code is -1 exactly when a call made failed and 1 exactly at the end of the frame, whose payload is then in the buffer |
| `Receiving.Receiver.ReadEvent` | zookeeper-client-c/src/zookeeper.c:2483-2497 | each read takes exactly that stretch of the stream, and complete frames queue up in order |
| `Receiving.AllArrived` | zookeeper-client-c/src/zookeeper.c:1619-1677 | the received frames are a prefix of the queued ones, and all of them if and only if nothing is left to queue, to send or to read |
| `Receiving.Transfer` | zookeeper-client-c/src/zookeeper.c:1569-1677 | for every schedule of queueing, flushing and reading and every short or blocked send and receive, the receiver has exactly the frames, in order, that the byte counts of the schedule say; the transfer is reported drained if and only if all have arrived |
| `Schedule.RoundsDeliver` | zookeeper-client-c/src/zookeeper.c:1569-1677 | as many rounds of a flush and a read that each move at least one byte as there are bytes left deliver every frame |
| `Schedule.EveryFrameArrives` | zookeeper-client-c/src/zookeeper.c:1569-1677 | whatever happened before, short of a broken connection, such a tail delivers everything ever queued |
| `AddrVec.Vec.ContainsAddr` | zookeeper-client-c/src/addrvec.c:119-152 | membership by family and address, never by port |
| `AddrVec.HostsMatter` | zookeeper-client-c/src/addrvec.c:119-152 | an address is contained if and only if one of its family and bytes is, whatever its port |
| `AddrVec.PortsDoNotMatter` | zookeeper-client-c/src/addrvec.c:256-271 | a list of which only ports changed counts as the same servers |
| `AddrVec.Vec.Equals` | zookeeper-client-c/src/addrvec.c:256-271 | equal counts and every address of the first in the second |
| `AddrVec.Vec.Next` | zookeeper-client-c/src/addrvec.c:205-237 | round robin with wrap-around, and no address from an empty vector |
| `AddrVec.Vec.Shuffle` | zookeeper-client-c/src/addrvec.c:192-203 | the in-place loop computes the reference shuffle, a permutation |
| `AddrVec.EveryPositionDrawn` | zookeeper-client-c/src/addrvec.c:192-203 | over each stretch of i + 1 outcomes of `random()` every position up to i is drawn exactly once |
| `AddrVec.ShuffledIsPermutation` | zookeeper-client-c/src/addrvec.c:192-203 | a shuffle is a permutation for all draws |
| `AddrVec.ShuffledInjective` | zookeeper-client-c/src/addrvec.c:192-203 | different draws give different orders |
| `AddrVec.ShuffledSurjective` | zookeeper-client-c/src/addrvec.c:192-203 | every order is the outcome of some draws |
| `Uniform.ShuffleIsUniform` | zookeeper-client-c/src/addrvec.c:192-203 | of any wanted addresses, each comes first after equally many outcomes of the shuffle |
| `Uniform.JoiningKeepsOrder` | zookeeper-client-c/src/zookeeper.c:971-990 | the first joining server is the first of them in the shuffled list |
| `Uniform.StayingKeepsOrder` | zookeeper-client-c/src/zookeeper.c:971-990 | and the first staying server likewise |
| `Uniform.FavouringFraction` | zookeeper-client-c/src/addrvec.c:192-203 | each of n wanted addresses comes first after exactly one n-th of all outcomes of the shuffle |
| `Rebalance.ServerList.Split` | zookeeper-client-c/src/zookeeper.c:971-990 | the resolved list is divided into servers that were there and servers that were not, in order |
| `Rebalance.ServerList.UpdateAddrs` | zookeeper-client-c/src/zookeeper.c:957-1040 | no change for the same servers; otherwise the split, the decision with its odds (infinite or not a number where the products wrap to zero), and a disconnect exactly when a connected client is to move |
| `Rebalance.AllStayingIsSame` | zookeeper-client-c/src/addrvec.c:256-271 | by pigeonhole: if no old server left and the list did not grow, `addrvec_eq` holds |
| `Rebalance.LeaversExist` | zookeeper-client-c/src/zookeeper.c:1017-1026 | so neither factor of the odds' divisor is zero whenever the list changed and did not grow |
| `Rebalance.DecideByThreshold` | zookeeper-client-c/src/zookeeper.c:993-1026 | a client moves exactly when its draw is at most the threshold its counts define |
| `Rebalance.RebalancingIsFairIff` | zookeeper-client-c/src/zookeeper.c:957-1026 | if every old server carries equal expected load, then after the change and one choice a server of the new list carries exactly 1/(size of the new list) if and only if the list grows, or no server joins, or none stays, or the 32-bit products stand in the true ratio |
| `Rebalance.FairWhenProductsFit` | zookeeper-client-c/src/zookeeper.c:1023-1024 | in particular whenever the larger product fits 32 bits |
| `Rebalance.ShortListsFit` | zookeeper-client-c/src/zookeeper.c:1023-1024 | which it does for every list of fewer than 65536 servers |
| `Rebalance.OddsAreAProbability` | zookeeper-client-c/src/zookeeper.c:1017-1026 | the divisor is then positive and the odds of old and new servers lie between 0 and 1 |
| `Rebalance.WrappedOddsAreUnfair` | zookeeper-client-c/src/zookeeper.c:1023-1024 | 131072 servers shrinking to 65535 of them and a new one: both products wrap, the odds of an old server come out as 65535, and the new one does not get its share |
| `Landing.LandingByDraws` | zookeeper-client-c/src/zookeeper.c:957-1026 | for every shuffle and both draws, the server a client reaches through the decision and the next choice: its own above the threshold, else the first joining or the first staying one by the odds |
| `Landing.DrawnChanceIs` | zookeeper-client-c/src/zookeeper.c:1326-1358 | counted over all shuffles and draws, every server's chance is the one the fairness theorem uses |
| `Landing.FairOverDrawsIff` | zookeeper-client-c/src/zookeeper.c:957-1026 | fairness, and exactly when it holds, counted over the shuffle and the two draws themselves |
| `ServerCycle.CycleNextServer` | zookeeper-client-c/src/zookeeper.c:1370-1393 | the handle's next server and cursors are the reference cycle's |
| `ServerCycle.NextInReconfig` | zookeeper-client-c/src/zookeeper.c:1326-1358 | takes from the joining list by lot or when no kept server is left, else from the kept list, else nothing |
| `ServerCycle.EveryServerOnce` | zookeeper-client-c/src/zookeeper.c:1326-1393 | for all draws, the calls made in reconfiguration return every server of both lists exactly once before the mode can end |
| `ServerCycle.NewListTriedOnce` | zookeeper-client-c/src/zookeeper.c:971-990 | after a list change those are exactly the servers of the new list |
| `ServerCycle.RoundRobinResumes` | zookeeper-client-c/src/zookeeper.c:1370-1393 | once both lists are used up every further call is round robin from where it stood: call k returns the server k places on, modulo the list's size |
| `ServerCycle.JoiningFirst` | zookeeper-client-c/src/zookeeper.c:1326-1358 | with odds 1 all joining servers come before all kept ones, each list in order |
| `ServerCycle.FirstChoiceByOdds` | zookeeper-client-c/src/zookeeper.c:1326-1358 | the first choice is a joining server exactly when the draw is within the odds or no kept server exists |
| `Path.IsValidPath` | zookeeper-client-c/src/zookeeper.c:3357-3399 | the one-pass scanner accepts exactly the paths of the component grammar, in sequential mode and not |
| `Path.ScanIsGrammar` | zookeeper-client-c/src/zookeeper.c:3376-3396 | from any component start, the scan finds no fault exactly when the rest is a good list of components |
| `Path.ScannerDecidesGrammar` | zookeeper-client-c/src/zookeeper.c:3357-3399 | the scanner's local tests together are the grammar |
| `Path.ValidIffNothingForbidden` | zookeeper-client-c/src/zookeeper.c:3357-3399 | a path is valid if and only if it begins with a slash, has no double slash, no inner component of one or two dots and no byte from 1 to 30, and, outside sequential modes, does not end in a slash, one dot or two |
| `Path.SequenceModes` | zookeeper-client-c/src/zookeeper.c:100-117 | the sequential create modes are those of 0 to 6 that have the bit of the old sequence flag |
| `Path.TrailingSlash` | zookeeper-client-c/src/zookeeper.c:3372-3373 | a slash may follow a path exactly in the modes 2, 3 and 6 |
| `Path.OneByteName` | zookeeper-client-c/src/zookeeper.c:3376-3396 | one byte is a node name exactly when it is no slash, no dot and above 30 |
| `Chroot.InitChroot` | zookeeper-client-c/src/zookeeper.c:1202-1231 | the connect string is split at its first slash; initialisation fails exactly on an empty string or an invalid chroot |
| `Chroot.ChrootRoundTrip` | zookeeper-client-c/src/zookeeper.c:1426-1460 | the prepended path is valid in the same mode and `sub_string` gives the client path back |
| `Chroot.PrependStaysUnder` | zookeeper-client-c/src/zookeeper.c:1426-1437 | no client path leaves the chroot: the root is the chroot itself, and any other path stands right behind it |
| `Chroot.PrependReachesAll` | zookeeper-client-c/src/zookeeper.c:1426-1460 | every valid server path at or below the chroot is `prepend_string` of its `sub_string`, except the chroot with a slash behind it, which only sequential modes admit |
| `Chroot.PrependInjective` | zookeeper-client-c/src/zookeeper.c:1426-1441 | two client paths never share a server path |
| `Chroot.ValidUnderChroot` | zookeeper-client-c/src/zookeeper.c:3405-3421 | a path under a chroot is valid if and only if the client path is |
| `Chroot.SubStringIsClientPathIff` | zookeeper-client-c/src/zookeeper.c:1443-1460 | a stripped server path is a client path if and only if the chroot ends at a component boundary |
| `Chroot.SubStringStripsSibling` | zookeeper-client-c/src/zookeeper.c:1443-1460 | a concrete sibling of the chroot is stripped to a relative path |

## Left out

- Multithreaded adaptor, synchronous API and the Windows port: they depend on threads and OS calls.
- Out-of-memory paths, and the in-place variant of the table expansion that is used only then; a bucket table's load limit is 0.65 of its size rounded up, without floating-point rounding.
- The concrete djb2 hash and its mixing step: the table is proved for every hash function.
- WatchTables.WatchManager.CollectWatchers: a watcher list is a sequence inside its list object, so the relinking of single list nodes and the sharing of watcher objects are not captured.
- Rebalance.RebalancingIsFairIff: pairwise different hosts, a non-empty new list and counts below 2^32; finite doubles are exact reals, a draw at most p has chance p, and every outcome of `random() % (i + 1)` counts once.
- Receiving.RecvBuffer: ordinary non-empty frames on a little-endian host; the handshake's buffer of 40 or 41 bytes is excluded because its reading depends on segmentation.
- Front insertion of an auth frame while the head frame is partly sent: excluded from byte-level framing, covered frame by frame in `Fifo`.
- Fifo.FreshHandleNeverMismatches: an empty-queue assertion that fails is recorded and the loop goes on, where the source aborts; xids are unbounded and positive; wrap-around of the counter is not modelled.
- Handle.ZHandle.Close: without the frame of the close operation, its flush and the wait for its answer.
- Process.ZookeeperInterest: resolving and rebalancing the server list (see `Rebalance`) appears as the decision to move, and clocks as their outcomes; the search for a read/write server is not covered.
- The switch from a read-only to a read/write server, which completes pending requests without a body; `zoo_set_servers` called from a callback.
- Multi.CompleteMulti: replies that answer the operations; malformed replies, synchronous multis, the translation of created paths by the chroot (see `Chroot`) and the copying into the caller's buffers are not covered.
- Archive.OArchive.ResizeBuffer: new lengths up to 2^30, beyond which doubling a 32-bit length can overflow.
- Archive.OArchive.Put: up to 2^29 bytes of output, the range in which the 32-bit capacity cannot overflow.
- Records.Serialize: generic over schemas instead of one method per generated record; all of them repeat the same two templates.
- HashTable.Table.Insert: for keys not in the table (the source would then hold two entries of one key), as the watch manager makes sure by searching first.
- Capacity management of address vectors, DNS resolution, sockets, polling, clocks, ping timing, logging, `cli.c`, `load_gen.c` and the `ZOOK_MS` wrapper.
