# RzBridge in Dafny

RzBridge sits between a router and the nodes of one Raft shard. It cuts the router's byte stream into frames, sends writes
to the leader and reads to a follower, multiplexes many requests over a few shared connections by rewriting their
correlation ids, and gives every reply back under the id the router chose. This project models that logic and proves what
the bridge relies on. `dafny verify dfyconfig.toml` checks all of it.

The main results:

- **No cross-talk** (`Correlation`, `NoCrossTalk`, `IdReuse`, `Refinement`). The correlation protocol is a state machine with any number of
  requests and connections, in every interleaving of taking an id, storing the waiter, sending, answering, reading, closing,
  cleaning up and retrying. If no id is handed out again while an earlier use of it is live, a request returns the node's
  answer to a frame it sent itself, changed only in bytes 1..5, or an empty reply from a cleanup. The exact condition on runs:
  replies are never mixed up within a window of w ids if and only if w <= 2^32. And in every run each request's steps refine the
  attempt loop: its result and its frames are those the loop gives on its attempts.
- **Where reads are cut makes no difference** (`RouterCodec`, `RouterStream`, `RouterSession`). The drain loop with its
  resynchronisation and truncation serves exactly the frames of a three-line reference parser of the whole stream, accounts
  for every byte, enforces each limit exactly, and answers the requests in order. Every frame among magic-free garbage is
  recovered, on connections of any length, as long as each single read leaves room for a frame.
- **The follower pool** (`FollowerPool`, `FollowerSync`, `FollowerPlacement`, `FollowerIndices`, `FollowerNumbers`,
  `FollowerIds`, `Fairness`, `OpenFairness`, `CursorFairness`, `SelectionCompleteness`). Reconciling never indexes out of range
  or subtracts below zero although selections prune concurrently; open connections are neither replaced nor miscounted;
  exactly which indices and slots a sync gives out is proved for every pool, and hosts keep theirs; the round robin is exactly
  fair to nodes and to connections, whatever is open; and selection finds a connection exactly when one is open if and only
  if every pooled node is findable, which is proved to hold throughout runs over a fixed set of hosts and shown to fail when
  a host could not be connected to first.
- **The integrated reconciler** (`LeaderPool`, `LeaderSync`, `ClusterSync`, `ClusterRuns`, `StaleHosts`). Any number of callers,
  selections and closures interleave with every section of a sync; the invariant gives one syncer at a time and leader slots that match the stored
  leader host at every intermediate step.
- **The election** (`Election`, `Discovery`). Every successful discovery is sound, and its outcome is independent of hash-map
  order exactly when nobody can be elected or there is one most-voted id with one node claiming it.
- **The shard side and the server** (`ShardReader`, `Execute`, `Demux`, `Server`). The frame reader refines a pure splitter
  and inverts the encoder; the attempt loop, the waiter table and the connection counter are proved against specifications.

Sockets, clocks, lock acquisition, connects, probe answers and the environment's choices are inputs: sequences of read chunks,
functions giving the outcome of each attempt, or steps that may happen at any time. Each section the program runs under a lock
is one step. Hash-map iteration orders are arbitrary sequences.

## Model

| member | source | states |
|---|---|---|
| `RouterCodec.FindNextRouterMagic` | src/protocol.rs:202-208 | the position found holds the magic byte and nothing before it does; none is found only when there is none |
| `RouterCodec.DecodeInvertsGrammar` | src/protocol.rs:138-200 | every frame of the router grammar, with anything after it, decodes to exactly its parts |
| `RouterCodec.DecodeIsSound` | src/protocol.rs:138-200 | whatever is accepted is a frame of the grammar made of exactly the parts reported |
| `RouterCodec.VerdictIsStable` | src/protocol.rs:138-200 | an answer other than "need more" is the same whatever bytes follow |
| `RouterCodec.StrictPrefixNeedsMore` | src/protocol.rs:138-160 | every strict prefix of a frame asks for more |
| `RouterCodec.PrependRouterHeader` | tests/common/command.rs:66-99 | for every input the pushes produce the grammar's layout, lengths cut to 32 bits with sums that wrap, the segment length cut to its low byte |
| `RouterCodec.CodecRoundTripIff` | tests/common/command.rs:66-99 | for every request, of whatever size, decoding its encoding plus any tail recovers every part if and only if the segment is UTF-8 of at most 255 bytes and the total fits 16 MiB |
| `RouterCodec.OversizedRequestIsNotRecovered` | src/protocol.rs:152-177 | outside those limits no encoded request is recovered, wrapped lengths included |
| `RouterCodec.WireExample` | tests/common/command.rs:66-99 | one encoded request, byte by byte |
| `RouterStream.AccountGivesFrames` | src/tcp_server.rs:167-270 | any account of a stream as taken frames and discarded stretches has the frames of the reference parse |
| `RouterStream.AccountExtend` | src/tcp_server.rs:146-166 | bytes that arrive later never invalidate what was taken or discarded |
| `RouterStream.AccountIsConservative` | src/tcp_server.rs:241-268 | taken, discarded and buffered bytes make up the stream, and every discarded magic byte was tried as a frame start and rejected for good |
| `RouterStream.ParseSkipsGarbage` | src/tcp_server.rs:252-266 | magic-free bytes in front never change the frames found |
| `RouterStream.ParseRecovers` | src/protocol.rs:202-208 | well-formed frames with magic-free bytes before, between and after them are found, all of them, in order, and nothing else |
| `RouterStream.RestIsRecoverable` | src/tcp_server.rs:167-270 | whatever has been taken or discarded of a recoverable stream, the rest is recoverable, with frames no larger |
| `RouterStream.HeldIsShort` | src/tcp_server.rs:167-270 | wherever in a recoverable stream the reading has got to, a drained buffer holds at most 64 bytes or a strict prefix of one of its frames |
| `RouterStream.ParseGrows` | src/protocol.rs:138-200 | bytes that arrive later only add frames to the parse |
| `RouterSession.Session.OnFrame` | src/tcp_server.rs:186-239 | the connection ends for the frame's size if and only if the frame is over the limit, and the frame then stays in the buffer; any other frame leaves it and is served |
| `RouterSession.Session.ServeRecoverable` | src/tcp_server.rs:167-269 | of well-formed frames with magic-free bytes around them, over a connection of any length and cut into reads anywhere, a prefix is served, and all of them if reading lasts; frames and reads that fit the limits, read by read, never end it for size |
| `RouterSession.OverflowNeedsALongRead` | src/tcp_server.rs:167-173 | on a recoverable stream the buffer overflows only if some read leaves no room for one frame or a 64-byte tail |
| `RouterSession.OverflowBound` | src/tcp_server.rs:167-173 | on any stream the buffer overflows only if the read leaves no room for the largest frame the decoder accepts |
| `RouterSession.Session.Resync` | src/tcp_server.rs:241-268 | the buffer is cut to the next magic byte after its first, or without one to its last 8 bytes if more than 64 are left; the account is kept and no frame is lost |
| `RouterSession.Session.KeepTail` | src/tcp_server.rs:260-266 | of more than 64 magic-free bytes exactly the last 8 stay, and no frame is lost |
| `RouterSession.Session.DrainStep` | src/tcp_server.rs:167-270 | an iteration that goes round again leaves a shorter buffer; it ends the connection for the buffer, the frame size or the time exactly when that limit is passed |
| `RouterSession.Session.OnRead` | src/tcp_server.rs:140-273 | after a read the frames served are a prefix of the parse of all bytes received, and all of it while the connection is open; it ends for its buffer exactly when the read takes the buffer over the limit; no frame over its limit is served and an open buffer is within its own |
| `RouterSession.Session.Serve` | src/tcp_server.rs:120-277 | for every split into reads the frames served are the parse of the concatenation while reading lasts, a prefix of it otherwise; each other ending names its cause, for the buffer the very read that overflowed a drained buffer; every end sends exactly one close message |
| `RouterSession.Session.ServeRequest` | src/tcp_server.rs:212-238 | one outcome per request, in request order: the first answer among its three attempts under its own id, written or failed to be written, or one error frame under its id that says 500; only a reply that went out keeps the connection open |
| `RouterSession.Answer` | src/tcp_server.rs:212-238 | a request with an answer among three attempts gets the first one's bytes with its own bytes 1..5, replied exactly when the write succeeds; any other gets one frame the shard reader accepts, under its id, with status ERROR and text 500 |
| `RouterSession.AnsweredOnce` | src/tcp_server.rs:212-238 | the attempts and the write determine the outcome |
| `RouterSession.RequestsAreAllButKeepalives` | src/tcp_server.rs:206-210 | the requests are exactly the frames whose segment is not the keepalive's, in order |
| `RouterSession.OutcomeCarriesId` | src/tcp_server.rs:212-236 | every error response, and every reply long enough to hold an id, holds the id of its request |
| `Execute.WithIdLaws` | src/cluster_handler.rs:455-457 | patching sets the id and nothing else; patching back the old id restores the frame |
| `Execute.Patch` | src/cluster_handler.rs:455-457 | the in-place patch is exactly the replacement of bytes 1..5 |
| `Execute.Execute` | src/cluster_handler.rs:416-491 | at most three attempts; the reply is the first answer's bytes with the client's bytes 1..5, or that answer itself under 9 bytes; without one the error is Timeout unless the third attempt had no connection, and then the one for a write or a read |
| `Execute.ExplainedOnce` | src/cluster_handler.rs:427-491 | a request's attempts leave one result only |
| `Execute.SentFramesAreTheClients` | src/cluster_handler.rs:428-471 | one frame for each attempt that gets a connection, in order, equal to the client's outside bytes 1..5 and under the id of that attempt |
| `Execute.RestoreGivesClientId` | src/cluster_handler.rs:473-481 | restoring changes only bytes 1..5, back to the client's id, and leaves short responses alone |
| `Demux.TableHoldsTheWaiters` | src/demux.rs:26-53 | after any sequence of stores, removals and cleanups the table holds under each id exactly the last waiter stored there that was neither taken nor expired since: ids never affect one another |
| `Demux.DemuxMap.LoadRemove` | src/demux.rs:31-34 | gives the last waiter stored under the id that was neither taken nor answered as too old since |
| `Demux.DemuxMap.Cleanup` | src/demux.rs:36-53 | answers and removes exactly the waiters, of the whole history of operations, that are older than the threshold, each once |
| `Correlation.StepKeepsCore` | src/cluster_handler.rs:425-491 | every step of every request, node, reader and cleanup keeps the demux, wire and phase invariant |
| `Correlation.StoreOverwritesNobody` | src/demux.rs:26-29 | storing a waiter under an id that was not reissued replaces no other waiter |
| `Correlation.ReaderFindsItsWaiter` | src/connection.rs:77-86 | on an open connection the id of a reply leads to the waiter of the very frame it answers |
| `Correlation.CleanUpAnswers` | src/demux.rs:36-53 | a cleanup delivers an empty response to exactly the expired waiters |
| `Correlation.StepsAreTableOps` | src/demux.rs:26-53 | every step of the protocol changes a connection's waiters by exactly one operation of the table, or not at all |
| `NoCrossTalk.StepKeepsInv` | src/connection.rs:119-121 | the full invariant, with the wrapping counter tied to the ids issued, is kept by every step that reissues no live id |
| `NoCrossTalk.NoCrossTalkInRuns` | src/cluster_handler.rs:455-481 | in every such run a successful reply is empty or is the node's answer to a frame of that request, with the client's id and nothing else changed |
| `NoCrossTalk.WindowRulesOutReissue` | src/connection.rs:119-121 | when every live use is fewer than w <= 2^32 ids old, the id about to be taken is in no live use |
| `NoCrossTalk.WindowRunsAreCareful` | src/connection.rs:119-121 | a run that takes ids only inside a window of at most 2^32 never reissues a live id |
| `NoCrossTalk.AtMostThreeFramesPerRequest` | src/cluster_handler.rs:427-491 | in every run, reissued ids included, a request takes at most three ids and its frames are the client's outside bytes 1..5 |
| `NoCrossTalk.ReaderNeverTrips` | src/connection.rs:83-86 | the reader meets an unknown id only on a connection already marked closed |
| `NoCrossTalk.WaitersAreNeverDropped` | src/cluster_handler.rs:473-490 | a waiting request's channel is never dropped unanswered while its connection is referenced |
| `Refinement.RequestsRunTheLoop` | src/cluster_handler.rs:427-491 | in every run, whatever the interleaving, a finished request's steps are at most three attempts, its result is what the attempt loop makes of them, its frames are those the loop sends, and it fails only after three |
| `Refinement.UnfinishedRequests` | src/cluster_handler.rs:427-491 | a request that is not finished has fewer than three attempts behind it, all failed |
| `Refinement.WritesGoToTheLeader` | src/cluster_handler.rs:429-452 | in every run the frames of a write are on leader connections and those of a read on follower connections |
| `Refinement.GoesOut` | src/cluster_handler.rs:455-464 | from any state a request with an open connection can be sent, its waiter stored |
| `Refinement.ComesBack` | src/connection.rs:77-106 | whatever the node then answers under that id can come back to the request, with the client's bytes 1..5 |
| `Refinement.ClosingIsFinal` | src/connection.rs:83-113 | a connection is closed exactly by a close, the end of its reader or an unknown id, and stays closed |
| `IdReuse.CrossTalkBeyondTheWindow` | src/connection.rs:119-121 | for every window larger than 2^32 a run inside it reaches a state where a request returned another's answer |
| `IdReuse.ExactWindow` | src/cluster_handler.rs:455-481 | no run inside a window of w ids ever mixes up replies if and only if w <= 2^32 |
| `ShardReader.FrameReader.FillTo` | src/protocol.rs:47-76 | buffers the bytes wanted whenever the stream has them, losing none |
| `ShardReader.FrameReader.DrainFrame` | src/protocol.rs:42-106 | for every split of the stream the result and the bytes left are those of the pure splitter |
| `ShardReader.FrameReader.ReadAll` | src/connection.rs:77-82 | the frames read depend on the stream only |
| `ShardReader.PrependHeader` | src/protocol.rs:108-116 | the payload stands after nine header bytes; under 2^32 bytes the result is the shard frame |
| `ShardReader.SplitInvertsHeaderIff` | src/protocol.rs:84-116 | an encoded payload with any tail is split off unchanged if it holds its status and field count, and is rejected as short otherwise |
| `ShardReader.SplitIsSound` | src/protocol.rs:42-106 | whatever the reader accepts is an encoded frame of a well-formed payload under the id and header reported, followed by the bytes left over |
| `ShardReader.SplitAllInvertsEncoding` | src/protocol.rs:42-116 | back-to-back encoded messages come out one by one, in order, unchanged |
| `ShardReader.BuildErrorResponse` | src/protocol.rs:211-240 | the pushes produce a shard frame with the given id around the error payload |
| `ShardReader.ErrorResponseIsReadable` | src/protocol.rs:211-240 | the error response is a frame the reader accepts under its id, whatever follows |
| `ShardReader.ErrorResponseSays` | src/protocol.rs:211-240 | the error response is one frame the reader accepts under its id, with status ERROR and the text of its code |
| `ShardReader.ClosingCodesNeverFire` | src/connection.rs:88-111 | the reader's slices are in range on every frame, and its branch for 308, 405 and 503 is never taken |
| `FollowerPool.Balancer.VisitNode` | src/cluster_handler.rs:314-370 | one pass of the loop is the specified visit, which `CursorFairness` and `VisitKeeps` determine |
| `FollowerPool.Balancer.NextFollowerConn` | src/cluster_handler.rs:311-372 | finds a connection exactly when an index in range leads to a node with an open one; returns an open one, drops only closed ones |
| `FollowerPool.ScanFinds` | src/cluster_handler.rs:339-369 | the scan finds the first open slot in cyclic order and drops only closed connections |
| `FollowerPool.VisitKeeps` | src/cluster_handler.rs:314-370 | a visit keeps the pool invariant, the known nodes and every open connection |
| `FollowerPool.SelectLooks` | src/cluster_handler.rs:314-370 | m visits look at exactly the m indices after the last one used |
| `FollowerPool.SelectExact` | src/cluster_handler.rs:311-372 | the exact condition under which a selection succeeds |
| `FollowerPool.DenseSelectionIsComplete` | src/cluster_handler.rs:311-372 | with indices 0..n-1, one node each, a selection succeeds if and only if some connection is open |
| `Fairness.RoundOnFull` | src/cluster_handler.rs:311-372 | on a full pool the j-th call of a round goes to the j-th next node and advances only its cursor |
| `Fairness.ExactFairness` | src/cluster_handler.rs:311-372 | n*c calls in a row return each pooled connection exactly once, and n calls in a row one connection of each node |
| `OpenFairness.SelectFirst` | src/cluster_handler.rs:314-370 | a selection goes to the first index, in cyclic order after the last one used, that has an open connection |
| `OpenFairness.EachOpenNodeOnce` | src/cluster_handler.rs:311-372 | with indices 0..n-1 and any set of open connections, if m nodes have an open one, any m calls in a row return an open connection of each of them exactly once, and the same holds again afterwards |
| `CursorFairness.SelectTakesFromCursor` | src/cluster_handler.rs:311-372 | on any pool a selection returns its node's first open slot in cyclic order from the stored cursor, leaves that cursor one past it and every other cursor alone |
| `CursorFairness.VisitDropsExactly` | src/cluster_handler.rs:339-369 | a visit drops exactly the entries it tries before the connection it returns, and all of the node's when it returns none |
| `CursorFairness.EachOpenSlotOnce` | src/cluster_handler.rs:311-372 | on any pool, whatever is open, of calls in a row the first m that go to a node with m open connections return each of them exactly once |
| `FollowerSync.HostHoldsAtMostC` | src/cluster_handler.rs:206-212 | no host holds more than the configured number of connections, so the subtraction never underflows |
| `FollowerSync.NewHosts` | src/cluster_handler.rs:200-205 | exactly the listed hosts without a pooled connection need all of them |
| `FollowerSync.Refill` | src/cluster_handler.rs:206-212 | pooled hosts that are short need exactly the rest |
| `FollowerSync.SnapshotRequired` | src/cluster_handler.rs:189-212 | the two walks compute the required numbers, in any key order |
| `FollowerSync.RoomGivesSlots` | src/cluster_handler.rs:255-266 | where the host has room there are at least as many free slots as new connections, so the indexing is in range |
| `FollowerSync.RequiredStillFits` | src/cluster_handler.rs:191-266 | what the snapshot required still fits after any pruning in between |
| `FollowerSync.InsertConnsEffect` | src/cluster_handler.rs:291-307 | inserting fills exactly the given slots with the given connections and sets a cursor only for a new node |
| `FollowerSync.PlaceHostKeeps` | src/cluster_handler.rs:254-308 | placing one host keeps the pool invariant, the history, other hosts' keys and every open connection |
| `FollowerSync.SyncWrite` | src/cluster_handler.rs:230-308 | the whole write section keeps the pool invariant and replaces no open connection; `FollowerNumbers` says which indices and slots it gives |
| `FollowerPlacement.CollectFree` | src/cluster_handler.rs:236-266 | the loop collects exactly the unused indices in ascending order |
| `FollowerPlacement.IndexTable` | src/cluster_handler.rs:242-252 | the table gives every remembered host its index |
| `FollowerPlacement.ChooseIndex` | src/cluster_handler.rs:268-289 | the index is the remembered one, else the last free one, else there is none |
| `FollowerPlacement.InsertAll` | src/cluster_handler.rs:291-307 | the loop inserts as specified |
| `FollowerPlacement.PlaceOne` | src/cluster_handler.rs:254-308 | one turn of the loop is the specified placement, and keeps the table right |
| `FollowerPlacement.WriteSection` | src/cluster_handler.rs:230-308 | the section as code is the specified write section |
| `FollowerPlacement.OpenConnectionsGrowExactly` | src/cluster_handler.rs:254-307 | a host given an index gains exactly as many open connections as were made to it |
| `FollowerPlacement.SyncGrowsExactly` | src/cluster_handler.rs:230-308 | over a whole sync every host's open count grows by its successful connects if it has an index; all other hosts keep exactly theirs |
| `FollowerIndices.ReturningHostKeepsIndex` | src/cluster_handler.rs:268-278 | a host that was known before gets its old index and takes none of the free ones |
| `FollowerIndices.KnownHostsKeepHistory` | src/cluster_handler.rs:242-306 | a sync naming no new host leaves the history as it is |
| `FollowerIndices.FirstSyncIsDense` | src/cluster_handler.rs:230-308 | a first sync reaching n distinct hosts numbers them 0..n-1, in any placing order |
| `FollowerNumbers.SyncNumbersExactly` | src/cluster_handler.rs:231-289 | after a sync exactly the hosts known before and, in placing order, each new host with the highest index below the number of followers that no pooled connection has and no new host before it took |
| `FollowerNumbers.NewIndicesAreUnused` | src/cluster_handler.rs:231-241 | a new host's index is below the number of followers and no pooled connection has it |
| `FollowerNumbers.NewIndicesDiffer` | src/cluster_handler.rs:279-283 | no two new hosts share an index |
| `FollowerNumbers.LeftOutExactly` | src/cluster_handler.rs:279-287 | a host with new connections stays unknown exactly when the new hosts before it used up the spare indices |
| `FollowerNumbers.NewConnectionsTakeTheLowest` | src/cluster_handler.rs:255-299 | new connection number m of a host is in its slot without an open connection that has m such slots below it |
| `FollowerIds.SyncKeepsOnePlace` | src/cluster_handler.rs:291-307 | new connections placed by a sync get one place each and no connection is ever pooled twice |
| `SelectionCompleteness.CompletenessIff` | src/cluster_handler.rs:311-372 | selection succeeds whenever a connection is open, for all closures and orders, if and only if every pooled node has an index in range that no other known node has |
| `SelectionCompleteness.StaysInsideIff` | src/cluster_handler.rs:206-212 | selections stay inside a list of hosts, for all closures and orders, if and only if the list has every pooled host whose index is in range; for a findable pool, every pooled host |
| `SelectionCompleteness.FailedHostLeavesAGap` | src/cluster_handler.rs:279-283 | a first sync that reaches only the second of two hosts leaves an open connection that is never selected |
| `LeaderPool.LeaderBalancer.SyncLeader` | src/cluster_handler.rs:129-187 | what an uninterrupted sync makes of each slot: open ones stay unless the leader changed, the others take their new connection |
| `LeaderPool.LeaderBalancer.ClearSlots` | src/cluster_handler.rs:146-151 | every slot is emptied |
| `LeaderPool.LeaderBalancer.FillSlots` | src/cluster_handler.rs:172-186 | exactly the listed slots with a successful connect change, and the stored host stays the leader |
| `LeaderPool.ToFillIsEmpty` | src/cluster_handler.rs:158-170 | the slots to fill are exactly those without an open connection, each once |
| `LeaderPool.LeaderBalancer.NextLeaderConn` | src/cluster_handler.rs:374-411 | gives the first open slot in cyclic order after the last one used, and none only if no slot is open |
| `ClusterSync.StepKeepsInv` | src/cluster_handler.rs:109-309 | every step of every caller, selection and closure keeps the invariant of the integrated machine |
| `ClusterRuns.RunsKeepInv` | src/cluster_handler.rs:109-309 | the invariant holds in every state of every run |
| `ClusterRuns.ReconcilingNeverPanics` | src/cluster_handler.rs:191-308 | in no run is an index out of range or a subtraction below zero; no host exceeds its connections; at most one caller is syncing |
| `ClusterRuns.SelectedLeaderMatchesHost` | src/cluster_handler.rs:129-187 | at every point of every run a selected leader connection goes to the stored leader host |
| `LeaderSync.MachineSyncsTheLeader` | src/cluster_handler.rs:129-187 | a caller of the state machine that is not interrupted makes of every leader slot what the code makes of it, whatever its connects give |
| `ClusterRuns.OpenLeaderConnsStay` | src/cluster_handler.rs:146-186 | between any two points of a run an open leader connection keeps its slot unless the slots were reset in between for a different leader; filling overwrites none |
| `ClusterRuns.OpenFollowerConnsStay` | src/cluster_handler.rs:254-364 | between any two points of a run a follower connection keeps its place unless closed, and no known node is forgotten |
| `ClusterRuns.IndicesAreStable` | src/cluster_handler.rs:242-306 | a host has one index for the whole run, gone in between or not, with cursor and connection numbers in range |
| `ClusterRuns.SelectionIsCompleteInRuns` | src/cluster_handler.rs:189-372 | after a first placement reaching all of a fixed set of hosts, indices stay a numbering 0..n-1 and selection succeeds exactly when a follower connection is open; that followers are distinct comes from the election |
| `ClusterRuns.CompleteIffFindableInRuns` | src/cluster_handler.rs:311-372 | in every state of every run, selection succeeds whenever a connection is open, for all closures and orders, if and only if every pooled node is findable |
| `ClusterRuns.ReadsStayInsideIffInRuns` | src/cluster_handler.rs:206-212 | in every state of every run, reads stay inside a list of hosts if and only if it has every pooled host whose index is in range |
| `StaleHosts.ReadsGoToALostHost` | src/cluster_handler.rs:206-212 | a run at rest in which a selection returns an open connection to a host that the last topology does not name |
| `Election.CountVotes` | src/topology.rs:255-261 | the votes are, for exactly the reported ids, the numbers of nodes reporting them |
| `Election.PickLeaderId` | src/topology.rs:263-267 | picks the last id with most votes in iteration order |
| `Election.MostVotedIsTop` | src/topology.rs:263-267 | the id picked has at least as many votes as any other; none is picked only when none is reported |
| `Election.SplitRoles` | src/topology.rs:269-280 | the leader is the last active leader reporting the id, the followers all active followers reporting it, in order |
| `Election.HoldElection` | src/topology.rs:251-286 | the code computes the specified outcome for some iteration orders of the two maps |
| `Election.ElectionIsSound` | src/topology.rs:255-286 | a most-voted id, a leader claiming it that is no follower, and exactly its active followers, each once; failure only without reports or without such a leader |
| `Election.MajorityWins` | src/topology.rs:255-267 | an id reported by more than half of the reporting nodes is picked in every order |
| `Election.PickHasMajorityIff` | src/topology.rs:255-267 | the id picked has more than half of the reporting nodes if and only if some id has, in every order |
| `Election.PluralityIsEnough` | src/topology.rs:255-267 | a node map on which, in every order, a leader is elected with two of four votes |
| `Election.OrderIrrelevantIffSettled` | src/topology.rs:255-286 | leader and follower set are the same for all iteration orders if and only if nobody can be elected or there is one most-voted id with one active leader |
| `Discovery.ProbedAreThoseThatAnswer` | src/topology.rs:295-360 | the result has exactly the nodes that resolve, are healthy and not unavailable and give their info, in order, each with its own host, health, leader id and peers |
| `Discovery.RecordHoldsTheLast` | src/topology.rs:227-249 | the node map has exactly the hosts that answered, each with its last data |
| `Discovery.RecordSeeds` | src/topology.rs:227-239 | phase 1 records the seeds that answered and collects exactly the peers that are not seeds |
| `Discovery.RecordPeers` | src/topology.rs:241-249 | phase 2 records the new peers after the seeds |
| `Discovery.DiscoverFromSeeds` | src/topology.rs:212-287 | the attempt as code gives the specified outcome for some hash-map orders |
| `Discovery.AttemptIsSound` | src/topology.rs:212-287 | a success is a sound election over the nodes that answered, and observes at least one id, all of them seeds or new peers |
| `Discovery.EveryoneIsObserved` | src/topology.rs:222-249 | every seed that answers and every probed peer that answers is observed |
| `Discovery.PeersAreProbedOnce` | src/topology.rs:222-249 | the peers probed are exactly those an answering seed names, the seeds excepted; nobody is observed twice |
| `Discovery.TopologyDiscovery.Discover` | src/topology.rs:164-206 | a success is sound and replaces the remembered ids by those that answered, never by none; a failure changes nothing and means that the fallback had no ids or that an attempt from them failed; the fallback is used only after the remembered ids failed |
| `Server.Counting.OnConnection` | src/tcp_server.rs:80-93 | a connection is dropped exactly when handlers and queued closes make up the limit |
| `Server.Counting.OnAdmit` | src/tcp_server.rs:95-113 | admitting counts one handler in and stays within the limit |
| `Server.Counting.OnClose` | src/tcp_server.rs:62-72 | the counter never goes below zero |
| `Server.Counting.Handle` | src/tcp_server.rs:62-113 | each event has exactly its effect when it can happen, and none otherwise |
| `Server.EventsAddUp` | src/tcp_server.rs:55-117 | over every list of events: starts are the admissions, every connection taken up was dropped, started or is about to be, every handler runs or has ended once, and the counter is running handlers plus queued closes, within the limit |
| `Server.Counting.Run` | src/tcp_server.rs:55-117 | the code carries out the events in order, and from the start they add up |

## Where the code differs from its documentation

- The comment on the vote (`src/topology.rs:255`) speaks of a majority; the code takes a plurality.
  `Election.PluralityIsEnough` has a node map that shows it, and `Election.PickHasMajorityIff` says exactly when the id picked
  has a majority.
- The reader's handling of error codes 308, 405 and 503 (`src/connection.rs:90-111`) applies payload offsets to the whole
  frame, so it never takes effect: `ShardReader.ClosingCodesNeverFire`.
- The repository's README says reads go to a follower of the shard; hosts that left the topology stay in the pool and are
  refilled (`src/cluster_handler.rs:206-212`). `StaleHosts.ReadsGoToALostHost` has a run that shows it, and
  `ClusterRuns.ReadsStayInsideIffInRuns` says exactly when reads stay inside a list of hosts.
- `take()` on a closed leader slot (`src/cluster_handler.rs:399`) acts on a temporary; the model leaves the slot alone.

## Left out

- Sockets, the HTTP clients, RzID, RzPoint, the metrics, the command line and the API server: wrappers around libraries.
- Deadlock freedom: sync and selection take the two locks in opposite orders; only safety over whole sections is proved.
- Termination and timing of `execute`: it waits for its response without a limit. Clocks, back-off, idle and frame timeouts
  are inputs.
- Closures during a section: each section sees one set of closed connections; the next section may see a larger one.
- The order in which one connection's replies arrive: any order is allowed, which includes the one that occurs.
- The 32-bit width of node indices, connection indices and cursors, which are bounded by the configured connection number and
  the number of hosts.
- The fields inside an error response: its declared field length does not cover what follows, so only the header, the status
  and the text at its end are claimed.
- The test of an empty buffer after a parse error (`src/tcp_server.rs:246-248`): a rejected buffer is never empty.
- RouterCodec.PrependRouterHeader: sums of lengths wrap at 2^32, as in a release build; a debug build panics there instead.
- RouterSession.OutcomeCarriesId: of replies, speaks of those of at least 9 bytes, the ones the program patches; that non-empty
  ones have at least 12 is part of `NoCrossTalk.NoCrossTalkInRuns`.
- RouterSession.Session.Serve: every way out of the read loop without an error inside the drain loop (end of stream, read
  error, idle limit, cancellation) is the same ending.
- ClusterRuns.SelectionIsCompleteInRuns: keeps the hypothesis that the first placement reaches every host; `FailedHostLeavesAGap`
  shows that it is needed and `CompleteIffFindableInRuns` gives the exact condition in every state of every run.
- A panic inside a handler, which would skip its close message.
- The test-only command builder and response decoder in `tests/common/command.rs`.
