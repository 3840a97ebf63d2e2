# Verified core of the Psiphon tunnel client

This project models five stateful cores of the Psiphon client, and the meek server that one of them
talks to, as step machines and classes, and proves properties of all of their runs.

1. **Meek relay.** A byte stream is carried in both directions over retried HTTP round trips. On the
   client, writers, readers and the relay pass one send buffer and one receive buffer around through
   channels of capacity one; on the server, a repeated request body is skipped by its checksum and a
   retry is answered from a cached response. `MeekPadding` is the payload padding codec and its
   resumable receiver, `CachedResponses` the server's ring of cached response bytes, `MeekRelay` the
   machine that interleaves writers, readers, relay, network and server, `MeekServer` the server's
   handler in place, which refines that machine's server, `MeekTokens`, `MeekUpstream` and
   `MeekDownstream` the machine's three invariants, `MeekDesync` the converse of the last one,
   `MeekHazards` the runs that break what does not hold in general, and `MeekRetry` the retry schedule
   of one round trip.
2. **Tunnel pool and establishment.** `TunnelPools` is the pool with its round-robin cursor,
   `RunTunnels` the event loop racing with tunnel failures and with establishment,
   `ProtocolSelection` the choice of a protocol for one dial, and `Establishment` the workers with
   their shared counters and the affinity broadcast.
3. **Datastore.** `Buckets` is a map with a byte-sorted cursor, `ServerEntries` the server entries
   with tag index, tombstones, affinity and dial parameter keys, `EntryIterator` (on `Lists`) the
   order of `ServerEntryIterator.reset`, and `PersistentStats` the take-out, put-back and clear
   protocol, with `StatBatches` what fits in one batch.
4. **Replay records.** `ReplayRecords` is the life of a dial parameters record, and when a dial is
   marked as a replay.
5. **Crash-safe put.** `FilesStore` is the files backend, with a crash between any two file
   operations.

`dafny verify dfyconfig.toml` checks the whole project.

## How the model relates to the code

- A run is any interleaving of steps that each party takes under one lock, in one channel operation
  or in one transaction; the network, failures, random choices, clocks and cancellation are
  arguments of the steps or nondeterministic choices. Theorems about runs quantify over all of them.
- The ciphers of payload padding are any involutive functions of stream position and byte;
  `MeekPadding.XorInvolutive` shows that exclusive or with a key stream is one. The checksum of
  request bodies is any function. Which stats are JSON is any predicate; that the empty one is not is
  assumed only where it matters.
- The relay machine assumes that the requests of a session reach the server one after the other and
  that a client sees no status code for a request whose body the server could not read.
- Integers are unbounded where the code's are wide enough; the tag record's version is limited as the
  code limits it. Retry delays are computed over real numbers and truncated, without rounding.

## Where the code does less than expected

Each of these has a lemma with the exact condition and one with a concrete input or run.

- A request body with the checksum of the body before it is taken for a retry and lost
  (`MeekHazards.CollisionLoses`); the upstream invariant is kept exactly otherwise
  (`MeekUpstream.UpInvKept`).
- A retry whose first request did not reach the server may be answered with the previous response
  (`MeekHazards.StaleRepeats`), a retry at position 0 after the cache was overwritten with the next
  response (`MeekHazards.OverflowLoses`); the server's answer is the right one exactly otherwise
  (`MeekDownstream.ServeDownstream`). The comment in `psiphon/server/meek.go` mentions the first.
- Giving up after a failed read of a response returns the outer, nil error, and the relay goes on
  (`MeekHazards.AbandonLoses`, `MeekDownstream.GiveUpDownstream`). Every step keeps client and server
  in step downstream exactly if it is none of these three, called hazards below
  (`MeekDesync.DownInvExactly`).
- A padded poll may be longer than the request payload limit (`MeekHazards.PollExceedsLimit`), exactly if
  padding is on and the configured maximum padding with its header is (`MeekHazards.RequestsWithinLimit`).
- A pool size that grows while the loop is about to stop establishment leaves the pool short with
  nothing to fill it (`RunTunnels.GrowthStalls`, `RunTunnels.InvKept`).
- A forced in-proxy replay may use a protocol outside of the list in force
  (`ProtocolSelection.ForcedReplayEscapes`, `ProtocolSelection.OutsideExactly`).
- Two servers stored under one tag: one of them is not found by tag (`ServerEntries.SharedTagHidesEntry`,
  `ServerEntries.IndexKept`).
- Deleting a server deletes dial parameters of every server whose key starts with its ID
  (`ServerEntries.DeleteTakesLongerIDs`, `ServerEntries.DeleteTakesDialParameters`). The comment in
  the code speaks of that server's keys only.
- A stat stored again while it is reported is taken out twice (`PersistentStats.RestoreOverlaps`,
  `PersistentStats.DisjointKept`).
- A take-out can exceed its byte limit, where the comment says "up to" the limit: one long record does
  (`PersistentStats.LongRecordExceeds`). It stays within the limit exactly if all waiting records do, or if
  they reach it exactly at a record of the last stat type that has any (`PersistentStats.WithinLimit`).
- Dial parameter keys of different servers and networks can be equal, and then a dial is marked as a
  replay of another server's success (`ReplayRecords.CollisionMisleads`, `ReplayRecords.ReplayTruth`).
- A delete interrupted after removing a pending commit brings back the older value
  (`FilesStore.DeleteRevives`, `FilesStore.InterruptedDelete`).

## Model

| member | source | states |
|---|---|---|
| `MeekPadding.HeaderRoundTrip` | psiphon/common/protocol/meek.go:203-242 | the receiver in step with the sender reads back exactly the sender's padding header, whatever payload follows, and ends in step again |
| `MeekPadding.ConsumeResumes` | psiphon/common/protocol/meek.go:244-383 | a read interrupted anywhere and resumed equals one uninterrupted read: bytes, outcome and parser state |
| `MeekPadding.ConsumeStops` | psiphon/common/protocol/meek.go:267-383 | once a header is complete or refused, no further bytes are looked at |
| `MeekPadding.HeaderResumes` | psiphon/common/protocol/meek.go:267-383 | reading on from inside a header waits for exactly the rest of it and then completes at the sender's cipher position |
| `MeekPadding.PaddingReceiver.SkipPadding` | psiphon/common/protocol/meek.go:350-368 | padding is skipped in blocks as far as there is input, and no byte beyond it |
| `MeekPadding.PaddingReceiver.ReceiverConsumePadding` | psiphon/common/protocol/meek.go:267-383 | the loop over header bytes and padding blocks computes the parser function, and asks to be resumed exactly when the header is incomplete |
| `CachedResponses.Ring.KeptAmount` | psiphon/server/meekBuffer.go:188-260 | the cache keeps the whole response or as much as its buffers hold, and never nothing of a non-empty one |
| `CachedResponses.BufferPool.Get` | psiphon/server/meekBuffer.go:298-310 | a buffer is handed out exactly if one is left |
| `CachedResponses.CachedResponse.constructor` | psiphon/server/meekBuffer.go:58-70 | a new cache holds the empty response |
| `CachedResponses.CachedResponse.Reset` | psiphon/server/meekBuffer.go:73-85 | the response is forgotten and every borrowed buffer goes back to the pool |
| `CachedResponses.CachedResponse.Write` | psiphon/server/meekBuffer.go:188-260 | everything written is accounted for, the buffers hold its last bytes in ring order, and buffers are neither lost nor created |
| `CachedResponses.CachedResponse.HasPosition` | psiphon/server/meekBuffer.go:95-103 | true exactly if something was written and the response from that position on is still held |
| `CachedResponses.CachedResponse.CopyFromPosition` | psiphon/server/meekBuffer.go:112-178 | sends exactly the response from the position on, across buffer ends and the wrap, or fails exactly if that part was overwritten |
| `CachedResponses.CachedResponse.WriteAll` | psiphon/server/meekBuffer.go:188-260 | the parts of a response are appended one after the other |
| `MeekServer.Session.constructor` | psiphon/server/meek.go:1253-1335 | a new session is the relay machine's initial server |
| `MeekServer.Session.PumpReads` | psiphon/server/meek.go:2567-2710 | reading a request body in place, with the padding receiver, is the machine's pumpReads, and allows a cached response exactly for empty and repeated bodies |
| `MeekServer.Session.PumpWrites` | psiphon/server/meek.go:2751-2840 | the response is a bare padding prefix and the downstream traffic, or padding alone without traffic, and its copy is in the cache |
| `MeekServer.Session.ResumeResponse` | psiphon/server/meek.go:855-869 | the cached ring answers from the position asked for, or ends the session exactly if that position is gone |
| `MeekServer.Session.NewResponse` | psiphon/server/meek.go:873-911 | the old response's buffers are given back and the new one is the machine's, with exactly as much kept as the ring holds |
| `MeekServer.Session.Respond` | psiphon/server/meek.go:829-911 | resuming or answering anew is decided and done as by the machine's server |
| `MeekServer.Session.ServeRelay` | psiphon/server/meek.go:757-911 | the whole handler, on ring buffers and padding state updated in place, refines the server of the relay machine |
| `MeekTokens.LimitSuffices` | psiphon/meekConn.go:2025-2059 | every payload limit that can be picked has room for the prefix and a payload byte, and is within the server's maximum, exactly if the configured minimum is positive |
| `MeekTokens.SendInvKept` | psiphon/meekConn.go:1185-1278 | every step keeps the send buffer in exactly one place and of the length of its channel's class |
| `MeekTokens.WriteTurn` | psiphon/meekConn.go:1185-1215 | one turn of Write accepts a non-empty part from the front of what is left, and the call ends exactly when nothing is left |
| `MeekTokens.ReceiveInvKept` | psiphon/meekConn.go:1163-1181 | every step keeps the receive buffer in exactly one place, of the length of its class, holding what was delivered and not yet read |
| `MeekTokens.InvariantsNeverBlock` | psiphon/meekConn.go:1185-1278 | a party that holds a buffer can always put it back without blocking, a writer that takes the buffer appends at least one byte, and the relay never finds a send buffer without payload |
| `MeekTokens.BufferTokens` | psiphon/meekConn.go:806-817 | in every run each buffer is in exactly one channel or with one party, of the right length, dropped only in closing, and nobody blocks with a buffer in hand |
| `MeekUpstream.PumpReadsTakes` | psiphon/server/meek.go:2567-2705 | a request body that is not taken for a repeat is passed on without its padding, and client and server ciphers are in step afterwards |
| `MeekUpstream.ServeUpstream` | psiphon/server/meek.go:762-925 | a request leaves the server in step with the client exactly if its body does not collide with the last one |
| `MeekUpstream.AcknowledgeUpstream` | psiphon/meekConn.go:1722-1745 | a status code makes the round's payload count as sent and gives the emptied send buffer back |
| `MeekUpstream.UpInvKept` | psiphon/meekConn.go:1572-1852 | every step of writers, relay, network and server keeps the account of accepted, sent and relayed bytes exactly if it is no checksum collision |
| `MeekUpstream.UpstreamExactlyOnce` | psiphon/meekConn.go:1585-1607 | in every run without collisions the payloads the server relays are a prefix of the bytes accepted by Write, in order, without gap or repeat, and between rounds everything but the send buffer |
| `MeekDownstream.ConsumeAt` | psiphon/meekConn.go:1747-1793 | a client that has read j bytes of a padded response goes on in its padding header where it left off |
| `MeekDownstream.ServeDownstream` | psiphon/server/meek.go:829-911 | the answer continues the client's response from its position exactly if it is neither stale nor made anew after an overflow |
| `MeekDownstream.ReceiveDownstream` | psiphon/meekConn.go:1747-1793 | starting on the next part of a response, padding first, keeps the client in step |
| `MeekDownstream.FillDownstream` | psiphon/meekConn.go:1874-1902 | every chunk goes behind what was delivered before, and a body read to its end completes the round |
| `MeekDownstream.GiveUpDownstream` | psiphon/meekConn.go:1813-1827 | giving up on a response keeps the stream in step exactly if all of the response was read or the relay stops with an error |
| `MeekDownstream.DownInvKept` | psiphon/meekConn.go:1572-1852 | every step without a hazard keeps the bytes delivered a contiguous, unrepeated part of the responses, at the position the relay has reached |
| `MeekDownstream.DownstreamResumes` | psiphon/meekConn.go:1671-1679 | in every run without a hazard or a checksum collision, Read returns a prefix of the responses' payloads, all of them are in the receive buffer between rounds, and the Range offset is the padding consumed plus the payload delivered in this round |
| `MeekDesync.ConsumeAdvances` | psiphon/common/protocol/meek.go:267-383 | whatever is read as a header, the cipher moves by its first three bytes, or by one for a bare prefix |
| `MeekDesync.OnlyFitting` | psiphon/meekConn.go:1747-1811 | a client that starts on a response is in step afterwards only if it is all that was produced since the round began and the cipher was at its start |
| `MeekDesync.DownInvExactly` | psiphon/meekConn.go:1572-1852 | every step keeps the downstream invariant exactly if it is no hazard, unless the relay stops with it |
| `MeekDesync.StopsOnlyForCause` | psiphon/meekConn.go:1572-1852 | without hazards the relay stops only in closing, when the server has given up the session, or when it gives up a round whose requests failed |
| `MeekHazards.CollisionLoses` | psiphon/server/meek.go:2616-2643 | the same byte written twice in two unpadded rounds is relayed once |
| `MeekHazards.StaleRepeats` | psiphon/server/meek.go:829-869 | a poll retried after its first request was lost gets the previous response again |
| `MeekHazards.OverflowLoses` | psiphon/server/meek.go:829-911 | a retry at position 0 after an overflow gets the next response, and the first is lost |
| `MeekHazards.AbandonLoses` | psiphon/meekConn.go:1795-1827 | after two failed reads the relay goes on without an error and without the response |
| `MeekHazards.PollExceedsLimit` | psiphon/meekConn.go:1354-1386 | a padded poll longer than the payload limit |
| `MeekHazards.RequestsWithinLimit` | psiphon/common/protocol/meek.go:203-242 | every request of every run is within the payload limit exactly if padding is off or the configured maximum padding and its three header bytes fit in it, and always within the server's maximum |
| `MeekTokens.BodyFitsKept` | psiphon/meekConn.go:1345-1402 | every step keeps request bodies within the longer of the payload limit and the longest padded poll |
| `MeekRetry.NextDelay` | psiphon/meekConn.go:1838-1846 | the next delay is not shorter and not above the maximum |
| `MeekRetry.DelaysGrow` | psiphon/meekConn.go:1813-1846 | delays never decrease nor exceed the maximum, and tries are at least the minimum delay apart |
| `MeekRetry.AttemptBound` | psiphon/meekConn.go:1813-1846 | more than two tries fit less than a deadline's worth of minimum delays, so there are at most 2 + deadline / minimum delay |
| `MeekRetry.RelayRoundTrip` | psiphon/meekConn.go:1616-1846 | the loop ends within that bound, succeeds exactly if the last attempt does, retries once always and later only if the wait ends before the deadline, and gives up only for lack of time or on closing |
| `TunnelPools.TerminateKeepsOrder` | psiphon/controller.go:1466-1484 | removing a tunnel leaves the cyclic visiting order of the others from the cursor unchanged, and the pool valid |
| `TunnelPools.RegisterKeepsOrder` | psiphon/controller.go:1378-1411 | a tunnel is registered exactly if there is room and no tunnel to its server, and leaves the order of the others unchanged |
| `TunnelPools.PickRotates` | psiphon/controller.go:1511-1521 | a pick returns the first tunnel of the order and moves it to the end |
| `TunnelPools.RoundRobinVisitsAll` | psiphon/controller.go:1511-1521 | n picks on an unchanged pool of n visit each tunnel once and restore the order |
| `TunnelPools.TerminateAt` | psiphon/controller.go:1469-1480 | cutting the slice at the tunnel's place and moving the cursor is removal by the specification |
| `TunnelPools.TunnelPool.RegisterTunnel` | psiphon/controller.go:1378-1411 | the duplicate check loop and the append implement registration |
| `TunnelPools.TunnelPool.TerminateTunnel` | psiphon/controller.go:1466-1484 | the search loop, the cut and the cursor adjustment implement removal and keep the visiting order |
| `TunnelPools.TunnelPool.GetNextActiveTunnel` | psiphon/controller.go:1511-1521 | returns the tunnel at the cursor and advances it, none exactly if the pool is empty |
| `TunnelPools.TunnelPool.SetTunnelPoolSize` | psiphon/controller.go:1538-1548 | the target size is clamped to 1 to 32 |
| `TunnelPools.TunnelPool.TerminateAllTunnels` | psiphon/controller.go:1488-1507 | the pool is empty with its cursor at 0 |
| `RunTunnels.OnlyNeededTunnels` | psiphon/controller.go:1184-1252 | a connected tunnel is left alone if the pool is full; else it ends up in the pool exactly if no tunnel there has its server, and establishment has then been stopped exactly if the pool is full; a refused one leaves the pool as it was and being filled |
| `RunTunnels.InvKept` | psiphon/controller.go:1120-1304 | every step of loop, failures, establishment and dials keeps what the loop relies on, exactly unless the pool grows after the decision to stop establishing |
| `RunTunnels.PoolAlwaysValid` | psiphon/controller.go:1378-1548 | in every run the cursor is in range, 0 when the pool is empty, the servers are distinct and there are at most 32 tunnels |
| `RunTunnels.NoStalledPool` | psiphon/controller.go:1120-1304 | at every loop head a pool that is not full has establishment running or a failure pending, even with failure overflow in the middle of an activation |
| `RunTunnels.ConstantSizeNeverStalls` | psiphon/controller.go:2208-2228 | with a constant target size every run is like that |
| `RunTunnels.GrowthStalls` | psiphon/controller.go:1184-1199 | a run in which the pool size grows at the wrong moment and the loop waits for nothing |
| `ProtocolSelection.DialMeetsConstraints` | psiphon/controller.go:1754-1938 | fresh selection, replay, exchanged records, prioritized protocols and the rate limiter all end in a supported protocol of the list in force, not intensive when intensive ones are excluded, except for forced in-proxy replay |
| `ProtocolSelection.OutsideExactly` | psiphon/controller.go:2976-3008 | a dial is outside of the supported list exactly if selection is forced and a stored in-proxy protocol is outside |
| `ProtocolSelection.ForcedDialsInproxy` | psiphon/controller.go:2963-3036 | a forced selection dials in-proxy or not at all, by replay or anew |
| `ProtocolSelection.ForcedReplayEscapes` | psiphon/controller.go:2976-3008 | forced selection replays a protocol outside of the list in force |
| `ProtocolSelection.PersonalLimits` | psiphon/controller.go:2145-2167 | in personal pairing mode the list in force is never empty and in-proxy only |
| `Establishment.CapKept` | psiphon/controller.go:2948-3173 | every step keeps the intensive counter equal to the number of workers dialing an intensive protocol, and below the cap |
| `Establishment.DialKept` | psiphon/controller.go:3057-3117 | every step keeps dial numbers in order and each protocol in the list in force for its number |
| `Establishment.ForceKept` | psiphon/controller.go:2963-2974 | every forced replay uses up one forced selection |
| `Establishment.CloseKept` | psiphon/controller.go:2564-2671 | every step keeps the duty to close the broadcast with the generator, with one worker, or spent |
| `Establishment.IntensiveWorkerCap` | psiphon/controller.go:2948-3173 | in every run with a positive limit the counter is the number of intensive dials and never exceeds the limit |
| `Establishment.LimitsInForce` | psiphon/controller.go:1770-1796 | accepted dials are numbered 0, 1, 2, … without repeats across workers, and dial k uses the list in force for k, outside of forced in-proxy replays, of which there are no more than forced selections |
| `Establishment.PersonalPairing` | psiphon/controller.go:2145-2167 | in personal pairing mode every dial of every run is in-proxy |
| `Establishment.ClosedAtMostOnce` | psiphon/controller.go:3085-3233 | the affinity broadcast is closed at most once, and the generator's and the workers' ways to close it exclude each other |
| `Buckets.PrefixConvex` | psiphon/dataStore.go:1540-1556 | in byte order, keys with a common prefix are next to each other |
| `Buckets.ScanPrefix` | psiphon/dataStore.go:1544-1556 | the scan that stops after the first group of keys with a prefix finds all of them |
| `ServerEntries.TagRecordRoundTrip` | psiphon/dataStore.go:3131-3170 | a tag record is made exactly for IDs without a zero byte and versions in range, and reads back |
| `ServerEntries.TagRecordReadsBack` | psiphon/dataStore.go:3151-3170 | a record with a version in range that reads back was made from what it reads as |
| `ServerEntries.AffinityKept` | psiphon/dataStore.go:516-591 | every operation keeps the affinity key naming a stored entry |
| `ServerEntries.AffinityNamesStoredEntry` | psiphon/dataStore.go:1516-1538 | over all runs of store, promote, prune and delete the affinity key names a stored entry |
| `ServerEntries.LookupFinds` | psiphon/dataStore.go:2767-2790 | an indexed entry is found under its tag and version, and under no other version |
| `ServerEntries.VersionsOnlyGrow` | psiphon/dataStore.go:318-336 | over every run in which no entry is deleted, pruned, damaged or replaced by force, the stored version of a server is the greatest of the one before and all those offered |
| `ServerEntries.TombstonesHold` | psiphon/dataStore.go:352-364 | over all runs a tombstone stays, keeps embedded entries with its tag out, and lets other sources restore them |
| `ServerEntries.StoreKeepsIndex` | psiphon/dataStore.go:283-404 | storing an entry keeps every stored entry found under its tag and version exactly if no other stored entry has its tag |
| `ServerEntries.PruneKeepsIndex` | psiphon/dataStore.go:1358-1453 | pruning a tag, also one whose server's address was recycled, keeps every remaining entry found |
| `ServerEntries.PruneEffect` | psiphon/dataStore.go:1410-1440 | a prune removes the tag, the entry exactly if it still has that tag, and leaves a tombstone exactly for an embedded entry |
| `ServerEntries.DeleteKeepsIndex` | psiphon/dataStore.go:1472-1514 | deleting a server keeps every remaining entry found |
| `ServerEntries.IndexKept` | psiphon/dataStore.go:2767-2790 | every operation keeps every stored entry found by the lookup, exactly if it is no clash of tags |
| `ServerEntries.TagIndexComplete` | psiphon/dataStore.go:2767-2790 | after any run from the empty store without a clash of tags every stored entry is found by the lookup of its tag and version |
| `ServerEntries.OwnedTagsComplete` | psiphon/dataStore.go:338-348 | so it is when a tag determines its server ID, as derived tags do |
| `ServerEntries.SharedTagHidesEntry` | psiphon/dataStore.go:377-386 | any two servers stored under one tag: one of them is not found |
| `ServerEntries.DeleteTakesDialParameters` | psiphon/dataStore.go:1540-1568 | a delete takes the entry, its affinity and all of its dial parameters, nothing of another server's entry or affinity, and another's dial parameters exactly if the key starts with the deleted ID |
| `ServerEntries.DeleteTakesLongerIDs` | psiphon/dataStore.go:1540-1568 | the dial parameters of 1.2.3.45 go with the server 1.2.3.4 |
| `ServerEntries.ServerEntryStore.StoreServerEntry` | psiphon/dataStore.go:283-404 | an entry is replaced only if forced or newer, embedded entries respect tombstones, and an invalid version fails the transaction |
| `ServerEntries.ServerEntryStore.PromoteServerEntry` | psiphon/dataStore.go:516-558 | afterwards the server has affinity exactly if it is stored or had it before, so affinity goes on naming a stored entry |
| `ServerEntries.ServerEntryStore.DeleteServerEntryAffinity` | psiphon/dataStore.go:564-591 | afterwards the server has no affinity, and another server's is kept, so affinity goes on naming a stored entry |
| `ServerEntries.ServerEntryStore.DeleteServerEntryHelper` | psiphon/dataStore.go:1516-1568 | the early-exit scan and the delete loop remove the entry, its affinity and exactly the dial parameters with its prefix |
| `ServerEntries.ServerEntryStore.DeleteServerEntry` | psiphon/dataStore.go:1472-1514 | also the tags whose record is the bare server ID |
| `ServerEntries.ServerEntryStore.PruneServerEntry` | psiphon/dataStore.go:1358-1453 | the tag goes if old enough, the entry only if it still has that tag, and embedded entries leave a tombstone |
| `Lists.ScanRest` | psiphon/dataStore.go:1006-1032 | the scan over all entries finds exactly those not at the front of the list, although it drops the lookup of moved entries early |
| `Lists.Shuffle` | psiphon/dataStore.go:1037-1041 | for every random choice the shuffle permutes the tail and leaves the head alone |
| `EntryIterator.Candidates` | psiphon/dataStore.go:948-973 | the scan of dial parameters finds exactly the stored servers with a record for this network, each once, without the affinity server |
| `EntryIterator.MoveToFront` | psiphon/dataStore.go:975-986 | at most the maximum of candidates is moved, and all of them if the maximum is not reached |
| `EntryIterator.BuildList` | psiphon/dataStore.go:866-1041 | the list is a duplicate-free permutation of all entries: affinity server, replay candidates, shuffled rest |
| `EntryIterator.ServerEntryIterator.Reset` | psiphon/dataStore.go:818-1059 | the iterator gets that list, affinity in the first round only, no move to front for pruning, and is left empty on cancellation |
| `StatBatches.BatchWithinLimit` | psiphon/dataStore.go:1890-1942 | for all waiting records and every limit, the batch stays within it exactly if all records do, or they reach it exactly at some record and no later stat type has one waiting |
| `StatBatches.CutFacts` | psiphon/dataStore.go:1896-1927 | of one stat type the first records are taken, at least one if there is any, all unless they use up the room, which is exceeded by less than one record |
| `PersistentStats.TakeFrom` | psiphon/dataStore.go:1894-1928 | takes the valid unreported records of one type up to the first that uses up the room, and drops exactly the invalid ones met on the way |
| `PersistentStats.StopsCut` | psiphon/dataStore.go:1896-1927 | stopping there takes just the records that fit by the specification |
| `PersistentStats.WithinLimit` | psiphon/dataStore.go:1863-1866 | a take-out stays within its byte limit exactly if the records waiting before it do, or reach it exactly at a record of the last stat type that has any |
| `PersistentStats.LongRecordExceeds` | psiphon/dataStore.go:1921-1924 | one waiting record longer than the limit is taken all the same |
| `PersistentStats.StatStore.TakeOutUnreported` | psiphon/dataStore.go:1869-1951 | the batch is set to reporting; its total is within M exactly if the records waiting before fit or reach M exactly in the last type waiting, and always below max(M, 1) + k·L; every type with a waiting record gives one; and all are taken and all invalid ones dropped if the total stays below M |
| `PersistentStats.StatStore.Store` | psiphon/dataStore.go:1791-1829 | a record is stored unreported unless its type has the maximum of records; a type that is not persistent is refused |
| `PersistentStats.StatStore.PutBackUnreported` | psiphon/dataStore.go:1955-1978 | every record of the batch is unreported again |
| `PersistentStats.StatStore.ClearReported` | psiphon/dataStore.go:1982-2005 | exactly the records of the batch are gone |
| `PersistentStats.StatStore.ResetAllToUnreported` | psiphon/dataStore.go:2011-2044 | all records are unreported and none is lost |
| `PersistentStats.TakeOutPutBack` | psiphon/dataStore.go:1955-1978 | take-out followed by put-back restores the records, but for invalid ones that were dropped |
| `PersistentStats.NeverLost` | psiphon/dataStore.go:1762-1770 | over all runs a stored stat with a valid key disappears only by a clear of a batch that took it out |
| `PersistentStats.DisjointKept` | psiphon/dataStore.go:1818-1821 | every step keeps outstanding batches disjoint and reporting, exactly unless it stores a stat that is being reported |
| `PersistentStats.BatchesDisjoint` | psiphon/dataStore.go:1762-1770 | over all runs of one session without such a store, outstanding batches are disjoint |
| `PersistentStats.RunLeavesNoneStuck` | psiphon/dataStore.go:1762-1770 | in every run a record is available for a take-out or belongs to an outstanding batch |
| `PersistentStats.RestoreOverlaps` | psiphon/dataStore.go:1818-1821 | a stat stored again while reported is in two outstanding batches |
| `ReplayRecords.PrioritizeKeepsRecords` | psiphon/dataStore.go:2804-2850 | prioritizing never overwrites a record, and leaves one |
| `ReplayRecords.OwnRecordOnly` | psiphon/dialParameters.go:1968-2039 | a dial, its success and its failure change the record of their own key only |
| `ReplayRecords.FreshRecordsStay` | psiphon/dialParameters.go:433-446 | a record that could be replayed stays when a dial may not use it, and a failed dial takes its record exactly if it was a replay or goes back to a placeholder and is not retained |
| `ReplayRecords.FailedDialTakes` | psiphon/dialParameters.go:1980-2040 | a failed dial takes a record it replayed unless retained, one it replayed but was steered away from exactly if that goes back to a placeholder, a placeholder unless retained, and no other |
| `ReplayRecords.PrioritizedHandedDown` | psiphon/dialParameters.go:496-506 | the mark of a placeholder is handed down by success and replay, and dropped when the replay ends |
| `ReplayRecords.MakeDialTruthful` | psiphon/dialParameters.go:285-519 | a dial marked as replay used a record last written by a success of the same server and network, within the TTL, with the same server entry hash |
| `ReplayRecords.CollisionMisleads` | psiphon/dataStore.go:2286-2289 | for any two pairs of server and network with one key, a dial to the second is marked as a replay of the first |
| `ReplayRecords.ReplayTruth` | psiphon/dialParameters.go:1968-2039 | over all runs of prioritizing, exchange, dial, success and failure, every dial marked as replay is one, exactly if no two keys collide |
| `ReplayRecords.DialParametersStore.MakeDialParameters` | psiphon/dialParameters.go:285-519 | the gate, step by step: which stored records are deleted, kept or used, when the dial is a replay, and when it goes back to a placeholder |
| `FilesStore.OwnFiles` | psiphon/dataStore_files.go:223-249 | the files of a key are shared with no other key and differ from each other |
| `FilesStore.ReadsChangeNothing` | psiphon/dataStore_files.go:107-127 | completing a pending commit, as every read does, changes no value of any key |
| `FilesStore.InterruptedPut` | psiphon/dataStore_files.go:223-257 | wherever a put stops, a read gives the value before or the new one, the new one from the commit on, and other keys keep theirs |
| `FilesStore.InterruptedDelete` | psiphon/dataStore_files.go:272-285 | an interrupted delete leaves the value or nothing, exactly unless it stops between a pending commit and an older value; a finished one leaves nothing |
| `FilesStore.DeleteRevives` | psiphon/dataStore_files.go:272-285 | the older value comes back |
| `FilesStore.OpEffect` | psiphon/dataStore_files.go:107-285 | wherever an operation stops, the value and the older one under a pending commit come from those before it or from what it was to do, and other keys keep theirs |
| `FilesStore.DurableValues` | psiphon/dataStore_files.go:107-285 | after any run of puts, deletes and reads, each interrupted anywhere, a key has the value that its last completed operation left or read, or that an interrupted one after it was to give it |
| `FilesStore.FilesBucket.ApplyCommit` | psiphon/dataStore_files.go:259-270 | afterwards no commit of the key is pending, its own file has its value, and no key's value has changed |
| `FilesStore.FilesBucket.Get` | psiphon/dataStore_files.go:107-127 | returns the key's value and changes none |
| `FilesStore.FilesBucket.Put` | psiphon/dataStore_files.go:223-257 | with a crash anywhere: the new value if it finishes, the value before or the new one if not; a step of the runs above |
| `FilesStore.FilesBucket.Delete` | psiphon/dataStore_files.go:272-285 | with a crash anywhere: absent if it finishes; the value, absent, or the older value under a pending commit if not; a step of the runs above |

## Left out

- `CachedResponses.CachedResponse.Write`: buffers are sequence values, not shared arrays, so returning a buffer to the pool while it is still referenced is not captured.
- `CachedResponses.CachedResponse.CopyFromPosition`: an error of the writer in the middle of the copy is not modelled here; to the relay machine it is a response body cut short.
- `MeekServer.Session.ServeRelay`: requests that are discarded because a newer one has overtaken them are not modelled.
- `MeekUpstream.UpstreamExactlyOnce`: the relay machine works on values; aliasing of the byte buffers passed through the channels is not captured.
- `MeekDownstream.DownstreamResumes`: server session expiry and requests overtaken by newer ones are not steps of the machine.
- `MeekServer.Session.PumpWrites`: the turn-around timeouts that end a response, and an error writing to the client that is passed on to the downstream writer, are not modelled.
- `MeekRetry.RelayRoundTrip`: in padding mode an incomplete padding header is retried without delay or deadline, so no bound is stated there; nor is one for a zero minimum delay or a multiplier below one.
- Sockets, TLS, QUIC and HTTP transports, upstream proxies, `ConnectTunnel`, `Activate` and the tactics, DSL and remote server list fetchers: nondeterministic steps only.
- The meek polling intervals, redials and the limits on request lengths other than the payload limit.
- The tag index is not claimed to be sound: versioned tag records of deleted servers stay behind.
- Pool size reduction after the constraints scan: the adjusted size is never stored by the code.
- The converse of the no-stall property: a stale failure signal can start establishment on a full pool.
- The files backend's cursor, the other experimental backends and the recovery of a corrupt database.
- Cryptography, JSON, hashing and the quality and probabilities of random choices: abstract functions and arbitrary choices.
- Configuration, notices, metrics and most of the fields of dial parameters: copying without decisions.
