# Verification of the node replication, mailbox and session machinery

Dafny models and proofs for the stateful core of the backend: how nodes replicate the Infonet
event chain and the gate logs, how direct messages are drained from two mailboxes and merged,
how replayed agent requests and too frequent posts are turned away, how the AIS proxy
reconnects, and how the peer store is rebuilt. `dafny verify dfyconfig.toml` checks everything.

Where the source changes state step by step, the model is a class or a method with a loop that
is proved against a function on values; the properties are lemmas about those functions over
all inputs, all replies of a peer, and all runs.

| module | what it models |
|---|---|
| `Basics` | facts shared by the others |
| `Chain` | chain linkage, the strict batch ingest, the shared prefix of two chains |
| `Locator` | block locators and the server's search for a common ancestor |
| `InfonetNode` | the `Infonet` class: events with an index, locator, ingest, reset |
| `Sync` | the client loop of chain sync against any peer, and against the modelled server |
| `Push` | cursor-based pushing of chain batches to several peers, over runs with losses |
| `GateLog`, `GatePush`, `GatePushRuns`, `GatePull`, `GateStore` | sorted gate logs, their push, their pull, and the receiving endpoint |
| `Hydration` | copying gate messages of a synced batch from the chain into the gate store |
| `DmMerge`, `DmPoll`, `DmPollRuns` | duplicate resolution, destructive mailbox collection, polls and runs of polls |
| `NonceCache` | the replay cache of signed agent requests, both halves of a verification interleaved freely |
| `Throttle` | the per-node message throttle with its expiring cache entry |
| `AisProxy` | sockets, timers, certificate probes and the degraded mode |
| `PeerStore`, `PeerRefresh`, `PeerListing` | peer records, their merge, the two rebuilds of the store, and what they do to each peer |

Hashes are ideal: a digest is the pair of previous hash and content. Checks that look beyond
the linkage (network, sequence, freshness, signature, key binding, spool limits) are one oracle
that may depend on the whole chain so far. Requests can be lost, and so can their answers.

Points where the code does not do what its comments or names suggest; the model follows the code:

* A chain of under twenty events is reset on a fork answer although nothing checks that the
  remote chain is longer: `Sync.HistoryLostExactlyWhen` says exactly when history is lost, and
  `Sync.EmptyPeerWipesSmallChain` is an instance.
* `max_rounds` does not bound the sync loop: a fork answer does not use up a round
  (`Sync.PersistentForkNeverEnds`), so it bounds the requests only for chains that are never
  reset (`Sync.RoundsBoundRequestsExactlyWhen`). Against the repository's own server there is
  at most one reset (`Sync.ResetsAtMostOnce`).
* A page that holds known events only ends a sync with success, so a deep divergence can go
  unnoticed: `Sync.StandstillExactlyWhen` says when, `Sync.DeepDivergenceGoesUnnoticed` is an
  instance.
* A node that is reset against a chain whose first event is refused, for instance because it
  has left the freshness window, ends up empty (`Sync.LeftEmptyExactlyWhen`).
* `reset_chain` leaves the push cursors where they were (`Push.ResetStrandsTheFirstEvents`), and
  a cursor moves on any 200 whatever the ingest did: `Push.AckedBatchIsHeldExactlyWhen` and
  `Push.CoveredExactlyWithoutSkip` are the exact conditions for one push and for runs,
  `Push.RefusedFirstEventIsNeverSentAgain` is an instance.
* Gate logs are sorted by time while the push and pull cursors count positions, and a push is
  acknowledged with 200 even if it resolves no gate or holds events that the receiver refuses;
  a pull passes refused events too. `GatePushRuns.KnownExactlyWithoutSkip` and
  `GatePull.CompleteExactlyWithoutSkip` give the exact conditions for nothing to be missed over
  whole runs; `GatePush.LateArrivalIsSkipped`, `GatePull.LateArrivalIsNeverPulled` and
  `GatePull.RefusedEventIsNeverPulledAgain` are runs in which something is.
* A request is accepted twice if both checks precede the first record, or if 16384 other nonces
  push the first record out: `NonceCache.CheckPassesExactlyWhen` is the exact rule.
* The minimum interval between messages does not survive the end of a cache entry:
  `Throttle.NextGrantIsSpacedExactlyWhen` and, with evictions, `Throttle.NextGrantWithEvictions`
  are the exact rules, `Throttle.ExpiryForgetsTheInterval` a run.
* A swarm manifest pull makes the rebuild of the peer store reload its file before it is saved,
  which discards what the rebuild has added so far (`PeerRefresh.PeersShownAfterPull`).
* The throttle's daily reset can never fire, nor can time spent in the cache raise a tier,
  because the cache entry expires first. The tiers in its docstring differ from the code.
* The grace period after a restart leaves one corner in which a replay passes
  (`NonceCache.GraceCoversAllButOneCorner`).
* Each completed certificate verdict of the AIS proxy adds a connection chain that never ends
  (`AisProxy.SingleConnectionExactlyWithoutVerdict`, `AisProxy.SocketsPileUp`).
* An `https://` address of an `.onion` host counts as clearnet, and where clearnet is allowed it
  makes the whole peer store rebuild raise (`PeerRefresh.RebuildRaisesExactlyWhen`).

## Model

| member | source | states |
|---|---|---|
| `Chain.IngestKeepsHistory` | backend/services/mesh/mesh_hashchain.py:2467-2752 | whatever a batch holds, the old chain stays a prefix, linkage is kept, growth equals the accepted count and every event is counted once |
| `Chain.LinkOne` | backend/services/mesh/mesh_hashchain.py:2735-2742 | appending an event that names the head and carries its own digest keeps a well-linked chain well-linked |
| `Chain.DepthAt` | backend/services/mesh/mesh_hashchain.py:1436-1437 | under an ideal hash the id of an event tells its position in any well-linked chain |
| `Chain.SameIdSameHistory` | backend/services/mesh/mesh_hashchain.py:1430-1437 | two chains that both hold an id agree on all hashed content up to it |
| `Chain.Common` | backend/services/mesh/mesh_hashchain.py:3377-3392 | the longest common prefix of two chains: equal up to there, different (if both go on) right after |
| `Chain.SharedIds` | backend/services/mesh/mesh_hashchain.py:3384-3390 | an event's id occurs in the other chain if and only if it lies in the common prefix |
| `Chain.SharedIdsSwapped` | backend/services/mesh/mesh_hashchain.py:2491-2493 | which ids of a remote chain the local index knows: those of the common prefix and no others |
| `Chain.IngestSlice` | backend/services/mesh/mesh_hashchain.py:2467-2752 | for every policy, the complete effect (chain and three counts) of ingesting any slice of another chain, decided by the common prefix, the unsupported events inside it and the first refused position after it |
| `Chain.JudgeNext` | backend/services/mesh/mesh_hashchain.py:2484-2735 | the verdict on the next event of such a slice: known, unsupported, successor, refused or foreign |
| `Chain.FirstRefused` | backend/services/mesh/mesh_hashchain.py:2506-2742 | everything before the first refused position is admitted in order, and that position is not |
| `Chain.HeadMatchesOnlyWhole` | backend/services/mesh/mesh_hashchain.py:2503-2505 | a remote event can only be appended when the whole local chain is a prefix of the remote one |
| `Locator.OffsetsGrow` | backend/services/mesh/mesh_hashchain.py:3366-3372 | the closed form moves as the loop does: single steps for ten entries, doubling steps afterwards |
| `Locator.OffsetsIncrease` | backend/services/mesh/mesh_hashchain.py:3367-3372 | sample distances are strictly increasing, so a locator never repeats an event |
| `Locator.Samples` | backend/services/mesh/mesh_hashchain.py:3367-3372 | the number of samples is limited by the room, every sample lies inside the chain, and with room to spare the next would not |
| `Locator.LocatorOfEmptyOnly` | backend/services/mesh/mesh_hashchain.py:3357-3375 | a locator is the bare genesis marker if and only if the chain is empty, respects the maximum length and starts with the head |
| `Locator.FullLocatorExactlyWhen` | backend/services/mesh/mesh_hashchain.py:3357-3375 | a default locator has at most 32 entries, and all 32 if and only if the chain has 4194312 or more events |
| `Locator.AfterLocatorMeans` | backend/services/mesh/mesh_hashchain.py:3377-3392 | for any locator, the first entry that is genesis or an event of the chain decides, and the page after it is served; an unknown locator is served nothing, an empty one the start |
| `Locator.SearchFindsCommonPrefix` | backend/services/mesh/mesh_hashchain.py:3377-3392 | the server's search ends just after the highest sample inside the common prefix, for every pair of chains; genesis when there is none |
| `Locator.FewEventsResent` | backend/services/mesh/mesh_hashchain.py:3362-3390 | at most (depth of divergence - 9) known events are sent again, none below depth ten |
| `Locator.ShortChainsSampleAlmostAll` | backend/main.py:1795-1803 | on chains short enough to be reset, a shared prefix is only overlooked when it has at most three events |
| `InfonetNode.Infonet.constructor` | backend/services/mesh/mesh_hashchain.py:1479-1500 | a new node holds the empty chain with a matching head and index |
| `InfonetNode.Infonet.ResetChain` | backend/services/mesh/mesh_hashchain.py:1796-1817 | a reset empties the chain and leaves head and index consistent |
| `InfonetNode.Infonet.GetLocator` | backend/services/mesh/mesh_hashchain.py:3357-3375 | the stepping loop computes the closed-form locator |
| `InfonetNode.Infonet.GetEventsAfterLocator` | backend/services/mesh/mesh_hashchain.py:3377-3392 | the index-based search returns the first locator entry the chain knows and the page after it |
| `InfonetNode.Infonet.IngestEvents` | backend/services/mesh/mesh_hashchain.py:2467-2752 | the in-place ingest keeps head and index consistent and has the specified effect and counts |
| `InfonetNode.SamplesUnique` | backend/services/mesh/mesh_hashchain.py:3367-3372 | the sample count is the only one at which the loop can stop |
| `Sync.SyncFromPeer` | backend/main.py:1759-1843 | the loop over the mutable chain computes the specified run against any peer whatsoever, status included |
| `Sync.StatusTellsLastReply` | backend/main.py:1784-1843 | for every peer and run, the status and chain told by the last reply and the chain it met: which failure, which rejected count, success or unfinished |
| `Sync.FailuresAreReported` | backend/main.py:1784-1809 | an exception, a rate limit with its delay, a malformed page and a fork of a long chain are each reported if and only if they are the last reply; success before the rounds are used up means the last reply was an event page |
| `Sync.FirstFailureEndsTheRun` | backend/main.py:1784-1809 | a first reply that is a failure ends the run at once with the chain as it was, and an empty page ends it with success |
| `Sync.ReactKeepsHistory` | backend/main.py:1784-1842 | one pass keeps the chain as a prefix, unless it starts over, which needs fewer than twenty events |
| `Sync.HistoryIsSafe` | backend/main.py:1777-1843 | for every peer and every run: a chain of twenty or more events stays a prefix of the chain until the end, and linkage is always kept |
| `Sync.UnfinishedRunsKeepResetting` | backend/main.py:1789-1803 | only resets can keep a run going beyond its rounds |
| `Sync.LongChainsEndInTime` | backend/main.py:1778-1843 | a run that starts with twenty or more events never resets and ends within `max_rounds` requests |
| `Sync.PersistentForkNeverEnds` | backend/main.py:1778-1803 | a peer that always reports a fork keeps a small node asking for as many requests as one likes |
| `Sync.RoundsBoundRequestsExactlyWhen` | backend/main.py:1778-1803 | `max_rounds` bounds the number of requests for every peer if and only if the chain has twenty or more events (or there are no rounds) |
| `Sync.ServeOwnLocator` | backend/main.py:5540-5562 | the server's answer to a node's own locator: a fork if and only if no sample is shared, else the page after the highest shared one |
| `Sync.ReactToServer` | backend/main.py:1777-1843 | one complete round of client and server, by common prefix and first refused event |
| `Sync.SyncExtendsPrefix` | backend/main.py:1777-1843 | exactness for every policy: from a prefix of the server's chain a run fetches exactly the next pages, until the rounds are used up, the chain ends, or an event is refused, with the rest of its page counted as rejected |
| `Sync.OutcomeWhenAdmitted` | backend/main.py:1777-1843 | if every event on the way is admitted, that run succeeds at min(length, start + rounds * page), and at one page when the limit exceeds the server's maximum of 500 |
| `Sync.OutcomeRange` | backend/main.py:1813-1843 | a run from a prefix never moves back, stays on the server's chain, and ends with a rejection only at an event that the policy refuses |
| `Sync.ReachedInNumbers` | backend/main.py:5540-5544 | the farthest position in numbers: rounds times the page limit between 1 and 500, one event a round below, one page of 500 above |
| `Sync.SyncOutcome` | backend/main.py:1777-1843 | complete classification of the result of a run against the server for every pair of chains and every policy: extension as far as admitted, the same from empty after a reset, reported fork, standstill, rejection |
| `Sync.ResetsAtMostOnce` | backend/main.py:1789-1803 | against the server a run starts over exactly once if the chain has fewer than twenty events and none of its samples is shared, and otherwise never |
| `Sync.HistoryLostExactlyWhen` | backend/main.py:1789-1803 | for every policy the old chain is lost if and only if it has fewer than twenty events and none of its samples is shared |
| `Sync.EmptyPeerWipesSmallChain` | backend/main.py:1790-1809 | a small node that asks an empty peer ends up empty, with success |
| `Sync.LeftEmptyExactlyWhen` | backend/main.py:1795-1836 | a node with events is left with none if and only if it is reset and the server has no first event or one that the policy refuses, such as an expired genesis |
| `Sync.StandstillExactlyWhen` | backend/main.py:1808-1839 | a run succeeds and changes nothing if and only if the chains are equal, or they diverge after a shared sample, the whole remote chain or the whole first page lies in the shared prefix and no event of that page is unsupported |
| `Sync.StandstillNeedsDeepDivergence` | backend/main.py:1838-1839 | success without change although the server has more needs a divergence of at least a page and nine events |
| `Sync.DeepDivergenceGoesUnnoticed` | backend/main.py:1838-1839 | such chains exist: twelve local events, two of them shared, a longer or shorter remote branch and a page limit of one |
| `Sync.SyncFollowsGrowingServer` | backend/main.py:1777-1843 | with a server whose chain grows between requests a run only moves forward along it, and ends with success where it can reach or at a refused event |
| `Push.PeerPusher.PushRound` | backend/main.py:2188-2242 | one pass over the peers updates cursors and receivers as the sequence of single pushes does, each judged by its own peer's policy |
| `Push.StartIsGood` | backend/main.py:2157 | a fresh sender with any chain satisfies the run invariant and covers every peer |
| `Push.DeliverExtends` | backend/main.py:5782-5796 | a delivered batch takes a peer that holds a prefix exactly to the end of the batch or the first event it refuses, and does nothing if it starts beyond that prefix |
| `Push.PushEffect` | backend/main.py:2192-2234 | one push hands over the next fifty events unless it failed, and moves the cursor past them only if it was acknowledged |
| `Push.OversizedIsDropped` | backend/main.py:5786-5791 | the receiver takes a batch of at most fifty events and drops a larger one |
| `Push.PushFrame` | backend/main.py:2188-2234 | a push leaves every other peer's cursor and chain and the log alone |
| `Push.StepKeepsGood` | backend/main.py:2185-2242 | every single step keeps the invariant |
| `Push.RunsKeepReplicas` | backend/main.py:2185-2242 | in every run of appends, pushes with any fate and any policy of the moment, catching-up peers and sender restarts each peer holds exactly a prefix of the log |
| `Push.CoveredExactlyWithoutSkip` | backend/main.py:2192-2234 | over all such runs: a peer holds at every moment everything its cursor has passed if and only if no acknowledged push carried a new event that the peer refused |
| `Push.RefusedFirstEventIsNeverSentAgain` | backend/main.py:2233-2234 | a run with a skip: a peer without events refuses the first one, and however often and under whatever policies the sender goes on, it stays empty while the cursor moves |
| `Push.AcksMoveTheCursor` | backend/main.py:2192-2234 | the cursor lies between min(start log, c + 50 * acks) and min(end log, c + 50 * acks) |
| `Push.EnoughAcksReplicateAll` | backend/main.py:2192-2234 | ceil((log - c) / 50) acknowledged pushes move the cursor past the whole starting log, and the peer with it unless one of them skipped |
| `Push.HandedFromTheCursorOn` | backend/main.py:2192-2234 | positions that the cursor passed were all handed over, positions below the starting cursor never |
| `Push.ResetStrandsTheFirstEvents` | backend/services/mesh/mesh_hashchain.py:1796-1817 | after a chain reset the first events below the old cursor are not pushed until the sender restarts |
| `Push.AckedBatchIsHeldExactlyWhen` | backend/main.py:2233-2234 | for a receiver with any chain and any policy, an acknowledged batch is fully held if and only if it lies in the shared prefix, or the receiver's whole chain is shared and reaches the batch and every event from there to the batch's end is admitted |
| `GateLog.Insert` | backend/services/mesh/mesh_hashchain.py:1086-1098 | inserting adds one event to the log and leaves the others in order |
| `GateLog.InsertKeepsOrder` | backend/services/mesh/mesh_hashchain.py:602-610 | the log stays sorted by timestamp, sequence and id |
| `GateLog.SortOfSorted` | backend/services/mesh/mesh_hashchain.py:602-610 | sorting a sorted log changes nothing |
| `GateLog.SortedByFields` | backend/services/mesh/mesh_hashchain.py:602-610 | a log is in order if and only if it is ordered by timestamp, then sequence, then id |
| `GateLog.SortedIsUnique` | backend/services/mesh/mesh_hashchain.py:602-610 | two sorted logs with the same events are equal, so arrival order leaves no trace |
| `GateLog.IngestGateEffect` | backend/services/mesh/mesh_hashchain.py:1244-1329 | a gate ingest keeps the log sorted and duplicate-free, drops nothing, adds only good events, leaves every good event known to the indexes, and extends them only by what it put into the log |
| `GateLog.IngestCounts` | backend/services/mesh/mesh_hashchain.py:1256-1329 | every event of a batch is counted once, as accepted, duplicate or rejected |
| `GateLog.VerdictByKind` | backend/services/mesh/mesh_hashchain.py:1256-1306 | what an event of each kind is counted as: malformed and unverified ones as rejected, known ones as duplicates whether or not they verify, and a good unknown one as accepted and remembered |
| `GateLog.RedeliveryChangesNothing` | backend/services/mesh/mesh_hashchain.py:1276-1329 | a batch of good events delivered a second time changes nothing and counts as duplicates only |
| `GateLog.SeenElsewhere` | backend/services/mesh/mesh_hashchain.py:1276-1302 | ids and fingerprints seen in other gates change neither the log a gate ends up with nor the number it accepts, although the indexes are shared |
| `GateLog.OthersUndisturbed` | backend/services/mesh/mesh_hashchain.py:1323-1327 | an ingest into one gate adds nothing to the indexes that could matter to another, because an id is a digest over the gate too |
| `GateLog.KnownAfterIngest` | backend/services/mesh/mesh_hashchain.py:1256-1328 | an ingest of events of another store's log makes known, by id or fingerprint, exactly those events that it takes and those it knew |
| `GatePush.GatePusher.PushRound` | backend/main.py:2446-2498 | one peer's turn hands over the next fifty events of each gate and moves exactly the acknowledged cursors |
| `GatePush.StepKeepsInv` | backend/main.py:2446-2488 | log order and cursor bounds hold after every step |
| `GatePush.CompleteExactlyWithoutSkip` | backend/main.py:2446-2488 | over all runs: everything below the cursor was handed over if and only if no step since the last restart was an arrival sorted below the cursor or an acknowledged batch that resolved no gate while holding something new |
| `GatePush.LateArrivalIsSkipped` | backend/main.py:2450-2488 | a run with a skip: an event that sorts below the cursor is not handed over, the next push repeats the old one |
| `GatePush.InOrderArrivalNeverSkips` | backend/main.py:2450-2454 | an event that sorts last never skips |
| `GatePushRuns.KnownExactlyWithoutSkip` | backend/main.py:2446-2488 | sender and receiver together, over every run of arrivals on both sides, pushes with any fate and any tests, and restarts: the receiver knows at every moment everything below the cursor if and only if no step skips, by an arrival below the cursor, an acknowledged batch with an event the receiver refuses, or one that resolves no gate |
| `GatePushRuns.HeldExactlyWithoutSkip` | backend/main.py:2446-2488 | for a receiver that gets the gate from this sender alone the same condition decides whether it holds everything below the cursor |
| `GatePushRuns.PushByFate` | backend/main.py:2450-2498 | what a push does to cursor and receiver by its fate: nothing if it failed, the cursor alone if it resolved no gate, the receiver alone if the answer was lost |
| `GatePushRuns.AcksMoveTheCursor` | backend/main.py:2454-2488 | progress: every push answered with 200 moves the cursor by fifty or to the end, in every run without a restart |
| `GatePushRuns.StepKeepsInv` | backend/main.py:2446-2488 | every step keeps both logs sorted and duplicate-free and the cursor inside the log |
| `GatePushRuns.KnownIsHeld` | backend/main.py:5920-5925 | of a log it draws on alone, a receiver knows exactly what it holds |
| `GatePull.GatePuller.PullGate` | backend/main.py:2344-2396 | one gate's pull changes that gate's cursor and log and the shared indexes as specified, and no other gate |
| `GatePull.GatePuller.PullRound` | backend/main.py:2343-2396 | a round pulls every announced gate once, each as if it were alone |
| `GatePull.CursorNeverMovesBack` | backend/main.py:2345-2396 | the stored cursor never decreases, whatever the peer announces and serves |
| `GatePull.PullByAnswer` | backend/main.py:2345-2396 | one pull by what was announced and what is served: nothing, trust in the announcement, or the next fifty events |
| `GatePull.PullsCollectFromTheCursor` | backend/main.py:2344-2396 | n rounds in a row without arrivals leave the puller with what it had and what its ingest takes of the peer's log from its first cursor on, nothing else; the cursor passes all of it |
| `GatePull.PrefixPullsConverge` | backend/main.py:2344-2396 | from a prefix, n rounds pass exactly the next 50 n events and keep those the ingest takes, in order; after ceil(missing / 50) rounds the puller holds the peer's log if and only if it takes all of them |
| `GatePull.PullsGetEverythingExactlyWhen` | backend/main.py:2345-2351 | pulling to the end without arrivals in between brings the whole peer log over if and only if the events before the first cursor max(known, local) were already held and every later one is held or taken by the ingest |
| `GatePull.CompleteExactlyWithoutSkip` | backend/main.py:2344-2396 | over every run of arrivals on both sides, pulls with any tests of the moment and restarts: everything below the cursor is known to the puller at every moment if and only if no step skips, by an arrival at the peer below the cursor, a local arrival that moves the count past an unknown event, or a pull of an unknown event that the ingest refuses |
| `GatePull.PullsFinishExactlyWhenComplete` | backend/main.py:2344-2396 | after any such run, pulling to the end makes the whole peer log known if and only if nothing below the cursor is unknown and every event above it is known or taken by the ingest |
| `GatePull.LateArrivalIsNeverPulled` | backend/main.py:2345-2351 | a run with a skip: an event that reaches the peer below the cursor is never pulled |
| `GatePull.RefusedEventIsNeverPulledAgain` | backend/main.py:2388-2396 | a run with a skip: a refused event is passed by the cursor and never asked for again, even if it would be taken later |
| `GatePull.KnownIsHeld` | backend/main.py:2388-2396 | where the puller knows of the peer's events only those it holds, known and held are the same |
| `GateStore.GateStore.IngestPeerEvents` | backend/services/mesh/mesh_hashchain.py:1244-1329 | collecting candidates, replacing the log by the sorted union and extending the indexes equals ingesting one event at a time; other gates are untouched |
| `GateStore.Collect` | backend/services/mesh/mesh_hashchain.py:1252-1306 | the candidate loop with its batch sets of ids and fingerprints, testing in the source's order, finds the events and counts of a one-by-one ingest |
| `GateStore.GateStore.IngestGroups` | backend/main.py:5917-5926 | ingesting group by group gives the added-up counts and the per-gate logs |
| `GateStore.GateStore.PeerPush` | backend/main.py:5826-5926 | all or nothing: an oversized batch or one with an unresolvable event changes nothing; otherwise each gate's log takes in exactly its own events in arrival order as if they had come alone |
| `GateStore.GateStore.Append` | backend/services/mesh/mesh_hashchain.py:1070-1104 | an event known by fingerprint or id is left alone, any other goes to its place and into both indexes |
| `GateStore.GroupByGate` | backend/main.py:5837-5915 | the grouping loop gives up if and only if some event names no gate, and otherwise groups by first occurrence |
| `GateStore.LogsAfterGroups` | backend/main.py:5920-5925 | with indexes shared between the gates, the order in which the groups are ingested still does not matter to any log |
| `GateStore.GroupsPartitionTheBatch` | backend/main.py:5837-5915 | each gate occurs once and the group sizes add up to the batch |
| `GateStore.GroupIsASubsequence` | backend/main.py:5877-5915 | a gate's group consists of exactly the batch's events that name the gate, or name none and resolve to it, in arrival order |
| `GateStore.PushAccountsForTheBatch` | backend/main.py:5917-5926 | accepted, duplicate and rejected events of a push add up to the batch |
| `GateStore.RepeatedPushIsAllDuplicates` | backend/main.py:5917-5926 | a batch of known events changes no log and is answered with its size as the duplicate count |
| `Hydration.Hydrate` | backend/main.py:1679-1709 | the loop leaves the store as appending the canonical copies one by one in batch order does |
| `Hydration.CopiesAreResident` | backend/main.py:1695-1705 | every copy is an event of the chain, filed under its own gate |
| `Hydration.CopiedExactlyWhen` | backend/main.py:1692-1705 | an event is copied if and only if it is in the chain, has a gate, and some gate message of the batch carries its id; it is filed under its own gate |
| `Hydration.CopiesOfSum` | backend/main.py:1692-1705 | copies keep the order of the batch |
| `Hydration.NamedEventsAreKnown` | backend/main.py:1692-1706 | end to end: after hydration the store knows, under its gate, every resident gate message that the batch names |
| `Hydration.HydratedFromTheChain` | backend/main.py:1699-1705 | whatever a gate's log holds afterwards was there before or is a copied chain event of that gate |
| `Hydration.PayloadsDoNotMatter` | backend/main.py:1680-1686 | two batches with the same ids and types leave every store in the same state, whatever else they claim |
| `Hydration.HydratingTwice` | backend/main.py:1692-1706 | hydrating a batch a second time changes nothing |
| `DmMerge.ReplaceIsStrictWeakOrder` | backend/main.py:7779-7808 | the replace test is irreflexive and transitive, and so is its negation |
| `DmMerge.SurvivorIsFirstBest` | backend/main.py:7819-7841 | argmax: the entry kept for an id is the first message of relay followed by direct that is maximal under authority, recovery, source and timestamp |
| `DmMerge.MergeKeepsFirstBest` | backend/main.py:7819-7841 | argmax on the result: the only message of an id in the merged list is that first maximal one |
| `DmMerge.SurvivorStandsHighest` | backend/main.py:7745-7841 | the survivor of an id in terms of the fields and the lanes: no copy stands above it, and it stands above every earlier one; canonical requests above plain senders above blinded ones above the rest, verified above pending above the rest, relay above direct, later above earlier |
| `DmMerge.ReplacesExactlyWhenAbove` | backend/main.py:7779-7808 | the replace test holds if and only if the candidate stands above the existing copy in that order |
| `DmMerge.RelayCopyWins` | backend/main.py:7770-7776 | of two otherwise equal copies the relay's is returned, whatever their times |
| `DmMerge.AnnotationInFields` | backend/main.py:7723-7738 | the annotation changes only requests of blinded senders with a version-3 seal, makes those without a contract version canonical, and keeps a recovery state that is one of the three |
| `DmMerge.CollapseKeepsSlots` | backend/main.py:7822-7837 | replacing happens in the slot the id opened, and id-less messages stay as they are |
| `DmMerge.IdlessUnchanged` | backend/main.py:7826-7828 | the multiset of messages without an id is that of the inputs |
| `DmMerge.SortOrders` | backend/main.py:7841 | the result is in timestamp order |
| `DmMerge.SortKeepsMessages` | backend/main.py:7841 | sorting permutes |
| `DmMerge.SortIsStable` | backend/main.py:7841 | messages with equal timestamps keep their order |
| `DmMerge.MergeShape` | backend/main.py:7815-7841 | the result is sorted and holds each nonempty id of the inputs exactly once and no other |
| `DmMerge.MergeIsIdempotent` | backend/main.py:7815-7841 | merging a result with an empty list returns it unchanged |
| `DmMerge.DmMerger.AddMessages` | backend/main.py:7822-7837 | the loop keeps list and index in step with the messages seen so far |
| `DmMerge.DmMerger.AddMessage` | backend/main.py:7824-7837 | one message overwrites its slot or appends, and the index map still gives every id's position and source |
| `DmMerge.IndexAfterAddOne` | backend/main.py:7829-7837 | the index of the new list is the old one with one entry written |
| `DmMerge.MergeDmPollMessages` | backend/main.py:7815-7841 | the in-place merge computes the specified merge |
| `DmPoll.MailboxStore.PopKeys` | backend/services/mesh/mesh_dm_relay.py:1987-2000 | popping takes every named mailbox out and lists the first message of each id |
| `DmPoll.MailboxStore.Restore` | backend/services/mesh/mesh_dm_relay.py:2006-2011 | what was not kept goes back under its own key |
| `DmPoll.MailboxStore.CollectFromKeys` | backend/services/mesh/mesh_dm_relay.py:1984-2029 | the pop-and-restore collection has the specified messages, flag and mailboxes |
| `DmPoll.CollectConserves` | backend/services/mesh/mesh_dm_relay.py:1984-2029 | a collection splits the pending ids into returned and left, returns min(limit, pending) of them, and its flag is true if and only if some are left |
| `DmPoll.BoxAfterCollect` | backend/services/mesh/mesh_rns.py:1306-1335 | what each single mailbox holds after a collection |
| `DmPoll.CollectedIds` | backend/services/mesh/mesh_dm_relay.py:2001-2012 | the collected messages have distinct ids and respect the limit |
| `DmPoll.OldestGoFirst` | backend/services/mesh/mesh_dm_relay.py:2001-2005 | the returned messages are in time order, are first copies, and none is newer than a first copy that has to wait |
| `DmPoll.DistinctAreFirstCopies` | backend/services/mesh/mesh_dm_relay.py:1996-2000 | of several copies of an id exactly the first is listed, in queue order |
| `DmPoll.GatherOfSum` | backend/services/mesh/mesh_dm_relay.py:1990-1996 | the mailboxes are read key by key |
| `DmPoll.GatherOfOne` | backend/services/mesh/mesh_dm_relay.py:1990-1996 | of one key, its mailbox is read as it is queued |
| `DmPoll.WaitingMessagesStay` | backend/services/mesh/mesh_dm_relay.py:2008-2011 | a message is in its box afterwards if and only if it was there and its box was not asked for or its id was not returned under a full limit |
| `DmPoll.NoLimitReturnsAll` | backend/services/mesh/mesh_dm_relay.py:2003 | with limit zero everything is returned and the boxes are gone |
| `DmPollRuns.PollSecure` | backend/main.py:7392-7416 | the two collectors under one budget, merge and truncation, as specified |
| `DmPollRuns.RespondKeepsIds` | backend/main.py:7412-7414 | truncation never drops anything that fitted the budget |
| `DmPollRuns.RespondMergesAnnotated` | backend/main.py:7395-7414 | an answer is the merge of the annotated relay batch with the annotated direct batch, and the cut at eight takes nothing away |
| `DmPollRuns.PollConserves` | backend/main.py:7394-7416 | the ids that leave the two queues are exactly the ids of the response |
| `DmPollRuns.HasMoreIsExact` | backend/main.py:7396-7413 | with both lanes open, when exactly `has_more` is set, and how many ids are left: none if it is false, eight fewer if it is true |
| `DmPollRuns.LanesShareTheBatch` | backend/main.py:7394-7406 | how many ids each lane has left: the relay is served first, the direct lane with the rest of the eight |
| `DmPollRuns.ClosedLaneIsLeftAlone` | backend/main.py:7402-7413 | in anonymous mode or after a failed direct collection that lane is untouched, and exactly when `has_more` is then set |
| `DmPollRuns.PollTakesOldest` | backend/main.py:7394-7406 | over a whole poll nothing newer is taken from a lane while an older first copy waits there |
| `DmPollRuns.MoreMeansEightFewer` | backend/main.py:7394-7413 | termination: at most floor(n / 8) polls in a row can report more |
| `DmPollRuns.PollsLoseNothing` | backend/main.py:7394-7416 | over any number of polls a pending id was returned or is still pending |
| `DmPollRuns.PollingUntilNoMoreReturnsAll` | backend/main.py:7394-7416 | polling until `has_more` is false returns every pending id |
| `DmPollRuns.RunsLoseNothing` | backend/main.py:7394-7416 | over every run of deposits and polls of any agents in any mode, mailbox by mailbox: an id that was in a box or came into it is still there or was in the answer to a request naming that box |
| `DmPollRuns.PollLegacy` | backend/main.py:7888-7910 | the token loop serves the first 32 distinct tokens in order with what is left of eight messages, loses no id from any box and invents none; `has_more` is set if and only if eight messages are returned, and otherwise all those tokens are drained |
| `DmPollRuns.Deduplicate` | backend/main.py:7888-7895 | the loop with its set of seen tokens keeps exactly the first occurrence of each |
| `DmPollRuns.UniqueKeepsOrder` | backend/main.py:7888-7895 | further tokens never change the order of the earlier ones |
| `NonceCache.NonceStore.Prune` | backend/auth.py:382-392 | pruning removes the expired entries, and beyond the cap only entries no newer than every survivor, leaving exactly the cap |
| `NonceCache.NonceStore.Check` | backend/auth.py:417-440 | the half before the await: freshness, pruning, and passing if and only if the nonce is unknown |
| `NonceCache.NonceStore.Record` | backend/auth.py:444-464 | the half after the await: an accepted nonce is recorded at that time |
| `NonceCache.KeysByTime` | backend/auth.py:390 | the sorted keys are the cache's keys, oldest first |
| `NonceCache.DropFirst` | backend/auth.py:391-392 | dropping the first keys removes exactly that many, none newer than any kept |
| `NonceCache.SurvivesPruneExactlyWhen` | backend/auth.py:382-392 | with distinct times an entry survives if and only if it is live and fewer than 16384 live entries are newer |
| `NonceCache.EntriesWereRecorded` | backend/auth.py:463 | every entry of a reachable cache was recorded, at its time |
| `NonceCache.NonceStays` | backend/auth.py:382-392 | a recorded nonce stays for 300 s unless 16384 other nonces were recorded since |
| `NonceCache.WindowsAreShort` | backend/auth.py:425-435 | two moments at which the same timestamp is fresh are less than 121 s apart |
| `NonceCache.FreshExactlyWhen` | backend/auth.py:421-435 | a request is fresh if and only if its nonce has sixteen characters and its date lies within 60 whole seconds of the clock, or within 10 during the first 120 seconds of the process |
| `NonceCache.GraceRefusesOlderRequests` | backend/auth.py:432-435 | for 120 seconds after a restart every request dated more than ten seconds ago is refused |
| `NonceCache.NoDoubleAcceptance` | backend/auth.py:429-464 | over every interleaving of both halves of all requests: once a request is recorded, an equal one checked later fails, unless 16384 other nonces came in between |
| `NonceCache.CheckFailsExactlyWhen` | backend/auth.py:437-440 | a fresh request is refused if and only if its nonce was recorded within the last 300 s, provided fewer than 16384 other nonces were recorded since any such record |
| `NonceCache.CheckDecidedByRivals` | backend/auth.py:382-440 | over every trace, ties included: a fresh request passes the nonce check if each record of its nonce within the last 300 s was followed by strictly later records of 16384 other nonces, and fails if some such record was followed, at the same time or later, by fewer |
| `NonceCache.CheckPassesExactlyWhen` | backend/auth.py:382-440 | with distinct record times and no other proviso: a fresh request passes the nonce check if and only if every record of its nonce within the last 300 s was followed by records of at least 16384 other nonces |
| `NonceCache.OverlapAcceptsTwice` | backend/auth.py:439-463 | a run with two acceptances of one request, both of whose checks precede the first record |
| `NonceCache.CacheIsBounded` | backend/auth.py:388-392 | the cache exceeds its cap by at most the requests recorded since the last pruning |
| `NonceCache.SequentialBound` | backend/auth.py:438-463 | without overlap it never holds more than 16385 nonces |
| `NonceCache.GraceCoversAllButOneCorner` | backend/auth.py:367-371 | after the grace period a request accepted before a restart is fresh again if and only if it was dated 60 s ahead and exactly 120 whole seconds have passed |
| `NonceCache.RestartReplays` | backend/auth.py:429-435 | that corner exists, and within the grace period replays are possible for ten seconds |
| `Throttle.NodeThrottle.CheckThrottle` | backend/main.py:4167-4223 | the verdict and the entry left behind; an emergency touches nothing |
| `Throttle.DailyResetNeverFires` | backend/main.py:4181-4184 | no entry lives long enough for its daily reset |
| `Throttle.CacheAgeNeverPromotes` | backend/main.py:4187-4193 | the time a node has been in the cache never raises its tier |
| `Throttle.EveryTierIsWithin` | backend/main.py:4197-4205 | every tier, loosened or not, is within one message in 30 s and 200 a day |
| `Throttle.GrantedExactlyWhen` | backend/main.py:4171-4223 | the decision in numbers, by reputation, ledger age, transport, count and time since the last grant, and the entry it leaves |
| `Throttle.RunsFit` | backend/main.py:4153-4223 | the bookkeeping of the current entry matches the grants of its life in every run |
| `Throttle.LifetimeBounds` | backend/main.py:4207-4222 | within one entry lifetime n grants span at least (n - 1) intervals and there are at most `cap` |
| `Throttle.TiersOverRuns` | backend/main.py:4197-4222 | over runs a node that stays new gets at most 15 messages out per entry lifetime, 300 s apart, and one that is never trusted at most 75, 120 s apart |
| `Throttle.AnyDayHoldsTwiceTheCap` | backend/main.py:4146 | without evictions any grant and the (2 cap)-th after it are at least a day apart, across lifetimes |
| `Throttle.EmergenciesChangeNothing` | backend/main.py:4167-4168 | deleting the emergency calls from a run changes no other verdict |
| `Throttle.ExpirySpacesExactlyWhen` | backend/main.py:4171-4218 | all grants after an entry expires keep the interval to its last grant if and only if that grant was an interval before the expiry |
| `Throttle.NextGrantIsSpacedExactlyWhen` | backend/main.py:4153-4223 | over every run without evictions: whatever is asked next, a grant keeps the interval to the last one if and only if the last grant plus the interval is not after the expiry of the entry |
| `Throttle.NextGrantWithEvictions` | backend/main.py:4146-4223 | with evictions at any moment: the next grant keeps the interval to the last if and only if the last grant plus the interval is not after the moment it is forgotten, which is now for an evicted entry and the expiry for any other |
| `Throttle.ExpiryForgetsTheInterval` | backend/main.py:4171-4178 | a run in which it does not: grants right before and right after an entry expires, a second apart |
| `AisProxy.Proxy.constructor` | backend/ais_proxy.js:304 | the machine starts with one validating socket |
| `AisProxy.Proxy.Connect` | backend/ais_proxy.js:255-302 | a connect opens a new validating socket and makes it the active one |
| `AisProxy.Proxy.OnOpen` | backend/ais_proxy.js:219-235 | opening sets the degraded flag to the socket's own mode |
| `AisProxy.Proxy.OnError` | backend/ais_proxy.js:263-297 | a probe starts only for an expired certificate on a validating socket that has not opened |
| `AisProxy.Proxy.OnVerdict` | backend/ais_proxy.js:273-293 | a match opens a non-validating socket, a mismatch schedules a reconnect |
| `AisProxy.Proxy.OnClose` | backend/ais_proxy.js:248-252 | any close clears the active socket and schedules a reconnect |
| `AisProxy.Proxy.OnTimer` | backend/ais_proxy.js:251-255 | a timer turns into a fresh validating socket |
| `AisProxy.StepCounts` | backend/ais_proxy.js:248-302 | sockets plus timers change by one with a verdict and by nothing else |
| `AisProxy.EventEffects` | backend/ais_proxy.js:216-302 | what each event does to sockets, timers, probes, the active socket and the degraded flag |
| `AisProxy.Conservation` | backend/ais_proxy.js:248-304 | in every run live sockets plus pending reconnects are one more than the completed verdicts, so something is always open or scheduled; the active socket is live |
| `AisProxy.SingleConnectionExactlyWithoutVerdict` | backend/ais_proxy.js:273-293 | there is a single connection if and only if no verdict has completed |
| `AisProxy.ReportedModeIsLastOpened` | backend/ais_proxy.js:219-233 | the reported degraded mode is the mode of the last socket that opened |
| `AisProxy.ProbeOrigin` | backend/ais_proxy.js:267-273 | every pending probe belongs to a validating socket that failed with an expired certificate before opening |
| `AisProxy.InsecureOnlyAfterMatch` | backend/ais_proxy.js:267-282 | every non-validating socket was created by a matching verdict for such a failure |
| `AisProxy.ModeExactlyByCreation` | backend/ais_proxy.js:258-302 | a new socket skips certificate validation if and only if it was opened by a matching verdict |
| `AisProxy.ModeStays` | backend/ais_proxy.js:216-253 | a socket's mode never changes |
| `AisProxy.ActiveExactlyWhen` | backend/ais_proxy.js:216-252 | subscription updates have a socket to go to if and only if nothing closed since the last attachment |
| `AisProxy.SocketsPileUp` | backend/ais_proxy.js:263-293 | with an upstream that stays expired, n reconnects leave n + 1 sockets |
| `PeerStore.TransportFollowsUrl` | backend/services/mesh/mesh_peer_store.py:92-102 | two accepted records with the same URL have the same transport |
| `PeerStore.Store.Load` | backend/services/mesh/mesh_peer_store.py:211-236 | loading takes all entries, the last of each key, or refuses the whole file and keeps the old records |
| `PeerStore.Store.Upsert` | backend/services/mesh/mesh_peer_store.py:255-287 | an upsert writes its own key only, merged with the existing record; an unacceptable record changes nothing |
| `PeerStore.MergeInFields` | backend/services/mesh/mesh_peer_store.py:267-285 | the merge of any two records in fields: identity from the new one, names it leaves out and the first date from the old one, the larger of every other date, the newer notes |
| `PeerStore.MergedBackoffInFields` | backend/services/mesh/mesh_peer_store.py:261-283 | error, failures and cooldown are cleared if and only if the new record is a sync seed of the bundle or the manifest; otherwise the newer error and the larger counts stay |
| `PeerStore.LastEntryWins` | backend/services/mesh/mesh_peer_store.py:229-235 | of several entries with one key the last is loaded, and one bad entry drops the whole file |
| `PeerStore.LoadedIsSound` | backend/services/mesh/mesh_peer_store.py:229-235 | a loaded store holds accepted records under their own keys |
| `PeerStore.UpsertedKeys` | backend/services/mesh/mesh_peer_store.py:255-287 | upserts add exactly their own keys and leave every other record as it was |
| `PeerStore.UpsertAllTwice` | backend/services/mesh/mesh_peer_store.py:255-287 | upserting the same list of freshly made records a second time changes nothing, although the list may hold several records of a key |
| `PeerRefresh.RefreshPruning` | backend/main.py:1394-1571 | the rebuild that prunes first: the store it leaves, also after a swarm pull, its snapshot with swarm counts and bootstrap state, and raising if and only if a record is not acceptable |
| `PeerRefresh.RefreshFiltering` | backend/node_state.py:178-310 | the rebuild that filters at the end, likewise |
| `PeerRefresh.AddOperators` | backend/main.py:1423-1447 | the operator loop upserts a sync and a push record per usable peer and counts the refused ones |
| `PeerRefresh.AddSeeds` | backend/main.py:1449-1479 | the seed loop passes operator peers over and upserts a bootstrap and a sync record for the others |
| `PeerRefresh.AddManifest` | backend/main.py:1488-1513 | the manifest loop upserts a bootstrap and a promoted sync record per usable peer |
| `PeerRefresh.Prune` | backend/main.py:1417-1422 | pruning leaves exactly the private records and counts the others |
| `PeerRefresh.Report` | backend/main.py:1515-1560 | the counts and the error of the snapshot |
| `PeerRefresh.Discover` | backend/main.py:1536-1547 | the swarm counts and the bootstrap state |
| `PeerRefresh.PruneCommutes` | backend/main.py:1417-1513 | pruning before private upserts equals pruning after them, record by record |
| `PeerRefresh.PrunedIsThePrivatePart` | backend/main.py:1417-1513 | where private transport is required the one store is exactly the private part of the other, which keeps every clearnet record as it was |
| `PeerRefresh.RefreshesAgree` | backend/node_state.py:190-292 | both rebuilds show the same records in every bucket, for every configuration, so their snapshots agree but for the pruned count |
| `PeerRefresh.RebuildTwice` | backend/main.py:1394-1535 | both rebuilds are idempotent, and pruning after the other version leaves what pruning alone would have left |
| `PeerRefresh.RebuildRaisesExactlyWhen` | backend/services/mesh/mesh_router.py:59-70 | with a valid manifest a rebuild raises if and only if clearnet is allowed and a configured URL is an `https://` address of an `.onion` host |
| `PeerRefresh.BackoffAfter` | backend/services/mesh/mesh_peer_store.py:261-283 | upserting any list of freshly made records clears the backoff of exactly the keys that the list restarts |
| `PeerListing.BackoffByConfiguration` | backend/main.py:1449-1513 | by configuration, in both rebuilds: a stored sync peer that is a usable configured seed and no operator peer, or an admitted manifest peer of role seed, loses its error, failures and cooldown, and every other peer keeps them |
| `PeerListing.ListedExactly` | backend/main.py:1423-1513 | exactly which records a rebuild makes, field by field: operator peers as sync and push relays, other seeds for bootstrap and sync, manifest peers for bootstrap and as promoted sync peers |
| `PeerListing.ListedInOrder` | backend/main.py:1423-1513 | operator peers come first and the manifest last |
| `PeerListing.HistoryAfter` | backend/services/mesh/mesh_peer_store.py:276-284 | a rebuild keeps the first date, past successes and notes of a stored peer and dates its update to now if it is listed; a new peer starts without history |
| `PeerListing.LastListingDecides` | backend/services/mesh/mesh_peer_store.py:267-275 | the last listing of a key decides source, transport and role, and keeps a name or signer that it leaves out |
| `PeerListing.SyncPeerByConfiguration` | backend/main.py:1423-1513 | who a listed sync peer is in the end: promoted by the manifest if that lists it, else an operator's relay, else a seed |
| `PeerListing.SkippedExactly` | backend/main.py:1426-1492 | the skipped count is the number of configured peers on the clearnet where private transport is required |
| `PeerListing.ErrorExactlyWhen` | backend/main.py:1482-1516 | the error of the snapshot is that of the manifest, or else the complaint about clearnet peers if and only if one was skipped |
| `PeerListing.SnapshotInNumbers` | backend/main.py:1529-1560 | the counts of the snapshot are those of the shown keys of each bucket |
| `PeerListing.DiscoveryInNumbers` | backend/main.py:1536-1547 | the swarm counts, and exactly when the state is ready, connecting or solo |
| `PeerListing.TransportKindInFields` | backend/services/mesh/mesh_router.py:59-70 | the transport of a URL by its scheme and host |
| `PeerRefresh.PeersShown` | backend/main.py:1528-1535 | a peer is shown if and only if it was stored on an acceptable transport or is contributed by operator, seeds or manifest |
| `PeerRefresh.PeersShownAfterPull` | backend/main.py:1518-1535 | after an effective swarm pull exactly the acceptable records of the pulled file are shown, whatever the rebuild contributed; otherwise as before |

## Left out

- HTTP, Tor, HMAC and signature computation, threads, disk persistence and settings: requests are steps with a fate, and verification verdicts are oracles.
- The checks inside `ingest_events` beyond event type, linkage and hash are one oracle that may depend on the chain so far; the theorems hold for every such oracle. It stays the same during one sync run; each push has its own.
- `Chain.SameIdSameHistory`: the signature and key fields of an event, which its id does not cover, are not part of the model, so equal ids mean equal events here.
- `NonceCache.CheckPassesExactlyWhen`: which of two nonces recorded at the very same instant is dropped first depends on insertion order, which the model leaves open; `NonceCache.CheckDecidedByRivals` holds for every choice.
- The Bloom-style replay filter of the chain can have false positives; duplicates are decided by the event index alone.
- Removal of old chain events by `cleanup()` and the memory cap; chains only grow or are reset.
- Sync pages from which a public transport removes gate and direct messages: the page surface is unfiltered. The expected-head and protocol-version refusals of the sync endpoint, which this client never triggers, are not modelled either.
- `_hydrate_dm_relay_from_chain` and the background kick after a push.
- The 429 branch of the caller of `_sync_from_peer`: a 429 raises `PeerSyncRateLimited` before and is modelled as a rate-limit reply.
- `Sync.SyncFromPeer`: carries a request budget, because a run against an arbitrary peer need not end; running out of it is the status `Unfinished`, and the lemmas say when that cannot happen.
- `GateStore.GateStore.IngestPeerEvents`: the fingerprints that the replay index drops after its time window stay remembered, and events carry an id (the source computes a missing one).
- The gate wire reference lookup is an oracle. As the endpoint calls it, without a peer URL, it never resolves anything.
- `Hydration.Hydrate`: the store's sanitizing of an event is a parameter, an append that raises is left out, and gate names are taken as normalized to lower case.
- `DmPoll.MailboxStore.CollectFromKeys`: expiry of old messages and the claim-to-key derivation are left out; queued messages carry ids, and the same class models the direct lane, whose store refuses messages without one.
- `DmPollRuns.PollSecure`: a collector that raises is one that returns nothing and touches nothing; timestamps are integers.
- `NonceCache.NonceStore.Check`: clocks are reals that never run backwards in one process, and `int()` is the floor, which agrees for times after 1970.
- `Throttle.NodeThrottle.CheckThrottle`: the cache timer and the wall clock are one clock; eviction from a full cache is a step that may happen at any time; reputation and age are inputs of each call; the wording of refusals is left out.
- `AisProxy.Proxy.OnOpen`: sending the subscription, bounding-box updates from stdin and message output are left out. The pin probe is an oracle whose verdict arrives at any later time.
- `PeerRefresh.RefreshPruning`: what a swarm manifest pull writes to the store file is a parameter, and the wording of the bootstrap state is left out; URLs are taken as normalized and labels as stripped, which their parsers see to, and an unreadable store file is an empty list of entries.
- `PeerStore.Store.Load`: JSON decoding and coercion of fields are left out; `records()` sorts for output, the model keeps the map.
- Viewport normalisation, redaction helpers, count coarsening, scope checks and the data endpoints would only add easy members.
