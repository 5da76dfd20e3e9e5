# Verified model of the chain alerter

The alerter follows a blockchain through a node and turns what it sees into alerts. This project
models its three stateful components in Dafny and proves what they guarantee over whole runs:

- **Chain follower** (`HeadersCache`, `TreeRoutes`, `Follower`, `Sessions`): a header cache with two
  indexes, the route between two blocks over the partly filled cache, the refetch-and-retry loop, and the
  loop that broadcasts enacted blocks, reports reorgs and prunes, over one session and over reconnections.
  The main result is that caching, refetching and pruning cannot be observed: the messages and best blocks
  are those of a listener that holds the whole block tree and has no cache (`ListenForBlocks` against
  `Listen`). What that listener does is stated in terms of ancestor paths (`ListenerMoves`,
  `SentMessageShape`), and so are the cache and the queries (`CacheStepIs`, `AnsweredIff`). On that reference, `Replay` proves that a consumer can rebuild the best chain from the
  messages, and that broadcasts and retractions of a block balance; `Messages` says what one route and one
  message consist of; `Pruning` says exactly how far pruning reaches, with failing runs in `PruningExamples`.
- **Stall and reorg monitor** (`StallMonitor`): its alerts are given by a specification over the event
  history, without state, and event by event over positions in the run; stalls and recoveries are paired.
  `AlertsOfFollower` composes it with the follower: reorg alerts are due exactly for deep reorgs of the
  tree, stalls and recoveries name the follower's best block.
- **Slot monitor** (`SlotMonitor`, `SlotAlerts`, `SlotRuns`, `SlotStalls`): its alerts, window, reference instant and
  accumulated timeout are given over the event history; the results are about how slot times add up, how
  the two thresholds relate, which messages have no effect, what a reported recovery is worth and which
  stall it answers.

Conventions and assumptions:

- The world is one well-formed block tree `t`: every non-genesis block has its parent in the tree,
  numbered one less, and there is one genesis. Hashes are opaque; the hash function is a parameter and
  the only assumption is that the header found under a hash hashes to it (`ContentAddressed`). The
  retry loop terminates because of it.
- The node's answers are inputs. Each import carries the answer to "is it canonical?", which may be
  anything or fail, and the headers the node serves while that import is handled, which may be any part
  of the tree. Since a route asks for each header at most once, this covers lookups that fail at any
  point. How an unanswered query fails, and how the subscription ends, are inputs too; either ends the
  session, and a lost connection starts the next one. A subscription that fails at once is one without imports.
- `sp_blockchain::tree_route` is a library function. It is modelled as the usual parent walk: raise the
  higher side, then both sides until they meet, failing with the first hash that is not cached.
- `BoundedVec::force_push` on a full window is modelled with the index of the discarded element as a
  parameter (index 0 drops the oldest, index 599 replaces the newest). All results hold for every index.
- Instants and durations are nanoseconds. `Instant::duration_since` saturates at zero. The fold over the
  window is computed without bound; `WindowSumFits` shows when it cannot overflow.
- Sending an alert or a message appends it to a sequence. Each monitor consumes a given sequence of
  events; its stream ending or lagging ends the run.
- The `README.md` of the repository (lines 193-208) describes an earlier design with other files; the
  model follows the code.

Two properties one might expect do not hold of the code, and the exact conditions are proved. Pruning
leaves headers behind below a gap in the cached heights: `PrunedIff` is the condition for any cache,
`FarImportLeaksIff` and `ReloadLeaksIff` work it out for a fork imported from far below and for a reload,
`FarForkExample` and `ReloadExample` are failing runs of the follower, from an empty cache on, and
`StaleBelowGapStays` says how long the headers stay. A timekeeper recovery can report more time than the slot took when
timeouts came before the first slot: `RecoveryIsWithinSlotTimeIff`, with `RecoveryOverstatesExample`.

## Model

| member | source | states |
|---|---|---|
| HeadersCache.AgreementDeterminesIndex | alerter/src/subspace.rs:437-441 | When the two maps agree, the headers determine the height index; the sets of different heights are disjoint and none is empty. |
| HeadersCache.InsertAgreesIff | alerter/src/subspace.rs:462-468 | Storing a header keeps the two maps in agreement exactly when its hash is not taken by a header of another height. |
| HeadersCache.HeadersMetadataCache.constructor | alerter/src/subspace.rs:437-441 | An empty cache whose maps agree. |
| HeadersCache.HeadersMetadataCache.AddHeader | alerter/src/subspace.rs:444-471 | Adds the header under its own hash, returns the hash, keeps both maps in agreement and every header under its own hash. |
| HeadersCache.HeadersMetadataCache.RemoveHeaderUntil | alerter/src/subspace.rs:473-482 | Terminates, also where the counter stops at zero; removes exactly the headers of the unbroken run of cached heights ending at the given one; both maps stay in agreement. |
| HeadersCache.HeadersMetadataCache.GetHeader | alerter/src/subspace.rs:484-489 | Succeeds exactly on cached hashes, with the stored header; otherwise the error names the hash. |
| HeadersCache.HeadersMetadataCache.HeaderMetadata | alerter/src/subspace.rs:495-501 | Succeeds exactly on cached hashes, with the header's number and parent, and with the hash asked for although it is recomputed from the header. |
| HeadersCache.PruneClearsIff | alerter/src/subspace.rs:473-482 | Removal clears every height up to the given one if and only if the cached heights have no gap there. |
| BlockTree.CommonBlockIsHighest | alerter/src/subspace.rs:300-304 | The common block of two paths is the highest common ancestor of their tips, and the only one. |
| BlockTree.RouteBlocksAre | alerter/src/subspace.rs:419-420 | The blocks of a route are exactly the ancestors of either tip, tips included, that are not below the highest common ancestor. |
| TreeRoutes.WalkRoute | alerter/src/subspace.rs:419-422 | The parent walk over the cache succeeds if and only if every block of the route is cached; the result is the route of the whole tree through the highest common ancestor; otherwise the error names a missing route block. |
| Follower.FetchHeader | alerter/src/subspace.rs:423-428 | Caches the requested header if the node serves it; otherwise fails as the node does and leaves the cached hashes as they are. |
| Follower.RecursiveTreeRoute | alerter/src/subspace.rs:413-434 | Terminates; succeeds if and only if the node serves every route block that is not cached; returns the route of the whole tree; each fetched header is a missing route block and is fetched once. |
| Messages.RouteSize | alerter/src/subspace.rs:419-420 | A route has as many blocks as it retracts and enacts plus the common block; the counts are the height differences to the common block; no block is below it. |
| Messages.FetchBound | alerter/src/subspace.rs:421-430 | The headers fetched by a successful route are exactly the route blocks missing at the start, at most retracted + enacted + 1 of them. |
| Follower.GetBlockExts | alerter/src/subspace.rs:284-288 | Succeeds exactly when every enacted block is cached, with the details of each header in order; otherwise the error names one that is not. |
| Follower.GetBlockExt | alerter/src/subspace.rs:329-351 | Succeeds exactly on cached hashes, with the hash asked for and number, parent hash, state root and extrinsics root each as in the stored header; otherwise the error names the hash. |
| Follower.RouteAnnounces | alerter/src/subspace.rs:271-304 | The message built from the route (enacted blocks without the new best, retracted reversed, common block) is the change between the two ancestor paths, and every enacted block is cached. |
| Follower.Compose | alerter/src/subspace.rs:284-304 | Builds that message over the cache; no block is missing; the new best block is the last enacted one. |
| Follower.HandleCanonical | alerter/src/subspace.rs:268-312 | One canonical import: it fails exactly when a needed header is not served; otherwise there is a broadcast if and only if the block is off the path of the best block, which then moves to it; message and cache content are those of the reference. |
| Follower.HandleImport | alerter/src/subspace.rs:243-313 | One turn of the loop for any answer of the node: the hash check holds, forks only fill the cache, an unanswered query ends the session and leaves at most the import and part of its route in the cache. |
| Follower.ListenerMoves | alerter/src/subspace.rs:242-310 | Over every run: if the last import is canonical and off the path of the best block before it, it becomes the best block and exactly one message is added, whose last block it is; otherwise best block and messages stay. |
| Follower.CanonicalIsFollowed | alerter/src/subspace.rs:268-310 | After a canonical import its block is on the path of the best block. |
| Follower.FilledIs | alerter/src/subspace.rs:413-434 | After a successful route the cache holds what it held, the import, and every block of the way between the two blocks. |
| Follower.CacheStepIs | alerter/src/subspace.rs:249-312 | For every hash, whether it is cached after an import: a fork adds itself; a canonical import also fills the way; one that is broadcast then removes the unbroken run of cached heights that ends 100 below it, or at 0. |
| Follower.AnsweredIff | alerter/src/subspace.rs:254-270 | An import can be handled if and only if the node says whether it is canonical and, if it is, serves every block of the way that is not cached. |
| Follower.ListenForBlocks | alerter/src/subspace.rs:236-314 | Cache transparency: for every run, answers and faithful starting cache, the messages and best block equal those of the listener without a cache over the imports handled; these end exactly at the first import the node does not answer for; the error and the cache content are given. |
| Follower.FullNodeAnswersAll | alerter/src/subspace.rs:254-270 | A node that answers every canonical query and serves every header lets every run through. |
| Follower.CollectHeaders | alerter/src/subspace.rs:382-400 | Collects the header of the canonical block of each height in order, or fails exactly when one is not served. |
| Follower.AddHeaders | alerter/src/subspace.rs:401-404 | Adds exactly those headers to the cache. |
| Follower.LoadCache | alerter/src/subspace.rs:375-410 | Adds the canonical headers from 100 below the latest block up to it, or changes nothing and fails; succeeds exactly when all are served. |
| Sessions.AwaitLatest | alerter/src/subspace.rs:358-373 | Returns position and block of the first import that is not a fork, with the number of the header served for it, and what follows is left to listen to; otherwise fails as the first unanswered query about that import does, or as the subscription ends. |
| Sessions.Start | alerter/src/subspace.rs:353-411 | Finds that block, as above, and loads the cache: succeeds exactly when there is such a block and every header to load is served; the cache then holds what it held and the loaded headers, otherwise it is unchanged and the error is that of the failed query. |
| Sessions.LoadedAre | alerter/src/subspace.rs:375-404 | The loaded headers are the canonical ones of the first block's height and of the 100 heights below it. |
| Sessions.LoadableIff | alerter/src/subspace.rs:382-400 | Loading succeeds if and only if the session starts and the node serves each of these. |
| Sessions.RunSession | alerter/src/subspace.rs:218-224 | One connection, from any cache: starts at the first import that is not a fork; fails exactly when it finds no first block or a header to load is not served; otherwise handles the longest answered prefix of its remaining imports, broadcasts what the listener without a cache does, and ends with the given error and cache. |
| Sessions.FirstSession | alerter/src/subspace.rs:216-224 | The same from an empty cache; if it was loaded from one chain and fork imports are near, the pruning bound holds after every import handled. |
| Sessions.FirstSessionIsBounded | alerter/src/subspace.rs:216-224 | Loading, listening and pruning composed: the bound at every point of the first session. |
| Sessions.ListenForAllBlocks | alerter/src/subspace.rs:214-234 | Each session runs as above on the cache the one before left; sessions go on exactly while each ends with a lost connection and the next can load; the returned error is that of the last session or of the failed load. |
| Messages.MessageShape | alerter/src/subspace.rs:271-304 | A message exists if and only if the new block is off the old best path; it has at least one block; its blocks, and the retracted ones, are parent-linked chains with consecutive numbers from the highest common ancestor; each block's parent hash is the block before it, its two roots are those of its header; it reports a reorg if and only if the old best is above that ancestor; enacted excludes the new best. |
| Messages.SentMessageShape | alerter/src/subspace.rs:268-310 | The same of the message that a run sends for its last import. |
| Replay.ApplyAnnouncement | alerter/src/subspace.rs:290-310 | One message takes the path of the old best block to the path of the new one; the dropped suffix equals the retracted blocks in order. |
| Replay.ReplayRebuildsBestPath | alerter/src/subspace.rs:268-310 | Replaying all messages of a session from the first best path gives exactly the path of the current best block. |
| Replay.ReplayEveryPrefix | alerter/src/subspace.rs:268-310 | The same at every point: any first messages are those of some first imports, and replaying them gives the path of the best block after these. |
| Replay.Conservation | alerter/src/subspace.rs:271-310 | For every block: on the first best path + broadcasts − retractions = on the current best path. |
| Replay.AnnouncementIsDisjoint | alerter/src/subspace.rs:284-304 | A message retracts nothing that it broadcasts. |
| Replay.RebroadcastNeedsRetraction | alerter/src/subspace.rs:271-310 | A block is broadcast a second time only if a message strictly between the two retracts it. |
| Pruning.StepKeepsAnchor | alerter/src/subspace.rs:311-312 | One import, canonical or near the cache, keeps the best block cached without a gap below it; after a broadcast nothing at or below best − 100 is cached. |
| Pruning.PruningBound | alerter/src/subspace.rs:242-314 | The same over every run whose fork imports are near; canonical imports may be anywhere, including deep refetches and moves to lower heights. |
| Pruning.LoadAnchors | alerter/src/subspace.rs:382-404 | A cache loaded from one chain satisfies the starting condition of the bound. |
| Pruning.PrunedIff | alerter/src/subspace.rs:311-312 | For any cache: a broadcast clears everything at or below its cleaning height if and only if the cached heights with those of the route have no gap up to there. |
| Pruning.FarImportLeaksIff | alerter/src/subspace.rs:249-257 | After a fork import into an anchored cache and then a broadcast the bound holds if and only if the fork is near, or the route comes down to it, or it is not below the cleaning height. |
| Pruning.ReloadLeaksIff | alerter/src/subspace.rs:217-221 | A reload more than 101 blocks above the old cache leaves a gap; the first broadcast after a reload clears the old headers if and only if the loaded ones join them, or the route comes down to them, or the cleaning height does not go above them. |
| Pruning.StaleStep | alerter/src/subspace.rs:249-312 | One import that is not of the gap's height, whose route stays above it and whose cleaning height is not between the two, leaves a header below the gap cached and the gap open; if it cleans above the gap, the bound fails. |
| Pruning.StaleBelowGapStays | alerter/src/subspace.rs:242-314 | A header below a gap stays cached, and the gap open, over every run of such imports. |
| PruningExamples.FarForkLeaks | alerter/src/subspace.rs:254-257 | Whenever a fork header more than one below an anchored cache is imported and a child of the best block then cleans above it, the bound fails. |
| PruningExamples.SessionLeaksFork | alerter/src/subspace.rs:216-224 | Every first session whose node answers everything and that sees such a fork and then such a child ends with the fork still cached. |
| PruningExamples.ForkedIsTree | alerter/src/subspace.rs:444-471 | The tree of the example is well-formed, and a hash function tells all its headers apart. |
| PruningExamples.FarForkExample | alerter/src/subspace.rs:216-224 | Concrete first sessions of that kind on that tree: the follower starts with an empty cache at block b, sees a side block of any height below b − 101 and then block b + 1, and the bound fails. |
| PruningExamples.SessionLeaksOld | alerter/src/subspace.rs:217-221 | A session that starts more than 101 blocks above the cache an earlier one left, and sees a child of its first block, does not clear that cache. |
| PruningExamples.ReloadExample | alerter/src/subspace.rs:214-234 | Concrete runs of that kind: two sessions on one chain, the first ending with a lost connection at block a, the second starting above a + 101; the bound fails. |
| Durations.RepeatedIsMultiple | alerter/src/stall_and_reorg.rs:113-115 | k accumulated timeouts amount to k × threshold, capped at 2^64 − 1 seconds and 999999999 nanoseconds. |
| StallMonitor.HandleMessage | alerter/src/stall_and_reorg.rs:45-110 | One message: the new best block has hash and number of its last block; a recovery for that block and the accumulated time comes first if timeouts were pending, and no other kind but a reorg if not; reorg alert if deep enough. |
| StallMonitor.WatchChainStallAndReorg | alerter/src/stall_and_reorg.rs:33-134 | The alerts of every run are those given by the history: consecutive timeouts, the last best block and the messages. |
| StallMonitor.HandleTimeout | alerter/src/stall_and_reorg.rs:112-131 | One timeout: accumulated duration, stall alert only after a first message. |
| StallMonitor.TimeoutSends | alerter/src/stall_and_reorg.rs:112-131 | In every run a timeout sends nothing before the first message, and after it exactly one stall, for hash and number of the last block of the last message and threshold × timeouts since. |
| StallMonitor.MessageSends | alerter/src/stall_and_reorg.rs:45-110 | In every run a message sends a recovery if and only if timeouts came right before it, for hash and number of its last block and threshold × these timeouts, then its reorg if that retracts at least the threshold, and nothing else. |
| StallMonitor.RecoveryFollowsStall | alerter/src/stall_and_reorg.rs:58-76 | A recovery is sent if and only if a message directly follows a timeout, for the last block of that message; unless it is the first message, the latest stall or recovery alert is the stall of the same duration; before the first message nothing is sent. |
| StallMonitor.RecoveriesArePaired | alerter/src/stall_and_reorg.rs:44-130 | In every run, a recovery that is not the first stall or recovery alert directly follows a stall of equal duration. |
| StallMonitor.ReorgsIgnoreTimeouts | alerter/src/stall_and_reorg.rs:78-110 | The reorg alerts of a run depend on the messages alone. |
| AlertsOfFollower.AlertOfMessage | alerter/src/stall_and_reorg.rs:95-105 | What the follower broadcasts for an import raises exactly the alert that is due. |
| AlertsOfFollower.AlertsOfBroadcasts | alerter/src/stall_and_reorg.rs:48-51 | Every broadcast message carries a block, so the monitor's expectation cannot fail. |
| AlertsOfFollower.ReorgAlertsAreDue | alerter/src/stall_and_reorg.rs:78-110 | Follower and monitor composed: however timeouts fall among the broadcasts, the reorg alerts are the due ones, in order. |
| AlertsOfFollower.AlertIffDeepReorg | alerter/src/stall_and_reorg.rs:95-105 | An alert is due if and only if the best block moves and the old one is at least max(1, threshold) above the highest common ancestor; the alert's block lists are parent-linked chains ending at the new and the old best block. |
| AlertsOfFollower.StallNamesBest | alerter/src/stall_and_reorg.rs:121-125 | Follower and monitor composed: a timeout after the follower's first broadcast sends one stall, which names the follower's best block. |
| AlertsOfFollower.RecoveryNamesImport | alerter/src/stall_and_reorg.rs:58-76 | Follower and monitor composed: the recovery sent on a broadcast names hash and number of the import that became best. |
| SlotMonitor.PushWindow | alerter/src/slots.rs:125-125 | Closed form of the window for any discarded index: all slots while they fit, then the first ones and the newest ones. |
| SlotMonitor.AverageDuration | alerter/src/slots.rs:126-130 | The fold divided by the length is the floor of the average. |
| SlotMonitor.Extend | alerter/src/slots.rs:83-149 | One extension: recovery and slow-slot alerts and the new window; an average alert, with its fields, exactly when 600 slots are in the window and their sum over 600 is above the threshold. |
| SlotMonitor.HandleSlot | alerter/src/slots.rs:62-150 | One slot message: seed, rejected or extension. |
| SlotMonitor.HandleTimeout | alerter/src/slots.rs:151-170 | One timeout: accumulated duration, stall alert only after a first slot. |
| SlotMonitor.MonitorSlots | alerter/src/slots.rs:50-173 | Over every run: alerts, window, reference instant and accumulated timeout are those given by the accepted slots and the timeouts since the last extension. |
| SlotAlerts.AcceptedInOrder | alerter/src/slots.rs:66-74 | In every run the accepted slots are the first slot message and then each next message for the slot one above, by position; the counted timeouts are those after the last extension or, before the first one, all. |
| SlotAlerts.SlotTimeIs | alerter/src/slots.rs:65-69 | An accepted slot takes the time since the one before it, the seed since the start, and none if its instant is earlier. |
| SlotAlerts.WindowIs | alerter/src/slots.rs:59-59 | The window by index: every slot while there are at most 600, then the first ones and the newest ones, 600 in all. |
| SlotAlerts.TimeoutSends | alerter/src/slots.rs:151-170 | In every run a timeout sends nothing before the seed, and after it exactly one stall, for the last accepted slot and 30 s × counted timeouts, this one included. |
| SlotAlerts.SlotSends | alerter/src/slots.rs:72-149 | In every run a slot message sends nothing unless its slot is the next one; then a recovery exactly when timeouts are counted, a slow-slot alert exactly when it took longer than the threshold, an average alert exactly when due, each with its fields, and nothing else. |
| SlotAlerts.AvgAlertIff | alerter/src/slots.rs:125-149 | An average alert is sent if and only if a next slot is received with which at least 600 are accepted and the window sum divided by 600 is above the threshold, with that slot, 600, that quotient and that threshold. |
| SlotRuns.AcceptedAreConsecutive | alerter/src/slots.rs:72-74 | The newest accepted slot is the seed plus the number of extensions. |
| SlotRuns.RejectedAreInvisible | alerter/src/slots.rs:66-74 | Deleting every rejected slot message from a run changes neither the accepted slots, the counted timeouts nor the alerts. |
| SlotRuns.SlotTimesAddUpIff | alerter/src/slots.rs:58-68 | The times of all accepted slots sum to the reference instant minus the start if and only if accepted instants never go back. |
| SlotRuns.WindowSumFits | alerter/src/slots.rs:126-131 | Then the window sum is at most that time, so the fold cannot overflow, and the average when the window first fills is that time divided by 600, rounded down. |
| SlotRuns.SlowExtensionsAreAlerted | alerter/src/slots.rs:101-119 | Every extension above the per-slot threshold is alerted in the run. |
| SlotRuns.SlowAlertsAreSlowExtensions | alerter/src/slots.rs:101-119 | Every slow-slot alert stands for such an extension, with its slot, predecessor and time. |
| SlotRuns.AvgAlertHasSlowSlot | alerter/src/slots.rs:127-149 | An average alert implies a windowed slot above the average threshold; if that is at least the per-slot threshold, the slot is the seed or was alerted in the run. |
| SlotRuns.QuietCounts | alerter/src/slots.rs:66-70 | The counted timeouts are those since the last accepted slot and, until the first extension, those before the seed, which the seed does not clear. |
| SlotRuns.RecoveryIsWithinSlotTime | alerter/src/slots.rs:83-119 | With timeouts that take their time, a recovery reports at most the slot's time if an extension happened before or no timeout came before the seed; with a per-slot threshold below 30s a slow-slot alert accompanies it. |
| SlotRuns.RecoveryIsWithinSlotTimeIff | alerter/src/slots.rs:65-99 | For any order of events ending with a recovery: it is within the slot's time under every timed stamping if and only if an extension happened before, or no timeout came before the seed, or no clock has room for the timeouts. |
| SlotRuns.RecoveryOverstatesExample | alerter/src/slots.rs:65-99 | A concrete run that reports sixty seconds for a slot of thirty. |
| SlotStalls.StallsAndRecoveriesAreDue | alerter/src/slots.rs:83-170 | The stall and recovery alerts of every run depend on the accepted slots and counted timeouts alone, not on the thresholds, the window or the instants. |
| SlotStalls.RecoveryFollowsStall | alerter/src/slots.rs:83-99 | A recovery is sent if and only if a slot extends the chain while timeouts are counted, for all of them; the latest stall or recovery alert is then the stall of the same duration for the slot below, unless all the timeouts came before the seed: then nothing was sent and this is the first extension. |
| SlotStalls.RecoveriesArePaired | alerter/src/slots.rs:50-173 | In every run, a recovery that is not the first stall or recovery alert directly follows a stall of equal duration for the slot below. |
| SlotStalls.FirstIsRecoveryIff | alerter/src/slots.rs:65-99 | The first stall or recovery alert of a run is a recovery if and only if some event recovers from timeouts that all came before the seed. |

## Left out

- Blocks between two sessions (alerter/src/subspace.rs:217-233): a reconnection takes a new best block without broadcasting the way to it, so replay and conservation are per session.
- RPC clients, subscriptions, network details and the storage, timestamp, slot, extrinsic and event readers of a block: input and output.
- Digest decoding and the real hash function: foreign code; the hash is a parameter.
- Block numbers of 32 bits and slot numbers of 64 bits: unbounded here; numbers come from headers and only slot + 1 could overflow, at the largest slot.
- Broadcast channel lag and task scheduling: each monitor is given its sequence of events.
- Event filtering and decoding (events.rs, event_types.rs), peer-to-peer networking, message formatting, Slack, uptime, command line and startup: one-pass filters and foreign interfaces.
- WalkRoute: says that the reported hash is a missing route block, not which one of several, because the walk's order of lookups does not affect any result.
- PruningBound: requires imports that are not canonical to be at most one below the lowest cached height; without that the bound can fail, and PrunedIff gives the exact condition.
- RecoveryIsWithinSlotTime: requires an earlier extension or no timeout before the seed; RecoveryIsWithinSlotTimeIff shows that this is exact.
