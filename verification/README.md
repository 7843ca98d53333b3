# A verified model of PulseMQ's data path

PulseMQ is a message broker. Producers publish frames under topics; the server
numbers them per topic, finds the subscribers and either sends directly or
queues in a per-subscriber buffer that a credit window throttles; a consumer
receives, accounts for gaps in the numbers and routes each frame into the
shared-memory ring of one of its worker processes.

This project models the parts between the sockets in Dafny and proves what they
promise. `dafny verify dfyconfig.toml` checks all of it.

| file | what it models |
|---|---|
| `Bytes`, `Wrappers` | packed integers, result types |
| `RingLayout`, `ShmRing`, `RingProtocol` | the variable-length byte ring: its layout, the object, and writer and reader running concurrently |
| `JumpHash`, `WorkerPool`, `PoolProtocol` | consistent hashing, shortest-queue routing; router and n workers running concurrently over n rings, order per key |
| `BufferModel`, `BufferEviction`, `BufferRuns`, `SubscriberBuffer` | drop-oldest and conflating buffers: the accounting laws, what is evicted, and the object |
| `CreditWindows`, `BufferManager` | send budgets, with and without the control thread interfering; all buffers and windows as one object |
| `Routing`, `SubscriptionTable`, `RoutingConcurrency` | the pattern index, the table with its cache, unlocked readers beside a writer |
| `DataPlane` | numbering, receipts, broadcast into buffers and sockets |
| `Flags`, `Frames`, `FrameLaws`, `FrameReader` | the frame codec and the sequence rewrite |
| `GapLedger`, `EndToEnd`, `Reconciliation` | the consumer's loss accounting and its exactness end to end |
| `Reconnect` | the client's reconnect loop |
| `ControlPlane`, `ControlHistory`, `ControlServer` | registration, cleanup on disconnect and timeout; what the tables say, told from the history of commands |
| `Latency` | histogram quantiles |

## How it is modelled

- Where the source updates objects there are classes, and each method is proved
  equal to a function on values; the laws are lemmas about those functions over
  every run. `hist`, `log`, `samples` and similar fields are ghost history.
- Concurrency is a state machine whose steps are single shared loads and stores
  (single bytes in the ring's data; a counter is one load or store, and a side
  loads its own counter, which only it stores, together with the other's). A lemma
  about `Run(.., schedule)` is about every interleaving. Memory is sequentially
  consistent.
- UTF-8, CRC-32, serializers and compressors are function parameters; a serializer
  may refuse a datum. The round trip assumes that strict UTF-8 is a bijection on
  what it accepts, that the compressor used undoes itself on this payload, and that
  the serializer used reads something back from its output for this datum, which
  need not be the datum (`pyarrow` reads back a table). Nothing is assumed of the
  checksum.
- The clock, the socket's willingness to take a frame, what routing comes to at the
  client, the outcome of each await and the moment of each thread's step are
  inputs, quantified over.

## Where code and intention part

- `worker_pool.py:77` packs a 4-byte marker even when one to three bytes remain
  before the physical end. The buffer the source allocates has no byte behind the
  data area, so such a tail makes `write` raise, and it is the end of the ring: no
  later write succeeds, however much is drained (`WedgedTail`, `WedgedForever`,
  reached in `RaisesAfterOneRecord`). The model's buffer has any number of bytes
  behind the data area, none included. FIFO and integrity hold for every such
  buffer. Progress holds exactly when the payload needs no wrap or the marker
  fits (`StoredWithinTwoAttemptsIff`); it holds at every tail exactly when three
  bytes follow the data area (`AlwaysStoredIff`).
- A payload of length 2^32-1 would be written with the marker as its length.
  The ring is modelled for shorter payloads; `LengthReadAsMarker` says that this
  length is the only one affected.
- `rewrite_seq` recomputes a checksum wherever the flag claims one. On a frame
  that claims a checksum but ends before it, this overwrites topic, token or
  count; `decode_header`, which the server uses, accepts such a frame.
  `RewriteKeepsHeaderIff` gives the exact condition, and the end-to-end theorem
  asks it of published frames.
- The ledger's balance needs numbers above the baseline; `BalanceKeptIff` says
  exactly which frames keep it.
- `_by_user` and `_by_client` stay inverse exactly as long as no registered client
  registers again under a free name (`InverseIff`). After that its old name is
  refused to everybody for good (`OldNameIsLost`).
- A credit report or subscription from a client that is not registered leaves
  state without an owner. All states of a run are free of it exactly when no such
  command came (`NoOrphansIff`); credit left this way outlives every sweep
  (`StrayCreditSurvives`).
- The server numbers and forwards control-type frames like any other, while the
  client's ledger skips them: they count as missing (`Reconcile`).
- The quantiles are read under separate locks. Reading fraction p with n samples
  and q >= p with k more is in order for all samples exactly when
  (1 - q) k <= (q - p) n or n = 0 (`OrderedIff`): at most nine times as many new
  samples between p50 and p95 as there were, and at most four times as many
  between p95 and p99 (`PercentilesOrderedIff`).
- A `route` that raises (the marker above) leaves `_process_batch` with the baseline
  moved and nothing counted: that frame is in no account (`BalanceKeptIff`,
  `LedgerInvariant`), and the rest of its batch is dropped unseen and later counted
  as missing (`Reconcile`).
- The last histogram bucket starts above 50 ms, not at it as a comment says:
  `bisect_left` puts a sample equal to a bound into the bucket that ends there.

## Model

| member | source | states |
|---|---|---|
| `RingProtocol.FifoUnderEverySchedule` | src/pulsemq/worker_pool.py:62-113 | for every interleaving of single loads and byte stores of writer and reader: what was read is a byte-exact prefix of the payloads for which `write` returned True, the backlog stays within the capacity, no access leaves the buffer |
| `RingProtocol.CaughtUpMeansAll` | src/pulsemq/worker_pool.py:96-113 | when head has reached tail, the reader has been handed every accepted payload |
| `RingProtocol.PublishedBytesAreNeverOverwritten` | src/pulsemq/worker_pool.py:71-86 | in any schedule no step changes a byte between the published head and tail |
| `RingProtocol.StepKeepsInv` | src/pulsemq/worker_pool.py:62-113 | each writer or reader step keeps the ring invariant |
| `RingProtocol.WriterAnswersAsLoaded` | src/pulsemq/worker_pool.py:62-87 | one whole call of `write`, with any reader steps in between: it appends one answer, True exactly when the positions loaded at its start leave a place for the payload, and the tail ends where the sequential rule puts it |
| `RingProtocol.ReadsWhatWasThere` | src/pulsemq/worker_pool.py:96-113 | one whole call of `read_batch`, with any writer steps in between: it hands out exactly the next `max` of the payloads accepted when it began, or all that are left |
| `RingProtocol.WedgedForever` | src/pulsemq/worker_pool.py:74-77 | once the tail stands where a marker does not fit, no schedule of writes and reads gets another payload accepted |
| `RingProtocol.ReaderTerminates` | src/pulsemq/worker_pool.py:103-113 | every step inside `read_batch` ends the batch or lowers a bounded lexicographic rank |
| `ShmRings.ShmRing.constructor` | src/pulsemq/worker_pool.py:46-58 | a new ring is empty, both counters 0 |
| `ShmRings.StoredIffAccepted` | src/pulsemq/worker_pool.py:68-87 | from positions alone: a payload is stored exactly when it fits contiguously at the tail, or behind a marker that fits at the physical start, without overtaking the reader; where the tail ends in each case |
| `ShmRings.ShmRing.Write` | src/pulsemq/worker_pool.py:62-87 | stores exactly the payloads that have such a place, appended to the contents; otherwise the contents stay |
| `ShmRings.ShmRing.ReadBatch` | src/pulsemq/worker_pool.py:96-113 | takes the oldest payloads off, at most `max`; fewer than `max` means the ring is drained |
| `ShmRings.ShmRing.FreeBytes` | src/pulsemq/worker_pool.py:89-92 | capacity minus backlog, never above the capacity |
| `ShmRings.ShmRing.PendingBytes` | src/pulsemq/worker_pool.py:127-129 | tail minus head, within the capacity; with FreeBytes it adds up to the capacity |
| `ShmRings.StoredWithinTwoAttemptsIff` | src/pulsemq/worker_pool.py:74-83 | a payload that fits the ring is stored within two attempts on a drained ring exactly when it needs no wrap or the marker fits; so publishing a marker and refusing cannot wedge the ring |
| `ShmRings.AlwaysStoredIff` | src/pulsemq/worker_pool.py:50-52 | that holds at every tail exactly when three bytes follow the data area |
| `ShmRings.WedgedTail` | src/pulsemq/worker_pool.py:74-77 | at a tail whose marker does not fit nothing is stored and the tail stays, whatever the head and the length |
| `ShmRings.RaisesExactlyWhen` | src/pulsemq/worker_pool.py:74-77 | when `pack_into` of the marker raises: the payload fits the free bytes, not the contiguous ones, and the marker does not fit behind them |
| `ShmRings.NeverRaisesIff` | src/pulsemq/worker_pool.py:50-52 | that exception is impossible exactly when at least three bytes follow the data area |
| `ShmRings.RaisesAfterOneRecord` | src/pulsemq/worker_pool.py:74-77 | with a buffer of exactly the capacity, one record, a read and any payload that fits the ring reach the exception |
| `ShmRings.LengthReadAsMarker` | src/pulsemq/worker_pool.py:37-38 | of all 4-byte lengths only 2^32-1 is taken for a marker |
| `RingLayout.NoAlias` | src/pulsemq/worker_pool.py:72-85 | counters less than one lap apart address different bytes |
| `RingLayout.PhysIsMod` | src/pulsemq/worker_pool.py:72 | the model's physical position is the counter modulo the capacity |
| `JumpHash.Hash` | src/pulsemq/worker_pool.py:140-150 | the loop terminates and returns the last candidate bucket below n; -1 for n <= 0 |
| `JumpHash.ReachesIff` | src/pulsemq/worker_pool.py:148-149 | from candidate b a key goes to n or beyond exactly when its 31-bit draw is below (b + 1) 2^31 / n |
| `JumpHash.ShareThatMovesOn` | src/pulsemq/worker_pool.py:148-161 | balance: of the 2^31 draws exactly (b + 1) 2^31 / n, rounded down, move a key from b to n or beyond |
| `JumpHash.ScrambleIsBijection` | src/pulsemq/worker_pool.py:148 | scrambling is a bijection of the 64-bit keys, with its inverse |
| `JumpHash.KnownWorkers` | src/pulsemq/worker_pool.py:140-161 | the workers of two known keys |
| `JumpHash.JumpIncreases` | src/pulsemq/worker_pool.py:146-149 | candidate buckets strictly increase |
| `JumpHash.HomeIsLastCandidate` | src/pulsemq/worker_pool.py:145-150 | the bucket is a candidate below n whose successor is not |
| `JumpHash.GrowingOnlyMovesToNewWorkers` | src/pulsemq/worker_pool.py:153-161 | growing the pool from n to m leaves a key where it is or moves it to a worker numbered n or above; for m = n + 1 to worker n |
| `JumpHash.StableWorkerIndex` | src/pulsemq/worker_pool.py:153-161 | deterministic index below n; 0 for n <= 1 |
| `WorkerPools.Shortest` | src/pulsemq/worker_pool.py:369-377 | picks a ring of minimal backlog, the first such from the round-robin counter |
| `WorkerPools.TiedVisitsAll` | src/pulsemq/worker_pool.py:372-377 | n routes in a row that find all n backlogs tied visit all n rings |
| `WorkerPools.WorkerPool.Choose` | src/pulsemq/worker_pool.py:367-402 | which ring a frame goes to per key mode, with the fallback to topic counted |
| `WorkerPools.WorkerPool.Route` | src/pulsemq/worker_pool.py:360-410 | exactly the chosen ring's queue grows by the payload, and only if stored; the round-robin counter and the fallback count move as the choice does, the other counters follow the answer, and nothing is counted when the write raises |
| `PoolProtocol.StepKeepsInv` | src/pulsemq/worker_pool.py:360-410 | each step of the router or of a worker keeps every ring intact and each ring's accepted payloads equal to the accepted frames routed to it |
| `PoolProtocol.RouteAcceptsIff` | src/pulsemq/worker_pool.py:403-410 | one whole `route`, with any steps of the workers in between: the frame is the newest accepted exactly when its ring had a place for it at the start |
| `PoolProtocol.WorkerFifo` | src/pulsemq/worker_pool.py:62-113 | under every interleaving of the router and n workers over n byte rings, what a worker has been handed is byte for byte a prefix of the frames accepted for its ring, all of them once it has caught up |
| `PoolProtocol.PerKeyOrder` | src/pulsemq/worker_pool.py:378-426 | and of the frames with one key (their topic, what the payload yields, or the topic when it yields nothing), the key's worker has a prefix of those accepted, in routing order, and no other ring has seen any |
| `SubscriberBuffers.SubscriberBuffer.Enqueue` | src/pulsemq/buffering.py:80-111 | the object performs the model's enqueue for its policy |
| `SubscriberBuffers.SubscriberBuffer.Drain` | src/pulsemq/buffering.py:113-164 | the object performs the model's drain and stops only when nothing more could go; the frames handed to the socket are those logged as sent |
| `SubscriberBuffers.SubscriberBuffer.DrainLatest` | src/pulsemq/buffering.py:122-145 | the loop over a snapshot of the dict's topics, conflate |
| `SubscriberBuffers.SubscriberBuffer.DrainQueue` | src/pulsemq/buffering.py:146-164 | the loop over the deque, drop_old |
| `SubscriberBuffers.SubscriberBuffer.OldestAgeMs` | src/pulsemq/buffering.py:176-188 | the age reported is that of the oldest frame held, before rounding |
| `BufferModel.EnqueueKeepsInv` | src/pulsemq/buffering.py:80-111 | every enqueue keeps the accounts; drop_old ends within both limits, conflate within the byte limit or with one topic |
| `BufferModel.DrainKeepsInv` | src/pulsemq/buffering.py:113-164 | every drain keeps the accounts; over-age frames and only they leave as expired, everything else that leaves is sent |
| `BufferModel.Drain` | src/pulsemq/buffering.py:113-164 | at most 512, at most the budget, at most what the socket takes |
| `BufferRuns.DrainSendsWhatItMay` | src/pulsemq/buffering.py:113-164 | under both policies a drain ends only with an empty buffer, after 512 sends, or before a young frame with credit, budget or socket exhausted |
| `BufferEviction.DropOldKeepsMost` | src/pulsemq/buffering.py:97-111 | drop_old holds after an enqueue the longest run of newest frames within both limits |
| `BufferEviction.ConflateEvictsOldest` | src/pulsemq/buffering.py:80-96 | conflate puts a frame in its topic's place and evicts only the oldest topics, only while over the limit |
| `BufferRuns.Conservation` | src/pulsemq/buffering.py:71-76 | in every run: enqueued = held + sent + evicted + expired + conflated; drop callbacks = evicted + expired; bytes = sum of held sizes; drop_old never conflates |
| `BufferRuns.Order` | src/pulsemq/buffering.py:67-68 | in every run: drop_old holds a suffix of the history and sends an ordered subsequence of the rest; a topic's frames leave in order; conflate holds only a topic's newest frame |
| `BufferRuns.NoOverAgeAfterDrain` | src/pulsemq/buffering.py:146-164 | with a forward clock a drop_old drain that sent fewer than 512 leaves no over-age frame |
| `BufferRuns.HeadIsOldest` | src/pulsemq/buffering.py:176-185 | with a forward clock the head of a drop_old queue is its oldest frame |
| `CreditWindows.WindowNeverOverspent` | src/pulsemq/buffering.py:298-330 | for every window object ever created, with the control thread acting between any two steps, the frames charged never exceed max(0, credit) |
| `CreditWindows.SendsBoundedByGrants` | src/pulsemq/buffering.py:243-249 | in every schedule a subscriber's sends are bounded by the credit granted to it plus sends made before it had a window |
| `CreditWindows.NoFreeSendsWhileWindowed` | src/pulsemq/buffering.py:312-317 | while a subscriber has a window no drain without one starts |
| `CreditWindows.WindowServes` | src/pulsemq/buffering.py:309-329 | a subscriber visited undisturbed can be sent everything its window has left, up to 512, and exactly that is charged |
| `CreditWindows.WhoIsHeldBack` | src/pulsemq/buffering.py:311-324 | held back exactly with a used-up window, or with credit and no window yet |
| `CreditWindows.FreshWindowServes` | src/pulsemq/buffering.py:243-249 | a heartbeat's window can be used up to its credit |
| `CreditWindows.DroppedStaysDropped` | src/pulsemq/buffering.py:277-281 | a dropped window or credit stays dropped until the next heartbeat |
| `CreditWindows.StepKeepsInv` | src/pulsemq/buffering.py:277-330 | each step of either thread keeps the window accounts |
| `BufferManagers.BufferManager.SetCredit` | src/pulsemq/buffering.py:243-249 | a fresh, unspent window replaces the old one; others untouched |
| `BufferManagers.BufferManager.Granted` | src/pulsemq/buffering.py:251-275 | each of the three limits asked for is granted within the server's own limit of that kind |
| `BufferManagers.BufferManager.SetPolicy` | src/pulsemq/buffering.py:251-268 | an empty buffer with the limits granted |
| `BufferManagers.Clamp` | src/pulsemq/buffering.py:270-275 | a client can only lower a server limit |
| `BufferManagers.ClampAge` | src/pulsemq/buffering.py:270-275 | the same for the age limit |
| `BufferManagers.BufferManager.Clear` | src/pulsemq/buffering.py:277-281 | buffer and window of this subscriber go, no other |
| `BufferManagers.BufferManager.Enqueue` | src/pulsemq/buffering.py:288-291 | a frame goes to this subscriber's buffer if it has one, and nothing else changes |
| `BufferManagers.BufferManager.DrainOne` | src/pulsemq/buffering.py:309-329 | one subscriber's turn: empty, starved and counted, waiting for its first credit, or drained within its window, which is charged what was sent |
| `BufferManagers.BufferManager.DrainAll` | src/pulsemq/buffering.py:298-330 | the loop performs the turns one after the other, returns their total and counts the starved ones |
| `BufferManagers.TurnsAreIndependent` | src/pulsemq/buffering.py:298-330 | whatever the order, every buffered subscriber ends as its own turn on its own buffer and window leaves it, everybody else as before, and the total is the sum of what the turns send |
| `BufferManagers.TurnServes` | src/pulsemq/buffering.py:309-329 | who is held back and counted as starved; everybody else is drained until nothing more could go within the window |
| `BufferManagers.EverybodyIsServed` | src/pulsemq/buffering.py:298-330 | the same of every subscriber after drain_all, in whatever order |
| `Routing.JoinedPrefixes` | src/pulsemq/routing.py:53-55 | the joined proper prefixes of the split are exactly the q with the topic starting with q + ".", for all strings |
| `Routing.LookupIsMatches` | src/pulsemq/routing.py:50-56 | on a consistent index the lookup is exactly the owners of a matching pattern |
| `Routing.SubscribeConsistent` | src/pulsemq/routing.py:60-78 | subscribe keeps the three maps consistent |
| `Routing.UnsubscribeConsistent` | src/pulsemq/routing.py:80-105 | unsubscribe keeps the three maps consistent and free of empty sets |
| `Routing.RemoveConsistent` | src/pulsemq/routing.py:107-128 | remove keeps the three maps consistent and free of empty sets |
| `SubscriptionTables.SubscriptionTable.Match` | src/pulsemq/routing.py:39-58 | cached or not, the result is the fresh lookup and the owners of matching patterns |
| `SubscriptionTables.SubscriptionTable.Subscribe` | src/pulsemq/routing.py:60-78 | installs the edited index, bumps the version, keeps the cache sound |
| `SubscriptionTables.SubscriptionTable.Unsubscribe` | src/pulsemq/routing.py:80-105 | installs the edited index, bumps the version, keeps the cache sound |
| `SubscriptionTables.SubscriptionTable.Remove` | src/pulsemq/routing.py:107-128 | visiting the patterns in any order clears the identity from every set |
| `SubscriptionTables.RoutingIsPatternMatching` | src/pulsemq/routing.py:139-145 | after any sequence of edits a topic is routed to exactly the identities holding a pattern it falls under |
| `RoutingConcurrency.CurrentEntriesAreFresh` | src/pulsemq/routing.py:130-133 | when no write is in progress every cache entry of the current version equals a fresh lookup |
| `RoutingConcurrency.MatchIsAtLeastAsNew` | src/pulsemq/routing.py:46-58 | a match that reads the version after write k's bump returns the lookup in an index at least as new as write k |
| `RoutingConcurrency.MatchAnswersSomeRecentRelation` | src/pulsemq/routing.py:39-58 | every unlocked answer is the pattern-matching answer after the first m edits, m between the edits completed before it and those installed by its end |
| `RoutingConcurrency.StepKeepsInv` | src/pulsemq/routing.py:46-78 | each reader or writer step keeps the version/cache invariant |
| `RoutingConcurrency.UndisturbedWrite` | src/pulsemq/routing.py:60-78 | a write nobody interrupts installs the edited index under the next version and empties the cache |
| `RoutingConcurrency.UndisturbedMatch` | src/pulsemq/routing.py:39-58 | a match nobody interrupts returns the fresh lookup and leaves it in the cache |
| `DataPlane.Broadcast` | src/pulsemq/transport/router.py:300-346 | visits the pairs group by group and performs the delivery rule on buffers and sockets; each buffer is given exactly the entries for it; the result counts the starved and refused |
| `DataPlane.EveryPairAccounted` | src/pulsemq/transport/router.py:318-346 | every pair is enqueued, sent, starved or refused, as its target's buffer, credit and socket decide; no buffer or window appears or goes |
| `DataPlane.BufferedTarget` | src/pulsemq/transport/router.py:326-328 | a buffered subscriber's buffer is given exactly the frames for it, once and in order, each under the topic published, with its size and the clock of its visit; nothing for it reaches the wire |
| `DataPlane.HistoryGrows` | src/pulsemq/transport/router.py:326-328 | its history grows by exactly these entries and its accounts stay in order |
| `DataPlane.OneFrameForAll` | src/pulsemq/server.py:447-452 | one frame for distinct targets: each buffered one gets the one entry, the other buffers stay as they are |
| `DataPlane.StarvedTarget` | src/pulsemq/transport/router.py:329-334 | a subscriber without credit gets nothing on the wire |
| `DataPlane.OpenTarget` | src/pulsemq/transport/router.py:335-345 | a subscriber without a buffer but with credit gets on the wire exactly those of its frames that its socket takes, in order |
| `DataPlane.OneFrameKeepsOrder` | src/pulsemq/transport/router.py:318-325 | grouping by frame keeps the order when all targets get the same frame |
| `DataPlane.OneGroupPerFrame` | src/pulsemq/transport/router.py:318-321 | one group per frame, with all its targets in the order given |
| `DataPlane.VisitsEachPairOnce` | src/pulsemq/transport/router.py:318-325 | grouping loses and invents no pair |
| `DataPlane.DataServer.NextSeq` | src/pulsemq/server.py:408-412 | per-topic numbers count up from 1 |
| `DataPlane.DataServer.OnDataMessage` | src/pulsemq/server.py:414-454 | an accepted frame takes the topic's next number whether or not anybody subscribes, and its receipt carries it if one was asked for; the renumbered frame is delivered to exactly the matching identities, once each, and queued under its topic in the buffers among them |
| `GapLedger.GapTracker.ProcessBatch` | src/pulsemq/client.py:922-983 | the loop performs the ledger's fold over the batch, with and without a pool, and leaves the batch where `route` raises |
| `GapLedger.GapTracker.OnData` | src/pulsemq/client.py:956-980 | gap detection, what routing comes to, and baseline rollback for one frame |
| `GapLedger.GapTracker.DrainGapReport` | src/pulsemq/client.py:867-875 | the new losses per topic, totals remembered |
| `GapLedger.LedgerInvariant` | src/pulsemq/client.py:956-980 | for strictly increasing numbers and whatever routing comes to, after every frame missing + routed + frames without a verdict = baseline + 1 - first observed; so the balance holds exactly while no `route` raised and there was a pool |
| `GapLedger.BalanceKeptIff` | src/pulsemq/client.py:957-980 | one frame keeps that balance exactly when it is taken above the baseline, refused off the baseline, or without a verdict not above the baseline |
| `GapLedger.CutsDoNotMatter` | src/pulsemq/client.py:938-980 | frames received as one batch or as two come to the same, unless routing raises in the first |
| `GapLedger.BatchesDoNotMatter` | src/pulsemq/client.py:938-980 | the ledger's fold over arrivals composes |
| `GapLedger.ReportsAddUp` | src/pulsemq/client.py:867-875 | the reported deltas sum to the missing total at the last heartbeat |
| `EndToEnd.RewrittenIsGood` | src/pulsemq/server.py:447-449 | the renumbered frame reads at the client as a frame of the same topic and type with the new number |
| `EndToEnd.RunKeepsInv` | src/pulsemq/server.py:414-454 | in every run of publishes, drains and receives, numbering, buffer, link and ledger stay tied together |
| `EndToEnd.PublishMovesOn` | src/pulsemq/server.py:414-454 | an accepted publish takes the next number; if somebody subscribes the frame with this number is queued |
| `EndToEnd.FlushAndReceiveMoveOn` | src/pulsemq/buffering.py:113-164 | a flush sends what it may onto the link, a receive takes its batch off the link into the ledger |
| `Reconciliation.Reconcile` | tests/test_proto_v3_e2e.py:3-5 | in every run, once the newest number has been routed: assigned since first observed = routed + missing + frames whose routing gave no verdict, and missing = evicted + expired + ring-refused + control-type frames + frames dropped unseen behind an exception |
| `Flags.FlagsRoundTrip` | src/pulsemq/protocol/flags.py:32-52 | decoding the flags byte returns serializer, compression and both bits |
| `Flags.FlagsCanonical` | src/pulsemq/protocol/flags.py:45-52 | which bytes survive decoding and encoding: reserved bit clear and an assigned serializer code |
| `Flags.FlagsLayout` | src/pulsemq/protocol/flags.py:15-42 | the byte's value for every combination |
| `Frames.PeekRefinesHeader` | src/pulsemq/protocol/frames.py:404-419 | on every byte string the fast peek accepts exactly what `decode_header` accepts and agrees with it |
| `Frames.DecodeRefinesHeader` | src/pulsemq/protocol/frames.py:318-397 | what `decode` accepts `decode_header` accepts, with the same fields |
| `FrameLaws.DecodeAcceptsIff` | src/pulsemq/protocol/frames.py:318-365 | `decode` accepts exactly the frames whose header decodes, whose claimed checksum is there and right, and whose payload the codecs read, and returns these; a wrong checksum is refused as such |
| `FrameLaws.HeaderAcceptsIff` | src/pulsemq/protocol/frames.py:375-394 | which byte strings `decode_header` accepts |
| `FrameLaws.HeaderRebuilds` | src/pulsemq/protocol/frames.py:3-9 | an accepted header gives back every byte before the payload, in the documented layout |
| `FrameLaws.EncodeAcceptsIff` | src/pulsemq/protocol/frames.py:205-301 | exactly which inputs `encode` accepts |
| `FrameLaws.PreparedAs` | src/pulsemq/protocol/frames.py:249-277 | which data type and serializer an omitted argument stands for, and which pairs are refused |
| `FrameLaws.EncodeRewriteDecode` | src/pulsemq/protocol/frames.py:205-365 | every frame the encoder accepts, with given or inferred data type, serializer and count, keeps after renumbering every field but the sequence number, its length and a valid checksum; its payload is what the serializer reads back from its own output for this datum, restored by data type |
| `FrameLaws.RewriteKeepsHeader` | src/pulsemq/protocol/frames.py:304-315 | renumbering changes nothing else in the header when a claimed checksum has room |
| `FrameLaws.RewriteKeepsHeaderIff` | src/pulsemq/protocol/frames.py:304-315 | for all checksum functions the header survives renumbering exactly when a claimed checksum has its four bytes |
| `FrameLaws.RewriteClobbers` | src/pulsemq/protocol/frames.py:311-314 | a frame whose claimed checksum has no room loses part of its header to the rewrite for some checksum value |
| `FrameLaws.LastRewriteWins` | src/pulsemq/protocol/frames.py:304-315 | the last rewrite wins |
| `FrameLaws.RewriteChecksum` | src/pulsemq/protocol/frames.py:312-314 | after a rewrite the checksum is right |
| `FrameReaders.FrameReader.InternTopic` | src/pulsemq/protocol/frames.py:62-69 | the bounded cache never changes the decoded topic |
| `FrameReaders.FrameReader.PeekTopicSeq` | src/pulsemq/protocol/frames.py:404-419 | the receive loop's peek is the pure one whatever the cache holds |
| `FrameReaders.FrameReader.ReadHeader` | src/pulsemq/protocol/frames.py:368-397 | header decoding is the pure one whatever the cache holds |
| `Reconnect.ReconnectingClient.ReconnectLoop` | src/pulsemq/client.py:475-589 | for every script of outcomes and cancellations: how the loop ends and how often it sleeps; each transport dialled is closed or is the committed one; the flag is cleared; the k-th sleep is the k-th delay |
| `Reconnect.ReconnectingClient.Attempt` | src/pulsemq/client.py:477-576 | exactly which outcomes of the awaits commit, end in an authentication error, are cut short, or back off, and what is closed in each |
| `Reconnect.DelayIsCapped` | src/pulsemq/client.py:490-492 | the k-th delay is min(initial * mult^k, max) when initial <= max |
| `Reconnect.DelayFormulaIff` | src/pulsemq/client.py:490-492 | that formula holds for all k exactly when initial <= max |
| `ControlPlane.OneClientPerUsername` | src/pulsemq/control.py:51-58 | in every run no two registered clients share a username |
| `ControlPlane.BuffersBelongToRegistered` | src/pulsemq/server.py:521-533 | in every run a buffer's identity belongs to a registered client |
| `ControlPlane.DisconnectLeavesNothing` | src/pulsemq/server.py:615-624 | after DISCONNECT no topic matches the identity and it has no credit, window, buffer or registration |
| `ControlPlane.SweepLeavesNothing` | src/pulsemq/server.py:641-653 | a sweep does the same for exactly the registered clients not heard of for longer than the timeout |
| `ControlHistory.TablesTellHistory` | src/pulsemq/server.py:511-653 | in every run the credit, window, buffer and patterns kept under an identity are what the commands have put there since it was last forgotten |
| `ControlHistory.RoutesTellHistory` | src/pulsemq/server.py:511-653 | so a topic is routed to exactly the identities the history leaves with a pattern it falls under |
| `ControlHistory.RegistryTellsHistory` | src/pulsemq/control.py:51-104 | in every run a client is registered under the name of its last accepted REGISTER and as last heard at its last heartbeat |
| `ControlHistory.SweptIffSilent` | src/pulsemq/control.py:98-104 | so a sweep keeps a client exactly when it was heard of within the timeout |
| `ControlPlane.CreditOrphansExactlyUnregistered` | src/pulsemq/server.py:559-563 | a credit report leaves credit without an owner exactly when its sender is not registered |
| `ControlPlane.SubscriptionOrphansExactlyUnregistered` | src/pulsemq/server.py:595-597 | a subscription leaves a route without an owner exactly when its sender is not registered |
| `ControlPlane.NoOrphansIff` | src/pulsemq/server.py:550-653 | in every run all states are free of ownerless credit, windows and subscriptions exactly when every credit report and subscription came while a registered client had the identity |
| `ControlPlane.StrayCreditSurvives` | src/pulsemq/server.py:641-653 | credit without an owner survives every later run of commands and sweeps until a client with that identity registers or disconnects |
| `ControlPlane.RegisterKeepsInverseIff` | src/pulsemq/control.py:51-58 | REGISTER keeps `_by_user` and `_by_client` inverse exactly when it is refused or the client was not registered |
| `ControlPlane.InverseIff` | src/pulsemq/control.py:51-104 | in every run all states have inverse maps exactly when no registered client registers under a free name |
| `ControlPlane.OldNameIsLost` | src/pulsemq/control.py:93-96 | after such a registration the old name is refused to everybody, whatever happens later |
| `ControlServers.OnlineRegistry.Register` | src/pulsemq/control.py:51-58 | refuses a username that is online, otherwise records the client |
| `ControlServers.OnlineRegistry.Unregister` | src/pulsemq/control.py:93-96 | removes the client and its username |
| `ControlServers.OnlineRegistry.SweepTimeout` | src/pulsemq/control.py:98-104 | unregisters exactly the timed-out clients |
| `ControlServers.ControlServer.OnRegister` | src/pulsemq/server.py:511-541 | registry, routing table and buffer manager after REGISTER, the requested buffer limits clamped |
| `ControlServers.ControlServer.OnHeartbeat` | src/pulsemq/server.py:550-563 | the registry, the credits and the windows after HEARTBEAT |
| `ControlServers.ControlServer.OnSubscribe` | src/pulsemq/server.py:595-597 | the routing table after SUBSCRIBE |
| `ControlServers.ControlServer.OnUnsubscribe` | src/pulsemq/server.py:606-608 | the routing table after UNSUBSCRIBE |
| `ControlServers.ControlServer.OnDisconnect` | src/pulsemq/server.py:615-622 | registry, routing table and buffer manager after DISCONNECT |
| `ControlServers.ControlServer.OnSweep` | src/pulsemq/server.py:645-653 | one round of the sweep loop |
| `Latency.LatencyStats.Record` | src/pulsemq/stats/latency.py:42-49 | the bucket counts stay the counts of the recorded samples |
| `Latency.BucketTable` | src/pulsemq/stats/latency.py:13-25 | the buckets in nanoseconds |
| `Latency.LatencyStats.PercentileMs` | src/pulsemq/stats/latency.py:51-70 | the interpolated quantile, in the bucket of the ceil(pct*n)-th smallest sample recorded; 0 without samples |
| `Latency.LatencyStats.Percentiles` | src/pulsemq/stats/latency.py:72-77 | three reads with any records in between: each is the quantile of what was recorded until then, and they are in order while the records in between stay within the bounds |
| `Latency.PercentilesOrderedIff` | src/pulsemq/stats/latency.py:72-77 | p50 <= p95 <= p99 for all samples exactly when at most 9n samples come between the first two reads and at most 4m between the last two, n and m being there before |
| `Latency.OrderedIff` | src/pulsemq/stats/latency.py:51-77 | for any fractions p <= q read with n and n + k samples: in order for all samples exactly when n = 0 or (1-q)k <= (q-p)n |
| `Latency.QuantileLaw` | src/pulsemq/stats/latency.py:51-70 | for every fraction in (0, 1] and every non-empty set of samples the ceil(pct*n)-th smallest sample exists, the reported estimate lies in its bucket, and for samples in [0, 100 ms] it is off by at most that bucket's width |
| `Latency.RankedExists` | src/pulsemq/stats/latency.py:55-69 | for every rank there is exactly one sample value of that rank |
| `Latency.EstimateInRankedBucket` | src/pulsemq/stats/latency.py:55-69 | the bucket that holds the target position is the bucket of the sample ranked by the target rounded up |
| `Latency.EstimateMonotone` | src/pulsemq/stats/latency.py:51-70 | a larger fraction never gets a smaller estimate |

## Left out

- Sockets, ZAP, asyncio scheduling and process start-up: a link is a lossless FIFO, a send succeeds or is refused.
- Memory ordering weaker than sequential consistency, and counters beyond 64 bits.
- ShmRings.ShmRing.Write: payloads of 2^32-1 bytes and more are not modelled (`struct` refuses longer ones).
- Reconciliation.Reconcile: the subscription and the drop_old buffer of the subscriber stay in place for the run, the server is not restarted, and a published frame that claims a checksum has room for it.
- WorkerPools.WorkerPool.Route: extracting a key from a payload is a function parameter; the once-per-reason warnings are not modelled.
- PoolProtocol.PerKeyOrder: stated for a fixed number of workers, as routing promises it; the router calls `route` for one frame at a time.
- SubscriberBuffers.SubscriberBuffer.OldestAgeMs: the result is not rounded to a tenth.
- FrameLaws.EncodeRewriteDecode: what the serializers, the type inference and `_restore_type` do with Python objects is given by functions; the conversion of a DataFrame to records is one of them.
- Reconnect.ReconnectingClient.ReconnectLoop: restarting the background tasks is not modelled; the loop starts where its `try` starts.
- GapLedger.GapTracker.ProcessBatch: latency sampling and publish receipts.
- ControlPlane: the registry's topic lists, connection events, statistics and replies; an identity is a function of the client id, as the client sets it.
- Latency.LatencyStats.PercentileMs: floating-point rounding; fractions outside (0, 1].
- The per-minute registries, archives, alerts, admin server, web pages, command line and configuration.
- `free_credit`: it floors at 1 and pools all rings, so it does not imply that no ring fills.
- Frames produced inside the server, which bypass numbering.
