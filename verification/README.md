# A model of fis-monitor

fis-monitor watches a catalogue of land lots: a scheduler polls the listing, stores what it finds,
notifies by e-mail and in the browser, backfills history, scans for removed lots once a day, and
serves pages and a server-sent-event stream. This project models the parts of it where state,
concurrency or arithmetic make mistakes easy, and proves what those parts are for. Nothing in it
was executed; every statement below holds for all inputs, runs or reachable states of the model.

## The modules

| files | what they model |
|---|---|
| `EventBus`, `BusOverflow`, `ThreadEventBus` | the event bus: a machine whose steps are the lock regions and queue operations of any number of publishers, subscribers and readers, what overflow costs, and the bus object as one thread sees it |
| `Notifications`, `DeliveryRuns` | the durable notification rows, the dispatcher that works on them, and every run of any number of consumers with crashes between any two calls |
| `FullScan`, `PaginatedFetch` | the daily scan that pages through a list it shrinks itself, the page walk it relies on, and when its deactivations may be trusted |
| `Backfill`, `BackfillService` | single-flight backfill: the interleavings of start, maybe_start, cancel, watcher and worker; the service, its page walk and row loop, and what a written done flag means |
| `MonitorCycle`, `CycleOverlap` | one monitor cycle with every call free to fail, and the scheduler beside the backfill machine |
| `IsoText`, `Base64`, `LotQuery`, `KeysetWalk`, `LotPages` | decimal and ISO-date text, base64url, the page cursor, the WHERE clause with its positional parameters, and page walks over a table that changes meanwhile |
| `License` | issuing and verifying licence keys |
| `SseStream` | the frames the server writes and the event-stream parser of the WHATWG HTML Living Standard that reads them |
| `LogFilters` | the two-pass log scrubber, its regular expressions read declaratively, and the log record it rewrites |
| `RateLimit` | the sliding-window limiter |
| `Migrations`, `Regions`, `RegionMigration`, `ConfigSource` | the migration chain and its transaction, the data migration to version 10, and the subscription rows that follow configuration edits |
| `Prelude` | options, filters, pigeonhole |

`dafny verify dfyconfig.toml` checks all of them.

## How to read it

Code that updates state is a class whose methods are proved against functions or predicates of the
old state; the theorems are about those. Concurrency is a machine: `Enabled` and `Step` over an
`Action`, an invariant `Inv` every step keeps, and theorems over every `Run`. Collaborators that
cannot be seen (HTTP, SMTP, the parser, SQLite, the clock, HMAC-SHA256, `json`, `bytes.decode`)
are parameters or oracles whose every outcome is allowed; where a result needs a fact about one
of them, the fact is a named predicate (`License.Faithful`, `Base64.ReadsAscii`). A stop event is
the number of looks at it that still find it clear.

## Where the code does not do what is said of it

- **Completed pagination.** `full_scan.py` treats a walk that raised nothing as complete. The
  fetcher swallows network and parse failures unless told to raise, so listed lots can be
  deactivated. `ScanTrustworthyIff` says exactly when a scan can be trusted;
  `SwallowedFailureDropsListedLot` shows one that cannot.
- **One scan is not enough.** Offsets grow while the list shrinks, so a single scan may skip
  missing lots (`OneScanMaySkip`). It leaves none if and only if the gaps of the list it starts
  from are clear (`OneScanSufficesIff`); it always drops at least half of the missing lots
  (`ScanDropsHalf`), and repeated scans converge (`ScansConverge`).
- **The cycle row.** `monitor_cycle.py:347-360` logs that the row of a cycle a domain error escaped
  from is "already closed", and the docstring of `run_cycle` says the row is closed before a
  re-raise. The row stays open, and `cycle.done` is never published, if and only if the first call
  to fail raises one of the four domain exceptions where nothing catches it (`ClosedOnceIff`,
  `RowStranded`). None of the present collaborators does: the HTTP client raises requests
  exceptions, the parser only what is caught around it, enrichment re-raises version mismatches
  only (`ClosesToday`). A row that is closed counts its dispatches if and only if no call
  was fatal or nothing had been dispatched before it (`RowCountsIff`): on an unexpected exception,
  such as a database error out of an upsert, it says zero (`DispatchedNotReported`).
- **SSE framing.** Texts are split at line feeds only. A frame is read back as written if and only
  if its text holds no carriage return (`FramesRoundTripIff`, `CarriageReturnLoses`).
- **Legacy databases.** `init_db.py` documents a database stamped 0 that has tables as migratable.
  The default runner has no step from version 0 and always reports a broken chain
  (`DefaultConnectedIff`, `LegacyZeroBreaks`).
- **Backfill status.** `progress.running` is cleared after the claim is released, so the status
  can deny a run that is at work (`StatusMayLie`). It is right as long as, and only as long as, no
  worker that was still finishing when the run entered has finished since (`StatusRightIff`).
- **Backfill done.** The done flag marks a backfill of the 30-day window as finished. A walk ends
  silently at a generic parser crash, and after five pages, and a row whose conversion or upsert
  fails is skipped; the flag is written in all three cases. The run has written the window of the
  whole catalogue if and only if the catalogue ends within the pages reached or the first lot behind
  them is old, and every row of the window converts and upserts (`FlagCompleteIff`, `SixthPageLost`,
  `CrashLosesAll`, `RefusedLotLost`).
- **Skip-set.** `backfill.py:15-17` says that a region being backfilled is skipped to prevent
  concurrent writes. The check comes before the cycle, so a backfill that reaches its rows during a
  cycle of the region overlaps it; the cycle's own delta trigger can start that backfill
  (`OwnTriggerOverlaps`). There is no overlap if and only if no region is marked during a cycle of
  it (`NoOverlapIff`).
- **Critical events.** A critical put waits for room, but an event already in a queue has no
  priority there: a later normal publish evicts it if it is the oldest entry (`CriticalEvicted`).
  Nothing else loses an event that was put (`InQueueIff`, `LostToNormalOnly`).
- **Late subscribers.** A subscriber that registers between a publish's snapshot and its slot write
  gets neither copy (`GapSubscriberGetsNeither`). One that registers later gets the event if and
  only if its slot is among the first hundred unexpired ones then (`LateSubscriberServedByReplay`).
- **Configuration edits past the first 4 KB** of an otherwise unchanged file are not noticed
  (`LateEditUnseen`).
- **Macros removed while the process is down** leave their subscription rows behind: the start
  seeds rows and never deletes any (`RemovedOfflineStays`; `BootExactIff` says when rows are exact).

## Model

| member | source | states |
|---|---|---|
| `EventBus.InvStep` | src/fis_monitor/infra/sse/bus.py:96-265 | every atomic step of every publisher, subscriber and reader keeps the whole invariant: registry, replay slots, handles, publish calls |
| `EventBus.DeliveredAtMostOnce` | src/fis_monitor/infra/sse/bus.py:96-145 | over every interleaving no queue ever receives one publication twice, live path and replay together |
| `EventBus.SnapshotServedLive` | src/fis_monitor/infra/sse/bus.py:107-120 | a subscriber registered when the snapshot is taken receives the event exactly if the live path enqueued it there: replay never serves it |
| `EventBus.OutsiderNever` | src/fis_monitor/infra/sse/bus.py:107-145 | a handle outside a publication's snapshot that has not got it by replay never gets it |
| `EventBus.LateSubscriberServedByReplay` | src/fis_monitor/infra/sse/bus.py:122-145 | a subscriber that registers after the snapshot gets the event if and only if it is among the first hundred unexpired slots at that moment, so never before the slot is written |
| `EventBus.ReplayHolds` | src/fis_monitor/infra/sse/bus.py:122-145 | the replay holds an event exactly if one of the first hundred unexpired slots is its slot |
| `EventBus.SlotKeptIff` | src/fis_monitor/infra/sse/bus.py:200-202 | over every run, the slot a normal publish wrote at time t is still there if and only if no later normal event of its kind, no eviction of its kind and no subscriber at t + 30 seconds or later came between |
| `EventBus.SetSlotWrites` | src/fis_monitor/infra/sse/bus.py:200-202 | a publish leaves every slot of another kind where it was and puts its own in the place of its kind, or last |
| `EventBus.GapSubscriberGetsNeither` | src/fis_monitor/infra/sse/bus.py:183-222 | a complete run in which a subscriber registering between snapshot and slot write ends up alive with an empty history |
| `EventBus.QueueIsSuffix` | src/fis_monitor/infra/sse/bus.py:204-248 | each queue stays within 100 entries and is a contiguous suffix of everything ever put into it |
| `BusOverflow.InQueueIff` | src/fis_monitor/infra/sse/bus.py:204-222 | over every run, an event put into a queue is still in it if and only if no step since consumed or evicted it as the oldest entry |
| `BusOverflow.LostToNormalOnly` | src/fis_monitor/infra/sse/bus.py:204-222 | an event that left a queue unconsumed was evicted, as its oldest entry, by a normal publish call |
| `BusOverflow.CriticalEvicted` | src/fis_monitor/infra/sse/bus.py:204-222 | a reachable state and step in which a critical event already put is evicted unread |
| `EventBus.AliveIffRegistered` | src/fis_monitor/infra/sse/bus.py:253-265 | at every moment a handle is alive exactly if registered, and a dead handle stays dead and unregistered for good |
| `EventBus.CriticalReturn` | src/fis_monitor/infra/sse/bus.py:224-251 | when a critical publish returns, each snapshot subscriber has the event in its history or is dead and unregistered |
| `EventBus.NormalReturn` | src/fis_monitor/infra/sse/bus.py:204-222 | a normal publish fails an alive subscriber only where another publisher put into that queue between its eviction and its second put |
| `EventBus.LostWasDisplaced` | src/fis_monitor/infra/sse/bus.py:204-222 | every event a publish call lost at a subscriber was displaced: the run holds the eviction, another publisher's put after it, and the failed second put |
| `EventBus.SerialPublishersLoseNothing` | src/fis_monitor/infra/sse/bus.py:204-222 | with one publish in flight at a time drop-oldest loses no published event to overflow |
| `ThreadEventBus.Bus.Subscribe` | src/fis_monitor/infra/sse/bus.py:122-145 | registers a new handle whose queue is the events of the slots younger than 30 seconds, in order, at most 100; older slots are evicted |
| `ThreadEventBus.Bus.PublishNormal` | src/fis_monitor/infra/sse/bus.py:183-222 | overwrites the slot of its own kind where it stands or adds it at the end, leaves every other slot in place, and gives every subscriber the event, dropping the oldest entry only at 100 |
| `ThreadEventBus.Bus.PublishCritical` | src/fis_monitor/infra/sse/bus.py:224-251 | exactly the subscribers with room stay and get the event; full ones are dead, off the list, and their queues untouched |
| `ThreadEventBus.Bus.OfferCritical` | src/fis_monitor/infra/sse/bus.py:231-248 | the put at each snapshot subscriber; returns exactly those it timed out on |
| `ThreadEventBus.Bus.ForceRemove` | src/fis_monitor/infra/sse/bus.py:253-265 | dead and off the list, everyone else untouched, a second call changes nothing |
| `ThreadEventBus.Bus.EvictNormalReplay` | src/fis_monitor/infra/sse/bus.py:162-177 | drops exactly the slot of that event type |
| `ThreadEventBus.MachineDeliversLikeBus` | src/fis_monitor/infra/sse/bus.py:204-222 | the machine's put, evict, put steps at one subscriber, uninterrupted, do what the method does |
| `Notifications.Repository.Reserve` | src/fis_monitor/infra/sqlite/repositories/notifications.py:78-97 | creates a pending row with no attempts only if none exists |
| `Notifications.Repository.MarkAttempt` | src/fis_monitor/infra/sqlite/repositories/notifications.py:114-142 | increments and returns attempt_no of a pending row, refuses any other |
| `Notifications.Repository.MarkSent` | src/fis_monitor/infra/sqlite/repositories/notifications.py:144-162 | a pending row becomes sent with its attempts kept; a row in any other state, every other key and the set of keys stay |
| `Notifications.Repository.MarkPermanentFail` | src/fis_monitor/infra/sqlite/repositories/notifications.py:164-181 | a pending row becomes permanent_fail with its attempts kept; a row in any other state, every other key and the set of keys stay |
| `Notifications.SendsWithinAttempts` | src/fis_monitor/services/notifier_dispatcher.py:505-555 | a visit never sends more often than the attempts it claims and never takes a row past ten sends |
| `Notifications.PendingMeansExhausted` | src/fis_monitor/services/notifier_dispatcher.py:505-555 | a row an uncut visit leaves pending has used the whole retry loop, every send a retryable failure |
| `Notifications.RetryEnds` | src/fis_monitor/services/notifier_dispatcher.py:505-555 | how the loop ends: after m sends that went on, the cap, the end of the replies, or a send that decides, with row, sends, delivery and cut in numbers; a non-retryable failure ends in permanent_fail after that send |
| `Notifications.LoopEndsOnce` | src/fis_monitor/services/notifier_dispatcher.py:505-555 | that description leaves one outcome only |
| `Notifications.SentIffDelivered` | src/fis_monitor/services/notifier_dispatcher.py:531-537 | the row is sent after the loop if and only if a send was good |
| `Notifications.VisitAdvances` | src/fis_monitor/services/notifier_dispatcher.py:490-555 | under every visit rows only appear, sent and permanent_fail rows never change, attempts only grow, other keys are untouched, and suppression leaves no pending row |
| `Notifications.Dispatcher.Dispatch` | src/fis_monitor/services/notifier_dispatcher.py:334-374 | enqueues unless the queue is full, in which case the lot is dropped; warns once per lot without a region |
| `Notifications.Dispatcher.RetryLoop` | src/fis_monitor/services/notifier_dispatcher.py:505-555 | the loop over repository calls leaves exactly the row, sends and stop state of the retry specification |
| `Notifications.Dispatcher.SendRound` | src/fis_monitor/services/notifier_dispatcher.py:505-555 | one attempt over the repository: claimed, sent, and closed or left pending as its reply says, no other row moved |
| `Notifications.Dispatcher.SendOne` | src/fis_monitor/services/notifier_dispatcher.py:453-555 | one visit: sent afterwards if and only if sent before or delivered; suppressed, a pending row becomes permanent_fail with its attempts kept and any other, or none, stays; otherwise the row as the loop ends it, and no other row moves |
| `Notifications.Dispatcher.DispatchAllChannels` | src/fis_monitor/services/notifier_dispatcher.py:408-431 | with DnD active nothing changes; otherwise every channel and recipient gets one visit and no other row moves |
| `Notifications.Dispatcher.RetryOne` | src/fis_monitor/services/notifier_dispatcher.py:557-598 | unknown channel: row kept; lot gone: a pending row becomes permanent_fail, any other stays; otherwise one visit; no other row moves |
| `Notifications.Dispatcher.Recover` | src/fis_monitor/services/notifier_dispatcher.py:399-402 | one sweep: each listed row up to a shutdown is retried exactly once, as RetryOne says, all others untouched |
| `Notifications.SweepsTerminate` | src/fis_monitor/services/notifier_dispatcher.py:380-402 | over any sequence of sweeps, cut by shutdowns or not, a row is terminal once ceil(11 / retry_attempts) of them visited it uncut |
| `Notifications.SweepOnce` | src/fis_monitor/services/notifier_dispatcher.py:380-402 | one sweep keeps the cap on attempts; a full visit that leaves the row pending has used up its retries |
| `Notifications.FewerSweepsMayNotDo` | src/fis_monitor/services/notifier_dispatcher.py:505-555 | the bound is tight: below it retryable failures leave the row pending |
| `Notifications.UnregisteredStaysPending` | src/fis_monitor/services/notifier_dispatcher.py:567-572 | rows of an unregistered channel stay as they are under any number of sweeps |
| `DeliveryRuns.SendsCapped` | src/fis_monitor/services/notifier_dispatcher.py:496-555 | over every run with any number of consumers and crashes anywhere, one key is sent at most ten times and at most attempt_no times |
| `DeliveryRuns.TerminalForever` | src/fis_monitor/infra/sqlite/repositories/notifications.py:114-181 | terminal rows never change again over any run, crashes included |
| `DeliveryRuns.DuplicatesNeedCrashes` | src/fis_monitor/services/notifier_dispatcher.py:531-537 | with one consumer the good sends of a key are at most one more than the crashes between a good send and mark_sent |
| `DeliveryRuns.DriveIsRetry` | src/fis_monitor/services/notifier_dispatcher.py:505-555 | a consumer of the machine driven alone leaves exactly the row, and makes exactly the sends, of the retry loop |
| `DeliveryRuns.SuppressedDriven` | src/fis_monitor/services/notifier_dispatcher.py:489-494 | a suppressed visit of the machine driven alone gives up a pending row, leaves any other, and sends nothing |
| `LogFilters.UrlHereIffMatch` | src/fis_monitor/utils/log_filters.py:118-120 | the scanner stops exactly where the URL pattern, read declaratively, has a match |
| `LogFilters.LongRunIffMatch` | src/fis_monitor/utils/log_filters.py:127-129 | a run of 24 or more token characters is exactly what the token pattern matches |
| `LogFilters.UrlPassClean` | src/fis_monitor/utils/log_filters.py:139-142 | no match of the URL pattern is left by the URL pass |
| `LogFilters.TokenPassKeepsClean` | src/fis_monitor/utils/log_filters.py:144-154 | the token pass creates no new URL match |
| `LogFilters.TokenPassShort` | src/fis_monitor/utils/log_filters.py:144-147 | no run of 24 or more token characters is left by the token pass |
| `LogFilters.ScrubLeavesNoMatch` | src/fis_monitor/utils/log_filters.py:149-154 | whatever goes in, neither pattern matches anywhere in the output |
| `LogFilters.ScrubKeepsCleanText` | src/fis_monitor/utils/log_filters.py:149-154 | text without a match of either pattern passes unchanged |
| `LogFilters.NoMatchRunsShort` | src/fis_monitor/utils/log_filters.py:127-147 | text without a token match has no run of 24 or more token characters |
| `LogFilters.ScrubIdempotent` | src/fis_monitor/utils/log_filters.py:149-154 | scrubbing twice is scrubbing once, for every string |
| `LogFilters.ScrubIsSubstitution` | src/fis_monitor/utils/log_filters.py:118-154 | the text is kept characters and leftmost, greedy, non-overlapping matches, no match starting at a kept character; the result is the same with each query, then each token, replaced by its literal |
| `LogFilters.ScrubsOnce` | src/fis_monitor/utils/log_filters.py:149-154 | that relation has one solution |
| `LogFilters.UrlCutUnique` | src/fis_monitor/utils/log_filters.py:139-142 | a text can be taken apart by the URL pattern in one way only |
| `LogFilters.TokenCutUnique` | src/fis_monitor/utils/log_filters.py:144-147 | a text can be taken apart by the token pattern in one way only |
| `LogFilters.ScrubbedArgsClean` | src/fis_monitor/utils/log_filters.py:189-199 | scrubbed arguments are clean, keep every non-text, and do not change a second time |
| `LogFilters.LogRecord.ScrubRecord` | src/fis_monitor/utils/log_filters.py:184-202 | every text of the record is related to the old one by the two substitutions, everything else is as it was; no match is left and a second pass changes nothing |
| `FullScan.ScanCounts` | src/fis_monitor/services/full_scan.py:460-497 | the missing lots shrink by exactly the deactivated ones; the seen ones all stay, in order |
| `FullScan.DroppedUnseen` | src/fis_monitor/services/full_scan.py:460-497 | a lot is deactivated only if it was active, was not seen, and deactivation is on |
| `FullScan.NoneBroughtBack` | src/fis_monitor/services/full_scan.py:460-497 | a lot active afterwards was active before |
| `FullScan.ScanSound` | src/fis_monitor/services/full_scan.py:460-497 | no scan, stopped or not, deactivates a seen lot, or any lot while deactivation is off |
| `FullScan.SkipsPaidByDrops` | src/fis_monitor/services/full_scan.py:460-497 | at every offset the missing lots skipped so far are at most as many as were deactivated |
| `FullScan.ScanDropsHalf` | src/fis_monitor/services/full_scan.py:460-497 | one uninterrupted scan deactivates at least half of the missing lots |
| `FullScan.FirstMissingDropped` | src/fis_monitor/services/full_scan.py:460-497 | the batch holding the first missing lot is never skipped: that lot is the first deactivated |
| `FullScan.NothingMissingMarksAll` | src/fis_monitor/services/full_scan.py:460-497 | with nothing missing every active lot is marked seen exactly once and none is deactivated |
| `FullScan.ScansConverge` | src/fis_monitor/services/full_scan.py:460-497 | repeated scans leave exactly the seen active lots once two to the number of scans exceeds the missing ones |
| `FullScan.BudgetBeyond` | src/fis_monitor/services/full_scan.py:460-497 | a budget of one batch per active lot does what any larger one does |
| `FullScan.OneScanMaySkip` | src/fis_monitor/services/full_scan.py:460-497 | a concrete scan that leaves a missing lot active, its second gap not clear |
| `FullScan.OneScanSufficesIff` | src/fis_monitor/services/full_scan.py:460-497 | one uninterrupted scan leaves exactly the seen active lots if and only if no gap of the list it starts from, as many lots behind each batch as the batch has missing ones, holds a missing lot |
| `FullScan.ScanCompleteIff` | src/fis_monitor/services/full_scan.py:460-497 | the same from any point of the list on |
| `FullScan.BatchDeactivated` | src/fis_monitor/services/full_scan.py:476-485 | deactivating a batch's missing lots by id is cutting them out of the active list |
| `FullScan.FullScanService.ProcessBatches` | src/fis_monitor/services/full_scan.py:434-497 | the loop with its growing offset, marking and deactivating in place, computes the scan of as many batches as it works off: until the stop event, looked at before and after each batch, is found set, or the offset has passed the list |
| `FullScan.FullScanService.WorkBatch` | src/fis_monitor/services/full_scan.py:475-485 | one batch: seen lots logged, missing ones deactivated if enabled |
| `FullScan.FullScanService.RunBatches` | src/fis_monitor/services/full_scan.py:460-497 | the loop passes through the stages of the scan, one per batch, until a stop or an empty batch |
| `FullScan.FullScanService.NextBatch` | src/fis_monitor/services/full_scan.py:460-486 | one round of the loop: the batch under the offset is worked off and the rest slides |
| `PaginatedFetch.Iterate` | src/fis_monitor/services/paginated_list_fetcher.py:116-251 | the walk ends where the page, the cap, the limit of 1000 or the stop event forces it and yields exactly the rows before; errors are raised or swallowed by flag |
| `PaginatedFetch.WalkUnique` | src/fis_monitor/services/paginated_list_fetcher.py:116-251 | that description determines the walk: two walks meeting it are equal |
| `PaginatedFetch.ScanOnce` | src/fis_monitor/services/full_scan.py:216-288 | fetch, abort on no ids, suppress on an expired session, then the batches on the live table: a full scan if the stop event stays clear for two looks per active lot, and otherwise as many batches as the looks left allow |
| `PaginatedFetch.RunIsFull` | src/fis_monitor/services/full_scan.py:434-497 | a run whose walk yielded ids, did not fail loudly and left two looks per active lot is a full scan |
| `PaginatedFetch.RunsConverge` | src/fis_monitor/services/full_scan.py:205-290 | runs that see the same ids leave exactly the seen active lots once two to the number of runs exceeds the missing ones |
| `PaginatedFetch.WalkInNumbers` | src/fis_monitor/services/paginated_list_fetcher.py:116-251 | first page, cap, page 1000 and the ending by failure and flags, in numbers |
| `PaginatedFetch.StopDeactivatesNothing` | src/fis_monitor/services/full_scan.py:462-467 | ids collected by a walk that a stop or an expired session cut deactivate nothing |
| `PaginatedFetch.WalkReaches` | src/fis_monitor/services/paginated_list_fetcher.py:139-224 | where an undisturbed walk stands: the first failing page, the page after the catalogue, or the limit |
| `PaginatedFetch.ScanTrustworthyIff` | src/fis_monitor/services/full_scan.py:341-351 | a scan leaves every listed lot active on every table if and only if the catalogue fits the limit and none of its pages failed, or the first failure was on page 1 or an expired session |
| `PaginatedFetch.SwallowedFailureDropsListedLot` | src/fis_monitor/services/paginated_list_fetcher.py:140-149 | a concrete swallowed failure on page 2 after which a listed lot is deactivated |
| `IsoText.DigitsOrder` | src/fis_monitor/services/lot_query.py:24-26 | zero-padded numbers compare as text exactly as they do as numbers |
| `IsoText.DecimalRoundTrip` | src/fis_monitor/services/lot_query.py:157-177 | int(str(n)) == n for every integer |
| `IsoText.IsoRoundTrip` | src/fis_monitor/licensing/_verify.py:112-113 | an ISO date reads back to itself, for every date from year 1 to 9999 |
| `IsoText.DateSpelled` | src/fis_monitor/infra/parsers/list_parser.py:85-102 | how a date and its midnight are spelled |
| `IsoText.NumberSpelled` | src/fis_monitor/services/lot_query.py:157-177 | how a number is spelled |
| `IsoText.GroupedRead` | src/fis_monitor/services/lot_query.py:171-176 | the digits with single underscores between them, and no other text, have a value: that of the digits alone |
| `IsoText.IntRead` | src/fis_monitor/services/lot_query.py:171-176 | int() drops blanks around, reads one sign and grouped digits |
| `IsoText.IntReadOnly` | src/fis_monitor/services/lot_query.py:171-176 | and reads nothing else |
| `IsoText.IsoOrderIsDateOrder` | src/fis_monitor/infra/parsers/list_parser.py:85-102 | the text order of UTC-midnight ISO strings is date order, and equal texts are equal dates |
| `Base64.DecodeEncode` | src/fis_monitor/licensing/_codec.py:33-52 | the lenient decoder undoes url-safe encoding, for every byte string |
| `Base64.RepadStripped` | src/fis_monitor/licensing/_codec.py:33-50 | stripping the padding and restoring it from the length loses nothing |
| `Base64.QuadDigits` | src/fis_monitor/licensing/_codec.py:33-52 | four symbols are the base-64 digits of three bytes |
| `Base64.LenientDecoder` | src/fis_monitor/services/lot_query.py:171-172 | on text of any origin: both alphabets are read, a character outside them is passed over wherever it stands, symbols alone must come in fours |
| `Base64.Alphabet` | src/fis_monitor/licensing/_codec.py:33-52 | the url-safe alphabet in its order |
| `LotQuery.CursorRoundTrip` | src/fis_monitor/services/lot_query.py:145-180 | decoding an encoded cursor gives back the column text and the id, for every date and integer id |
| `LotQuery.SplitAtLastColon` | src/fis_monitor/services/lot_query.py:171-180 | a payload of any origin splits at its last colon, and needs one and an integer behind it |
| `LotQuery.KeyOrderIsDateOrder` | src/fis_monitor/services/lot_query.py:17-26 | the keyset order on texts is newer date first, then larger id |
| `LotQuery.Append` | src/fis_monitor/services/lot_query.py:422-457 | a condition appended with its own parameters narrows the clause by exactly that condition |
| `LotQuery.RestrictScope` | src/fis_monitor/services/lot_query.py:428-436 | the region conditions accept exactly the lots in the chosen regions and subjects |
| `LotQuery.RestrictArea` | src/fis_monitor/services/lot_query.py:438-444 | the area conditions accept exactly the lots within the truncated bounds |
| `LotQuery.Trunc` | src/fis_monitor/services/lot_query.py:438-444 | the bound is truncated toward zero |
| `LotQuery.RestrictSubscription` | src/fis_monitor/services/lot_query.py:450-457 | the cutoff and subscription conditions accept exactly the lots they should |
| `LotQuery.BuildWhere` | src/fis_monitor/services/lot_query.py:405-461 | positional binding is right: the clause with its parameters accepts a lot if and only if the filter matches it |
| `KeysetWalk.SortedDescending` | src/fis_monitor/services/lot_query.py:511-514 | rows with distinct keys come out in strictly descending key order |
| `KeysetWalk.SameMembersSameList` | src/fis_monitor/services/lot_query.py:511-514 | a descending list is determined by its members |
| `KeysetWalk.PageShape` | src/fis_monitor/services/lot_query.py:339-358 | a page is descending, below its cursor and not below the next one |
| `KeysetWalk.PageOrLater` | src/fis_monitor/services/lot_query.py:339-358 | a listed lot below the cursor is on the page or below the next cursor |
| `KeysetWalk.WalkDescends` | src/fis_monitor/services/lot_query.py:299-358 | pages over any sequence of changing lists descend strictly in key |
| `KeysetWalk.ListedThroughoutOnce` | src/fis_monitor/services/lot_query.py:299-358 | a lot listed at every request is returned exactly once |
| `KeysetWalk.NextFrom` | src/fis_monitor/services/lot_query.py:501-509 | the next page starts exactly where this one ended |
| `KeysetWalk.StaticWalk` | src/fis_monitor/services/lot_query.py:299-358 | on an unchanging list the pages concatenate to the whole list and reach its end |
| `LotPages.BuildQuery` | src/fis_monitor/services/lot_query.py:491-509 | the clause with the keyset condition accepts exactly the matching lots below the cursor |
| `LotPages.QueryIsCutListing` | src/fis_monitor/services/lot_query.py:491-517 | the query's ordered rows are the full ordered listing cut at the cursor |
| `LotPages.ListingFacts` | src/fis_monitor/services/lot_query.py:405-461 | the listing holds exactly the matching rows, in strictly descending key order |
| `LotPages.Fetch` | src/fis_monitor/services/lot_query.py:332-336 | the rows fetched are the first size + 1 of the cut listing |
| `LotPages.Search` | src/fis_monitor/services/lot_query.py:299-358 | each error case exactly, otherwise the first page_size lots of the filtered listing below the decoded cursor, and the cursor of the last of them if and only if more follow |
| `LotPages.Count` | src/fis_monitor/services/lot_query.py:368-399 | an error exactly for a text search, otherwise the number of matching lots |
| `LotPages.CursorContinues` | src/fis_monitor/services/lot_query.py:353-356 | the cursor handed out makes the next request start at the key the page ended at |
| `LotPages.FollowedIsCollected` | src/fis_monitor/services/lot_query.py:299-358 | following the cursor strings, encoded and decoded at every step, is walking the keys: same lots, same end |
| `LotPages.NoLotTwice` | src/fis_monitor/services/lot_query.py:299-358 | following the next_cursor strings, whatever is inserted, changed or deactivated between pages, no lot id is returned twice and keys only descend |
| `LotPages.ContinuousMatchOnce` | src/fis_monitor/services/lot_query.py:299-358 | following the next_cursor strings to the end, a lot matching at every request is returned exactly once |
| `LotPages.UnchangedWalk` | src/fis_monitor/services/lot_query.py:299-399 | on an unchanging table following next_cursor ends and returns exactly the matching lots in order, as many as the count |
| `License.ReadFlatBack` | src/fis_monitor/licensing/_codec.py:12-21 | reading undoes canonical printing, for every flat object of integers and plain strings |
| `License.SegmentBack` | src/fis_monitor/licensing/_codec.py:24-54 | a segment holds no dot and decodes to the bytes encoded |
| `License.IssuedDecodes` | src/fis_monitor/licensing/_verify.py:52-84 | the verifier reads back exactly the payload and signature the issuer wrote |
| `License.IssuedKeyVerdict` | src/fis_monitor/licensing/_verify.py:119-180 | an issued key is INVALID before nbf, EXPIRED after exp, VALID between, for all dates and secrets |
| `License.OtherSecret` | src/fis_monitor/licensing/_verify.py:156-161 | a key issued under another secret verifies if and only if the signatures coincide and nbf has come |
| `License.OnlySignedAccepted` | src/fis_monitor/licensing/_verify.py:119-180 | anything but INVALID needs a signature matching the canonical bytes of the key's own payload |
| `License.SignedKeyVerdict` | src/fis_monitor/licensing/_verify.py:88-180 | the verdict on any signed key by the members of its payload: v equal to 2, three texts, two dates, then nbf and exp, with its own expiry and licensee |
| `SseStream.FrameRead` | src/fis_monitor/infra/sse/sse_stream.py:321-325 | one frame is read back as one message with exactly its name and text |
| `SseStream.FramesRoundTripIff` | src/fis_monitor/web/sse_encoder.py:384-386 | concatenated frames read back, under the standard's parser, to exactly the messages encoded if and only if no text holds a carriage return |
| `SseStream.NeverCr` | src/fis_monitor/infra/sse/sse_stream.py:323-325 | no message a client reads ever holds a carriage return |
| `SseStream.CarriageReturnLoses` | src/fis_monitor/infra/sse/sse_stream.py:323-325 | what follows a carriage return in a text is lost to the client |
| `SseStream.Streamer.EncodeBatch` | src/fis_monitor/infra/sse/sse_stream.py:225-243 | a batch becomes the frames of exactly the events the filter and the name guard let through |
| `SseStream.Streamer.Stream` | src/fis_monitor/infra/sse/sse_stream.py:190-252 | a connection writes a ping, then the frames due per turn, up to the first ending turn; the subscriber count is restored |
| `SseStream.ConnectionReads` | src/fis_monitor/infra/sse/sse_stream.py:198-243 | the client reads exactly the pings and shown events, in order |
| `SseStream.ShownOne` | src/fis_monitor/infra/sse/sse_stream.py:225-243 | an event is shown unless the filter says no; a filter that raises lets it through, and only known names pass the guard |
| `SseStream.ShownInOrder` | src/fis_monitor/infra/sse/sse_stream.py:225-243 | a batch shows its parts in order |
| `SseStream.DueTurn` | src/fis_monitor/infra/sse/sse_stream.py:198-243 | what one turn yields: nothing at shutdown or on a dead subscription, a ping for a timeout or an empty batch, else the events shown |
| `Backfill.Decide` | src/fis_monitor/services/backfill.py:285-326 | each decision exactly: no total, running, total below the reference, within the hint plus 3, or above |
| `Backfill.InvStep` | src/fis_monitor/services/backfill.py:202-235 | every step of callers, cancellers, watchers and workers keeps claims, skip-set, stop events and writers consistent |
| `Backfill.SingleFlight` | src/fis_monitor/services/backfill.py:202-235 | over every interleaving at most one worker holds the claim, and the flag says exactly whether one does |
| `Backfill.SkipSetFollowsClaim` | src/fis_monitor/services/backfill.py:478-502 | the skip-set holds at most the claiming worker's region and is empty when unclaimed |
| `Backfill.CutRunNeverDone` | src/fis_monitor/services/backfill.py:510-523 | backfill.done is never written by a run whose rows a stop cut short, or that failed |
| `Backfill.CancelledNeverDone` | src/fis_monitor/services/backfill.py:388-400 | a cancel that sets the run's event before its final check keeps it from ever writing the flag |
| `Backfill.FlagWrittenIff` | src/fis_monitor/services/backfill.py:507-523 | a run through its final check, unless an exception threw it out, has written the flag exactly if its own event was clear at the first look, the external one at the second, and its rows had not failed |
| `Backfill.StatusRightIff` | src/fis_monitor/services/backfill.py:224-231 | in every run, from a worker's entry on and while it is at work, the status shows it if and only if every worker that lingered at its entry still does; if none did, always |
| `Backfill.StatusMayLie` | src/fis_monitor/services/backfill.py:224-231 | a reachable state in which a run works on its rows while the status says it is not running |
| `CycleOverlap.OverlapBeginsIff` | src/fis_monitor/services/monitor_cycle.py:334-343 | whatever state the run has reached, a cycle and a backfill of one region begin to overlap exactly when a worker marks the region of a cycle that is under way; the check of the skip-set never lets one begin |
| `CycleOverlap.NoOverlapIff` | src/fis_monitor/services/monitor_cycle.py:334-343 | over every run of scheduler and backfill: no overlap ever if and only if no worker marks a region during a cycle of it |
| `CycleOverlap.OwnTriggerOverlaps` | src/fis_monitor/services/monitor_cycle.py:596-634 | a run in which a cycle starts a backfill of its own region by the delta trigger and overlaps it |
| `BackfillService.ProcessRows` | src/fis_monitor/services/backfill.py:597-679 | the row loop writes the convertible rows up to the stop or the first old row, and says which it was |
| `BackfillService.WrittenCount` | src/fis_monitor/services/backfill.py:633-679 | the loop writes every row it takes, in order, if and only if each converts and upserts, and fewer otherwise |
| `BackfillService.ProcessRegion` | src/fis_monitor/services/backfill.py:548-709 | the page walk feeding the row loop: which rows were taken, from which pages, why it ended, the first total seen, and that only a stop cuts it |
| `BackfillService.FirstTotalIs` | src/fis_monitor/services/backfill.py:590-596 | the total recorded is that of the first page that had one |
| `BackfillService.RegionFollowsWalk` | src/fis_monitor/services/backfill.py:597-679 | the region run is the fetcher's walk taken row by row: what it took is a prefix of what the undisturbed walk yields, and all of it with the same ending if the walk ended it |
| `BackfillService.OnlyCrashSwallowed` | src/fis_monitor/services/backfill.py:478-523 | of a run no stop cut, the endings that count as clean are the old row, the empty page, the fifth page, and the parser crash, which alone of all failures is silent |
| `BackfillService.RegionReaches` | src/fis_monitor/services/backfill.py:597-679 | a clean run has taken the whole catalogue up to the pages it reaches, or up to an old lot before that |
| `BackfillService.WindowTakenIff` | src/fis_monitor/services/backfill.py:597-631 | a clean run has taken exactly the rows of the window if and only if the catalogue ends within the pages reached or the first lot behind them is old |
| `BackfillService.FlagCompleteIff` | src/fis_monitor/services/backfill.py:510-523 | on a newest-first catalogue a clean run has written exactly the lots of the window of the whole catalogue if and only if the catalogue ends within the pages reached or the first lot behind them is old, and every row of the window converts and upserts |
| `BackfillService.FlagCompleteWithin` | src/fis_monitor/services/backfill.py:613-628 | where the run met an old lot or the pages reached hold the whole catalogue, it took exactly the window, and wrote all of it if and only if every row of it converts and upserts |
| `BackfillService.SixthPageLost` | src/fis_monitor/services/backfill.py:510-523 | a catalogue of six pages in the window: the run ends at the cap, clean, with the sixth lot never fetched |
| `BackfillService.CrashLosesAll` | src/fis_monitor/services/backfill.py:510-523 | a parser crash on the first page: nothing fetched, and the run counts as clean |
| `BackfillService.RefusedLotLost` | src/fis_monitor/services/backfill.py:633-679 | one lot that the repository refuses: the run takes the whole window, counts as clean and has written nothing |
| `BackfillService.WindowComplete` | src/fis_monitor/services/backfill.py:613-628 | on a newest-first listing, having taken the first n rows, all in the window, is having the whole window if and only if the listing ends there or the next row is old |
| `BackfillService.Service.Start` | src/fis_monitor/services/backfill.py:202-235 | claims with a fresh unset stop event exactly if nothing runs; a refusal changes nothing |
| `BackfillService.Service.MaybeStart` | src/fis_monitor/services/backfill.py:248-366 | claims exactly when nothing runs and the total exceeds the reference by more than the hint plus 3; the baseline moves exactly when the total is below it |
| `BackfillService.Service.Cancel` | src/fis_monitor/services/backfill.py:388-400 | sets the current run's stop event |
| `BackfillService.Service.Work` | src/fis_monitor/services/backfill.py:435-546 | the worker body over the page walk: flag and total written exactly on a run neither stopped nor failed, the first total of the pages parsed recorded, region out of the skip-set, claim released |
| `MonitorCycle.Service.RunCycle` | src/fis_monitor/services/monitor_cycle.py:428-494 | the whole cycle emits its opening, its inner events and an ending that Closing fixes for every outcome of every call; the signal ends clear |
| `MonitorCycle.Service.RunInner` | src/fis_monitor/services/monitor_cycle.py:496-742 | which failure closes the row with one alarm, which escapes, and that an ok result counts the dispatches made before any fatal call |
| `MonitorCycle.Service.WriteLots` | src/fis_monitor/services/monitor_cycle.py:654-716 | one event per new lot and per changed status, in order, up to the first lot that fails; the verdict is that of the first fatal call of the list; the signal ends clear on every way out |
| `MonitorCycle.Service.StoreLots` | src/fis_monitor/services/monitor_cycle.py:677-716 | the upserts in order up to the first that fails, with the new lots counted |
| `MonitorCycle.EventsCounted` | src/fis_monitor/services/monitor_cycle.py:677-716 | the lots before the first that fails emit exactly one dispatch per Notify call that came back, and no alarm or closing |
| `MonitorCycle.Service.ConvertRows` | src/fis_monitor/services/monitor_cycle.py:636-652 | the first failing row decides: validation counts as a parse bug |
| `MonitorCycle.Service.DeltaTrigger` | src/fis_monitor/services/monitor_cycle.py:596-634 | a page without a total adds a miss, one with a total ends the streak; a failing count or trigger escapes |
| `MonitorCycle.Service.FetchPage` | src/fis_monitor/services/monitor_cycle.py:511-594 | the verdict is the judgement of the first fatal call among request, redirect check and parser, each by what is caught around it; the signal ends clear on every way out |
| `MonitorCycle.Service.CloseWithAlarm` | src/fis_monitor/services/monitor_cycle.py:897-1002 | one alarm, then the row is closed, then cycle.done |
| `MonitorCycle.Service.Strand` | src/fis_monitor/services/monitor_cycle.py:462-494 | an escaping domain exception leaves the row open with at most a best-effort status; any other closes it |
| `MonitorCycle.ClosedOnceIff` | src/fis_monitor/services/monitor_cycle.py:428-742 | over the calls in order: the row is opened once, and left open without a cycle.done if and only if the first call to fail raises a domain exception not caught there; otherwise closed once, after every alarm |
| `MonitorCycle.FirstFailureDecides` | src/fis_monitor/services/monitor_cycle.py:428-742 | by where the first fatal call stands and what it raises: the alarm published, session.expired or cycle.error with its kind, the row and result, and what run_cycle comes back with |
| `MonitorCycle.CallAt` | src/fis_monitor/services/monitor_cycle.py:428-742 | which call a cycle makes when: request, page, the two of the trigger if there is a site total and a backfill, a conversion a row, enrichment, then lot by lot the upsert and, for a new lot, the dispatch |
| `MonitorCycle.RowCountsIff` | src/fis_monitor/services/monitor_cycle.py:428-742 | a row that is closed reports as many new lots as were dispatched if and only if no call was fatal or none had been dispatched before it; otherwise zero; without a fatal call the result is ok with all lots counted |
| `MonitorCycle.PollThenWrite` | src/fis_monitor/services/monitor_cycle.py:511-716 | the first fatal call of a cycle is that of polling, or if none that of writing; dispatches come only from writing |
| `MonitorCycle.ClosesToday` | src/fis_monitor/services/monitor_cycle.py:462-494 | with the exceptions its collaborators raise as they stand, every cycle closes its row |
| `MonitorCycle.RowStranded` | src/fis_monitor/services/monitor_cycle.py:654-672 | an UpstreamError out of enrichment leaves the row open, no cycle.done |
| `MonitorCycle.DispatchedNotReported` | src/fis_monitor/services/monitor_cycle.py:677-716 | a concrete cycle that undercounts: a database error at the second upsert, after the first lot was dispatched, closes the row with zero new lots |
| `MonitorCycle.Service.RequestRunNow` | src/fis_monitor/services/monitor_cycle.py:266-267 | a burst of requests leaves one sentinel |
| `MonitorCycle.Service.TakeTrigger` | src/fis_monitor/services/monitor_cycle.py:414-426 | takes the sentinel if there is one |
| `MonitorCycle.Service.MarkRegionInBackfill` | src/fis_monitor/services/monitor_cycle.py:222-229 | adds exactly this region to the skip-set |
| `MonitorCycle.Service.ClearRegionInBackfill` | src/fis_monitor/services/monitor_cycle.py:231-239 | removes exactly this region from the skip-set |
| `Migrations.CheckUnique` | src/fis_monitor/infra/sqlite/migrations.py:80-88 | accepts a registry if and only if no two migrations share a source version |
| `Migrations.PathUnique` | src/fis_monitor/infra/sqlite/migrations.py:137-155 | at most one contiguous increasing path joins two versions |
| `Migrations.PathShort` | src/fis_monitor/infra/sqlite/migrations.py:142-146 | a path is no longer than the registry, by pigeonhole |
| `Migrations.BuildChain` | src/fis_monitor/infra/sqlite/migrations.py:137-155 | returns a chain if and only if such a path exists: the loop bound never rejects one |
| `Migrations.AppliedInOrder` | src/fis_monitor/infra/sqlite/migrations.py:126-128 | applying a chain is applying its parts one after the other, the first that raises ending it |
| `Migrations.Database.ApplyChain` | src/fis_monitor/infra/sqlite/migrations.py:126-128 | applies the steps in order, as their composition, until one raises |
| `Migrations.Database.RunPending` | src/fis_monitor/infra/sqlite/migrations.py:98-135 | all or nothing: the composed steps under the new version, or the database as it was, with each failure's exact cause |
| `Migrations.Database.InitDb` | src/fis_monitor/infra/sqlite/init_db.py:86-125 | each start-up outcome exactly when its condition holds, and what it leaves behind |
| `Migrations.DefaultConnectedIff` | src/fis_monitor/infra/sqlite/migrations.py:185-208 | the default registry connects exactly the versions 1 to 11 to the latest; a version-0 database with tables never has a chain |
| `Migrations.LegacyZeroBreaks` | src/fis_monitor/infra/sqlite/init_db.py:86-125 | start-up on a version-0 database with tables, under the default runner, reports the broken chain and changes nothing |
| `Regions.SubjectsForMacros` | src/fis_monitor/domain/regions.py:173-184 | the union of the macros' subjects, each once, in the order of its first appearance |
| `Regions.FirstAtIs` | src/fis_monitor/domain/regions.py:178-184 | the position the order is stated by is that of the first appearance |
| `RegionMigration.Subscriptions.ExpandMacros` | src/fis_monitor/infra/sqlite/migrations_v9_to_v10.py:34-67 | no macro row remains and each subject carries the earliest timestamp it has a claim to, for every order of the rows |
| `RegionMigration.Subscriptions.InsertKeepingEarlier` | src/fis_monitor/infra/sqlite/migrations_v9_to_v10.py:50-61 | insert-or-ignore then MIN keeps the earlier timestamp and touches no other row |
| `RegionMigration.ExpandedUnique` | src/fis_monitor/infra/sqlite/migrations_v9_to_v10.py:34-67 | the result is determined by the old rows: row order does not matter |
| `RegionMigration.ExpandedTwice` | src/fis_monitor/infra/sqlite/migrations_v9_to_v10.py:34-67 | a second run changes nothing |
| `RegionMigration.OthersUntouched` | src/fis_monitor/infra/sqlite/migrations_v9_to_v10.py:34-67 | rows neither macro nor covered stay exactly as they were |
| `ConfigSource.Source.ApplyRegionDiff` | src/fis_monitor/infra/config_source.py:303-341 | added macros' subjects inserted unless present, removed macros' subjects deleted unless still covered, all other rows as they were |
| `ConfigSource.Source.Bootstrap` | src/fis_monitor/infra/config_source.py:343-369 | each covered subject without a row is seeded, no row is changed |
| `ConfigSource.Source.Save` | src/fis_monitor/infra/config_source.py:242-276 | settings swapped, hash recorded and rows moved together, or nothing at all on a failed write |
| `ConfigSource.Source.Reload` | src/fis_monitor/infra/config_source.py:450-563 | each outcome exactly when its condition holds: only the first 4 KB decide whether content is new, errors and equal settings move no row |
| `ConfigSource.SaveThenReload` | src/fis_monitor/infra/config_source.py:250-255 | the reload a save triggers by itself changes nothing |
| `ConfigSource.AnySave` | src/fis_monitor/infra/config_source.py:242-276 | whatever a save comes to, it is a step of the kind the run theorem is about |
| `ConfigSource.AnyBoot` | src/fis_monitor/infra/config_source.py:343-369 | a restart over any rows is the boot step of the run theorem |
| `ConfigSource.AnyReload` | src/fis_monitor/infra/config_source.py:450-563 | whatever a reload comes to, it is a step of the kind the run theorem is about |
| `ConfigSource.ChangeKeeps` | src/fis_monitor/infra/config_source.py:303-341 | complete rows stay complete, exact rows exact, and a subject covered throughout keeps its timestamp, for any overlapping map |
| `ConfigSource.RowsFollowRegions` | src/fis_monitor/infra/config_source.py:276-369 | over every sequence of restarts, saves and reloads: rows cover the regions, a subject covered throughout keeps its timestamp, and exact rows stay exact as long as no restart finds a subject no longer covered |
| `ConfigSource.BootExactIff` | src/fis_monitor/infra/config_source.py:343-369 | a restart makes the rows complete and keeps every row; they are exact if and only if no row is left of a subject no longer covered |
| `ConfigSource.AlwaysComplete` | src/fis_monitor/infra/config_source.py:343-369 | the rows cover the regions after any sequence of restarts, saves and reloads |
| `ConfigSource.RemovedOfflineStays` | src/fis_monitor/infra/config_source.py:343-369 | a concrete restart with a macro removed meanwhile, whose row stays |
| `ConfigSource.LateEditUnseen` | src/fis_monitor/infra/config_source.py:450-563 | a second file equal to the first in its first 4096 bytes is SameContent, whatever it says |
| `ConfigSource.ReloadAfterSave` | src/fis_monitor/infra/config_source.py:489-556 | in raw bytes, for a digest without collisions: SameContent if and only if file and saved bytes agree cut at 4096; otherwise what parses becomes current and is delivered unless equal |
| `ConfigSource.ReloadAfterReload` | src/fis_monitor/infra/config_source.py:489-556 | the same after any reload |
| `RateLimit.EveryWindowBounded` | src/fis_monitor/web/rate_limit.py:52-74 | every half-open window of the configured length holds at most max grants of a key |
| `RateLimit.RefusedOnlyWhenFull` | src/fis_monitor/web/rate_limit.py:63-71 | a call is refused only with exactly max grants in its window |
| `RateLimit.PruneTwice` | src/fis_monitor/web/rate_limit.py:66-67 | pruning at an earlier cutoff first changes nothing |
| `RateLimit.TracksStep` | src/fis_monitor/web/rate_limit.py:65-67 | the pruned list stands in for the whole grant history in the next call |
| `RateLimit.RateLimiter.Acquire` | src/fis_monitor/web/rate_limit.py:52-74 | grants exactly by the full grant history of the key and records it, other keys untouched |
| `RateLimit.RateLimiter.Prune` | src/fis_monitor/web/rate_limit.py:65-67 | what is left of the kept list is what is left of the history |

## Left out

- EventBus: the blocking critical put is a put that either succeeds or times out on a full queue; how long two seconds are is not modelled, and reads of the alive flag are atomic as under CPython's lock.
- ThreadEventBus.Bus.PublishCritical: a full queue counts as timed out, since one thread alone has no reader to make room; `EventBus` has the readers.
- ThreadEventBus.Bus.OfferCritical: likewise, a full queue times out at once.
- ThreadEventBus.Bus.Subscribe: the replay slots are a sequence in insertion order, one slot per event type, in place of a dictionary.
- `last_critical`, a plain lookup, and the context-manager protocol of the subscription handles.
- Notifications.Dispatcher.DispatchAllChannels: the per-channel results are stated for a run that shutdown does not interrupt; the channels and recipients are a list of distinct pairs.
- Notifications.Dispatcher.SendOne: `should_suppress` is an answer handed in; the two filters behind it compare one date or one set membership and are not modelled. Backoff delays, the published smtp failure and the age limit of the recovery query are not modelled either.
- DeliveryRuns: the volatile queue is not part of the machine, since a visit to any key may begin at any time.
- FullScan.FullScanService.ProcessBatches: the order of active lots is fixed for the run; the query orders by date only, and how SQLite breaks ties is not modelled. No other writer works on the table during the scan.
- PaginatedFetch.Iterate: the rows are collected, not yielded one by one; the page and total callbacks, headers and sleeps are left out.
- PaginatedFetch.ScanOnce: the single-page fallback for a missing fetcher is left out.
- Backfill: a worker's row loop is one step that ends in any way its outcome allows; its rows are in `BackfillService`. The polling interval of the watcher is any delay.
- BackfillService.Service.Start: creating the worker thread succeeds; in the source a failure there would leave the claim held.
- BackfillService.Service.Work: a stop that comes between the last look and the final check is the argument `late`; that a stop seen in the loop is seen there too is what `Backfill` proves. The announcements of new lots, the wake-up request after a clean run and the resume variant, which only delegates, are left out.
- BackfillService.FlagCompleteIff: the site does not change during the walk.
- PaginatedFetch.ScanTrustworthyIff: the site does not change during the walk, so lots that move between pages meanwhile are not covered.
- MonitorCycle.Service.RunCycle: the bus and the cycle repository are taken to succeed in the closing steps, as the publications there are not guarded; timestamps and durations are left out.
- MonitorCycle: the scheduler loop around the cycle, whose gates are one branch each.
- LotQuery: regions, statuses and texts are plain strings; freshness labels and user state are presentation. The mutual-exclusion checks of the filter's constructor are not needed by any result and not modelled. Subscription times enter by their calendar day, as SQLite's date() reads them.
- LotPages.Search: the table is a list of rows with distinct ids, and the query is evaluated by filtering and sorting it.
- LotPages.NoLotTwice: assumes that a lot keeps its creation date, as the cursor's own documentation does.
- IsoText.DecimalRoundTrip: int() is modelled on ASCII digits, spaces and underscores; other Unicode digits and the length limit of int() are not.
- IsoText.IntReadOnly: that other Unicode digits are read too, as said for DecimalRoundTrip.
- IsoText.IsoRoundTrip: fromisoformat is modelled on the extended form; other forms are left to the library parameter of the licence model.
- License.ReadFlatBack: reading and printing are exact for integers of every size; the interpreter's limit on the digits of an integer is not modelled.
- License.IssuedKeyVerdict: JSON is fixed on flat objects of integers and plain strings and arbitrary elsewhere; the verdict uses the calendar date of an aware `now`, as the code does, so an offset other than UTC shifts the day.
- License.OnlySignedAccepted: input nested deeper than the interpreter's recursion limit, which raises past the verifier, is not modelled.
- The licence command line beyond `_build_v2_key`, and the comparison in constant time.
- SseStream.Streamer.Stream: JSON and HTML rendering are arbitrary texts; the executor, the event loop and the queue behind `_drain_one` are one outcome per turn. The id and retry fields of the standard touch neither name nor data and are read but not kept. Characters stand for their UTF-8 bytes.
- LogFilters.LogRecord.ScrubRecord: the guard that logs and swallows an error of the scrubber is left out.
- RateLimit.RateLimiter.Acquire: times are real numbers, and the clock of a key does not run backwards. The constructor's two ValueErrors are its precondition.
- Migrations.Database.RunPending: content is one value and rollback restores it; the schema changes of the individual steps, except version 9 to 10, are arbitrary functions.
- Migrations.Database.InitDb: the schema script is applied whole; a script that fails midway is not modelled, nor is another process between the version check and the runner.
- RegionMigration.Subscriptions.ExpandMacros: needs that no id is both a macro and a subject, which `CatalogueSeparated` proves of the actual table.
- ConfigSource: saves and reloads happen one at a time; the debounce timer, environment overrides (which leave regions alone) and the catalogue-drift message are left out, and callbacks are delivered without failing.
- ConfigSource.Source.Save: which bytes the settings serialise to is an argument. The rows move in one step with the swap; the source updates them after it has released the lock (`config_source.py:276`), and a failure there would leave the settings swapped and the rows as they were.
- HTML parsing, routes, templates, login, do-not-disturb, onboarding, settings screens, the file lock, scheduling by local time and the wiring of the program: library plumbing, or facts of one branch.
