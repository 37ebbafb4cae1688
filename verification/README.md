# Verification of the Soroban indexer

The indexer copies contract events from a Stellar network into a database, commits to them, serves them
page by page and keeps itself alive under load. This project models the parts of `indexer/src` that have
an invariant or a protocol of their own and proves what they promise, for every input and every sequence
of events. `dafny verify dfyconfig.toml` checks all of it.

| component | modules | source |
|---|---|---|
| event commitment (Merkle Mountain Range) and its reconciler | `Mmr`, `Reconciler` | `mmr.js`, `integrityReconciler.js` |
| event pages, walks, exports and polling | `Events`, `Cursor`, `EventsCursor`, `EventPages`, `EventWalks`, `EventReaders` | `db.js`, `cursor.js` |
| contract pages and the walk over all contracts | `ContractsCursor` | `db.js`, `contractVerifier.js` |
| canonical event IDs, amounts, CSV | `EventId`, `Amount`, `Csv` | `eventId.js`, `formatAmount.js`, `analyticsSql.js` |
| GraphQL selection depth | `SelectionDepth` | `graphql.js` |
| in-process cache tier | `Lru`, `LruRuns`, `LruInclusion` | `cacheLayer.js` |
| ingest worker pool | `IngestPipeline` | `ingestPipeline.js` |
| CDN purge queue | `PurgeQueue`, `PurgeOrder` | `cdnPurge.js` |
| adaptive load shedder | `LoadShedder`, `LoadShedderWindows` | `loadShedder.js` |
| decode statistics | `DecodeStats` | `decoder.js` |
| dead-letter queue | `DeadLetter`, `DeadLetterSteps`, `DeadLetterRuns`, `DeadLetterQuarantine` | `deadLetterQueue.js`, `index.js` |
| reproducible-build verifier and its badge | `Verifier`, `VerifierRuns`, `VerifierStatus`, `VerifierBadge` | `contractVerifier.js` |

`Wrappers`, `Basics`, `Bits` and `Decimal` hold what several of them share.

## How it is modelled

- Objects whose methods update them are classes with the same fields, and loops are loops. Each method is
  proved equal to a function of the old state, and the properties are lemmas about these functions. What
  an operation answers is also stated column by column, without its function, so that a function that
  went wrong together with its method would still be found out. A
  component with callbacks or awaits is a step system over the same functions: its `Run` takes any list of
  events, and an event that cannot occur in a state leaves it alone.
- SHA-256 and the HMAC are parameters. Binding assumes no collision among the pairs hashed for the two
  logs in question, and nothing about any other pair. Base64 and JSON text are an inverse pair, so a cursor
  on the wire is either unreadable or a payload with a signature.
- A table is its rows in key order and a query is filter, bound, sort and limit over them. `seq` is a
  BIGSERIAL key: numbers are positive, and rows appear behind all rows that are visible already.
- Time is an argument of each step. Where it matters that the clock does not run backwards
  (`DecodeStats`), the contract says so. `Date.now()` and `NOW()` read the same clock.
- `limit * 0.8` and `limit * 0.05` are exact fractions, floor(4 limit / 5) and ceil(limit / 20), which on
  the limits in use, 5..1000, are the integers that the original's doubles round to.

## What turned out not to hold

Each is stated together with the exact condition under which the promise is kept.

- `EventMmr` works up to 2^32 - 1 leaves. The next append shifts past the 32nd bit, starts over at level 0,
  finds no peak there and raises, as does every later one (`Mmr.EventMmr.Append`).
- The reconciler marks suspects with `seq <= n`, n being a leaf count. These are the first n rows exactly
  if no serial number below was skipped (`Reconciler.SuspectsAreThePrefix`).
- The reconciler hashes six columns of an event. It is `ok` with a log that differs from its own in the others, such
  as the network; it is `ok` exactly if the hashed columns agree (`Reconciler.OkDecides`, `NetworkIsNotCommitted`).
- A request that goes on from the last row on its own side, such as going back from the first page, gets an
  empty page that reports no rows on either side (`EventWalks.FlagsExactWithinTheLog`, `BackFromTheFirstPage`).
- A contracts cursor cuts the creation time to milliseconds. At the end of a page the walk of the verification
  batch loses the contracts between the cut time and the real one, and going backward the anchor row comes again
  (`ContractsCursor.WalkIsComplete`, `SameMillisecondIsLost`, `BackwardStepIsExact`).
- Event IDs can be parsed, and always sort in chain order, only below event index 10^10; above, two IDs of one
  operation sort in order exactly if their indexes are aligned (`EventId.ParseInvertsFormat`,
  `IdsSortExactlyIfAligned`, `ElevenDigitsBreakTheOrder`).
- A canonical RPC ID is passed on as it came, also with a ledger beyond 31 bits, for which an event that names its
  position by its fields gets an error (`EventId.RpcIdIsDerived`).
- A result whose first row has no column prints as empty lines, which no CSV reader reads as records
  (`Csv.RoundTrip`).
- The pattern `*` alone deletes only the key `*` from the in-process tier (`LruRuns.StarAloneMatchesItself`).
- The dead-letter timer starts a tick every minute even while earlier ones run. As long as every tick deals with
  its rows within ten minutes, no entry is attempted more often than the maximum, and what is resolved stays
  resolved (`DeadLetterRuns.AttemptsAreBounded`, `DeadLetterQuarantine.ResolvedIsFinal`). A row that is held longer
  is claimed again (`DeadLetterRuns.SharedByStaleClaims`). It may then be attempted any number of times
  (`DeadLetterQuarantine.OverlapExceedsTheBound`), and is put back after it was resolved exactly by a tick that
  writes the failure of its own attempt of it (`ResolutionEnds`, `ResolvedMayBeQueuedAgain`).
- An entry that a tick has in hand leaves a group quarantine again if its own attempt ends well or fails
  differently (`DeadLetterQuarantine.QuarantineEnds`, `QuarantineMayEndInTheSameTick`).
- A statement of the verifier that rejects, or a restart, leaves the job in work `building`, and no later tick takes it
  up. Its contract is refused every further request, and other jobs are built beside it. One job at a time is
  building exactly if that never happens (`VerifierRuns.RunsKeepOneBuilding`, `JobGetsStuck`, `StuckForGood`,
  `ARunGetsStuck`).
- Two requests for one contract that overlap between their two queries both get a job
  (`VerifierRuns.StepKeepsOneOpen`, `OverlappingRequests`).
- An upgrade during a build yields a completed job if the second read of the chain fails, and the older hash then
  overwrites an observed upgrade (`VerifierRuns.UpgradedJobCompletes`, `VerifierBadge.FailedReadHidesAnUpgrade`).
- An upgrade that is recorded between the completion of a job and the processor's own recording is
  overwritten, and the badge stays verified (`VerifierBadge.TailGivesTheBadgeBack`, `BadgeOutlivesAnUpgrade`).
- `decoder.js:173` says that there are at most 25 hourly buckets; after every recording there are at most 24.

## Model

| member | source | states |
|---|---|---|
| `Mmr.EventMmr.constructor` | indexer/src/mmr.js:12 | an empty range: no leaves, and the representation invariant `Valid` holds |
| `Mmr.EventMmr.Append` | indexer/src/mmr.js:13-24 | the carry loop ends and appends the leaf: the peaks become exactly those of the longer leaf sequence, the report is its bagged root, and all merges so far number leafCount minus its set bits; it raises exactly at 2^32 - 1 leaves, where `&` and `<<` wrap, and ever after |
| `Mmr.EventMmr.Root` | indexer/src/mmr.js:25-29 | the bagged root and count of the leaves appended so far, read without changing anything |
| `Mmr.PeakIsPerfect` | indexer/src/mmr.js:13-24 | peak i is present exactly if bit i of the leaf count is set, and is then the perfect Merkle root of the 2^i leaves that follow those of all higher bits |
| `Mmr.PeakCount` | indexer/src/mmr.js:13-24 | the peak array is no longer than the binary numeral of the leaf count |
| `Mmr.RootBinds` | indexer/src/mmr.js:7-29 | two reports are equal if and only if the two leaf sequences are, provided `hashPair` has no collision among the pairs hashed for them |
| `Mmr.SmallReports` | indexer/src/mmr.js:25-29 | no leaves give the zero root; pairs are hashed left to right, and the lowest peak is bagged first |
| `Reconciler.ReconcileEventCommitment` | indexer/src/integrityReconciler.js:4-24 | however events are appended between its queries, the keyset rebuild ends, and its root and count commit to exactly the table as its last query saw it, in `seq` order, whatever the limit above 0; the comparison and the suspect marks follow from them; it raises exactly beyond 2^32 - 1 events, and with limit 0 it commits to nothing |
| `Reconciler.OkDecides` | indexer/src/integrityReconciler.js:8-21 | against a remote that reports the commitment of its own log, `ok` holds if and only if the two logs have the same rows up to `seq`, contract, function, ledger, description and raw data of each, provided that no two of the hashed payloads and pairs collide |
| `Reconciler.OtherColumnsAreNotCommitted` | indexer/src/integrityReconciler.js:8-21 | whatever the hashes, the remote is `ok` with any log that agrees in those six columns, however the other columns differ |
| `Reconciler.NetworkIsNotCommitted` | indexer/src/integrityReconciler.js:8-21 | as where an event is moved to another network |
| `Reconciler.MismatchMarks` | indexer/src/integrityReconciler.js:19-23 | it is `ok` exactly if root and count agree; otherwise the rows marked suspect are those whose `seq` exceeds neither of the two leaf counts |
| `Reconciler.SuspectsAreThePrefix` | indexer/src/integrityReconciler.js:22 | where the reports differ, the rows that both sides have a leaf for are exactly the marked ones if and only if the last of them carries its own number, that is if no serial number below was skipped |
| `Events.WhatIsSelected` | indexer/src/db.js:342-369 | a selection holds, in order of `seq`, exactly the rows that meet each condition named: network, contract, functions, type soroban or classic, ledgers from and to, and the bound on `seq` |
| `Events.RowsSplit` | indexer/src/db.js:372-385 | a bound at a selected row cuts the selection right before and right behind that row |
| `Events.NextPage` | indexer/src/db.js:441-449 | reading on behind the last row of a page gives exactly what the page left |
| `Cursor.DecodeInverts` | indexer/src/cursor.js:52-125 | a token is accepted, and read as a position and a direction, if and only if it is what encoding just these under a compatible filter hash gives |
| `Cursor.FormatPageResponse` | indexer/src/cursor.js:131-179 | the row that is dropped is the extra one, furthest from the anchor; rows come newest first; flags and cursors are those of the rows kept |
| `EventsCursor.SafeLimit` | indexer/src/db.js:313 | limits in 1..200 are kept, 0 means 25, what is below them becomes 1 and what is above 200 |
| `EventsCursor.ResolveAnchor` | indexer/src/db.js:315-340 | the anchor, direction and flag that the parameters amount to, or the error |
| `EventsCursor.GetEventsCursor` | indexer/src/db.js:311-439 | one row more than asked for is fetched on the side of the anchor, and the page made of the others; refused cursors give an error |
| `EventPages.PositionsAreHeeded` | indexer/src/db.js:311-385 | whatever names a position n above 0 (`before` over `after` over `cursor` over `after_seq`, by a number, by digits or by a cursor of either direction): the page holds the rows asked for on the named side of n, newest first; those left out lie beyond all rows of a full page; both flags say what is left |
| `EventPages.FirstPageIsNewest` | indexer/src/db.js:311-385 | a request that names no position gets the newest of the rows asked for, and no row before them is announced |
| `EventPages.CursorsNameTheEnds` | indexer/src/cursor.js:155-184 | the cursors of every page name its first and last row with the direction to go on in, and `next_cursor` is there exactly if more older rows are announced |
| `EventPages.RefusedCursors` | indexer/src/cursor.js:82-125 | a request is refused exactly if the cursor it hands over first is unreadable or wrongly signed, or else was issued under another filter hash, each with its own error |
| `EventWalks.ForwardWalk` | indexer/src/db.js:311-439 | following `next_cursor` to its end, with any limit at each step and rows appended between requests, returns the matching rows of the first request, newest first, each once, in at most one request more than there are rows |
| `EventWalks.WalkVisit` | indexer/src/db.js:311-439 | one request of a walk hands out a non-empty run of the remaining rows and leaves off at the last of them, or finishes |
| `EventWalks.PagesIssueRows` | indexer/src/cursor.js:161-169 | every cursor that is issued points at a matching row of the log |
| `EventWalks.IssuedPage` | indexer/src/cursor.js:143-179 | the page at an issued cursor is a contiguous stretch of the matching rows beside the cursor, with the flags and cursors of that stretch |
| `EventWalks.FlagsExactWithinTheLog` | indexer/src/cursor.js:158-159 | `has_next` and `has_previous` are exact on every page reached with issued cursors, except if and only if the request goes on from the last row on its own side: then the page is empty and denies the rows behind it |
| `EventWalks.BackFromTheFirstPage` | indexer/src/cursor.js:158-159 | the failing case: going back from a first page gives no row and two false flags although that page has rows |
| `EventWalks.BackFromTheOnlyEvent` | indexer/src/cursor.js:158-159 | and it does so on the log with one event |
| `EventWalks.BackThenForth` | indexer/src/cursor.js:143-169 | `has_previous` holds exactly if the page before has rows, and then coming back from it returns the original page |
| `EventWalks.ForthThenBack` | indexer/src/cursor.js:143-169 | `has_next` holds exactly if the page after has rows, and then going back from it returns the original page |
| `EventReaders.IterateEventsSnapshot` | indexer/src/db.js:236-268 | the batches together are in order and exactly the rows of the contract from the one ledger to the other, where these are given; all are full but perhaps the last; with batch size 0 there are none |
| `EventReaders.GetEventsSince` | indexer/src/db.js:441-449 | the next rows above the cursor, the cursor behind them, and whether more are left |
| `EventReaders.PollMeans` | indexer/src/db.js:441-449 | the rows returned are the next ones of the network above the cursor; `has_more` says exactly whether others are left, and these are what lies above the cursor returned |
| `EventReaders.PollingConserves` | indexer/src/db.js:441-449 | however polls interleave with appends: what was consumed followed by what lies above the cursor is what lay above the first cursor |
| `ContractsCursor.ListContractsCursor` | indexer/src/db.js:451-493 | one page of the contracts behind the cursor, newest first, and a cursor only if more are left |
| `ContractsCursor.SelectMeans` | indexer/src/db.js:464-477 | behind a cursor come, newest first, exactly the contracts created before its time, or at its time with a smaller ID |
| `ContractsCursor.CursorKeeps` | indexer/src/db.js:488-491 | a cursor keeps the ID of its contract and the time in whole milliseconds |
| `ContractsCursor.VisitContracts` | indexer/src/contractVerifier.js:122-160 | the loop of the verification batch ends and sees what the cursors lead it through |
| `ContractsCursor.WalkIsComplete` | indexer/src/db.js:451-493 | the walk sees every contract if and only if, at the end of every page, the next contract lies behind the cursor that was issued there with its time cut to milliseconds |
| `ContractsCursor.WalkKeepsOrder` | indexer/src/db.js:451-493 | it never repeats a contract and keeps the order, however the cuts fall |
| `ContractsCursor.WholeMillisecondsFit` | indexer/src/db.js:488-491 | with creation times in whole milliseconds the walk is complete |
| `ContractsCursor.SameMillisecondIsLost` | indexer/src/db.js:488-491 | a contract that begins a page and was registered in the same millisecond as the one before it, above its cut time, is never seen by the walk |
| `ContractsCursor.TwoInOneMillisecond` | indexer/src/db.js:488-491 | as happens to the second of two contracts registered half a millisecond apart |
| `ContractsCursor.ForwardStepIsExact` | indexer/src/db.js:1138-1143 | behind a contract's cursor lie exactly the later rows if and only if the very next one does |
| `ContractsCursor.BackwardStepIsExact` | indexer/src/db.js:1138-1143 | ahead of it lie exactly the earlier rows if and only if its creation time is in whole milliseconds; otherwise the row itself comes again |
| `EventId.ToidPacks` | indexer/src/eventId.js:15-20 | the shifted and or-ed fields of a position in range are the packed number of SEP-35: no bits overlap |
| `EventId.ToidRanges` | indexer/src/eventId.js:16-21 | a TOID is ledger * 2^32 + transaction * 2^12 + operation exactly where all three are in their ranges, and otherwise the error of the first that is not |
| `EventId.ParseInvertsFormat` | indexer/src/eventId.js:22-37 | every position in range has an ID, and parsing it returns the same four numbers if and only if the event index is below 10^10; otherwise it is refused |
| `EventId.FormatInvertsParse` | indexer/src/eventId.js:27-37 | every canonical text is the ID of the position it parses to, unless the ledger needs a 32nd bit |
| `EventId.IdsSortExactlyIfAligned` | indexer/src/eventId.js:8-25 | for all positions in range, IDs compare as strings as the positions do on the chain if and only if they belong to different operations or the shorter event index, filled up with zeros to the width of the other, does not exceed it |
| `EventId.IdsSortInChainOrder` | indexer/src/eventId.js:8-9 | so with event indexes below 10^10 they always do |
| `EventId.ElevenDigitsBreakTheOrder` | indexer/src/eventId.js:22-25 | and at event index 10^10 they do not, in any operation |
| `EventId.RpcIdIsDerived` | indexer/src/eventId.js:43-50 | whether an event names its position by an RPC ID or by its fields, it gets the ID derived from that position, or that position's range error, if and only if it does not carry a canonical RPC ID whose ledger needs a 32nd bit |
| `EventId.RpcRangeErrors` | indexer/src/eventId.js:43-50 | an event without an ID of its own is refused exactly for the first of its fields that is out of range, has no ID exactly if a field is missing, and otherwise keeps or gets one |
| `EventId.RpcIdIsCanonical` | indexer/src/eventId.js:43-50 | the result is canonical exactly if the RPC ID was, or the index has at most ten digits; there is no result exactly if neither an ID nor the fields are usable |
| `Amount.FormatIsExact` | indexer/src/formatAmount.js:42-62 | the printed decimal, read back, times 10^scale is exactly the raw amount; without a symbol there is no trailing zero behind the point |
| `Amount.FormatParts` | indexer/src/formatAmount.js:42-62 | the text is a minus sign where due, the whole units without a leading zero, the fraction without trailing zeros but for the one zero that a symbol asks for, and the symbol behind a blank |
| `Amount.FormatIsInjective` | indexer/src/formatAmount.js:42-62 | for a fixed scale and symbol different amounts never print alike |
| `Amount.TrimOnlyZeros` | indexer/src/formatAmount.js:51 | trimming removes nothing but zeros, and all of them at the end |
| `Csv.RoundTrip` | indexer/src/analyticsSql.js:203-213 | a reader after section 2 of RFC 4180 finds the first row's columns and then, for every row and every column in turn, the text of the value under that column, or nothing where it is null or missing, if and only if the first row has a column |
| `Csv.ReadsField` | indexer/src/analyticsSql.js:206-209 | one encoded cell is read back as its text, whatever follows it |
| `SelectionDepth.DepthWalk.MaxSelectionDepth` | indexer/src/graphql.js:341-360 | ends on every document, cyclic ones included, computes the depth that enters no fragment twice on one path, and leaves the shared set as it was |
| `SelectionDepth.DepthIsInlinedDepth` | indexer/src/graphql.js:341-360 | wherever the fully inlined selection exists, the depth is its nesting depth |
| `SelectionDepth.TreeExists` | indexer/src/graphql.js:341-360 | it exists if and only if the selection leads into no cycle of fragments (section 5.5.2.2 of the October 2021 GraphQL specification, asked only of what is reachable), and then as many levels as there are fragments are enough |
| `SelectionDepth.CyclesAreCutShort` | indexer/src/graphql.js:352-356 | on a cyclic document the depth stays at one although inlining n times around nests n fields and never ends |
| `Lru.LRUCache.Get` | indexer/src/cacheLayer.js:57-68 | a hit moves the key to the end, an expired entry is removed, a miss changes nothing |
| `Lru.LRUCache.Set` | indexer/src/cacheLayer.js:70-77 | the key ends up last with its new entry, and the first key goes only if the others already fill the cache |
| `Lru.LRUCache.DeletePattern` | indexer/src/cacheLayer.js:83-90 | deleting while iterating removes exactly the keys the pattern hits and keeps the order of the rest |
| `Lru.LRUCache.CacheAside` | indexer/src/cacheLayer.js:399-419 | a live entry is returned and kept; otherwise what the loader returns is returned, and stored with its expiry unless it is nothing |
| `LruRuns.RunsRefineDictionary` | indexer/src/cacheLayer.js:50-90 | after every sequence of operations: at most `maxSize` keys in the order of their last touch; a hit is what an unbounded dictionary holds; a miss on a live key means `maxSize` other keys were touched since |
| `LruInclusion.LargerCacheHoldsMore` | indexer/src/cacheLayer.js:399-419 | on every cache-aside trace without expiry, whatever the loaders return, a larger cache holds every key that a smaller one holds |
| `LruInclusion.HoldsMostRecent` | indexer/src/cacheLayer.js:399-419 | and if every loader delivers, a cache of size n holds exactly the n most recent keys |
| `LruInclusion.RecencyByLastAccess` | indexer/src/cacheLayer.js:57-77 | the recency list has every accessed key once, in the order of last access |
| `LruRuns.StarAloneMatchesItself` | indexer/src/cacheLayer.js:83-90 | a prefix followed by a star hits exactly the keys with that prefix, if and only if the prefix is not empty |
| `LruRuns.PlainPatternsNameOneKey` | indexer/src/cacheLayer.js:83-90 | a pattern without a final star, and the star alone, deletes the one key that equals it |
| `IngestPipeline.Pipeline.ScheduleWork` | indexer/src/ingestPipeline.js:19-38 | the scheduling loop hands out batches until the queue is empty or all workers are busy |
| `IngestPipeline.Pipeline.EnqueueItems` | indexer/src/ingestPipeline.js:47-61 | the leading items are accepted; one is dropped only if those taken fill the queue to its bound, and each dropped one is counted |
| `IngestPipeline.TakesWhatFits` | indexer/src/ingestPipeline.js:52-64 | as many leading items are accepted as the queue has room for before any batch is handed out |
| `IngestPipeline.Pipeline.BatchEnded` | indexer/src/ingestPipeline.js:26-36 | a batch that ends, well or badly, frees its worker, lets drain callers go if the pool is idle, and schedules on |
| `IngestPipeline.Pipeline.DrainCalled` | indexer/src/ingestPipeline.js:62-65 | a drain caller is let go at once when idle, and listed otherwise |
| `IngestPipeline.RunsKeepInv` | indexer/src/ingestPipeline.js:8-66 | on every interleaving: accepted items in order are the batches handed out followed by the queue; queue and workers keep their bounds; nothing waits while a worker is free; no drain caller is left when idle |
| `IngestPipeline.DrainResolves` | indexer/src/ingestPipeline.js:12-38 | once no items come, exactly the outstanding batches have to end and every drain caller has been let go |
| `IngestPipeline.DrainsWaitForIdle` | indexer/src/ingestPipeline.js:13-18 | drain callers are let go, all and in order, exactly by a step that leaves no item queued and no worker busy |
| `PurgeQueue.Purger.EnqueueKeys` | indexer/src/cdnPurge.js:96-105 | keys join the set in order without duplicates and a timer is armed unless one is pending; the disabled adapter takes nothing |
| `PurgeQueue.Purger.FlushNowCalled` | indexer/src/cdnPurge.js:107-111 | the timer is disarmed but still held, and a flush is chained |
| `PurgeQueue.Purger.FlushBegins` | indexer/src/cdnPurge.js:77-85 | a flush takes all pending keys and hands over the first batch; one without keys ends at once |
| `PurgeQueue.Purger.PurgeEnded` | indexer/src/cdnPurge.js:82-92 | the health flag is how the batch ended, and the next batch of at most 256 keys follows |
| `PurgeOrder.TimersMove` | indexer/src/cdnPurge.js:77-111 | on every step: who arms and disarms the timer, who chains a flush, that the handle is kept until the next flush begins, and that only a batch that ends sets the health flag |
| `PurgeQueue.RunsKeepInv` | indexer/src/cdnPurge.js:68-116 | on every interleaving: pending keys have a timer armed or a flush chained; every queued key is pending, in the running flush, or was handed to the adapter since; batches are small; health is the last outcome |
| `PurgeQueue.InternalEventsRunOut` | indexer/src/cdnPurge.js:77-105 | left to itself the queue comes to rest, in whatever order timers, flushes and batches come, after exactly a number of them that its state determines: none is possible then, and before that one is |
| `PurgeQueue.AtRestAllIsPassed` | indexer/src/cdnPurge.js:77-116 | when they have run out, every key ever queued has been handed to the adapter since |
| `PurgeOrder.KeysGoInOrder` | indexer/src/cdnPurge.js:77-105 | on every interleaving: what was handed to the adapter, then what the running flush has left, then what is pending are the keys of all calls in their order, without those that were pending already |
| `PurgeOrder.RunsKeepOnce` | indexer/src/cdnPurge.js:68-105 | no key is pending twice, and none twice in one flush |
| `PurgeOrder.BatchesAreFull` | indexer/src/cdnPurge.js:79-92 | each batch is the next 256 keys of its flush, or all that are left |
| `LoadShedder.RouteShedder.Middleware` | indexer/src/loadShedder.js:50-66 | a request is admitted exactly below the limit plus its reserve, capped at 1000; whoever is shed, every tier with no larger reserve would be shed too; shed requests are counted by tier; `RunsKeepInv`'s invariant is kept |
| `LoadShedder.RouteShedder.ReleaseRequest` | indexer/src/loadShedder.js:69-88 | the first response event releases the request and may close a window and move the limit; a second one changes nothing |
| `LoadShedderWindows.TiersInOrder` | indexer/src/loadShedder.js:56-57 | anonymous and free requests are admitted below the limit, pro ones up to 10 beyond it, enterprise 20, admin 50, and nobody beyond 1000 |
| `LoadShedderWindows.ShedIsCounted` | indexer/src/loadShedder.js:57-62 | on every run each tier's shed count is the number of its requests that were turned away |
| `LoadShedderWindows.WindowIsMeasured` | indexer/src/loadShedder.js:64-86 | on every run the high-water mark is the most that were active at a time in the open window, and the latency total the sum over its responses |
| `LoadShedderWindows.LimitMoves` | indexer/src/loadShedder.js:76-86 | only the twentieth response of a window moves the limit: down by a fifth if they took longer than the target on average, else up by a twentieth where the limit was reached |
| `LoadShedder.RunsKeepInv` | indexer/src/loadShedder.js:50-92 | on every sequence of events: `active` is the number of admitted requests not yet released, at most 1000 and at most the high-water mark; the limit stays within 5..1000 or the wider start value |
| `LoadShedder.StepKeepsInv` | indexer/src/loadShedder.js:72 | and a release never meets `active` at 0, so the clamp is never needed |
| `LoadShedder.SecondEventIsIgnored` | indexer/src/loadShedder.js:69-90 | whatever happens between `finish` and `close`, the later of them has no effect |
| `LoadShedder.SlowWindowsLower` | indexer/src/loadShedder.js:75-86 | from any state whose open window is slow so far, slow responses lower the limit once every twenty releases and not otherwise |
| `LoadShedder.SlowWindowsReachTheMinimum` | indexer/src/loadShedder.js:75-86 | from any state with a limit in 5..1000, 460 slow responses bring it down to 5, and 440 if the open window is slow so far; 21 windows are not enough from 1000 |
| `LoadShedder.TurningSlowReachesTheMinimum` | indexer/src/loadShedder.js:75-86 | so a route may turn slow at any time, in the middle of a window too |
| `LoadShedderWindows.BusyFastWindowsRaise` | indexer/src/loadShedder.js:76-86 | with fast responses only, in windows that reach the limit, it is raised once every twenty releases and not otherwise |
| `LoadShedderWindows.BusyFastWindowsReachTheMaximum` | indexer/src/loadShedder.js:76-86 | 88 such windows bring any limit in 5..1000 up to 1000; from 5, 87 do not |
| `DecodeStats.DecodeCounter.Prune` | indexer/src/decoder.js:183-188 | deleting while iterating keeps exactly the buckets of the last 24 hours |
| `DecodeStats.DecodeCounter.RecordDecodeOutcome` | indexer/src/decoder.js:190-200 | the outcome joins the log that the buckets stand for, and what remains are at most 24 buckets, those of the last 24 hours |
| `DecodeStats.DecodeCounter.GetDecodeStats` | indexer/src/decoder.js:206-221 | the totals equal the counts over the full log of outcomes whose hour key is above now - 24 |
| `DeadLetter.Processor.EnqueueFailed` | indexer/src/deadLetterQueue.js:124-155 | the new entry can be claimed from the end of the first backoff on and not before, and no other row is touched |
| `DeadLetter.Processor.RecordFailedAttempt` | indexer/src/deadLetterQueue.js:175-208 | without interruption: the attempt is counted; the entry is queued again after its backoff or quarantined; another row only changes by being quarantined, if it is open and has the stack hash |
| `DeadLetterSteps.FailureTouches` | indexer/src/deadLetterQueue.js:175-208 | every column of every row after a failed attempt: the failed row by its attempts and by how many unresolved rows share the hash, the open rows of that hash along with it, and all others untouched |
| `DeadLetter.Processor.ProcessRetries` | indexer/src/deadLetterQueue.js:222-266 | without interruption: a tick attempts every claimed row in turn; its tally counts exactly the attempts, the resolved ones, the failed ones and those quarantined by their own failure |
| `DeadLetterSteps.StepTouches` | indexer/src/deadLetterQueue.js:161-236 | the same for each single statement of every run: which rows it changes, and every column of what becomes of them |
| `DeadLetterSteps.StepKeepsRows` | indexer/src/deadLetterQueue.js:124-155 | no statement takes an entry out, and only an insertion adds one |
| `DeadLetterSteps.FailureDecides` | indexer/src/deadLetterQueue.js:175-184 | a failure leads to quarantine exactly if its attempts reach the maximum or the unresolved rows of its hash the threshold, as they are when it is counted |
| `DeadLetterSteps.ClaimsTakeWhatIsDue` | indexer/src/deadLetterQueue.js:223-236 | a claim is exactly a choice of distinct rows whose backoff is over or whose claim is older than ten minutes, at most a batch, the longest due first |
| `DeadLetterSteps.BackoffGrows` | indexer/src/deadLetterQueue.js:59-61 | the first backoff is the base, each further one twice the one before, up to a cap that is reached |
| `DeadLetterRuns.RunsKeepInv` | indexer/src/deadLetterQueue.js:175-266 | what every entry satisfies after any sequence of enqueues and of single statements of overlapping ticks, if no claim meets a row in hand that was last written more than ten minutes before |
| `DeadLetterRuns.SharedByStaleClaims` | indexer/src/deadLetterQueue.js:222-236 | a row comes into the hands of two ticks exactly by a claim of a row in hand, and every such claim is of a stale row |
| `DeadLetterRuns.TickIsAttempts` | indexer/src/deadLetterQueue.js:222-266 | a whole tick that nothing interrupts is a claim followed by these statements in turn |
| `DeadLetterRuns.AttemptsAreBounded` | indexer/src/deadLetterQueue.js:90-99 | under that condition no entry is attempted more often than the maximum, and a queued one exactly as often as its retry count, which is less; with nothing in hand none is left retrying |
| `DeadLetterRuns.ClaimsWaitForBackoff` | indexer/src/deadLetterQueue.js:222-236 | and a claimed entry was queued and its backoff is over |
| `DeadLetterQuarantine.OverlapExceedsTheBound` | indexer/src/index.js:588-605 | otherwise an entry can be attempted any number of times: a tick is started every minute whether or not the one before has ended, and a run from the empty table shows n attempts for every n |
| `DeadLetterQuarantine.ResolvedMayBeQueuedAgain` | indexer/src/deadLetterQueue.js:185-190 | a run in which the later of two ticks resolves an entry and the earlier one puts it back into the queue |
| `DeadLetterQuarantine.GroupIsQuarantined` | indexer/src/deadLetterQueue.js:192-206 | right after a group has been quarantined, however ticks overlap and whatever happened since its failure was counted, every other entry of that stack hash is quarantined or resolved, and on runs with timely claims so is the failed one |
| `DeadLetterQuarantine.SettledIsFinal` | indexer/src/deadLetterQueue.js:222-236 | an entry that is quarantined or resolved while no tick is going to attempt it stays exactly as it is, however ticks overlap |
| `DeadLetterQuarantine.ResolutionEnds` | indexer/src/deadLetterQueue.js:185-190 | a step takes a resolved entry out of that state if and only if it writes the failure of an attempt by a tick that had the same entry in hand |
| `DeadLetterQuarantine.ResolvedIsFinal` | indexer/src/deadLetterQueue.js:222-262 | an entry that is resolved after a run on which every claim was timely stays exactly as it is, whatever follows, later claims being timely or not |
| `DeadLetterQuarantine.QuarantineEnds` | indexer/src/deadLetterQueue.js:242-262 | an entry leaves quarantine if and only if an attempt of it that was under way succeeds, or fails without quarantining it |
| `DeadLetterQuarantine.AttemptDecides` | indexer/src/deadLetterQueue.js:175-208 | after its attempt a row in hand is quarantined if and only if the attempt failed and either its attempts, this one included, reach the maximum or the unresolved rows of its stack hash reach the poison threshold, whatever the group quarantine did meanwhile |
| `DeadLetterQuarantine.QuarantineMayEndInTheSameTick` | indexer/src/deadLetterQueue.js:242-262 | a run from the empty table in which that happens: two entries are claimed together, the first quarantines both, the second fails differently and is queued again |
| `Verifier.ContractVerifier.RequestVerification` | indexer/src/contractVerifier.js:394-408 | without interruption: refused exactly if a job for the contract is open, otherwise a pending job is added; one open job per contract and one job building stay so |
| `Verifier.ContractVerifier.ClaimNextJob` | indexer/src/contractVerifier.js:310-320 | the oldest pending job starts building, if there is one; it is the only one building if none was building before |
| `Verifier.ContractVerifier.BeforeFetched` | indexer/src/contractVerifier.js:322-326 | without an on-chain hash the job fails, otherwise it is built against that hash |
| `Verifier.ContractVerifier.BuildsEnded` | indexer/src/contractVerifier.js:330-332 | the second build only counts if the first gave a hash |
| `Verifier.ContractVerifier.BuildThrew` | indexer/src/contractVerifier.js:333-351 | the job fails, and if its source is gone every job of the same repository and commit is flagged, with whatever toolchain |
| `Verifier.ContractVerifier.AfterFetched` | indexer/src/contractVerifier.js:353-379 | an upgrade seen meanwhile puts the job back, no first build fails it, otherwise it completes with both hashes compared |
| `Verifier.ContractVerifier.ProcessorFails` | indexer/src/contractVerifier.js:453-461 | a statement that rejects is only logged: the tables stay as they are, the job in work with them, and the next tick takes another job |
| `Verifier.ContractVerifier.UpgradeObserved` | indexer/src/contractVerifier.js:384-391 | a well-formed hash replaces the recorded one, anything else changes nothing |
| `VerifierStatus.JobSteps` | indexer/src/contractVerifier.js:310-379 | every column of every job after every step of a run: the oldest pending job is claimed, and only the job in work moves on, by what was read and built; a vanished commit flags its like |
| `VerifierStatus.PhaseSteps` | indexer/src/contractVerifier.js:310-379 | where the processor goes on from each step, and with which hashes in hand |
| `VerifierStatus.RecordSteps` | indexer/src/contractVerifier.js:384-391 | a hash is recorded exactly by the processor at the end of a job and by whoever observes an upgrade, if it is 64 hexadecimal digits |
| `VerifierStatus.RequestSteps` | indexer/src/contractVerifier.js:394-408 | only requests add jobs: one without interruption exactly if no job of the contract is pending or building |
| `VerifierStatus.HistorySteps` | indexer/src/contractVerifier.js:312-380 | what a run has seen so far is noted as it happens: the chain, each job's two reads and builds, and which requests have checked and not inserted yet |
| `VerifierRuns.RunsKeepInv` | indexer/src/contractVerifier.js:310-391 | on every interleaving, failures of the processor included: the job in work is building on a hash that the chain did hold, and every completed job carries what its builds gave and what the chain held when it was read |
| `VerifierRuns.RunsKeepOneBuilding` | indexer/src/contractVerifier.js:453-462 | no job is building but the one in work, if and only if the processor never failed while it worked on a job |
| `VerifierRuns.JobGetsStuck` | indexer/src/contractVerifier.js:310-318 | a step leaves a job building with nobody at work on it if and only if that was so before or the processor fails at work on it |
| `VerifierRuns.StuckForGood` | indexer/src/contractVerifier.js:394-401 | such a job stays that way whatever follows, and every further request for its contract is refused |
| `VerifierRuns.ARunGetsStuck` | indexer/src/contractVerifier.js:453-462 | as happens to a job whose on-chain hash has been asked for when the processor fails |
| `VerifierRuns.RunsKeepOneOpen` | indexer/src/contractVerifier.js:397-406 | on every interleaving in which each insertion still finds no open job, a contract never has two jobs that are pending or building |
| `VerifierRuns.StepKeepsOneOpen` | indexer/src/contractVerifier.js:397-406 | one such step keeps that if and only if an insertion still finds no open job |
| `VerifierRuns.OverlappingRequests` | indexer/src/contractVerifier.js:397-406 | two requests whose checks both come first both get a job |
| `VerifierRuns.VerifiedMeansBothBuildsMatch` | indexer/src/contractVerifier.js:235-257 | `verified_reproducible` is only shown for the latest job, both of whose builds gave the hash now recorded for the contract, and which the chain did hold before the builds and still after them, if it could be read |
| `VerifierStatus.BadgesMean` | indexer/src/contractVerifier.js:235-257 | on every run, for each of the states exactly when it is shown: pending and failed by the latest job, and of a completed one a mismatch if what it built and what is recorded are digests that differ, a hash match if they agree but its builds do not, reproducible if those do too, and unverified if either is no digest |
| `VerifierStatus.NoJobIsUnverified` | indexer/src/contractVerifier.js:235-236 | a contract without a job is unverified |
| `VerifierRuns.UpgradedJobCompletes` | indexer/src/contractVerifier.js:353-379 | if the chain has moved on since the first read, the job completes if and only if the second read fails and the first build gave a hash; a read that answers puts it back without a result |
| `VerifierBadge.RecordingRemovesBadge` | indexer/src/contractVerifier.js:235-257 | once a hash that the latest job did not build is recorded, a completed job shows as a mismatch if it built a digest and as unverified if not, and any other job as it did |
| `VerifierBadge.BadgeComesBackBy` | indexer/src/contractVerifier.js:384-391 | once a hash other than the built one is recorded outside that window, a verified badge only comes back by a job that read the chain after the recording, by the job that was being built if its second read fails or finds the old hash on the chain again, or by the built hash being recorded again |
| `VerifierBadge.TailGivesTheBadgeBack` | indexer/src/contractVerifier.js:379 | in the window before the processor records its own read, that older read overwrites the upgrade, and the badge is verified again if and only if the latest job completed with that older hash |
| `VerifierBadge.BadgeOutlivesAnUpgrade` | indexer/src/contractVerifier.js:370-379 | a run of nine events from the empty tables through that window which ends in a verified badge although the chain holds, and an observer recorded, other code |
| `VerifierBadge.FailedReadHidesAnUpgrade` | indexer/src/contractVerifier.js:353-379 | and another one outside that window: the upgrade is observed while the job is being built, the second read fails, the job completes and its older read overwrites the observation |

## Left out

- Event pages: splitting and trimming the comma-separated `function` parameter, `hashFilters`, the total
  count and its estimate. Transactions that commit out of the order of their serial numbers.
- Contract pages: the `type` and `q` filters (the table stands for the rows they select), the check of a
  malformed cursor, rows without a creation time, changes of the table during a walk, offset pages.
- ContractsCursor.ListContractsCursor: IDs are integers standing for their place in the database's collation; filters and malformed cursors are left out.
- Hashes are values of an arbitrary type; their hexadecimal text carries no meaning here.
- Numbers: JavaScript numbers are integers here; precision beyond 2^53 and `String(n)` in exponent form from 10^21 on are not modelled.
- `formatAmount`: raw amounts are integers; the normalisation of SQL numerics and the choice among its overloads are left out.
- `toCsv`: the text that `String` or `JSON.stringify` gives a value is part of the value.
- Lru.LRUCache.CacheAside: looks up, loads and stores in one step; loads that overlap are covered as single `Get` and `Set` operations by `LruRuns.RunsRefineDictionary`.
- Cache: Redis, cross-instance messages, analytics, the early-recomputation gate and patterns with a star elsewhere than at the end.
- Ingest pool: a `processBatch` that throws before it returns its promise.
- Purge queue: adapters and `unref`; that a chained flush starts only after the one before it has ended is taken from promises.
- Load shedder: route classification, the health bypass and the lookup of a route's state; rounding of limits configured above 1000.
- Decode statistics: the rounded success rate and the Prometheus counters.
- Dead-letter queue: classification of errors, alerts, manual replay and requeue, the operators' views. A processor
  that crashes or whose statement fails, and drops the rows that its tick has in hand.
- DeadLetter.Processor.RecordFailedAttempt: runs its three statements without interruption; `DeadLetter.Step` takes them one by one.
- DeadLetter.Processor.ProcessRetries: runs a whole tick without interruption; `DeadLetterRuns.TickIsAttempts` ties it to the single statements.
- Verifier: validation of requests, build logs and containers, reasons and ledgers in the tables, the comparison of ABIs.
- Verifier.ContractVerifier.BuildThrew: fails the job and flags its source in one step; a failure between these two statements is left out, and no property depends on the flag.
- Verifier.ContractVerifier.RequestVerification: runs its two queries without interruption; the events `RequestChecked` and `RequestInserted` of `VerifierRuns` take them one by one.
- `batch.js`, `footprintContentionScanner.js` and the analytics quota: single passes whose properties follow from their bodies.
- `contractSpecCache.js`: its rate limiter and bounded map would repeat what is proved of the decode statistics and the cache tier.
- `eventFilterDsl.js` and `migrate.js`: their output drops parts of their input, so they preserve no meaning to prove.
- HTTP routes, authentication, RPC, Postgres and Redis clients, metrics, logging and the other decoders.
