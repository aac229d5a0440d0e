# Verified model of the gasless-swap stack

This project models the in-memory logic of a gasless-swap demo stack in Dafny and proves what its parts keep
true. `dafny verify dfyconfig.toml` checks all of it. Five parts and one smaller one are covered:

- **Bundler.** The mempool and the bundling call as a protocol of uninterrupted steps: accept, timer tick, forced
  attempt, submit, settle, fail, end. `BundlerState` gives each step as a function on values and proves what every
  run keeps; `BundlerEngine` is the class with the mutable entries, whose methods refine those steps.
  `BundlerScenarios` is one run with concrete steps. `ReceiptLogs` is the scan that cuts a bundle's receipt into
  per-operation logs.
- **Wire formats.** `Packing` and `WebUserOp` are the two packers of an ERC-4337 v0.7 `PackedUserOperation`
  ("Specification" section of ERC-4337), `Rlp` is Recursive Length Prefix coding (Yellow Paper, Appendix B) and
  `SetCodeTx` is the type-4 transaction ("Specification" section of EIP-7702). Hex strings are sequences of
  nibbles; numbers are big-endian naturals.
- **Monitor index.** `OpRecords`, `OpJoin` and `ChainRanges` say what ingestion and eviction do to the index and
  when it is the join of the chain's events; `IndexerCursor` is the cursor over block ranges; `OpMetrics` is what
  the reports mean; `OpStore` and `OnChainIndexer` are the classes that do it in place. `Restart` connects the
  index with the daily logs that are fed back to it, `Retention` says what eviction keeps, `RetainedRestart` puts
  both together, and `IndexerScenarios` is one concrete chain.
- **Stored history.** `DailyFiles`, `DamagedFiles` and `NdjsonDaily` are the daily NDJSON files with their bounded tail
  reads, `LogStore` is the bounded log, `Telemetry` holds the session indexes, `UsersJoin` and `UsersReport` are the
  users report.
- **On-chain structures.** `Checkpoints`, `EnumerableSet` and `EnumerableMap` model the Solidity that the three
  generator templates emit.
- **Fees.** `SwapFees` is the client's choice of bundlers, fee caps and promised fee, against the bundler's floor
  checks and the paymaster contract's price.

`Wrappers`, `Sequences`, `Sorting`, `JsMaps`, `Text` and `HexData` are shared: option and result types,
filtering and summing, the stable sort that `Array.prototype.sort` is, insertion-ordered maps, letter case and
hex digits.

What comes from outside is a parameter or a step's outcome: chain replies, clocks, estimates, bundler answers,
the hash and the signature, and `JSON.stringify` with `JSON.parse` and `coerce` as a faithful newline-free coding.

## Where the code differs from its documentation or its intent

- bundler/README.md line 40 says a setting above 1 waits for a batch of that size. The check after an accept
  compares with `mempool.size`, and finished entries are never removed, so a smaller bundle can be forced
  (`BundlerState.ForcedStarts` says exactly when, `BundlerScenarios.PartialBundleForced` is a run); and with a
  setting above 25 a timer tick never starts a bundle
  (`BundlerState.TickStarts`).
- A receipt holds a `BeforeExecution` log before the first operation. After it, an operation's slice also holds the
  logs of the operations before it, so it is exact only for the first (`ReceiptLogs.CutAfterMarker`).
- A paymaster event that is ingested before the EntryPoint event of its own transaction leaves a partial record that
  no later event completes (`OpJoin.PostFirstJoins`, `OpJoin.PartialStays`; `OpJoin.RecordIs` says exactly which records
  are partial). The order inside one range read avoids it as long as every block and transaction lookup succeeds, which
  is what makes `ChainRanges.RangesGiveJoin` hold; a failed lookup skips one event while the cursor moves on.
  `ChainRanges.ReadsJoinIff` says exactly when the index is still the join, and in `IndexerScenarios.PartialRecordStays`
  it is not.
- A restart completes such a record, because the daily logs are fed back with all EntryPoint events first
  (`Restart.RestartRepairs`, `IndexerScenarios.RestartCompletesRecord`), so a restart does not always give the records
  that never stopping would have given. `Restart.RestartLosesNothing` says exactly when it does while the logs hold at
  most the retained number of events, `Restart.RestartIff` and `Restart.ReloadIff` for any number.
- Eviction happens after each part of a batch. When two operations share a time and block, an operation that is evicted
  after its EntryPoint event can come back as a partial record and push a complete one out (`Retention.TieKeepsPartial`).
  Without such ties eviction keeps exactly the newest records (`Retention.BoundedIsEvicted`).
- A tail read counts lines before it parses them, so a line that does not parse hides a record
  (`DamagedFiles.BadLineHides`; `DamagedFiles.LoadIff` says when the last records do come back).
- Cursor value 0 means both "never synced" and "block 0 is done". `IndexerCursor.HoleFreeIff` says exactly when that
  leaves blocks out, and `IndexerCursor.ZeroCursorSkips` is such a run.
- The type-4 encoder compares printed numbers with `"0x0"`, but a printed zero has a whole byte, so zero is sent as
  one zero byte instead of the empty string RLP integers require (`SetCodeTx.QuantityCanonical`).
- The client writes an authorization nonce of zero as `"0x"`, which the bundler refuses to read as a number, so a bundle
  with such an authorization fails (`SetCodeTx.ClientSigns`).
- `pack(unpack(p)) = p` holds exactly for well-formed packed operations (`Packing.PackUnpack` is an if and only if).

## Model

| member | source | states |
|---|---|---|
| BundlerState.RunSafe | bundler/src/BundlerEngine.ts:235-470 | after every sequence of steps: at most one suspended call and the lock held exactly then, no accepted entry in two bundles, every bundle has 1 to 25 entries within the setting with distinct hashes, never-bundled entries are pending, entries of finished bundles are mined or failed, and receipts sit exactly on mined entries |
| BundlerState.StepMoves | bundler/src/BundlerEngine.ts:395-441 | one step moves a status only from pending to sent to mined, or from the first two to failed, and never touches a settled entry |
| BundlerState.RunKeepsSettled | bundler/src/BundlerEngine.ts:344-470 | a mined or failed entry never changes again in any continuation |
| BundlerState.ResubmitWaits | bundler/src/BundlerEngine.ts:235-243 | accepting a known hash again replaces the waiting entry by a new pending one and leaves the bundle in flight alone, so bundling is at most once per accepted entry, not per hash |
| BundlerState.SelectionMembers | bundler/src/BundlerEngine.ts:335-342 | a selection holds distinct pending mempool entries, as many as there are up to the cap |
| BundlerState.SelectionOldest | bundler/src/BundlerEngine.ts:335-342 | a selection is in receive order and nothing pending that it leaves behind is older |
| BundlerState.RunFifo | bundler/src/BundlerEngine.ts:335-356 | under a non-decreasing clock everything ever bundled is in receive order over the whole run, and no entry waiting in the mempool is older than any of it |
| BundlerState.TickStarts | bundler/src/BundlerEngine.ts:330-356 | with the lock free a tick starts a bundle if and only if the setting is at most 25 and at least max(1, setting) entries wait, and then of exactly that size |
| BundlerState.ForcedStarts | bundler/src/BundlerEngine.ts:259-264 | the check after an accept starts a bundle if and only if something waits and the mempool, finished entries included, has the setting's size; the bundle is full if and only if enough wait and the setting is at most 25 |
| BundlerState.RunConserves | bundler/src/BundlerEngine.ts:344-470 | without arrivals, waiting entries plus bundled entries stay constant over any run |
| BundlerState.BundleLowers | bundler/src/BundlerEngine.ts:344-470 | however the bundle a tick starts ends, submitted or not, mined or failed, with whatever steps in between: once the lock is free the waiting count is lower by exactly its size and every entry of it is mined or failed |
| BundlerState.TicksDrain | bundler/src/BundlerEngine.ts:330-356 | over every run without arrivals, with any schedule and any failures: once enough ticks have found the lock free, fewer entries than the setting wait |
| BundlerScenarios.PartialBundleForced | bundler/src/BundlerEngine.ts:259-264 | with a setting of two, after one finished bundle a third operation is submitted alone |
| BundlerEngine.Engine.AcceptOperation | bundler/src/BundlerEngine.ts:235-243 | the object put into the mempool under its hash is the protocol's accept step |
| BundlerEngine.Engine.SelectOldest | bundler/src/BundlerEngine.ts:335-342 | filtering, sorting and slicing the entry objects is the protocol's selection on their identities |
| BundlerEngine.Engine.AttemptBundle | bundler/src/BundlerEngine.ts:344-351 | testing the lock, selecting and taking the lock in one go is the protocol's attempt |
| BundlerEngine.Engine.OnTick | bundler/src/BundlerEngine.ts:330-333 | the timer call refines the tick step |
| BundlerEngine.Engine.OnAccepted | bundler/src/BundlerEngine.ts:259-264 | the check after an accept refines the forced step |
| BundlerEngine.Engine.OnSubmitted | bundler/src/BundlerEngine.ts:395-398 | the loop that marks the taken objects refines the submit step |
| BundlerEngine.Engine.OnMined | bundler/src/BundlerEngine.ts:408-412 | settling the next object refines the mined step |
| BundlerEngine.Engine.OnFailed | bundler/src/BundlerEngine.ts:440-441 | the loop that fails the taken objects refines the failed step |
| BundlerEngine.Engine.OnEnd | bundler/src/BundlerEngine.ts:467-469 | returning and releasing the lock refines the end step |
| ReceiptLogs.FilterLogsForUserOp | bundler/src/BundlerEngine.ts:609-630 | the loop over mutable start and end indices returns the cut given by the last marker, the last own event and the last foreign event before any own one |
| ReceiptLogs.CutExact | bundler/src/BundlerEngine.ts:609-630 | without a marker an operation's slice is exactly its own segment |
| ReceiptLogs.CutAfterMarker | bundler/src/BundlerEngine.ts:609-630 | after one marker an operation's slice is all earlier operations' logs followed by its own segment, no validation or later logs; it is its own segment if and only if the operation is the first |
| Packing.PackAccepts | bundler/src/packing.ts:25-85 | packing succeeds if and only if addresses have 20 bytes, factory and data come together and every gas and fee field is written in at most 16 bytes: nothing is ever truncated |
| Packing.UnpackPack | bundler/src/packing.ts:31-135 | unpacking a packed operation gives its normal form |
| Packing.NormalKeepsAmounts | bundler/src/packing.ts:87-135 | the normal form keeps every gas, fee and nonce value and both paymaster limits |
| Packing.PackUnpack | bundler/src/packing.ts:31-135 | unpacking and packing again returns the packed operation if and only if its factory part is absent or at least 20 bytes, its paymaster part absent or at least 52 bytes with a non-zero paymaster, and its amounts are printed numbers and 32-byte pairs |
| Packing.ParseComposed | bundler/src/packing.ts:137-147 | parsing the word built from aggregator, end and start returns the start and the end, a zero end meaning no end |
| WebUserOp.PackersAgree | web/src/utils/userop.ts:112-159 | an operation both packers accept has the same nine packed fields from either |
| WebUserOp.PairsAgree | web/src/utils/userop.ts:17-21 | the client's pair of numbers and the bundler's pair of hex strings are the same 32 bytes |
| WebUserOp.ClientAccepts | web/src/utils/userop.ts:112-124 | of what the bundler packs, the client refuses exactly operations with an amount without digits |
| WebUserOp.BundlerAccepts | web/src/utils/userop.ts:112-138 | of what the client packs, the bundler refuses exactly unpaired factories, addresses that are not 20 bytes and amounts of more than 32 digits |
| WebUserOp.SignedHashMatches | bundler/src/packing.ts:31-85 | for any hash that ignores the signature field, the hash the user signed is the hash of what the bundler packs after the signature is filled in |
| Rlp.DecodeEncode | bundler/src/packing.ts:188 | decoding an encoded item, whatever bytes follow, returns the item and what follows |
| Rlp.DecodeEncodeAll | bundler/src/packing.ts:188 | the same for the concatenated items of a list |
| Rlp.EncodeInjective | bundler/src/packing.ts:225 | two items with one encoding are the same item |
| SetCodeTx.SignsExactly | bundler/src/packing.ts:163-230 | a transaction is signed and sent if and only if in every authorization chain id, nonce and v have a digit and address, r and s are whole bytes; a missing digit anywhere is the failure reported first |
| SetCodeTx.ClientSigns | web/src/utils/userop.ts:76-109 | of the authorizations the client builds, exactly those with a non-zero nonce can be sent |
| SetCodeTx.SentMatchesSigned | bundler/src/packing.ts:148-230 | whenever it is sent: the sent bytes decode to thirteen items, of which the first ten, encoded again behind 0x04, are exactly the bytes that were hashed, and the last three are the signature of that hash |
| SetCodeTx.PayloadInjective | bundler/src/packing.ts:205-225 | two transactions share a signing payload if and only if they agree in every field, numbers of authorizations compared by value |
| SetCodeTx.SentInjective | bundler/src/packing.ts:148-189 | two sent transactions have the same bytes if and only if they agree in the same way and carry the same signature |
| SetCodeTx.QuantityCanonical | bundler/src/packing.ts:172-186 | a number field has the form RLP integers require if and only if the number is not zero |
| OpStore.UserOpAnalyticsStore.IngestEntryPointEvents | paymaster_monitor/server/src/stores/UserOpAnalyticsStore.ts:11-43 | the loop over events, then eviction, makes the index exactly the ingestion function's, keeping keys lower-case hashes and the bound |
| OpStore.UserOpAnalyticsStore.IngestPaymasterEvents | paymaster_monitor/server/src/stores/UserOpAnalyticsStore.ts:45-77 | the same for paymaster events |
| OpStore.UserOpAnalyticsStore.EvictIfNeeded | paymaster_monitor/server/src/stores/UserOpAnalyticsStore.ts:224-231 | sorting and deleting in place is the eviction function |
| OpRecords.EvictFacts | paymaster_monitor/server/src/stores/UserOpAnalyticsStore.ts:224-231 | eviction leaves min(size, max) records unchanged and removes only records no newer by time and block than every survivor |
| OpJoin.BatchesJoin | paymaster_monitor/server/src/stores/UserOpAnalyticsStore.ts:11-77 | after any covered sequence of batches, repeats included, the index is the join by hash of all EntryPoint events with all paymaster events |
| OpJoin.ReplayIndependent | paymaster_monitor/server/src/stores/UserOpAnalyticsStore.ts:11-77 | two covered histories of the same events, however ordered, split and repeated, give the same records |
| OpJoin.PostFirstJoins | paymaster_monitor/server/src/stores/UserOpAnalyticsStore.ts:15-18 | when the paymaster event comes first, the record becomes the join if and only if the two events differ in transaction or block |
| OpJoin.PartialStays | paymaster_monitor/server/src/stores/UserOpAnalyticsStore.ts:15-18 | a partial record stays partial through every later batch whose events of that operation are its own transaction's |
| OpJoin.JoinIff | paymaster_monitor/server/src/stores/UserOpAnalyticsStore.ts:11-77 | the index is the join if and only if every paymaster event arrived with or after its EntryPoint event |
| OpJoin.RecordIs | paymaster_monitor/server/src/stores/UserOpAnalyticsStore.ts:11-77 | after any history, an operation having at most one event of each kind and both from one transaction: its record is the partial one if and only if some paymaster event of it arrived in a batch that neither it nor an earlier batch had the EntryPoint event for; otherwise it is the join of its events, or absent without any |
| OpJoin.SameRecordsIff | paymaster_monitor/server/src/stores/UserOpAnalyticsStore.ts:11-77 | a part of any history gives the same records as the whole if and only if for each operation its paymaster event is late in both or in neither, and, if in neither, the part has all its events |
| OpJoin.SameLateIff | paymaster_monitor/server/src/stores/UserOpAnalyticsStore.ts:11-77 | two histories of the same events give the same records if and only if the same operations' paymaster events are late |
| OpJoin.NothingEvicted | paymaster_monitor/server/src/stores/UserOpAnalyticsStore.ts:224-231 | while the operations seen fit the bound, the bounded store is the unbounded one |
| ChainRanges.RangesGiveJoin | paymaster_monitor/server/src/chain/indexer.ts:332-426 | reading any block ranges of a well-formed chain, in any order, overlapping or repeated, gives exactly the join of the events in the blocks they hold |
| ChainRanges.ReadsJoinIff | paymaster_monitor/server/src/chain/indexer.ts:332-426 | with lookups that vary from read to read and fail at will, and after any earlier history: the index is the join of everything read if and only if that history was covered and each paymaster event was read with or after its EntryPoint event |
| ChainRanges.OutOfOrderPartial | paymaster_monitor/server/src/chain/indexer.ts:332-426 | otherwise the record of some paymaster event that was read is partial |
| IndexerScenarios.PartialRecordStays | paymaster_monitor/server/src/chain/indexer.ts:372-411 | on a well-formed chain, one failed lookup in the first read leaves the record partial when the range is read again with every lookup succeeding |
| IndexerScenarios.RestartCompletesRecord | paymaster_monitor/server/src/chain/indexer.ts:284-287 | a restart after those two reads turns that partial record into the join |
| OnChainIndexer.Indexer.constructor | paymaster_monitor/server/src/chain/indexer.ts:280-317 | a start feeds the events loaded from the two daily logs back, EntryPoint events first, and takes the cursor only from a state file of the same deployment |
| OnChainIndexer.Indexer.SyncRange | paymaster_monitor/server/src/chain/indexer.ts:332-426 | reading one range, with any lookups, ingests exactly the events it builds, EntryPoint events first, and appends the same events to the two daily logs |
| OnChainIndexer.Indexer.AdvanceOver | paymaster_monitor/server/src/chain/indexer.ts:214-225 | a range is stored before the cursor moves and the cursor moves before the state file; each kind of failure leaves exactly the steps before it; store and daily logs stay those of everything read |
| OnChainIndexer.Indexer.CatchUp | paymaster_monitor/server/src/chain/indexer.ts:214-225 | the loop over ranges refines the cursor function and ingests exactly the stored ranges in order |
| OnChainIndexer.Indexer.SyncOnce | paymaster_monitor/server/src/chain/indexer.ts:205-229 | one call, with any head and any failure, refines the cursor protocol's step |
| OnChainIndexer.Indexer.StoreIsJoin | paymaster_monitor/server/src/chain/indexer.ts:205-426 | after any number of lives and calls, with any heads, failures and failing lookups, within the bound: the store is the join of everything ever read if and only if every paymaster event of the lives before has its EntryPoint event read in one of them, and every one of this life was read with or after its own, or in a life after it |
| IndexerCursor.RunTracked | paymaster_monitor/server/src/chain/indexer.ts:205-229 | from any state file and over any run of calls, the stored ranges from the point the cursor is positive are consecutive, at most max(1, maxBlockRange) long, and end at the cursor |
| IndexerCursor.ConsecutiveCover | paymaster_monitor/server/src/chain/indexer.ts:214-225 | consecutive ranges hold every block between their ends, each in exactly one |
| IndexerCursor.SyncReachesHead | paymaster_monitor/server/src/chain/indexer.ts:205-229 | a call whose head is ahead ends with the cursor, in memory and on disk, at that head if none of the ranges it tries fails, and only then unless the state file held that head before |
| IndexerCursor.SyncForward | paymaster_monitor/server/src/chain/indexer.ts:208-216 | no call moves the cursor back, and a head that is not ahead of a positive cursor changes nothing |
| IndexerCursor.HoleFreeIff | paymaster_monitor/server/src/chain/indexer.ts:205-229 | over every run of calls and restarts from any state file, with any heads and failures: at no moment is a block below the highest stored one missing if and only if no call that finds the cursor at 0 although blocks are stored reads a head more than the lookback plus one above them and stores something |
| IndexerCursor.SavedIsStored | paymaster_monitor/server/src/chain/indexer.ts:214-225 | whatever the crashes: without such calls every block from the first stored one up to the state file's is stored, and a restart that reads a positive state file goes on right behind it |
| IndexerCursor.ZeroCursorSkips | paymaster_monitor/server/src/chain/indexer.ts:209-212 | such a call happens: after block 0 was stored, a head more than the lookback plus one away leaves block 1 out for good |
| IndexerCursor.StoredUpToCursor | paymaster_monitor/server/src/chain/indexer.ts:205-229 | without restarts and such calls, the stored blocks are exactly those from the first one up to the cursor |
| OpStore.UserOpAnalyticsStore.ComputeSummary | paymaster_monitor/server/src/stores/UserOpAnalyticsStore.ts:93-126 | the single pass with counters computes the declared summary |
| OpStore.UserOpAnalyticsStore.PerSenderMetrics | paymaster_monitor/server/src/stores/UserOpAnalyticsStore.ts:141-184 | the accumulator map, sorted, is the per-sender table |
| OpStore.UserOpAnalyticsStore.FailureMetrics | paymaster_monitor/server/src/stores/UserOpAnalyticsStore.ts:128-139 | the counting loop, listed and sorted, gives the failure rows |
| OpStore.UserOpAnalyticsStore.Timeseries | paymaster_monitor/server/src/stores/UserOpAnalyticsStore.ts:186-222 | the points emitted are one per step from window start to now, each holding the count, fees and gas of exactly the operations stamped in it |
| OpMetrics.TableRows | paymaster_monitor/server/src/stores/UserOpAnalyticsStore.ts:141-172 | there is one row per sender, case-insensitively, with the totals of exactly that sender's operations |
| OpMetrics.RowsPartition | paymaster_monitor/server/src/stores/UserOpAnalyticsStore.ts:93-184 | per-sender counts, gas and fees sum to the summary, there are uniqueSenders rows, and succeeded plus failed is the total |
| OpMetrics.ReasonCounts | paymaster_monitor/server/src/stores/UserOpAnalyticsStore.ts:128-139 | each reason counts the failed operations with it, and the counts sum to `failed` |
| OpMetrics.FailuresExact | paymaster_monitor/server/src/stores/UserOpAnalyticsStore.ts:128-139 | the failure rows are exactly the reasons of failed operations, one row each with its count, the most frequent first |
| OpMetrics.OneBucket | paymaster_monitor/server/src/stores/UserOpAnalyticsStore.ts:190-221 | an operation stamped between window start and now falls in exactly one emitted bucket, one stamped before in none |
| Restart.RestartLosesNothing | paymaster_monitor/server/src/chain/indexer.ts:284-287 | with logs of at most n events, after any history and whatever follows: a restart gives the records of never stopping if and only if no operation has a late paymaster event although its EntryPoint event arrived |
| Restart.RestartRepairs | paymaster_monitor/server/src/chain/indexer.ts:284-287 | with logs of at most n events, after a restart the record of every operation whose EntryPoint event was read before is the join, and stays the join |
| Restart.RestartIff | paymaster_monitor/server/src/chain/indexer.ts:284-287 | however many events the logs hold, after any history and whatever follows: a restart gives the records of never stopping if and only if for each operation its paymaster event is late in both or in neither, and, if in neither, all its events come back or are read again |
| Restart.ReloadIff | paymaster_monitor/server/src/chain/indexer.ts:284-287 | reloading alone gives the records back if and only if for each operation the last n of the two logs hold its events, or its paymaster event alone when that was late; from logs without repeats and with no late paymaster event whose EntryPoint event arrived, if and only if each log holds at most n events |
| Retention.BoundedIsEvicted | paymaster_monitor/server/src/stores/UserOpAnalyticsStore.ts:224-231 | with operations that no two share a time and block, over any history: evicting after every part of every batch leaves what evicting once at the end would leave |
| Retention.TieKeepsPartial | paymaster_monitor/server/src/stores/UserOpAnalyticsStore.ts:224-231 | with two operations of one time and block and a bound of one, a single batch with all four events leaves the partial record of the first |
| RetainedRestart.BoundedRestartIff | paymaster_monitor/server/src/chain/indexer.ts:284-287 | with any bound on the store and logs of at most n events, without ties: the restarted store is the one of never stopping if and only if that one holds no operation with a late paymaster event whose EntryPoint event arrived |
| RetainedRestart.RestartRetains | paymaster_monitor/server/src/chain/indexer.ts:284-287 | with logs of any length, written in chain order without repeats and covered, and a store bounded by the number each log gives back: the restarted store is exactly the one of never stopping, whatever follows |
| DailyFiles.TailIsWholeLines | paymaster_monitor/server/src/stores/NdjsonDailyWriter.ts:86-123 | whatever a file holds, the lines read from its tail are whole lines of it and a suffix of them |
| DailyFiles.LoadBounded | paymaster_monitor/server/src/stores/NdjsonDailyWriter.ts:68-84 | whatever the files hold, at most the asked number of records comes back |
| DailyFiles.LoadIsLast | paymaster_monitor/server/src/stores/NdjsonDailyWriter.ts:68-123 | loading from written files returns exactly the last n of the records visible in them, oldest file first |
| DailyFiles.StartedByPosition | paymaster_monitor/server/src/stores/NdjsonDailyWriter.ts:90-91 | the lines a truncated read drops are exactly those that start at or before the first byte of the window |
| DailyFiles.TailOfWritten | paymaster_monitor/server/src/stores/NdjsonDailyWriter.ts:86-107 | one written file's tail read returns the last records whose lines start inside the window |
| DamagedFiles.LoadIff | paymaster_monitor/server/src/stores/NdjsonDailyWriter.ts:68-107 | whatever the files hold, the last n of all their visible records come back if in every file asked for k records the last k lines all parse or no line before them does, and, when all records are different, only then |
| DamagedFiles.BadLineHides | paymaster_monitor/server/src/stores/NdjsonDailyWriter.ts:93-107 | asked for one record, a file that ends with a line that does not parse gives none |
| NdjsonDaily.FilesAreSorted | paymaster_monitor/server/src/stores/NdjsonDailyWriter.ts:23-62 | the files one after the other are the appended records stably sorted by day |
| NdjsonDaily.NdjsonDailyWriter.Append | paymaster_monitor/server/src/stores/NdjsonDailyWriter.ts:35-62 | grouping by day and appending text keeps every file equal to that day's records in append order |
| NdjsonDaily.NdjsonDailyWriter.LoadRecent | paymaster_monitor/server/src/stores/NdjsonDailyWriter.ts:68-84 | the backward loop returns the last n visible records, each file giving a suffix of its own; when every file fits the window these are the last n of the day-ordered, per-day append-ordered history |
| LogStore.LogStore.Push | paymaster_monitor/server/src/stores/LogStore.ts:79-83 | pushing and shifting keeps the log equal to the last `max` events ever ingested |
| LogStore.LogStore.Ingest | paymaster_monitor/server/src/stores/LogStore.ts:17-20 | the same for a list of events |
| LogStore.LogStore.Query | paymaster_monitor/server/src/stores/LogStore.ts:22-67 | the backward scan with early exit, reversed, returns the last clamp(limit, 1, 2000) matching events of the last `max` ingested, in ingest order |
| LogStore.LogStore.Count | paymaster_monitor/server/src/stores/LogStore.ts:69-71 | the count is that of the events ever ingested, up to `max` |
| LogStore.Scan | paymaster_monitor/server/src/stores/LogStore.ts:49-66 | the loop over the log returns the last matching events up to the limit |
| Telemetry.TelemetryStore.UpsertSession | paymaster_monitor/server/src/stores/TelemetryStore.ts:23-52 | updating the four maps is exactly one more heartbeat of the replayed history |
| Telemetry.TelemetryStore.ListOwners | paymaster_monitor/server/src/stores/TelemetryStore.ts:90-97 | the listing loop gives every owner with its linked senders as first spelled, latest first |
| Telemetry.TelemetryStore.ListSenders | paymaster_monitor/server/src/stores/TelemetryStore.ts:99-105 | every known sender once with its record, latest first |
| Telemetry.ReplayKeyed | paymaster_monitor/server/src/stores/TelemetryStore.ts:23-52 | after any heartbeats every record sits under its own name in lower case, and links join known owners to known senders without duplicates |
| Telemetry.LinkedByHeartbeat | paymaster_monitor/server/src/stores/TelemetryStore.ts:45-51 | a sender is linked to an owner if and only if some heartbeat named both |
| Telemetry.OwnerTimes | paymaster_monitor/server/src/stores/TelemetryStore.ts:27-32 | an owner's record has the spelling and time of the first heartbeat that named it in any letter case and the time of the last |
| Telemetry.SenderTimes | paymaster_monitor/server/src/stores/TelemetryStore.ts:34-43 | a sender's record has the spelling and time of the first heartbeat that named it, the time of the last, and the owner given by the last of them that gave one |
| UsersJoin.MetricsKept | paymaster_monitor/server/src/server.ts:332-353 | every sender with operations has a row with its metrics and whatever telemetry knows |
| UsersJoin.TelemetryKept | paymaster_monitor/server/src/server.ts:332-353 | every sender telemetry has seen has a row with its telemetry and whatever metrics know |
| UsersJoin.NothingInvented | paymaster_monitor/server/src/server.ts:332-353 | no row is about anyone else and no two rows are about one sender |
| UsersJoin.SenderRowsTotal | paymaster_monitor/server/src/server.ts:328-353 | for every store content and heartbeat history the five columns of the sender rows sum to the store summary |
| UsersJoin.RollUp | paymaster_monitor/server/src/server.ts:356-395 | the loop with running totals computes the owner row |
| UsersJoin.OwnerTotals | paymaster_monitor/server/src/server.ts:355-395 | an owner's totals are those of exactly the operations of the senders some heartbeat linked to it, each counted once |
| UsersReport.AdminUsers | paymaster_monitor/server/src/server.ts:327-398 | from the live stores: exactly one row for each sender that has operations or was seen, with what both sides know; exactly one row for each owner ever named, with its first spelling and times, the senders some heartbeat named with it and the totals of exactly their operations; both parts sorted |
| Checkpoints.Trace.Push | paymaster/lib/openzeppelin-contracts/scripts/generate/templates/Checkpoints.js:147-174 | a push reverts if and only if an earlier attempt had a larger key; otherwise it returns the value it replaces for that key's lookup and the new one |
| Checkpoints.ReplayIncreasing | paymaster/lib/openzeppelin-contracts/scripts/generate/templates/Checkpoints.js:147-174 | after every sequence of pushes keys strictly increase and the last is the largest attempted |
| Checkpoints.PushAccepted | paymaster/lib/openzeppelin-contracts/scripts/generate/templates/Checkpoints.js:158-161 | the pushes that go through are exactly those not below any earlier attempt |
| Checkpoints.UpperBinaryLookup | paymaster/lib/openzeppelin-contracts/scripts/generate/templates/Checkpoints.js:183-198 | the loop splits the section into keys at most and keys above the search key |
| Checkpoints.LowerBinaryLookup | paymaster/lib/openzeppelin-contracts/scripts/generate/templates/Checkpoints.js:207-222 | the loop splits the section into keys below and keys at least the search key |
| Checkpoints.Trace.UpperLookup | paymaster/lib/openzeppelin-contracts/scripts/generate/templates/Checkpoints.js:66-70 | the binary search returns the value of the last checkpoint with key at most k over the whole push history |
| Checkpoints.Trace.UpperLookupRecent | paymaster/lib/openzeppelin-contracts/scripts/generate/templates/Checkpoints.js:79-97 | the square-root split never changes that answer |
| Checkpoints.Trace.LowerLookup | paymaster/lib/openzeppelin-contracts/scripts/generate/templates/Checkpoints.js:56-60 | the binary search returns the value of the first checkpoint with key at least k |
| Checkpoints.Trace.Latest | paymaster/lib/openzeppelin-contracts/scripts/generate/templates/Checkpoints.js:102-105 | the latest value is the upper lookup at every key no attempt exceeded |
| Checkpoints.UpperIsLastAccepted | paymaster/lib/openzeppelin-contracts/scripts/generate/templates/Checkpoints.js:62-70 | an upper lookup at k gives the value of the last accepted push with key at most k |
| Checkpoints.UpperWithoutPush | paymaster/lib/openzeppelin-contracts/scripts/generate/templates/Checkpoints.js:62-70 | and zero when there is no such push |
| Checkpoints.LowerIsLastAccepted | paymaster/lib/openzeppelin-contracts/scripts/generate/templates/Checkpoints.js:52-60 | a lower lookup at k gives the last accepted push of the least accepted key at or above k |
| EnumerableSet.Set.Add | paymaster/lib/openzeppelin-contracts/scripts/generate/templates/EnumerableSet.js:75-85 | adding says whether the value was new, appends it only then, and keeps positions equal to index plus one on members and zero elsewhere |
| EnumerableSet.Set.Remove | paymaster/lib/openzeppelin-contracts/scripts/generate/templates/EnumerableSet.js:93-125 | swap and pop says whether the value was present and keeps array and positions together |
| EnumerableSet.Set.Contains | paymaster/lib/openzeppelin-contracts/scripts/generate/templates/EnumerableSet.js:130-132 | a value is contained if and only if it was added and not removed since |
| EnumerableSet.Set.Length | paymaster/lib/openzeppelin-contracts/scripts/generate/templates/EnumerableSet.js:137-139 | the length is the cardinality of the set of values added and not removed since |
| EnumerableSet.Set.At | paymaster/lib/openzeppelin-contracts/scripts/generate/templates/EnumerableSet.js:151-153 | an index in range yields a member, different ones different members, and any other reverts |
| EnumerableSet.ReplayMembers | paymaster/lib/openzeppelin-contracts/scripts/generate/templates/EnumerableSet.js:75-132 | after any adds and removes the array is duplicate-free and holds exactly the values added and not removed since |
| EnumerableSet.SwapCoherent | paymaster/lib/openzeppelin-contracts/scripts/generate/templates/EnumerableSet.js:103-119 | moving the last value, updating its position and clearing the removed one keeps positions and array coherent, also when the removed value is the last |
| EnumerableSet.RemoveKeepsOthers | paymaster/lib/openzeppelin-contracts/scripts/generate/templates/EnumerableSet.js:97-113 | a removal moves no value but the last |
| EnumerableMap.Map.Set | paymaster/lib/openzeppelin-contracts/scripts/generate/templates/EnumerableMap.js:83-90 | setting updates the plain map, says whether the key was new, and keeps the mapping zero outside the key set |
| EnumerableMap.Map.Remove | paymaster/lib/openzeppelin-contracts/scripts/generate/templates/EnumerableMap.js:97-100 | removing takes the key out of the plain map and says whether it was there |
| EnumerableMap.Map.TryGet | paymaster/lib/openzeppelin-contracts/scripts/generate/templates/EnumerableMap.js:135-142 | agrees with the plain map for every key, stored zeros included |
| EnumerableMap.Map.Get | paymaster/lib/openzeppelin-contracts/scripts/generate/templates/EnumerableMap.js:151-157 | returns the plain map's value and reverts exactly on absent keys |
| EnumerableMap.Map.At | paymaster/lib/openzeppelin-contracts/scripts/generate/templates/EnumerableMap.js:126-129 | an index in range yields a key of the plain map with its value |
| EnumerableMap.Map.Length | paymaster/lib/openzeppelin-contracts/scripts/generate/templates/EnumerableMap.js:112-114 | the length is the plain map's size |
| EnumerableMap.Map.KeyList | paymaster/lib/openzeppelin-contracts/scripts/generate/templates/EnumerableMap.js:167-169 | the keys are the plain map's keys, each once |
| EnumerableMap.ReplayLast | paymaster/lib/openzeppelin-contracts/scripts/generate/templates/EnumerableMap.js:83-100 | a key's entry is what the last operation on it left |
| EnumerableMap.KeysStep | paymaster/lib/openzeppelin-contracts/scripts/generate/templates/EnumerableMap.js:83-100 | every operation changes the plain map's domain and the key set alike |
| SwapFees.CandidatesComplete | web/src/ui/App.tsx:694-700 | with distinct non-empty ids the candidates are exactly the bundlers with an address |
| SwapFees.UpTriedFirst | web/src/ui/App.tsx:697-699 | after the first place no bundler that is not UP is tried before one that is |
| SwapFees.CapsPass | web/src/ui/App.tsx:783-797 | the chosen caps pass the bundler's floor checks at every UP candidate, and at every candidate when none is UP |
| SwapFees.FeeMeetsPrice | web/src/ui/App.tsx:876-885 | a fee computed for an operation's own gas limits is at least the paymaster's price for the EntryPoint's maximum cost, at most 1% above it, and covers the cost plus markup |
| SwapFees.EstimateWithFailover | web/src/ui/App.tsx:853-874 | the loop returns the first candidate's answer that is not an error and asks nobody after it |
| SwapFees.PrepareSwap | web/src/ui/App.tsx:694-931 | whichever estimation passes answer, the operation carries the final gas limits and the fee computed for exactly those, passes the paymaster's two fee checks with at most 1% margin and the floor checks; each refusal happens exactly under its condition |
| SwapFees.Submit | web/src/ui/App.tsx:960-983 | the loop reports the first candidate that accepts, or none |

## Left out

- JSON-RPC, HTTP routes, server-sent events, process handling, React rendering, the oracle and quote services, wallet traffic and bots: I/O or no hard property.
- Hashing, signing and ABI coding are given functions; address checksums and letter case of addresses, and ICAP addresses, are not modelled.
- Injected failures, artificial delays and error texts of the bundler; its loggers never fail in the model, so an entry is not failed by a log write between two settlements.
- Strict admission (simulation and validity window) of the bundler: an outcome of the environment before the accept step.
- Bundle settings that are not integers, and log limits that are negative (the shift loop would not end) or not numbers.
- Authorization numbers posted as decimal or negative text: the client posts hex. Its own signing of an authorization is given.
- RLP lengths of 2^64 bytes or more: `Rlp` and `SetCodeTx` ask that the item fits.
- Chain reorganisations, and sync calls that overlap: `OpJoin.ReplayIndependent` is the statement that does not depend on either's order.
- Nodes that answer a block or transaction lookup with nothing instead of an error: the code then stores the reading time or no bundler, and a later read of the same log does not correct it. The model's lookups succeed or throw.
- RetainedRestart.RestartRetains: asks for logs in chain order without repeats; for other logs beyond the bound, `Restart.RestartIff` is about the store without retention.
- The spelling of a day in a file name: days are numbers, which sort like their four-digit-year names. Other files of the directory are not listed.
- Failed appends: the writer swallows them, so the files of the model hold every appended record. UTF-8 is not decoded; characters are bytes, and only ASCII white space is trimmed.
- Checkpoints.FloorSqrt: is the integer square root by its definition; the Newton iteration of Math.sol and its shift-based average are not modelled, nor is unchecked array access.
- Typed wrappers around the generic set and map, and the sizes of checkpoint keys and values, which no operation computes with.
- Listing operations, and subscriptions of the log.
- SwapFees.PrepareSwap: fee floors are wei amounts, without the parsing of decimal gwei; token allowances, quotes, signing, confirmation and resending are left out, and amounts are unbounded, so an overflow revert of the contracts is not modelled.
