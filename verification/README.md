# Morpheus stats backend: a verified model of the ingestion and metrics layer

This project models, in Dafny, the core of the Morpheus (MOR) statistics backend. That core
has four parts:

- The cron jobs that copy contract events from the Ethereum node into PostgreSQL tables:
  claim locks, multipliers, daily rewards, circulating supply, staked events and emissions.
- The repositories those jobs write through.
- The database wrapper underneath them, with its retry decorator and transactions.
- The read-side metrics computed from the stored rows: staking analytics, the emission
  schedule, code-contributor counts and the response cache.

The model follows the program's structure. There is one module per source file, plus a few
shared modules:

- `Wrappers` holds `Option` and `Result`.
- `Sequences`, `Batching` and `Sorting` hold list helpers, fixed-size chunks and `ORDER BY`.
- `Calendar` and `Text` hold dates, `strptime`/`strftime`, `int()`, `Decimal()`, `split` and
  `strip`.
- `Errors` holds the exceptions that the source raises and catches.
- `Records` holds the table rows.
- `RowStore` holds the conflict policies of `INSERT`.
- `EventSource` holds the block-range batching of `get_events_in_batches`.
- `Watermark` holds the "last stored block" rule.

Objects whose fields the source updates in place are classes. These are the connection
pool's `Database` and the `init_db` registry, one `Table`/`Repository` class per repository,
and the cache. Each repository class holds its table as a `seq` of rows. Each job that loops
is a method with a `while`/`for` loop. Its postcondition ties the result or the new table to
a specification function, and lemmas then prove about that function what the source promises.

Some things the code cannot see become parameters:

- The node and its logs, block timestamps and contract calls.
- The PostgreSQL server: the pool's behaviour, the commit outcome and whether the staked
  events table has its unique index.
- Files and CSV text.
- The clock and the random jitter.

Python `Decimal` and `float` values are `real`; wei amounts and block numbers are `int`.

## Model

| member | source | states |
|---|---|---|
| Database.RetryCalls | app/db/database.py:56-89 | the wrapped function is called 1 to max_retries+1 times; every call but the last raised a retryable error; the last call decides the outcome; a retryable error after max_retries retries becomes DatabaseError("Database operation failed after {max_retries} retries") |
| Database.NonRetryablePropagates | app/db/database.py:63-65 | a non-retryable exception from the first call propagates at once, after one call |
| Database.BackoffNondecreasing | app/db/database.py:77-87 | with factor >= 1 and initial <= max, the backoff never shrinks and never passes max_backoff |
| Database.WithRetry | app/db/database.py:58-87 | the retry loop returns the outcome and call count of the reference `Retried`; every recorded sleep is min(backoff*jitter, max_backoff) and at most the cap |
| Database.AcquireNeverRetried | app/db/database.py:106-162 | as written, every pool error leaves `_acquire` as a DatabaseError, from `_create_pool` or from its own handler, so the decorator makes exactly one call (Findings) |
| Database.AcquireRetriedFourTimes | app/db/database.py:56-74 | with the pool recreated and its second `getconn` raising OperationalError that now propagates, `_acquire` is tried 4 times, then DatabaseError("... after 3 retries") (Findings) |
| Database.AllOrNothing | app/db/database.py:250-266 | without autocommit, a transaction commits exactly when a connection was had, every statement ran and the commit succeeded; otherwise the state is unchanged |
| Database.AutocommitKeepsExecuted | app/db/database.py:177-199 | with autocommit, the statements before a failing one stay applied |
| Database.Database.Acquire | app/db/database.py:106-162 | as written, one attempt: a connection exactly when the first `getconn` succeeds, or the pool is recreated and the `getconn` after it succeeds; a failed recreation raises DatabaseError("Failed to create database connection pool"), a failed second `getconn` DatabaseError("Failed to acquire database connection"); a connection is counted in use exactly when one was had |
| Database.AcquiredOnFirstAttempt | app/db/database.py:106-162 | the decorated `_acquire` succeeds exactly when the first `getconn`, or the pool recreation and the `getconn` after it, succeed; otherwise it raises without a retry the "create pool" DatabaseError when `_create_pool` failed and the "acquire" one when only the second `getconn` did |
| Database.Database.Release | app/db/database.py:164-175 | one connection fewer in use |
| Database.Database.Transaction | app/db/database.py:250-266 | state and result equal `TransactionOutcome`, over the single acquisition attempt the code makes; the connection count is unchanged afterwards (always released) |
| Database.HealthCheck | app/db/database.py:273-291 | true exactly when the fetched row's first column is 1; an exception gives false |
| Database.NamedAccessOnTupleRow | app/db/database.py:177-199 | the plain cursor yields tuple rows, and reading any column by name raises TypeError (Findings) |
| Database.NamedAccessOnDictRow | app/db/database.py:177-199 | with dict rows, reading a column by name gives that column's value |
| Database.Registry.InitDb | app/db/database.py:296-312 | a second call raises RuntimeError and changes nothing; a pool error leaves `_db` unset; otherwise `_db` is set |
| Database.Registry.GetDb | app/db/database.py:315-327 | RuntimeError("Database not initialized – call init_db() first") before `init_db`, otherwise the instance |
| Watermark.LastBlockFromDb | helpers/database_helpers/db_helper.py:7-17 | MAX(block_number) when the table is non-empty and the maximum is non-zero; None for an empty table, any error, or a maximum of 0 |
| Watermark.ZeroMaximumReadsAsEmpty | helpers/database_helpers/db_helper.py:14 | a table whose only block is 0 reads as no watermark |
| Watermark.WatermarkMonotone | helpers/database_helpers/db_helper.py:12-14 | adding rows never moves a positive watermark back |
| Watermark.StoredWatermarkMonotone | helpers/database_helpers/db_helper.py:12-14 | appending rows to a table never moves its positive watermark back |
| EventSource.GetEvents | helpers/web3_helper.py:18-25 | the logs of one range, and no logs when the query fails |
| EventSource.GetEventsInBatches | helpers/web3_helper.py:7-16 | the logs are those of every sub-range in sub-range order, and the queried ranges are exactly the sub-ranges |
| EventSource.SubRangesPartition | helpers/web3_helper.py:9-16 | sub-ranges are non-empty, each is [s, min(s+size, end)], consecutive, and they run from start to end |
| EventSource.SubRangesCover | helpers/web3_helper.py:9-16 | a block is in [start, end] if and only if it is in some sub-range |
| EventSource.SubRangesDisjoint | helpers/web3_helper.py:9-16 | no two sub-ranges share a block |
| EventSource.EmptyInterval | helpers/web3_helper.py:10 | start > end: nothing queried, nothing returned |
| EventSource.FailedRangeSkipped | helpers/web3_helper.py:12-16 | a failing sub-range adds no logs and the later ranges are still fetched |
| EventSource.ExampleBatches | helpers/web3_helper.py:11-16 | 1000..1500 in batches of 200 gives [1000,1200], [1201,1401], [1402,1500] |
| RowStore.InsertIfAbsent | app/repository/user_staked_events_repository.py:252-257 | DO NOTHING: a stored key leaves the table unchanged, otherwise the row is appended |
| RowStore.Upsert | app/repository/circulating_supply_repository.py:196-204 | DO UPDATE: the row with the key is replaced in place, otherwise appended; length grows only for a new key |
| RowStore.InsertAllIfAbsentSpec | app/repository/user_staked_events_repository.py:252-261 | a DO NOTHING batch keeps every stored row as a prefix, adds no duplicate key, stores a row for every batch key, and adds only batch rows |
| RowStore.UpsertAllSpec | app/repository/circulating_supply_repository.py:196-207 | after an upsert batch: keys stay unique, each batch key holds the batch's last row for it, other rows are unchanged |
| RowStore.UpsertAllStoresEveryKey | app/repository/emission_repository.py:131-149 | every key of an upsert batch has a row afterwards |
| RowStore.LastWithKeyOfUnique | app/repository/emission_repository.py:131-149 | in a batch with distinct keys, a key's last row is that row |
| BulkWrite.ExecutePlainInsert | app/repository/user_withdrawn_events_repository.py:284-297 | plain inserts never fail and append the batch in order |
| BulkWrite.ExecuteInsertOrSkip | app/repository/user_staked_events_repository.py:252-261 | DO NOTHING inserts never fail and store `InsertAllIfAbsent` |
| BulkWrite.ExecuteInsertOrUpdate | app/repository/emission_repository.py:131-149 | upserts never fail and store `UpsertAll` |
| BulkWrite.BulkOutcome | app/repository/user_staked_events_repository.py:222-261 | an empty batch stores nothing and returns 0; a committed batch returns its length; a failure raises and, without autocommit, stores nothing |
| BulkWrite.AppendOnlyTable.BulkInsert | app/repository/user_withdrawn_events_repository.py:259-297 | rows and result equal `BulkOutcome` with plain inserts; connection count unchanged |
| BaseRepository.WithoutNone | app/repository/base_repository.py:40-42 | exactly the fields whose value is not None |
| BaseRepository.UpdateData | app/repository/base_repository.py:100 | exactly the non-None entries of `data` other than `id` |
| BaseRepository.ById | app/repository/base_repository.py:59-71 | the row with that id, or None when there is none (dict rows, corrected) |
| BaseRepository.Page | app/repository/base_repository.py:73-86 | at most `limit` rows, in id order, starting after the first `offset`; a first page as long as the table holds every row as often as stored (dict rows, corrected) |
| BaseRepository.PageByRank | app/repository/base_repository.py:73-86 | with unique ids, a row is on the page exactly when at least `offset` and fewer than `offset + limit` rows have a smaller id (dict rows, corrected) |
| BaseRepository.WithoutIdKeepsUniqueIds | app/repository/base_repository.py:119-131 | removing rows keeps ids unique |
| BaseRepository.Table.Create | app/repository/base_repository.py:29-57 | inserts the non-None fields under the given or next sequence id and returns the stored row; a taken id raises and leaves the rows unchanged; ids stay unique (`Valid`) (dict rows, corrected) |
| BaseRepository.Table.Update | app/repository/base_repository.py:88-117 | overwrites the named non-None columns except id; an empty update only reads back; None for a missing id; ids stay unique (`Valid`) (dict rows, corrected) |
| BaseRepository.Table.Delete | app/repository/base_repository.py:119-131 | true exactly when a row with that id existed; that row is removed and ids stay unique (`Valid`) |
| BaseRepository.Table.Count | app/repository/base_repository.py:133-141 | the number of rows (dict rows, corrected) |
| BaseRepository.DeleteRemovesOnlyThatId | app/repository/base_repository.py:119-131 | after a delete the id is gone and every other row is still there |
| BaseRepository.UpdateRowSpec | app/repository/base_repository.py:88-117 | an update keeps the id and every unnamed column, and writes every named one |
| StakedEventsRepository.Repository.BulkInsert | app/repository/user_staked_events_repository.py:222-261 | rows and result equal the DO NOTHING `BulkOutcome` |
| StakedEventsRepository.InsertSkipsExisting | app/repository/user_staked_events_repository.py:252-261 | with the unique index, a committed batch keeps stored rows, skips known keys, stores every key, and returns the batch length rather than the rows added |
| StakedEventsRepository.ReinsertIsCountedNotStored | app/repository/user_staked_events_repository.py:256-261 | re-inserting a stored event changes nothing, does not raise, and returns 1 |
| StakedEventsRepository.SeededSchemaRejectsBatch | seed_database.py:131-144 | without the unique index that ON CONFLICT names, a non-empty batch always fails and stores nothing (Findings) |
| StakedEventsRepository.LastProcessedBlock | app/repository/user_staked_events_repository.py:134-143 | MAX(block_number), None exactly for an empty table; a block 0 is kept (dict rows, corrected) |
| StakedEventsRepository.ByBlockRange | app/repository/user_staked_events_repository.py:96-113 | the rows with start <= block <= end, each as many times as it is stored and no other, ordered by block (dict rows, corrected) |
| CirculatingSupplyRepository.SupplyRecordsSpec | app/repository/circulating_supply_repository.py:148-160 | one record per input with the fields copied and text dates read as %d/%m/%Y; an unreadable date fails the call |
| CirculatingSupplyRepository.TextDateRoundTrip | app/repository/circulating_supply_repository.py:151-153 | a date written as %d/%m/%Y text is stored under the same date |
| CirculatingSupplyRepository.BuildRecords | app/repository/circulating_supply_repository.py:148-160 | the loop returns the reference `SupplyRecords` |
| CirculatingSupplyRepository.FailurePersists | app/repository/circulating_supply_repository.py:148-160 | once a prefix fails, every longer prefix fails with the same error |
| CirculatingSupplyRepository.Repository.BulkInsert | app/repository/circulating_supply_repository.py:165-207 | rows and result equal the upsert-on-date `BulkOutcome` |
| CirculatingSupplyRepository.Repository.SaveNewSupplyData | app/repository/circulating_supply_repository.py:135-163 | empty input returns 0; a bad date raises before writing; otherwise the bulk insert of the built records |
| CirculatingSupplyRepository.UpsertLatestWins | app/repository/circulating_supply_repository.py:196-207 | a committed batch leaves one row per date, the batch's last record per batch date, other rows unchanged, and returns the batch length |
| CirculatingSupplyRepository.Latest | app/repository/circulating_supply_repository.py:33-42 | a stored row no row's date exceeds; None only for an empty table (dict rows, corrected) |
| CirculatingSupplyRepository.LatestAsWritten | app/repository/circulating_supply_repository.py:33-42 | as written, None for an empty table and a TypeError for any stored row, since `CirculatingSupply(**result)` refuses the tuple row (Findings) |
| CirculatingSupplyRepository.SupplyAsOf | app/repository/circulating_supply_repository.py:115-122 | the supply of a latest row dated on or before d, None when there is none (dict rows, corrected) |
| CirculatingSupplyRepository.GrowthSpec | app/repository/circulating_supply_repository.py:102-133 | (0, 0) when an endpoint is missing; otherwise start + absolute == end, and percentage*start == 100*absolute for a non-zero start (0 for a zero start) |
| EmissionRepository.Repository.BulkInsert | app/repository/emission_repository.py:101-149 | rows and result equal the upsert-on-date `BulkOutcome` |
| EmissionRepository.UpsertReplacesRow | app/repository/emission_repository.py:131-149 | one row per date, and a batch date's row carries all eight columns of the batch's last record for it |
| EmissionRepository.SameDateTwiceKeepsLater | app/repository/emission_repository.py:135-144 | two records for one new date leave a single row, the later one |
| EmissionRepository.Latest | app/repository/emission_repository.py:47-70 | a maximum-date row, None only for an empty table |
| EmissionRepository.ByDateRange | app/repository/emission_repository.py:72-99 | the rows dated in [start, end], each as many times as it is stored and no other, in date order |
| MultiplierRepository.IntendedValues | app/repository/user_multiplier_repository.py:272-282 | with each row built from its own record's non-None fields, building never fails and every record's multiplier is stored, NULL only where it has none (Findings, corrected) |
| MultiplierRepository.ValuesListWithMultiplier | app/repository/user_multiplier_repository.py:272-282 | first record with a multiplier: the batch is written as given exactly when every record has one; otherwise it fails |
| MultiplierRepository.ValuesListWithoutMultiplier | app/repository/user_multiplier_repository.py:272-282 | first record without a multiplier: every row gets a NULL multiplier |
| MultiplierRepository.ValuesListLength | app/repository/user_multiplier_repository.py:278-282 | a built values list has one row per record |
| MultiplierRepository.FirstWithoutMultiplierDropsTheRest | app/repository/user_multiplier_repository.py:272-282 | a later record's multiplier is stored as NULL when the first record had none (Findings) |
| MultiplierRepository.BuildValues | app/repository/user_multiplier_repository.py:278-282 | the loop returns the reference `ValuesList` |
| MultiplierRepository.FailurePersists | app/repository/user_multiplier_repository.py:278-282 | once a prefix fails, every longer prefix fails with the same error |
| MultiplierRepository.Repository.BulkInsert | app/repository/user_multiplier_repository.py:258-292 | rows and result equal the plain-insert `BulkOutcome` of the values list; empty input returns 0 |
| MultiplierRepository.Repository.CleanTable | app/repository/user_multiplier_repository.py:294-302 | true and an empty table when the delete committed; otherwise the error and the rows unchanged |
| MultiplierRepository.CleanTableEmpties | app/repository/user_multiplier_repository.py:294-302 | true exactly when it committed, and then the table is empty |
| MultiplierRepository.BulkInsertAppends | app/repository/user_multiplier_repository.py:284-292 | a committed batch is appended in order with no duplicate check, and its length is returned |
| MultiplierRepository.DuplicatesAccumulate | app/repository/user_multiplier_repository.py:284-292 | inserting the same batch twice stores every record twice |
| MultiplierRepository.LatestByUserAndPool | app/repository/user_multiplier_repository.py:156-188 | a row of that user and pool with no higher block among them; None exactly when there is none |
| WithdrawnEventsRepository.BulkInsertAppends | app/repository/user_withdrawn_events_repository.py:259-297 | a committed batch is appended as is, duplicates included, and its length is returned; empty returns 0 |
| WithdrawnEventsRepository.ReinsertDuplicates | app/repository/user_withdrawn_events_repository.py:284-297 | re-inserting a stored event creates a second identical row |
| WithdrawnEventsRepository.LastProcessedBlock | app/repository/user_withdrawn_events_repository.py:134-143 | MAX(block_number), None exactly for an empty table |
| WithdrawnEventsRepository.WithdrawnInPoolSnoc | app/repository/user_withdrawn_events_repository.py:173-181 | one more withdrawal adds its amount to its own pool's sum only |
| WithdrawnEventsRepository.WithdrawnInAbsentPool | app/repository/user_withdrawn_events_repository.py:250-255 | a pool without withdrawals sums to 0 (COALESCE) |
| WithdrawnEventsRepository.StakedInAbsentPool | app/repository/user_withdrawn_events_repository.py:250-255 | a pool without stakes sums to 0 (COALESCE) |
| WithdrawnEventsRepository.StakedInPoolSnoc | app/repository/user_withdrawn_events_repository.py:222-257 | one more stake adds its amount to its own pool's sum only |
| WithdrawnEventsRepository.StakedByUserInPool | app/repository/user_withdrawn_events_repository.py:222-257 | summing a pool over the user's stakes equals summing that user's stakes in that pool over all stakes |
| WithdrawnEventsRepository.WithdrawnByUserInPool | app/repository/user_withdrawn_events_repository.py:222-257 | summing a pool over the user's withdrawals equals summing that user's withdrawals in that pool over all withdrawals |
| WithdrawnEventsRepository.TotalWithdrawnByPool | app/repository/user_withdrawn_events_repository.py:166-181 | keys are exactly the pools with withdrawals, each holding their amount sum (dict rows, corrected) |
| WithdrawnEventsRepository.NetPosition | app/repository/user_withdrawn_events_repository.py:222-257 | keys are exactly the pools the user staked or withdrew in; each holds the user's staked sum in that pool minus their withdrawn sum, each summed over all rows (dict rows, corrected) |
| WithdrawnEventsRepository.NetPositionOneSided | app/repository/user_withdrawn_events_repository.py:250-255 | COALESCE: a pool the user only staked in nets the staked sum, one they only withdrew from nets minus the withdrawn sum |
| StakedStage.StakedRecord | scripts/iv_update_user_staked_events.py:89-103 | block and hash from the log, the block's UTC time, and pool 0, user '' and amount 0 for missing arguments |
| StakedStage.StakedRecords | scripts/iv_update_user_staked_events.py:89-103 | succeeds exactly when every event's `get_block` does, then one record per event in fetch order with its block's time; otherwise the error of a failing block read |
| StakedStage.BuildRecords | scripts/iv_update_user_staked_events.py:89-103 | the loop returns `StakedRecords`, stopping at the first failing block read |
| StakedStage.ProcessStakedEvents | scripts/iv_update_user_staked_events.py:61-117 | table and result equal `StageOutcome`; connections all released |
| StakedStage.QueriesResumeAfterWatermark | scripts/iv_update_user_staked_events.py:73-87 | start is watermark+1, or START_BLOCK 20180927 without one; a block is queried if and only if start <= b <= latest |
| StakedStage.NothingNewReturnsZero | scripts/iv_update_user_staked_events.py:79-81 | start > latest: returns 0, stores nothing |
| StakedStage.RunStoresFetchedEvents | scripts/iv_update_user_staked_events.py:83-112 | a committed run returns the number of events fetched, stores their DO NOTHING inserts after the old rows, and never moves a positive watermark back |
| StakedStage.BlockReadFailureRaises | scripts/iv_update_user_staked_events.py:89-117 | a failing `get_block` for any fetched event makes the run raise and store nothing |
| StakedStage.RunAsWrittenAlwaysRaises | scripts/iv_update_user_staked_events.py:24-48 | with tuple rows, `fetchone()['exists']` raises TypeError and the run stores nothing (Findings) |
| StakedStage.RunAsDocumentedChecksTable | scripts/iv_update_user_staked_events.py:24-48 | with dict rows, the check passes exactly when the table exists |
| ClaimLockedStage.LookUpAll | scripts/i_update_user_claim_locked_events.py:49-58 | succeeds exactly when the entry carries every key; otherwise the KeyError of the first missing key |
| ClaimLockedStage.AsWrittenRecordFails | scripts/i_update_user_claim_locked_events.py:54-57 | reading `event['user']` at the top level always raises KeyError('user') (Findings) |
| ClaimLockedStage.ClaimLockedRecord | scripts/i_update_user_claim_locked_events.py:49-58 | with arguments read from `args`, the record carries the event's block, hash, user, pool and lock bounds |
| ClaimLockedStage.ClaimLockedRecords | scripts/i_update_user_claim_locked_events.py:47-60 | one record per event in order, each from its block's `get_block` time, or the first error, a failing block read included |
| ClaimLockedStage.BuildRecords | scripts/i_update_user_claim_locked_events.py:47-60 | the loop returns `ClaimLockedRecords` |
| ClaimLockedStage.FailurePersists | scripts/i_update_user_claim_locked_events.py:47-60 | once a prefix fails, so does the whole list |
| ClaimLockedStage.ProcessClaimLockedEvents | scripts/i_update_user_claim_locked_events.py:33-70 | START_BLOCK or watermark+1; inserts only when there are events; every exception is swallowed (rows built by the corrected `ClaimLockedRecord`) |
| ClaimLockedStage.AsWrittenStoresNothing | scripts/i_update_user_claim_locked_events.py:46-70 | as written, a run never adds a row, whatever the chain holds (Findings) |
| ClaimLockedStage.BlockReadFailureStoresNothing | scripts/i_update_user_claim_locked_events.py:46-70 | a failing `get_block` for any fetched event leaves the table as it was |
| ClaimLockedStage.RunAppendsFetchedEvents | scripts/i_update_user_claim_locked_events.py:33-62 | a committed run appends one row per fetched event, in order, and the watermark does not move back |
| CirculatingSupplyStage.Search | scripts/iiii_update_circulating_supply.py:57-73 | the result lies in [left, right+1] or is a non-BlockNotFound error |
| CirculatingSupplyStage.BlockByTimestamp | scripts/iiii_update_circulating_supply.py:54-73 | the loop returns `Search(1, latest)` |
| CirculatingSupplyStage.SearchStep | scripts/iiii_update_circulating_supply.py:60-69 | one probe keeps the search invariant or hits the target |
| CirculatingSupplyStage.SearchFinds | scripts/iiii_update_circulating_supply.py:57-73 | with ordered timestamps, the search cannot fail: it returns a block with the exact timestamp, or the first block newer than the target |
| CirculatingSupplyStage.SearchHit | scripts/iiii_update_circulating_supply.py:64-65 | an exact timestamp match ends the search at that block |
| CirculatingSupplyStage.BlockByTimestampFinds | scripts/iiii_update_circulating_supply.py:54-73 | on an ordered chain the result is in [1, latest+1] and is the closest block |
| CirculatingSupplyStage.ClaimStep | scripts/iiii_update_circulating_supply.py:106-129 | BlockNotFound skips an event; any other error, an out-of-range year or a missing amount stops the loop; otherwise amount/10^18 is claimed |
| CirculatingSupplyStage.ClaimRows | scripts/iiii_update_circulating_supply.py:105-129 | one entry per claimed event before the first stopping event, each with its block time and the running supply |
| CirculatingSupplyStage.CollectClaims | scripts/iiii_update_circulating_supply.py:105-129 | the loop returns `ClaimRows` from the baseline |
| CirculatingSupplyStage.RunningSupply | scripts/iiii_update_circulating_supply.py:114-115 | the first entry adds its claim to the baseline and each later entry adds its claim to the previous supply |
| CirculatingSupplyStage.SupplyIsBaselinePlusClaims | scripts/iiii_update_circulating_supply.py:114-119 | each entry's supply is the baseline plus all claims up to it, so it never decreases for non-negative claims |
| CirculatingSupplyStage.NothingOnDay | scripts/iiii_update_circulating_supply.py:133-147 | a day without entries has no claim, no last entry and no block time |
| CirculatingSupplyStage.MergeDays | scripts/iiii_update_circulating_supply.py:134-144 | merging keeps days distinct, gives the entry's day an entry, and keeps other days |
| CirculatingSupplyStage.AggregateDays | scripts/iiii_update_circulating_supply.py:133-147 | one entry per claimed day, only claimed days, no more entries than claims |
| CirculatingSupplyStage.AggregateSummarises | scripts/iiii_update_circulating_supply.py:136-142 | each day's entry holds the day's claim total, the supply after its last claim and its latest block time |
| CirculatingSupplyStage.MergeKnownDay | scripts/iiii_update_circulating_supply.py:136-142 | folding into a day already held is `Merge` |
| CirculatingSupplyStage.MergeNewDay | scripts/iiii_update_circulating_supply.py:143-144 | adding a new day is `Merge` |
| CirculatingSupplyStage.AggregateByDay | scripts/iiii_update_circulating_supply.py:133-147 | the dict loop returns `Aggregate` in insertion order |
| CirculatingSupplyStage.AggregateWritable | scripts/iiii_update_circulating_supply.py:111 | each aggregated day is a claimed day, so it can be written as text |
| CirculatingSupplyStage.InputsRead | app/repository/circulating_supply_repository.py:151-160 | the day text the job writes always reads back, so building the records never fails |
| CirculatingSupplyStage.DailyRecordsFacts | scripts/iiii_update_circulating_supply.py:131-150 | one row per claimed day and no other, each summing up its day |
| CirculatingSupplyStage.DailyRecordsCover | scripts/iiii_update_circulating_supply.py:131-150 | a day has a daily row if and only if it was claimed on |
| CirculatingSupplyStage.DailyRecordsSum | scripts/iiii_update_circulating_supply.py:131-150 | each daily row holds its day's claim total, last supply and latest time |
| CirculatingSupplyStage.ProcessCirculatingSupply | scripts/iiii_update_circulating_supply.py:76-159 | table and result equal `StageOutcome`: None without a baseline or claims, otherwise the saved daily totals (dict rows, corrected) |
| CirculatingSupplyStage.FetchClaims | scripts/iiii_update_circulating_supply.py:79-129 | returns `RunClaims`: None without a baseline, otherwise the claims after the baseline's block (dict rows, corrected) |
| CirculatingSupplyStage.SaveDailyTotals | scripts/iiii_update_circulating_supply.py:131-152 | the table and result of saving the day totals |
| CirculatingSupplyStage.NoBaselineNoRun | scripts/iiii_update_circulating_supply.py:79-82 | no stored row: nothing changes and None is returned |
| CirculatingSupplyStage.RunSavesDailyRecords | scripts/iiii_update_circulating_supply.py:131-152 | a run with claims saves exactly the daily rows (dict rows, corrected) |
| CirculatingSupplyStage.CommittedRunStoresDailyTotals | scripts/iiii_update_circulating_supply.py:131-152 | a committed run returns the number of claimed days; each such day's row holds its total, last supply and latest time; other days keep their rows (dict rows, corrected) |
| CirculatingSupplyStage.AsWrittenRunNeverSaves | scripts/iiii_update_circulating_supply.py:18-37 | as written every run leaves the table unchanged and returns None: no baseline, or a baseline read that raises (Findings) |
| MultiplierStage.FormatMultiplier | scripts/ii_update_user_multipliers.py:77-83 | None stays None; an integer becomes the exact decimal of its digits |
| MultiplierStage.AsWrittenNeverYields | scripts/ii_update_user_multipliers.py:52-68 | as written, `get_multiplier` is None whatever the node answers (Findings) |
| MultiplierStage.MultiplierFrom | scripts/ii_update_user_multipliers.py:42-69 | intended loop: a rate limit before the last attempt is retried; other failures give None; an answer gives its row |
| MultiplierStage.RowOf | scripts/ii_update_user_multipliers.py:52-60 | the record's columns with the transaction hash, and the answer's block and multiplier |
| MultiplierStage.MultiplierSpec | scripts/ii_update_user_multipliers.py:42-69 | a row exactly when some attempt answers after only rate limits; the row carries that answer |
| MultiplierStage.RateLimitRetried | scripts/ii_update_user_multipliers.py:61-65 | a first-attempt rate limit is retried by the intended code and not as written (Findings) |
| MultiplierStage.Fetch | scripts/ii_update_user_multipliers.py:72-74 | one answer per record, in batch order |
| MultiplierStage.Present | scripts/ii_update_user_multipliers.py:111-114 | the answers that are rows, in order |
| MultiplierStage.PresentKeeps | scripts/ii_update_user_multipliers.py:111-114 | every kept row is an answer, and every answer that is a row is kept |
| MultiplierStage.ProcessMultipliers | scripts/ii_update_user_multipliers.py:97-127 | cleans the table first, then the batch loop's table and result (inserting only the answers that are rows, corrected) |
| MultiplierStage.InsertBatches | scripts/ii_update_user_multipliers.py:105-122 | the loop returns the reference outcome: `total_processed` or the first insert error (inserting only the answers that are rows, corrected) |
| MultiplierStage.InsertAnswersCommits | scripts/ii_update_user_multipliers.py:113-116 | with the database up, one batch appends its answers and counts the batch |
| MultiplierStage.BatchesCommit | scripts/ii_update_user_multipliers.py:105-122 | with the database up, the loop appends every batch's answers in order and counts every record |
| MultiplierStage.CommittedRunReplacesTable | scripts/ii_update_user_multipliers.py:97-122 | the table ends with one row per answered record, in order, whatever it held, and every record is counted |
| MultiplierStage.FetchAsWritten | scripts/ii_update_user_multipliers.py:42-74 | the answers of the code as written, or its first exception |
| MultiplierStage.InsertAsWrittenFails | app/repository/user_multiplier_repository.py:272 | as written, a batch of valid-address records raises before writing (Findings) |
| MultiplierStage.AsWrittenRunEmptiesTable | scripts/ii_update_user_multipliers.py:102-114 | as written, a run over at least one valid record empties the table and then raises (Findings) |
| RewardsStage.GetUserRewardAtBlock | scripts/iii_update_total_daily_rewards.py:47-58 | the loop returns `Reward`: the first answer after rate limits within MAX_RETRIES, else 0 |
| RewardsStage.RewardSpec | scripts/iii_update_total_daily_rewards.py:47-58 | a read is an attempt's answer preceded only by rate limits, within MAX_RETRIES; 0 when there is none |
| RewardsStage.OtherFailureGivesZero | scripts/iii_update_total_daily_rewards.py:56-58 | a first non-rate-limit failure gives 0 at once |
| RewardsStage.Results | scripts/iii_update_total_daily_rewards.py:63-69 | for each row, its reward now, then its reward 24 hours ago |
| RewardsStage.ProcessRewardsBatch | scripts/iii_update_total_daily_rewards.py:61-74 | row k's daily reward is now minus 24h ago and its total is now; the first rejected address raises |
| RewardsStage.ResultsPaired | scripts/iii_update_total_daily_rewards.py:71-72 | the differences and `results[::2]` have one entry per row, paired as above |
| RewardsStage.DropDuplicates | scripts/iii_update_total_daily_rewards.py:81 | keeps the first row of each (user, poolId), in order |
| RewardsStage.DropDuplicatesSpec | scripts/iii_update_total_daily_rewards.py:81 | every input row's key appears once, and nothing else |
| RewardsStage.DropDuplicatesKeepsFirst | scripts/iii_update_total_daily_rewards.py:81 | rows keep their first-occurrence order |
| RewardsStage.OtherPoolsIgnored | scripts/iii_update_total_daily_rewards.py:94-100 | rows of pools other than 0 and 1 change no sum |
| RewardsStage.PoolSums | scripts/iii_update_total_daily_rewards.py:91-100 | the pool-0 and pool-1 sums are those of the pool's rows alone |
| RewardsStage.Summary | scripts/iii_update_total_daily_rewards.py:105-113 | the six categories in order; combined = pool 0 + pool 1 |
| RewardsStage.CalculateRewards | scripts/iii_update_total_daily_rewards.py:77-113 | the loop returns `RewardSummary`: the summary of the distinct rows, or the first rejected address |
| RewardsStage.AddBatch | scripts/iii_update_total_daily_rewards.py:93-100 | one batch's rewards added to the pool sums |
| RewardsStage.AllBatchesSummed | scripts/iii_update_total_daily_rewards.py:85-103 | after the last batch, the sums are those of every distinct row |
| RewardsStage.BadBatchFails | scripts/iii_update_total_daily_rewards.py:85-91 | a batch with a rejected address means the whole run fails |
| RewardsStage.RewardSummaryFacts | scripts/iii_update_total_daily_rewards.py:77-113 | per pool, the daily sum is rewards now minus 24h ago over the distinct rows and the total is rewards now; combined adds pools 0 and 1 |
| EmissionSchedule.EmissionsData | helpers/staking_helpers/get_emission_schedule_for_today.py:11-47 | the first 10000 stored rows in id order, or empty when reading fails |
| EmissionSchedule.UpTo | helpers/staking_helpers/get_emission_schedule_for_today.py:79 | exactly the rows dated today or earlier, in order |
| EmissionSchedule.FirstOn | helpers/staking_helpers/get_emission_schedule_for_today.py:96-103 | the first row dated today, or None |
| EmissionSchedule.ReadEmissionSchedule | helpers/staking_helpers/get_emission_schedule_for_today.py:49-112 | empty dicts when no row is dated today or earlier; otherwise the new emissions and totals |
| EmissionSchedule.NewTotalIsSum | helpers/staking_helpers/get_emission_schedule_for_today.py:105 | the new total is the sum of the five category differences |
| EmissionSchedule.UpToEnds | helpers/staking_helpers/get_emission_schedule_for_today.py:86-87 | the last two rows of `UpTo` are the last two rows dated today or earlier |
| EmissionSchedule.UpToNone | helpers/staking_helpers/get_emission_schedule_for_today.py:81-83 | no row dated today or earlier: `UpTo` is empty |
| EmissionSchedule.NewEmissionsAreDifferences | helpers/staking_helpers/get_emission_schedule_for_today.py:86-93 | each new emission is the last such row's category minus the previous row's, or minus 0 without one |
| EmissionSchedule.FirstOnFinds | helpers/staking_helpers/get_emission_schedule_for_today.py:96-103 | the first row dated today is found |
| EmissionSchedule.FirstOnNone | helpers/staking_helpers/get_emission_schedule_for_today.py:96-99 | None exactly when no row is dated today |
| EmissionSchedule.TotalsOfToday | helpers/staking_helpers/get_emission_schedule_for_today.py:96-103 | the totals are the first today row's categories and total, or all 0 |
| EmissionsStage.ZipRow | scripts/vii_update_emissions.py:109 | pairs up to the shorter list; a repeated name keeps its last cell |
| EmissionsStage.ZipRowKeys | scripts/vii_update_emissions.py:109 | the keys are exactly the header names that have a field |
| EmissionsStage.ZipRowLastWins | scripts/vii_update_emissions.py:109 | a repeated column keeps the cell of its last position |
| EmissionsStage.ReaderRow | scripts/vii_update_emissions.py:56-57 | the keys are exactly the header's columns |
| EmissionsStage.DayField | scripts/vii_update_emissions.py:122 | failures are ValueError or TypeError only |
| EmissionsStage.Decimals | scripts/vii_update_emissions.py:124-130 | one value per column, or InvalidOperation/TypeError |
| EmissionsStage.ParseRow | scripts/vii_update_emissions.py:112-135 | undated rows are skipped; date errors leave the loop; a caught error skips the row, other errors leave the loop |
| EmissionsStage.StringRows | scripts/vii_update_emissions.py:105-109 | one row per line after the header |
| EmissionsStage.ParseEmissionDataFromString | scripts/vii_update_emissions.py:91-141 | the loop returns the rows kept in line order, or [] when an exception leaves it |
| EmissionsStage.PrefixAborts | scripts/vii_update_emissions.py:104-141 | an exception in row i aborts the parse whatever the later rows hold |
| EmissionsStage.FileDelimiter | scripts/vii_update_emissions.py:53 | a comma exactly for a path ending in .csv in any case |
| EmissionsStage.UndatedRowsSkipped | scripts/vii_update_emissions.py:112-117 | rows without a date add nothing |
| EmissionsStage.IntendedAbortsOnlyOnDate | scripts/vii_update_emissions.py:112-135 | with InvalidOperation caught, only a bad date fails the parse (Findings, corrected) |
| EmissionsStage.IntendedKeepsConvertibleRows | scripts/vii_update_emissions.py:120-135 | with InvalidOperation caught and readable dates, exactly the convertible rows are kept, in order |
| EmissionsStage.BadDecimalDiscardsAll | scripts/vii_update_emissions.py:124-141 | as written, one bad decimal discards every row of the data (Findings) |
| EmissionsStage.BadCapitalDiscardsAll | scripts/vii_update_emissions.py:124-141 | a concrete two-row input parsing to [] as written (Findings) |
| EmissionsStage.BadCapitalSkipped | scripts/vii_update_emissions.py:133-135 | the same input keeps its first row under the intended handler |
| EmissionsStage.ProcessEmissionEvents | scripts/vii_update_emissions.py:144-212 | given rows, else the file, else the configured source; no rows gives 0; a save error gives 0; otherwise the save count |
| EmissionsStage.ExitStatus | scripts/vii_update_emissions.py:232-239 | 0 exactly when some record was stored |
| StakingMetrics.ValidRows | helpers/staking_helpers/staking_main.py:155-161 | exactly the rows with non-zero lock bounds and now < end <= now + 25 years, in order |
| StakingMetrics.OfPool | helpers/staking_helpers/staking_main.py:294-300 | exactly the rows of pool p, in order |
| StakingMetrics.Enriched | helpers/staking_helpers/staking_main.py:77-92 | each row's lock bounds replaced by `usersData[4]`, `[5]`, or kept when the call fails |
| StakingMetrics.PowerFactorOfYears | helpers/staking_helpers/staking_main.py:467-479 | the table entry of the whole years, capped at the last |
| StakingMetrics.PowerFactorMonotone | helpers/staking_helpers/staking_main.py:467-479 | the factor never falls as the period grows |
| StakingMetrics.PowerFactorOfNegativeDay | helpers/staking_helpers/staking_main.py:467-479 | minus one day indexes from the end of the table |
| StakingMetrics.Average | helpers/staking_helpers/staking_main.py:217-227 | total/count, or 0 when count is 0 |
| StakingMetrics.AnalyzeMorStakers | helpers/staking_helpers/staking_main.py:164-256 | the loop returns the reference `Tally` of the valid rows, or its error |
| StakingMetrics.TalliedPrefixFails | helpers/staking_helpers/staking_main.py:190-254 | once a prefix raises, the whole analysis raises the same error |
| StakingMetrics.TallySucceedsOnKnownPools | helpers/staking_helpers/staking_main.py:196-200 | succeeds exactly when every valid stake is in pool 0 or 1 |
| StakingMetrics.TallyStakers | helpers/staking_helpers/staking_main.py:199-200 | each pool's stakers are the users of its valid stakes |
| StakingMetrics.TallyCounts | helpers/staking_helpers/staking_main.py:205-212 | each pool's count and total time are those of its valid stakes |
| StakingMetrics.TallyDaily | helpers/staking_helpers/staking_main.py:195-203 | a day has a `daily_unique_stakers` entry exactly when some valid pool-0 or pool-1 stake was made on it, and the entry holds, per pool, exactly the users of that day's valid stakes |
| StakingMetrics.DailyWithinPools | helpers/staking_helpers/staking_main.py:202-203 | each day's stakers are stakers of the same pool overall |
| StakingMetrics.CombinedAverageWeighted | helpers/staking_helpers/staking_main.py:217-227 | the combined average is the count-weighted mean of the two pool averages |
| StakingMetrics.NoStakesNoTime | helpers/staking_helpers/staking_main.py:205-212 | a pool without stakes has no stake time |
| StakingMetrics.TodaysCapitalEmission | helpers/staking_helpers/staking_main.py:115-131 | the schedule's new capital emission, or 0 when missing |
| StakingMetrics.TodaysCapitalEmissionIsDifference | helpers/staking_helpers/staking_main.py:115-131 | with a stored day up to today, it is the difference of the last two such days' capital emission |
| StakingMetrics.AverageMultipliers | helpers/staking_helpers/staking_main.py:259-320 | the overall and per-pool means of multiplier/1e18 over valid stakes; all 0 for no stakes or a missing multiplier |
| StakingMetrics.AveragesOf | helpers/staking_helpers/staking_main.py:285-311 | the means over the valid stakes, all 0 when one lacks a multiplier |
| StakingMetrics.MultiplierSumSplits | helpers/staking_helpers/staking_main.py:289-303 | over pools 0 and 1 only, the sum is the two pools' sums added |
| StakingMetrics.OverallAverageWeighted | helpers/staking_helpers/staking_main.py:289-303 | m*n == m0*n0 + m1*n1: the overall mean is the count-weighted mean of the pool means |
| StakingMetrics.CategoryOf | helpers/staking_helpers/staking_main.py:345-352 | the four category names map to distinct (pool, daily?) pairs; others to None |
| StakingMetrics.PoolRewards | helpers/staking_helpers/staking_main.py:338-355 | a pool entry appears when one of its categories does |
| StakingMetrics.PoolRewardsSummary | helpers/staking_helpers/staking_main.py:323-363 | zeros for both pools when there are no rows, otherwise `PoolRewards` |
| StakingMetrics.OtherCategoriesIgnored | helpers/staking_helpers/staking_main.py:345-352 | any other category changes nothing |
| StakingMetrics.PoolEntryPresent | helpers/staking_helpers/staking_main.py:338-352 | a pool has an entry if and only if one of its categories occurs |
| StakingMetrics.LastRowWins | helpers/staking_helpers/staking_main.py:341-352 | the last row of a category sets its figure to the absolute value |
| StakingMetrics.NotPool0 | helpers/staking_helpers/staking_main.py:410 | exactly the rows of pools other than 0 |
| StakingMetrics.GetWalletStakeInfo | helpers/staking_helpers/staking_main.py:366-415 | the loop returns the per-wallet maps of the reference function, or the error of a missing multiplier |
| StakingMetrics.NoMultiplierFails | helpers/staking_helpers/staking_main.py:407 | a valid stake without a multiplier makes the computation raise |
| StakingMetrics.LongestIsMaximal | helpers/staking_helpers/staking_main.py:410-415 | each kept entry is some row of its wallet, and no row of the wallet has a longer stake |
| Seed.Cell | seed_database.py:176-303 | KeyError for a missing column |
| Seed.DecimalCell | seed_database.py:192-198 | TypeError for a missing cell, InvalidOperation for non-numbers |
| Seed.IntField | seed_database.py:210-211 | a numeral is coerced; anything else is rejected |
| Seed.ParseCirculatingSupply | seed_database.py:176-184 | the date is read day first; the other cells as decimals and an int |
| Seed.ParseEmission | seed_database.py:186-199 | the date is read year first; every amount is a decimal |
| Seed.ParseUserClaimLocked | seed_database.py:201-212 | the lock bounds are coerced from text by the record |
| Seed.Multiplier | seed_database.py:219-234 | None for a missing or empty cell; else the decimal, or the stripped comma-free decimal, or None; never raises |
| Seed.ParseUserMultiplier | seed_database.py:214-245 | an unreadable multiplier is stored as None rather than failing the row |
| Seed.ParseRewardSummary | seed_database.py:247-256 | the timestamp is the block time in seconds since the epoch |
| Seed.StakedAmount | seed_database.py:262-271 | decimal of the cell, or of the cleaned cell, whose failure propagates |
| Seed.ParseUserStakedEvent | seed_database.py:258-280 | a fractional amount fails the row |
| Seed.ParseUserWithdrawnEvent | seed_database.py:282-292 | the row's fields, or the first error |
| Seed.ParseOverplusBridgedEvent | seed_database.py:294-303 | the row's fields, or the first error |
| Seed.Parsed | seed_database.py:405-414 | the records of the rows that parse, in file order |
| Seed.Import | seed_database.py:384-428 | 0 for a missing file or no parsed row, else the insert's count; open and insert errors propagate |
| Seed.ImportDataFromCsv | seed_database.py:384-428 | the method returns `Import` |
| Seed.ParseRows | seed_database.py:405-414 | the loop returns `Parsed` |
| Seed.CreateTables | seed_database.py:375-382 | every statement in order; the first failure raises |
| Seed.EnsureTablesExist | seed_database.py:355-382 | a failing or raising health check becomes DatabaseError("Database connection error"); then every table is created |
| Seed.Seeded | seed_database.py:430-455 | the total of the imports, a failing import counting 0; table-creation errors propagate |
| Seed.SeedDatabase | seed_database.py:430-455 | the method returns `Seeded` |
| Seed.ImportAll | seed_database.py:437-451 | the loop returns `Total` |
| Seed.MainStatus | seed_database.py:457-468 | 0 whenever seeding returns, 1 when it raises |
| Seed.CirculatingSupplyDateDayFirst | seed_database.py:178 | a day-first date reads back as the same date |
| Seed.DateFormatsDiffer | seed_database.py:178-188 | a date without '/' fails a supply row; one without '-' fails an emission row |
| Seed.EmissionRejectsDayFirstDate | seed_database.py:188 | an emission row with a day-first date is rejected |
| Seed.MultiplierNeverFailsRow | seed_database.py:219-234 | the multiplier cell never decides whether the row is kept |
| Seed.MultiplierOfNumeral | seed_database.py:224 | an integer numeral reads as that integer |
| Seed.UnreadableMultiplierIsNone | seed_database.py:229-234 | a multiplier neither reading accepts is None |
| Seed.FractionalStakeRejected | seed_database.py:265-279 | a fractional staked amount fails the row |
| Seed.FailingRowSkipped | seed_database.py:409-414 | a failing row is passed over |
| Seed.AllRowsParsed | seed_database.py:405-414 | when every row parses, the records are the parsed rows in order |
| Seed.RecordsComeFromRows | seed_database.py:405-414 | every record comes from a row of the file |
| Seed.NoValidRowsImportsNothing | seed_database.py:416-418 | no row parses: 0, nothing inserted |
| Seed.FailingTableSkipped | seed_database.py:439-449 | a failing import adds nothing to the total |
| Seed.RewardSummaryNeverSeeded | seed_database.py:331-334 | the reward_summary entry has no file and is never imported |
| Seed.NonNegativeTotal | seed_database.py:437-451 | with non-negative insert counts, the total is non-negative |
| Seed.MainSucceedsIffTablesExist | seed_database.py:457-468 | main exits 0 exactly when the tables could be made |
| CodeContributors.BatchWeights | helpers/code_helpers/code_main.py:56-58 | one weight per address, or the first lookup's error |
| CodeContributors.CountPositive | helpers/code_helpers/code_main.py:75-80 | at most the number of weights |
| CodeContributors.BatchActive | helpers/code_helpers/code_main.py:70-84 | the positive-weight addresses of a batch, none when it raises |
| CodeContributors.Active | helpers/code_helpers/code_main.py:61-86 | reference count: the addresses with a succeeding positive lookup |
| CodeContributors.GetActiveCodeContributors | helpers/code_helpers/code_main.py:61-86 | returns the batched count `ActiveCount` over batches of 50 |
| CodeContributors.AppendActive | helpers/code_helpers/code_main.py:75-80 | appends exactly the positive-weight addresses, keeping earlier entries |
| CodeContributors.ValidRows | helpers/code_helpers/code_main.py:121-125 | exactly the rows whose pool and amount are numbers |
| CodeContributors.CodeRows | helpers/code_helpers/code_main.py:128 | exactly the valid rows of pool 1 |
| CodeContributors.Amounts | helpers/code_helpers/code_main.py:130 | the numeric amounts, in order |
| CodeContributors.Distinct | helpers/code_helpers/code_main.py:128 | each value once, in first-appearance order |
| CodeContributors.Summarize | helpers/code_helpers/code_main.py:119-139 | the weight sum, distinct count and active count of the code pool |
| CodeContributors.EventsFrame | helpers/code_helpers/code_main.py:15-45 | the first 100000 stored events in id order, empty when reading fails |
| CodeContributors.GetTotalWeightsAndContributors | helpers/code_helpers/code_main.py:89-143 | an empty result for an empty frame, otherwise `Summarize` |
| CodeContributors.FailedBatchSkipped | helpers/code_helpers/code_main.py:82-84 | a raising batch adds nothing |
| CodeContributors.BatchActiveBounded | helpers/code_helpers/code_main.py:70-84 | a batch adds at most its active addresses, exactly those when none raises |
| CodeContributors.ActiveCountBounded | helpers/code_helpers/code_main.py:61-86 | the count is at most `Active`, and equals it when no lookup raises |
| CodeContributors.NoFailureCountsAllActive | helpers/code_helpers/code_main.py:61-86 | with no lookup raising, the count is the number of positive-weight addresses |
| CodeContributors.DistinctCount | helpers/code_helpers/code_main.py:128-129 | the unique list is as long as the number of distinct values |
| CodeContributors.OtherRowsIgnored | helpers/code_helpers/code_main.py:121-130 | a row of another pool or with a non-numeric pool or amount changes no summary figure |
| CodeContributors.SummaryCounts | helpers/code_helpers/code_main.py:128-136 | the summary counts the distinct code stakers, and at most that many are active |
| CodeContributors.StoredEventsHaveColumns | helpers/code_helpers/code_main.py:112-117 | stored events carry every required column, so the summary is empty only without events |
| CacheManager.Live | app/cache/cache_manager.py:19 | exactly the entries with now < expires |
| CacheManager.Lookup | app/cache/cache_manager.py:51-62 | the live value, or the default |
| CacheManager.Cache.SetCacheItem | app/cache/cache_manager.py:35-48 | stores the value for 12 hours whatever `ttl` says and records the update time |
| CacheManager.Cache.DeleteCacheItem | app/cache/cache_manager.py:65-74 | removes a live entry; other keys stay |
| CacheManager.Cache.ClearCache | app/cache/cache_manager.py:77-83 | empties the cache and records the update time |
| CacheManager.Cache.Cached | app/cache/cache_manager.py:96-145 | a live non-None value is returned without a call; otherwise the function runs once and its result, None included, is stored |
| CacheManager.SetThenGet | app/cache/cache_manager.py:35-62 | get returns the set value until expiry; other keys read as before |
| CacheManager.SetExpires | app/cache/cache_manager.py:19 | after 12 hours the entry is gone and get answers the default |
| CacheManager.DeleteOnlyThatKey | app/cache/cache_manager.py:65-74 | deleting a key leaves every other key's reading |
| CacheManager.LiveAfterUpdates | app/cache/cache_manager.py:25-83 | seen from get_cache: set adds, delete removes, clear empties |
| CacheManager.NoneNeverServed | app/cache/cache_manager.py:111-130 | a stored None is never served; the next call computes again |
| Batching.Chunks | scripts/ii_update_user_multipliers.py:105 | consecutive non-empty chunks of at most `size`, all but the last exactly `size`, ceil(n/size) of them, flattening back to the input |
| Sorting.Select | app/repository/user_staked_events_repository.py:107-113 | sorted by key; it holds each row satisfying the filter as many times as it is stored, and no other row |
| Text.SplitJoin | scripts/vii_update_emissions.py:105-109 | splitting the join of separator-free pieces gives the pieces back |
| Text.ParseIntRoundTrip | seed_database.py:182 | int(str(n)) == n |
| Text.ParseDecimalOfInt | scripts/ii_update_user_multipliers.py:81 | Decimal(str(n)) == n |
| Text.DmyRoundTrip | scripts/iiii_update_circulating_supply.py:111 | a date written with %d/%m/%Y reads back as the same date |
| Calendar.DateTimeOfTimestamp | scripts/iv_update_user_staked_events.py:96 | the block time is a valid date and time of day, the time of day being the seconds since midnight of the timestamp |
| Text.StripLeft | scripts/vii_update_emissions.py:105 | drops exactly the leading whitespace: the rest starts with a non-space |
| Text.StripRight | scripts/vii_update_emissions.py:105 | drops exactly the trailing whitespace: the rest ends with a non-space |
| Text.Split | scripts/vii_update_emissions.py:105 | at least one piece, no piece holds the separator, and joining the pieces gives the string back |
| Text.ParseYmd | seed_database.py:188 | a successful `%Y-%m-%d` parse is a valid calendar date |
| Text.ParseDmy | seed_database.py:178 | a successful `%d/%m/%Y` parse is a valid calendar date |
| Text.ParseYmdHms | seed_database.py:203 | a successful `%Y-%m-%d %H:%M:%S` parse is a valid date and time |
| Text.YmdRoundTrip | app/repository/user_staked_events_repository.py:215 | a date written by `isoformat` reads back through `%Y-%m-%d` as the same date |
| Text.YmdHmsRoundTrip | seed_database.py:203 | a date and time written as `%Y-%m-%d %H:%M:%S` reads back as the same date and time |
| Sorting.SortBy | app/repository/emission_repository.py:87-88 | sorted by key and a permutation of the rows |
| CirculatingSupplyRepository.PercentageScales | app/repository/circulating_supply_repository.py:130-131 | the percentage times the start value is 100 times the growth |
| EmissionsStage.Collect | scripts/vii_update_emissions.py:111-135 | a successful parse keeps at most one emission per row |
| Calendar.DateOfTimestamp | scripts/iiii_update_circulating_supply.py:111 | a valid date, in 1970 or later for a non-negative timestamp |
| Calendar.NextDay | scripts/iiii_update_circulating_supply.py:111 | the day after a valid date is a valid, later date |
| Calendar.YearAndDayNext | scripts/iiii_update_circulating_supply.py:111 | counting one more day from a year's start moves to the next day of that year, or to the first day of the next |
| Calendar.MonthAndDayNext | scripts/iiii_update_circulating_supply.py:111 | within a year, one more day moves to the next day of the month or the first of the next month |
| Calendar.LastDayOfYear | scripts/iiii_update_circulating_supply.py:111 | the last day counted from any month is 31 December |
| Calendar.CivilFromDaysNext | scripts/iiii_update_circulating_supply.py:111 | day n+1 after the epoch is the calendar day after day n |
| Calendar.CivilFromDaysMonotone | scripts/iiii_update_circulating_supply.py:111 | later days after the epoch are later dates |
| Calendar.NextDayOfTimestamp | scripts/iiii_update_circulating_supply.py:111 | a timestamp 86400 seconds later falls on the next calendar day, for every timestamp |
| Calendar.DateOfTimestampMonotone | scripts/iiii_update_circulating_supply.py:111 | a later timestamp never falls on an earlier calendar day |
| Calendar.EpochDays | scripts/iiii_update_circulating_supply.py:111 | 0 and 86399 are 1970-01-01, 86400 is 1970-01-02, -1 is 1969-12-31 |

## Left out

- `get_unique_user_pool_combinations`, which `process_user_multiplier_events` calls, is not
  defined anywhere in the repository. Its records are a parameter.
- Sleeps (`time.sleep`, `asyncio.sleep`), logging and Slack notifications do not affect
  results and are left out.
- `asyncio.gather` is modelled as sequential calls. The first exception wins, as `gather` reports.
- Local time is taken as UTC (`datetime.fromtimestamp`).
- RPC errors of `get_block('latest')` are left out: the latest block is a value.
- Rewards job: reading the input sheet, writing the output sheet, Slack and temporary files
  are left out. Python `float` is modelled as `real`.
- `save_emission_data` is not part of this model. It is the `save` parameter.
- `Decimal`, `int` and `strptime` are approximated: no exponents, NaN or underscores in
  numerals. `int()` and `Decimal()` strip surrounding whitespace, as the source's calls do,
  but only ASCII whitespace: Python also strips Unicode whitespace. `strptime` fields take
  none, and a space in a `strptime` format matches exactly one space, where Python matches
  one or more whitespace characters. Only `%Y`, `%m`, `%d`, `%H`, `%M` and `%S` are handled. CSV
  quoting is not modelled.
- YmdRoundTrip: stated for four-digit years only; `isoformat` and `strptime` also pad and
  read years below 1000, which the data never holds.
- YmdHmsRoundTrip: stated for four-digit years only, as YmdRoundTrip.
- `Decimal` arithmetic is exact; the 28-digit context is ignored.
- `get_emissions_data` is modelled only as the table read (`EmissionSchedule.EmissionsData`).
  `get_historical_emissions` is left out.
- Staking: the histograms (staking_main.py:417-450), the APY and reward estimates (481-548),
  CoinGecko prices (134-152) and `str(timedelta)` formatting are left out. Microsecond
  rounding of `timedelta` division and float precision are left out, and `datetime.now` is a
  parameter.
- The staking window constant is named "twenty years" in the source but holds 25 years. The
  model uses the value, 25 years.
- StakingMetrics.PoolRewards: the dict lacks a pool's key when none of its categories occur,
  as `defaultdict` does. The model does not add the missing key.
- The overplus, claim-lock and reward repositories' query methods, and the v and vi stages,
  are left out. They follow the same skeleton as the staked stage and the withdrawn
  repository.
- The web3 wrapper's retry is a copy of the database `with_retry` and is left out.
- The SQL of `TABLE_DEFINITIONS` is not modelled, except for the missing unique index of
  `user_staked_events`. Table creation is a parameter.
- Seed: pydantic's coercion of text to `int` is approximated by the integer parser. Its
  coercion of dates and datetimes is not modelled. `bulk_insert` is the `insert` parameter
  and the file system is the `files` parameter.
- Seed: the health check and the `CREATE` statements are parameters, and `init_db` failures
  are left out. Which exception a failing row raises is approximate, since the import loop
  catches them all.
- Code contributors: `pd.to_numeric` is approximated by the decimal parser. Users are
  non-null strings. The weight lookup (`usersData`, `to_checksum_address`) is a parameter.
- Cache: the `maxsize=1000` LRU eviction is not modelled. The TTL timer and the wall clock are
  parameters. The async and sync wrappers of `cached` behave alike and are modelled once.
- Database.WithRetry: the jitter of `random.uniform(0.8, 1.2)` is a parameter, so its bounds
  are not used.
- Pool creation in `Database.__init__` is the `poolError` parameter of `InitDb`; `close()` is
  left out.
- Exceptions carry the source's messages; their `details` dicts and the log messages are not
  modelled.
- Cached: a wrapped function that raises is not modelled; the wrapped function is a total
  value, so the decorator's pass-through of the exception (nothing cached) is not captured.
- The rows of `cursor()` and `fetchone`/`fetchall` are tuples as written (Findings,
  app/db/database.py:177-199). The readers below index them by column name or unpack them
  with `**`, which raises `TypeError` on a tuple. They are modelled with dict rows
  (corrected), so their contracts describe the documented reading, not the TypeError:
- ById: modelled with dict rows (corrected); as written `model_class(**result)` raises on a found row.
- Page: modelled with dict rows (corrected); as written `model_class(**row)` raises for a non-empty page.
- Create: modelled with dict rows (corrected); as written the insert commits and then `model_class(**result)` raises.
- Update: modelled with dict rows (corrected); as written the read-back `model_class(**result)` raises.
- Count: modelled with dict rows (corrected); as written `result['count']` raises.
- LastProcessedBlock (StakedEventsRepository): modelled with dict rows (corrected); as written `result['last_block']` raises on a non-empty table.
- ByBlockRange: modelled with dict rows (corrected); as written `UserStakedEvent(**row)` raises for any row in range.
- TotalWithdrawnByPool: modelled with dict rows (corrected); as written `row['pool_id']` raises.
- NetPosition: modelled with dict rows (corrected); as written `row['pool_id']` raises.
- Latest (CirculatingSupplyRepository): modelled with dict rows (corrected); the as-written read is `LatestAsWritten`.
- SupplyAsOf: modelled with dict rows (corrected); as written `result['start_supply']` raises.
- FetchClaims: modelled with dict rows (corrected); as written the baseline read raises and is re-raised (Findings).
- ProcessCirculatingSupply: modelled with dict rows (corrected); as written every run returns None and saves nothing (`AsWrittenRunNeverSaves`).
- RunSavesDailyRecords: describes the corrected run with dict rows; as written that run is never reached.
- CommittedRunStoresDailyTotals: describes the corrected run with dict rows; as written that run is never reached.
- The readers that index by position (`Watermark.LastBlockFromDb`, `Database.HealthCheck`,
  `WithdrawnEventsRepository.LastProcessedBlock`) are modelled as written, on tuples; under the
  dict cursor of the corrected reading they would raise `KeyError` instead.
- Acquire: modelled as written, with the single acquisition attempt; the retried acquisition
  (`AcquireRetriedFourTimes`) is the corrected behaviour of the Findings and is not used here.
- Transaction: modelled as written, over the single acquisition attempt of Acquire.
- ProcessClaimLockedEvents: builds rows with the corrected `ClaimLockedRecord` (arguments read
  from `args`, the user under `user_address`); as written nothing is ever stored
  (`AsWrittenStoresNothing`).
- ProcessMultipliers: inserts with the corrected `InsertAnswers` (only the answers that are
  rows); as written None answers reach `bulk_insert` and raise after the table was cleaned
  (`AsWrittenRunEmptiesTable`).
- InsertBatches: uses the corrected `InsertAnswers`, as ProcessMultipliers does.

## Findings

| source | as written | input that shows it | evidently intended | confidence | as-written member | corrected member |
|---|---|---|---|---|---|---|
| scripts/i_update_user_claim_locked_events.py:54-57 | the row reads `event['user']`, `event['poolId']` and the lock bounds at the top level of a log entry, which carries them under `args`; the KeyError is swallowed. Even read from `args`, the record is built with `user=` while its field is `user_address` (app/models/database_models.py:18), which validation would refuse | any run that fetches at least one ClaimLocked event | read the arguments from `event['args']` | high, not executed | ClaimLockedStage.AsWrittenStoresNothing | ClaimLockedStage.RunAppendsFetchedEvents |
| scripts/ii_update_user_multipliers.py:61-65 | on "Too Many Requests" it sleeps and then returns None, so the retry loop never retries | a first attempt that is rate limited and a second that answers | continue to the next attempt | high, not executed | MultiplierStage.RateLimitRetried | MultiplierStage.MultiplierSpec |
| scripts/ii_update_user_multipliers.py:52-60 | `UserMultiplier` is built without `transaction_hash`, which the model requires (app/models/database_models.py:28), so validation fails and None is returned | any record and any node answer | pass the record's transaction hash | high, not executed | MultiplierStage.AsWrittenNeverYields | MultiplierStage.MultiplierSpec |
| scripts/ii_update_user_multipliers.py:113-114 | a batch of None answers is truthy and goes to `bulk_insert`, where `None.model_dump` raises after the table was cleaned | one record with a valid address | insert only the answers that are rows | high, not executed | MultiplierStage.AsWrittenRunEmptiesTable | MultiplierStage.CommittedRunReplacesTable |
| scripts/vii_update_emissions.py:124-135 | `Decimal('n/a')` raises InvalidOperation, which the row handler `(ValueError, TypeError)` does not catch, so the whole parse returns [] | a dated row followed by a dated row with Capital Emission `n/a` | skip the bad row, keep the others | high, not executed | EmissionsStage.BadCapitalDiscardsAll | EmissionsStage.BadCapitalSkipped |
| app/repository/user_multiplier_repository.py:272-282 | the columns come from the first record's non-None fields, so a first record without a multiplier drops every later record's multiplier | two records, the first without a multiplier | write every record's columns | medium, not executed | MultiplierRepository.FirstWithoutMultiplierDropsTheRest | MultiplierRepository.IntendedValues |
| app/db/database.py:106-162 | every pool error leaves `_acquire` as a DatabaseError, which `with_retry` does not retry, so the decorator never retries | a pool that always raises OperationalError | let the retryable error reach the decorator | medium, not executed | Database.AcquireNeverRetried | Database.AcquireRetriedFourTimes |
| app/repository/user_staked_events_repository.py:256 | ON CONFLICT (transaction_hash, block_number), but seed_database.py:131-144 creates no unique index on those columns, so PostgreSQL rejects the statement | any non-empty batch on a seeded database | a unique index on (transaction_hash, block_number) | medium, not executed | StakedEventsRepository.SeededSchemaRejectsBatch | StakedEventsRepository.InsertSkipsExisting |
| app/db/database.py:177-199 | the cursor is a plain cursor whose rows are tuples, yet the docstrings promise dicts and callers read `row['exists']` | `ensure_user_staked_events_table_exists` on any database | a `RealDictCursor`; the readers that index rows by position (helpers/database_helpers/db_helper.py:13, app/db/database.py:283, app/repository/user_withdrawn_events_repository.py:143) would then need column names | medium, not executed | StakedStage.RunAsWrittenAlwaysRaises | StakedStage.RunAsDocumentedChecksTable |
| app/repository/circulating_supply_repository.py:42 | `CirculatingSupply(**result)` on the tuple row raises TypeError; `get_latest_circulating_supply_record` re-raises it (scripts/iiii_update_circulating_supply.py:34-37) and the job's handler returns None (157-159), so the job never saves | any run with a stored baseline row | read the baseline from a dict row | high, not executed | CirculatingSupplyStage.AsWrittenRunNeverSaves | CirculatingSupplyStage.CommittedRunStoresDailyTotals |
