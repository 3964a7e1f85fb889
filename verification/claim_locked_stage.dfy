/**
 * scripts/i_update_user_claim_locked_events.py: fetch the `UserClaimLocked` events after the
 * watermark and append one row per event. Every error is logged and swallowed, so the job
 * returns nothing; what it leaves behind is the table.
 */
module ClaimLockedStage {
  import opened Wrappers
  import opened Errors
  import opened Calendar
  import opened Records
  import opened RowStore
  import opened Database
  import opened BulkWrite
  import opened Watermark
  import opened EventSource
  import opened ChainEvents

  const StartBlock := 20180927
  const BatchSize: nat := 1000000

  function BlockOf(r: UserClaimLocked): int
  {
    r.blockNumber
  }

  /** The keys a web3 log entry carries at its top level; the event's own arguments sit under `args`. */
  const LogEntryKeys: set<string> :=
    {"args", "event", "logIndex", "transactionIndex", "transactionHash", "address", "blockHash", "blockNumber"}

  /** `event[k]` for each key `k` in turn: the `KeyError` of the first key the entry does not carry. */
  function LookUpAll(keys: seq<string>): (r: Result<(), Error>)
    ensures r.Success? <==> forall i :: 0 <= i < |keys| ==> keys[i] in LogEntryKeys
    ensures r.Failure? ==> exists i :: 0 <= i < |keys| && keys[i] !in LogEntryKeys && r.error == KeyError(keys[i])
  {
    if keys == [] then Success(())
    else if keys[0] !in LogEntryKeys then Failure(KeyError(keys[0]))
    else LookUpAll(keys[1..])
  }

  /** The keys the loop body reads from each log entry, in order. */
  const AsWrittenKeys := ["blockNumber", "transactionHash", "blockNumber", "user", "poolId", "claimLockStart", "claimLockEnd"]

  /**
   * The row built for one event AS WRITTEN: the arguments are read from the top level of the
   * log entry (`event['user']`, then `event['poolId']`, ...), where they are not.
   */
  function ClaimLockedRecordAsWritten(e: ChainEvent, timestamp: int): Result<UserClaimLocked, Error>
  {
    match LookUpAll(AsWrittenKeys)
    case Failure(err) => Failure(err)
    case Success(_) =>
      Success(UserClaimLocked(DateTimeOfTimestamp(timestamp), e.transactionHash, e.blockNumber, 0, "", 0, 0))
  }

  /** As written, building the row for any event raises `KeyError('user')`. */
  lemma AsWrittenRecordFails(e: ChainEvent, timestamp: int)
    ensures ClaimLockedRecordAsWritten(e, timestamp) == Failure(KeyError("user"))
  {
  }

  /** An event argument, or the `KeyError` reading a missing one raises. */
  function Arg<T>(v: Option<T>, name: string): Result<T, Error>
  {
    match v
    case Some(x) => Success(x)
    case None => Failure(KeyError(name))
  }

  /**
   * The row built for one event, reading the arguments from `event['args']` and storing the
   * user under the model's `user_address` column.
   */
  function ClaimLockedRecord(e: ChainEvent, timestamp: int): (r: Result<UserClaimLocked, Error>)
    ensures r.Success? <==> e.args.user.Some? && e.args.poolId.Some? && e.args.claimLockStart.Some? && e.args.claimLockEnd.Some?
    ensures r.Success? ==>
      && r.value.blockNumber == e.blockNumber && r.value.transactionHash == e.transactionHash
      && r.value.userAddress == e.args.user.value && r.value.poolId == e.args.poolId.value
      && r.value.claimLockStart == e.args.claimLockStart.value && r.value.claimLockEnd == e.args.claimLockEnd.value
      && r.value.timestamp == DateTimeOfTimestamp(timestamp) && ValidDateTime(r.value.timestamp)
    ensures r.Failure? ==> r.error.KeyError?
  {
    var user :- Arg(e.args.user, "user");
    var pool :- Arg(e.args.poolId, "poolId");
    var lockStart :- Arg(e.args.claimLockStart, "claimLockStart");
    var lockEnd :- Arg(e.args.claimLockEnd, "claimLockEnd");
    Success(UserClaimLocked(DateTimeOfTimestamp(timestamp), e.transactionHash, e.blockNumber,
      pool, user, lockStart, lockEnd))
  }

  /**
   * The loop body for one event: `get_block` for its timestamp first (the first keyword
   * argument), then the row.
   */
  function Built(e: ChainEvent, chain: Chain, build: (ChainEvent, int) -> Result<UserClaimLocked, Error>): Result<UserClaimLocked, Error>
  {
    match chain.blockTimestamp(e.blockNumber)
    case Failure(err) => Failure(err)
    case Success(ts) => build(e, ts)
  }

  /** The rows for a list of events, or the first error raised building one. */
  function {:induction false} ClaimLockedRecords(events: seq<ChainEvent>, chain: Chain, build: (ChainEvent, int) -> Result<UserClaimLocked, Error>)
    : (r: Result<seq<UserClaimLocked>, Error>)
    ensures r.Success? <==> forall i :: 0 <= i < |events| ==> Built(events[i], chain, build).Success?
    ensures r.Success? ==> |r.value| == |events|
    ensures r.Success? ==> forall i :: 0 <= i < |events| ==> r.value[i] == Built(events[i], chain, build).value
    ensures r.Failure? ==> exists i :: 0 <= i < |events| && Built(events[i], chain, build) == Failure(r.error)
  {
    if events == [] then Success([])
    else
      var init := events[..|events| - 1];
      var last := events[|events| - 1];
      assert events == init + [last];
      match ClaimLockedRecords(init, chain, build)
      case Failure(e) => Failure(e)
      case Success(rs) =>
        match Built(last, chain, build)
        case Failure(e) => Failure(e)
        case Success(x) => Success(rs + [x])
  }

  /** The loop of `process_user_claim_locked_events` that builds a row per event. */
  method BuildRecords(events: seq<ChainEvent>, chain: Chain) returns (r: Result<seq<UserClaimLocked>, Error>)
    ensures r == ClaimLockedRecords(events, chain, ClaimLockedRecord)
  {
    var records: seq<UserClaimLocked> := [];
    for i := 0 to |events|
      invariant ClaimLockedRecords(events[..i], chain, ClaimLockedRecord) == Success(records)
    {
      assert events[..i + 1][..i] == events[..i];
      var x := Built(events[i], chain, ClaimLockedRecord);
      if x.Failure? {
        assert ClaimLockedRecords(events[..i + 1], chain, ClaimLockedRecord) == Failure(x.error);
        FailurePersists(events, i + 1, chain, ClaimLockedRecord, x.error);
        return Failure(x.error);
      }
      records := records + [x.value];
    }
    assert events[..|events|] == events;
    return Success(records);
  }

  /** Once a prefix of the events fails to build, so does the whole list, with the same error. */
  lemma {:induction false} FailurePersists(events: seq<ChainEvent>, n: nat, chain: Chain, build: (ChainEvent, int) -> Result<UserClaimLocked, Error>, e: Error)
    requires n <= |events|
    requires ClaimLockedRecords(events[..n], chain, build) == Failure(e)
    ensures ClaimLockedRecords(events, chain, build) == Failure(e)
    decreases |events| - n
  {
    if n < |events| {
      assert events[..n + 1][..n] == events[..n];
      FailurePersists(events, n + 1, chain, build, e);
    } else {
      assert events[..n] == events;
    }
  }

  /** The rows left in `user_claim_locked` by one run, building rows with `build`. */
  function StageRows(rows: seq<UserClaimLocked>, readError: Option<Error>, chain: Chain, autocommit: bool, server: Server,
                     build: (ChainEvent, int) -> Result<UserClaimLocked, Error>): seq<UserClaimLocked>
  {
    var start := ResumeFrom(StoredWatermark(rows, BlockOf, readError), StartBlock);
    var events := Fetched(chain.logs, SubRanges(start, chain.latestBlock, BatchSize));
    if events == [] then rows
    else
      match ClaimLockedRecords(events, chain, build)
      case Failure(_) => rows
      case Success(records) => BulkOutcome(autocommit, server, rows, PlainInsert(), records).0
  }

  /** `process_user_claim_locked_events`, reading the event arguments from `args`. */
  method ProcessClaimLockedEvents(table: AppendOnlyTable<UserClaimLocked>, readError: Option<Error>, chain: Chain, server: Server)
    modifies table, table.db
    ensures table.db.inUse == old(table.db.inUse)
    ensures table.rows == StageRows(old(table.rows), readError, chain, table.db.cfg.autocommit, server, ClaimLockedRecord)
  {
    var start := ResumeFrom(StoredWatermark(table.rows, BlockOf, readError), StartBlock);
    var events, queried := GetEventsInBatches(chain.logs, start, chain.latestBlock, BatchSize);
    if events == [] {
      return;
    }
    var records := BuildRecords(events, chain);
    if records.Failure? {
      return;
    }
    var r := table.BulkInsert(records.value, server);
  }

  /** As written, a run never adds a row to `user_claim_locked`, whatever the chain holds. */
  lemma AsWrittenStoresNothing(rows: seq<UserClaimLocked>, readError: Option<Error>, chain: Chain, autocommit: bool, server: Server)
    ensures StageRows(rows, readError, chain, autocommit, server, ClaimLockedRecordAsWritten) == rows
  {
    var start := ResumeFrom(StoredWatermark(rows, BlockOf, readError), StartBlock);
    var events := Fetched(chain.logs, SubRanges(start, chain.latestBlock, BatchSize));
    if events != [] {
      if chain.blockTimestamp(events[0].blockNumber).Success? {
        AsWrittenRecordFails(events[0], chain.blockTimestamp(events[0].blockNumber).value);
      }
    }
  }

  /** A block whose `get_block` raises makes the run store nothing: the error is swallowed like any other. */
  lemma BlockReadFailureStoresNothing(rows: seq<UserClaimLocked>, readError: Option<Error>, chain: Chain, autocommit: bool, server: Server, i: nat)
    requires var start := ResumeFrom(StoredWatermark(rows, BlockOf, readError), StartBlock);
      var events := Fetched(chain.logs, SubRanges(start, chain.latestBlock, BatchSize));
      i < |events| && chain.blockTimestamp(events[i].blockNumber).Failure?
    ensures StageRows(rows, readError, chain, autocommit, server, ClaimLockedRecord) == rows
  {
    var start := ResumeFrom(StoredWatermark(rows, BlockOf, readError), StartBlock);
    var events := Fetched(chain.logs, SubRanges(start, chain.latestBlock, BatchSize));
    assert Built(events[i], chain, ClaimLockedRecord).Failure?;
  }

  /**
   * A committed run whose fetched events all carry their arguments appends one row per event,
   * in fetch order, after the rows already stored; the watermark then does not move back.
   */
  lemma RunAppendsFetchedEvents(rows: seq<UserClaimLocked>, readError: Option<Error>, chain: Chain, server: Server)
    requires Acquired(server).Success? && server.commitError.None?
    ensures var start := ResumeFrom(StoredWatermark(rows, BlockOf, readError), StartBlock);
      var events := Fetched(chain.logs, SubRanges(start, chain.latestBlock, BatchSize));
      var stored := StageRows(rows, readError, chain, false, server, ClaimLockedRecord);
      ClaimLockedRecords(events, chain, ClaimLockedRecord).Success? ==>
        && stored == rows + ClaimLockedRecords(events, chain, ClaimLockedRecord).value
        && |stored| == |rows| + |events|
        && (StoredWatermark(rows, BlockOf, None).Some? && StoredWatermark(rows, BlockOf, None).value > 0 ==>
              StoredWatermark(stored, BlockOf, None).Some? && StoredWatermark(stored, BlockOf, None).value >= StoredWatermark(rows, BlockOf, None).value)
  {
    var start := ResumeFrom(StoredWatermark(rows, BlockOf, readError), StartBlock);
    var events := Fetched(chain.logs, SubRanges(start, chain.latestBlock, BatchSize));
    var built := ClaimLockedRecords(events, chain, ClaimLockedRecord);
    if built.Success? {
      var stored := StageRows(rows, readError, chain, false, server, ClaimLockedRecord);
      if events != [] {
        ExecutePlainInsert(rows, built.value);
      }
      assert stored == rows + built.value;
      if StoredWatermark(rows, BlockOf, None).Some? && StoredWatermark(rows, BlockOf, None).value > 0 {
        StoredWatermarkMonotone(rows, built.value, BlockOf);
      }
    }
  }
}
