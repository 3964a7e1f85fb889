/**
 * scripts/iv_update_user_staked_events.py: fetch the `UserStaked` events after the watermark
 * and store one row per event.
 */
module StakedStage {
  import opened Wrappers
  import opened Errors
  import opened Calendar
  import opened Records
  import opened RowStore
  import opened Database
  import opened BulkWrite
  import opened Watermark
  import opened EventSource
  import opened ChainEvents
  import opened StakedEventsRepository

  const StartBlock := 20180927
  const BatchSize: nat := 1000000

  /**
   * The row built for one event: block and transaction from the log, the block's time, and
   * pool 0, user '' and amount 0 for arguments the log lacks.
   */
  function StakedRecord(e: ChainEvent, timestamp: int): (r: UserStakedEvent)
    ensures r.blockNumber == e.blockNumber && r.transactionHash == e.transactionHash
    ensures r.timestamp == DateTimeOfTimestamp(timestamp) && ValidDateTime(r.timestamp)
    ensures r.poolId == (if e.args.poolId.Some? then e.args.poolId.value else 0)
    ensures r.userAddress == (if e.args.user.Some? then e.args.user.value else "")
    ensures r.amount == (if e.args.amount.Some? then e.args.amount.value else 0)
  {
    UserStakedEvent(DateTimeOfTimestamp(timestamp), e.transactionHash, e.blockNumber,
      e.args.poolId.GetOr(0), e.args.user.GetOr(""), e.args.amount.GetOr(0))
  }

  /**
   * The rows for a list of events: one per event, in fetch order, each stamped with its block's
   * time; or the error of the first `get_block` that raises.
   */
  function {:induction false} StakedRecords(events: seq<ChainEvent>, chain: Chain): (r: Result<seq<UserStakedEvent>, Error>)
    ensures r.Success? <==> forall i :: 0 <= i < |events| ==> chain.blockTimestamp(events[i].blockNumber).Success?
    ensures r.Success? ==> |r.value| == |events|
    ensures r.Success? ==> forall i :: 0 <= i < |events| ==>
      r.value[i] == StakedRecord(events[i], chain.blockTimestamp(events[i].blockNumber).value)
    ensures r.Failure? ==> exists i :: 0 <= i < |events| && chain.blockTimestamp(events[i].blockNumber) == Failure(r.error)
  {
    if events == [] then Success([])
    else
      var init := events[..|events| - 1];
      var last := events[|events| - 1];
      assert events == init + [last];
      match StakedRecords(init, chain)
      case Failure(e) => Failure(e)
      case Success(rs) =>
        match chain.blockTimestamp(last.blockNumber)
        case Failure(e) => Failure(e)
        case Success(ts) => Success(rs + [StakedRecord(last, ts)])
  }

  /** Once the rows of a prefix of the events fail, so do those of the whole list, with the same error. */
  lemma {:induction false} FailurePersists(events: seq<ChainEvent>, n: nat, chain: Chain, e: Error)
    requires n <= |events|
    requires StakedRecords(events[..n], chain) == Failure(e)
    ensures StakedRecords(events, chain) == Failure(e)
    decreases |events| - n
  {
    if n < |events| {
      assert events[..n + 1][..n] == events[..n];
      FailurePersists(events, n + 1, chain, e);
    } else {
      assert events[..n] == events;
    }
  }

  /** The loop of `process_user_staked_events` that builds a row per event. */
  method BuildRecords(events: seq<ChainEvent>, chain: Chain) returns (r: Result<seq<UserStakedEvent>, Error>)
    ensures r == StakedRecords(events, chain)
  {
    var records: seq<UserStakedEvent> := [];
    for i := 0 to |events|
      invariant StakedRecords(events[..i], chain) == Success(records)
    {
      assert events[..i + 1][..i] == events[..i];
      var ts := chain.blockTimestamp(events[i].blockNumber);
      if ts.Failure? {
        assert StakedRecords(events[..i + 1], chain) == Failure(ts.error);
        FailurePersists(events, i + 1, chain, ts.error);
        return Failure(ts.error);
      }
      records := records + [StakedRecord(events[i], ts.value)];
    }
    assert events[..|events|] == events;
    return Success(records);
  }

  /**
   * `ensure_user_staked_events_table_exists`, given the `exists` column of its query or the
   * error the query raised.
   */
  function TableCheck(exists_: Result<bool, Error>): Result<(), Error>
  {
    match exists_
    case Failure(e) => Failure(e)
    case Success(false) => Failure(Exception("Table user_staked_events does not exist"))
    case Success(true) => Success(())
  }

  /** The rows stored after `process_user_staked_events` and what it returns or raises. */
  function StageOutcome(rows: seq<UserStakedEvent>, exists_: Result<bool, Error>, readError: Option<Error>,
                        chain: Chain, autocommit: bool, server: Server, hasConflictIndex: bool): (seq<UserStakedEvent>, Result<nat, Error>)
  {
    if TableCheck(exists_).Failure? then (rows, Failure(TableCheck(exists_).error))
    else
      var start := ResumeFrom(StoredWatermark(rows, BlockOf, readError), StartBlock);
      if start > chain.latestBlock then (rows, Success(0))
      else
        var events := Fetched(chain.logs, SubRanges(start, chain.latestBlock, BatchSize));
        if events == [] then (rows, Success(0))
        else match StakedRecords(events, chain)
          case Failure(e) => (rows, Failure(e))
          case Success(records) => BulkOutcome(autocommit, server, rows, InsertStatement(hasConflictIndex), records)
  }

  /** `process_user_staked_events` */
  method ProcessStakedEvents(repo: Repository, exists_: Result<bool, Error>, readError: Option<Error>, chain: Chain, server: Server)
    returns (r: Result<nat, Error>)
    modifies repo, repo.db
    ensures repo.db.inUse == old(repo.db.inUse)
    ensures (repo.rows, r) == StageOutcome(old(repo.rows), exists_, readError, chain, repo.db.cfg.autocommit, server, repo.hasConflictIndex)
  {
    var check := TableCheck(exists_);
    if check.Failure? {
      return Failure(check.error);
    }
    var start := ResumeFrom(StoredWatermark(repo.rows, BlockOf, readError), StartBlock);
    if start > chain.latestBlock {
      return Success(0);
    }
    var events, queried := GetEventsInBatches(chain.logs, start, chain.latestBlock, BatchSize);
    if events == [] {
      return Success(0);
    }
    var records := BuildRecords(events, chain);
    if records.Failure? {
      return Failure(records.error);
    }
    r := repo.BulkInsert(records.value, server);
  }

  /**
   * Every block the run asks the node about lies after the watermark (or at the first block
   * when there is none) and at or before the latest block, and every such block is asked about.
   */
  lemma QueriesResumeAfterWatermark(rows: seq<UserStakedEvent>, readError: Option<Error>, latest: int, b: int)
    ensures var start := ResumeFrom(StoredWatermark(rows, BlockOf, readError), StartBlock);
      var rs := SubRanges(start, latest, BatchSize);
      && ((exists i :: 0 <= i < |rs| && rs[i].lo <= b <= rs[i].hi) <==> start <= b <= latest)
      && (StoredWatermark(rows, BlockOf, readError).Some? ==> start == StoredWatermark(rows, BlockOf, readError).value + 1)
      && (StoredWatermark(rows, BlockOf, readError).None? ==> start == StartBlock)
  {
    var start := ResumeFrom(StoredWatermark(rows, BlockOf, readError), StartBlock);
    SubRangesCover(start, latest, BatchSize, b);
  }

  /** With nothing after the watermark, the run stores nothing and returns 0. */
  lemma NothingNewReturnsZero(rows: seq<UserStakedEvent>, readError: Option<Error>, chain: Chain, autocommit: bool, server: Server, hasConflictIndex: bool)
    requires ResumeFrom(StoredWatermark(rows, BlockOf, readError), StartBlock) > chain.latestBlock
    ensures StageOutcome(rows, Success(true), readError, chain, autocommit, server, hasConflictIndex) == (rows, Success(0))
  {
  }

  /**
   * A committed run against a table with a unique (transaction_hash, block_number) index stores
   * the DO NOTHING inserts of one row per fetched event, keeps every row it had, and returns
   * the number of events fetched; a positive watermark never moves back.
   */
  lemma RunStoresFetchedEvents(rows: seq<UserStakedEvent>, readError: Option<Error>, chain: Chain, server: Server)
    ensures var start := ResumeFrom(StoredWatermark(rows, BlockOf, readError), StartBlock);
      var events := Fetched(chain.logs, SubRanges(start, chain.latestBlock, BatchSize));
      var (stored, r) := StageOutcome(rows, Success(true), readError, chain, false, server, true);
      r.Success? ==>
        && r.value == |events|
        && StakedRecords(events, chain).Success?
        && stored == InsertAllIfAbsent(rows, EventKey, StakedRecords(events, chain).value)
        && |rows| <= |stored| && stored[..|rows|] == rows
        && (StoredWatermark(rows, BlockOf, None).Some? && StoredWatermark(rows, BlockOf, None).value > 0 ==>
              StoredWatermark(stored, BlockOf, None).Some? && StoredWatermark(stored, BlockOf, None).value >= StoredWatermark(rows, BlockOf, None).value)
  {
    var (stored, r) := StageOutcome(rows, Success(true), readError, chain, false, server, true);
    RunInsertsFetchedEvents(rows, readError, chain, server);
    if r.Success? {
      PrefixKeepsWatermark(rows, stored);
    }
  }

  /** A table that keeps its old rows as a prefix keeps a positive watermark at least as high. */
  lemma PrefixKeepsWatermark(rows: seq<UserStakedEvent>, stored: seq<UserStakedEvent>)
    requires |rows| <= |stored| && stored[..|rows|] == rows
    ensures StoredWatermark(rows, BlockOf, None).Some? && StoredWatermark(rows, BlockOf, None).value > 0 ==>
      StoredWatermark(stored, BlockOf, None).Some? && StoredWatermark(stored, BlockOf, None).value >= StoredWatermark(rows, BlockOf, None).value
  {
    if StoredWatermark(rows, BlockOf, None).Some? && StoredWatermark(rows, BlockOf, None).value > 0 {
      var extra := stored[|rows|..];
      assert stored == rows + extra;
      StoredWatermarkMonotone(rows, extra, BlockOf);
    }
  }

  lemma RunInsertsFetchedEvents(rows: seq<UserStakedEvent>, readError: Option<Error>, chain: Chain, server: Server)
    ensures var start := ResumeFrom(StoredWatermark(rows, BlockOf, readError), StartBlock);
      var events := Fetched(chain.logs, SubRanges(start, chain.latestBlock, BatchSize));
      var (stored, r) := StageOutcome(rows, Success(true), readError, chain, false, server, true);
      r.Success? ==>
        && r.value == |events|
        && StakedRecords(events, chain).Success?
        && stored == InsertAllIfAbsent(rows, EventKey, StakedRecords(events, chain).value)
        && |rows| <= |stored| && stored[..|rows|] == rows
  {
    var start := ResumeFrom(StoredWatermark(rows, BlockOf, readError), StartBlock);
    if start <= chain.latestBlock {
      var events := Fetched(chain.logs, SubRanges(start, chain.latestBlock, BatchSize));
      if events != [] && StakedRecords(events, chain).Success? {
        InsertSkipsExisting(false, server, rows, StakedRecords(events, chain).value);
      }
    } else {
      EmptyInterval(chain.logs, start, chain.latestBlock, BatchSize);
    }
  }

  /**
   * A block whose `get_block` raises makes the run raise that error, and nothing is stored:
   * the rows are built before the insert.
   */
  lemma BlockReadFailureRaises(rows: seq<UserStakedEvent>, readError: Option<Error>, chain: Chain, autocommit: bool, server: Server, hasConflictIndex: bool, i: nat)
    requires var start := ResumeFrom(StoredWatermark(rows, BlockOf, readError), StartBlock);
      var events := Fetched(chain.logs, SubRanges(start, chain.latestBlock, BatchSize));
      start <= chain.latestBlock && i < |events| && chain.blockTimestamp(events[i].blockNumber).Failure?
    ensures var (stored, r) := StageOutcome(rows, Success(true), readError, chain, autocommit, server, hasConflictIndex);
      stored == rows && r.Failure?
  {
  }

  /**
   * Read through the cursor as written, the table check's row is a tuple, so the check raises
   * `TypeError` and the run stores nothing, whatever the table and the chain hold.
   */
  lemma RunAsWrittenAlwaysRaises(rows: seq<UserStakedEvent>, present: bool, readError: Option<Error>, chain: Chain, autocommit: bool, server: Server, hasConflictIndex: bool)
    ensures var (stored, r) := StageOutcome(rows, Column(RowAsWritten(["exists"], [present]), "exists"), readError, chain, autocommit, server, hasConflictIndex);
      stored == rows && r.Failure? && r.error.TypeError?
  {
  }

  /** Read as a dict row, the check passes exactly when the table exists. */
  lemma RunAsDocumentedChecksTable(present: bool)
    ensures TableCheck(Column(RowAsDocumented(["exists"], [present]), "exists")).Success? <==> present
  {
    NamedAccessOnDictRow(["exists"], [present], 0);
  }
}
