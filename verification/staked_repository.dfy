/** app/repository/user_staked_events_repository.py: the `user_staked_events` table. */
module StakedEventsRepository {
  import opened Wrappers
  import opened Errors
  import opened Records
  import opened Sequences
  import opened Sorting
  import opened RowStore
  import opened Database
  import opened BulkWrite

  /** The conflict target of `bulk_insert`: (transaction_hash, block_number). */
  function EventKey(e: UserStakedEvent): (string, int)
  {
    (e.transactionHash, e.blockNumber)
  }

  function BlockOf(e: UserStakedEvent): int
  {
    e.blockNumber
  }

  /** The table as the seed script creates it has indexes on block, user and pool, none of them unique. */
  const SeededSchemaHasConflictIndex := false

  /** What PostgreSQL raises for an `ON CONFLICT (<columns>)` that no unique index matches. */
  const NoMatchingConstraint := SqlError("there is no unique or exclusion constraint matching the ON CONFLICT specification")

  /**
   * The `ON CONFLICT (transaction_hash, block_number) DO NOTHING` statement: skip a row whose
   * key is stored when a unique index on the key exists, and rejected outright when none does.
   */
  function InsertStatement(hasConflictIndex: bool): (seq<UserStakedEvent>, UserStakedEvent) -> Result<seq<UserStakedEvent>, Error>
  {
    if hasConflictIndex then InsertOrSkip(EventKey)
    else (rows: seq<UserStakedEvent>, e: UserStakedEvent) => Failure(NoMatchingConstraint)
  }

  /** `UserStakedEventsRepository`: the stored rows, in insertion order, and the database they live in. */
  class Repository {
    var rows: seq<UserStakedEvent>
    const db: Database
    const hasConflictIndex: bool

    constructor (db: Database, hasConflictIndex: bool, rows: seq<UserStakedEvent>)
      ensures this.db == db && this.hasConflictIndex == hasConflictIndex && this.rows == rows
    {
      this.db := db;
      this.hasConflictIndex := hasConflictIndex;
      this.rows := rows;
    }

    /** `bulk_insert`: every record through the DO NOTHING statement in one transaction. */
    method BulkInsert(records: seq<UserStakedEvent>, server: Server) returns (r: Result<nat, Error>)
      modifies this, db
      ensures db.inUse == old(db.inUse)
      ensures (rows, r) == BulkOutcome(db.cfg.autocommit, server, old(rows), InsertStatement(hasConflictIndex), records)
    {
      if records == [] {
        return Success(0);
      }
      var stored, t := db.Transaction(rows, InsertStatement(hasConflictIndex), records, server);
      rows := stored;
      r := if t.Success? then Success(|records|) else Failure(t.error);
    }
  }

  /**
   * With a unique index on the key, a committed batch keeps every stored row, silently skips
   * the records whose key is already stored (or came earlier in the batch), leaves a row for
   * every record's key, and reports the batch length rather than the rows added.
   */
  lemma InsertSkipsExisting(autocommit: bool, server: Server, rows: seq<UserStakedEvent>, records: seq<UserStakedEvent>)
    requires records != []
    ensures var (stored, r) := BulkOutcome(autocommit, server, rows, InsertStatement(true), records);
      r.Success? ==>
        && r.value == |records|
        && stored == InsertAllIfAbsent(rows, EventKey, records)
        && |rows| <= |stored| <= |rows| + |records|
        && stored[..|rows|] == rows
        && (forall j :: 0 <= j < |records| ==> HasKey(stored, EventKey, EventKey(records[j])))
        && (UniqueKeys(rows, EventKey) ==> UniqueKeys(stored, EventKey))
  {
    ExecuteInsertOrSkip(rows, EventKey, records);
    InsertAllIfAbsentSpec(rows, EventKey, records);
  }

  /** Re-inserting a stored event changes nothing, raises nothing and still returns 1. */
  lemma ReinsertIsCountedNotStored(server: Server, e: UserStakedEvent)
    requires Acquired(server).Success? && server.commitError.None?
    ensures BulkOutcome(false, server, [e], InsertStatement(true), [e]) == ([e], Success(1))
  {
    ExecuteInsertOrSkip([e], EventKey, [e]);
    assert HasKey([e], EventKey, EventKey(e)) by {
      assert [e][0] == e;
    }
  }

  /**
   * Against the table the seed script creates, a non-empty batch always fails and stores
   * nothing, whether or not the connection autocommits.
   */
  lemma SeededSchemaRejectsBatch(autocommit: bool, server: Server, rows: seq<UserStakedEvent>, records: seq<UserStakedEvent>)
    requires records != []
    ensures var (stored, r) := BulkOutcome(autocommit, server, rows, InsertStatement(SeededSchemaHasConflictIndex), records);
      && stored == rows
      && r == Failure(if Acquired(server).Failure? then Acquired(server).error else NoMatchingConstraint)
  {
    assert Execute(rows, InsertStatement(false), records) == (rows, Some(NoMatchingConstraint));
  }

  /** `get_last_processed_block`: `MAX(block_number)`, or `None` for an empty table; a block 0 is kept. */
  function LastProcessedBlock(rows: seq<UserStakedEvent>): (b: Option<int>)
    ensures b.None? <==> rows == []
    ensures b.Some? ==> exists i :: 0 <= i < |rows| && rows[i].blockNumber == b.value
    ensures b.Some? ==> forall i :: 0 <= i < |rows| ==> rows[i].blockNumber <= b.value
  {
    match MaxBy(rows, BlockOf)
    case None => None
    case Some(e) => Some(e.blockNumber)
  }

  predicate InBlockRange(e: UserStakedEvent, startBlock: int, endBlock: int)
  {
    startBlock <= e.blockNumber <= endBlock
  }

  /** `get_by_block_range`: the rows with `start_block <= block_number <= end_block`, ordered by block. */
  function ByBlockRange(rows: seq<UserStakedEvent>, startBlock: int, endBlock: int): (r: seq<UserStakedEvent>)
    ensures SortedBy(r, BlockOf)
    ensures forall i :: 0 <= i < |r| ==> r[i] in rows && InBlockRange(r[i], startBlock, endBlock)
    ensures forall i :: 0 <= i < |rows| && InBlockRange(rows[i], startBlock, endBlock) ==> rows[i] in r
    ensures forall x :: x in rows ==> multiset(r)[x] == if InBlockRange(x, startBlock, endBlock) then multiset(rows)[x] else 0
  {
    Select(rows, (e: UserStakedEvent) => InBlockRange(e, startBlock, endBlock), BlockOf)
  }
}
