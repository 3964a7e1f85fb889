/**
 * The shape every repository `bulk_insert` shares: an empty list returns 0 without touching the
 * database; otherwise one statement is executed per record (`executemany`) inside one
 * `db.transaction()`, and the call returns the number of records it was given.
 */
module BulkWrite {
  import opened Wrappers
  import opened Errors
  import opened Database
  import opened RowStore

  /** Plain `INSERT INTO <table> (...) VALUES (...)`, as a statement over the stored rows. */
  function PlainInsert<R>(): (seq<R>, R) -> Result<seq<R>, Error>
  {
    (rows: seq<R>, rec: R) => Success(rows + [rec])
  }

  /** `INSERT ... ON CONFLICT (<key>) DO NOTHING`, against a table with a unique index on the key. */
  function InsertOrSkip<R, K(==)>(key: R -> K): (seq<R>, R) -> Result<seq<R>, Error>
  {
    (rows: seq<R>, rec: R) => Success(InsertIfAbsent(rows, key, rec))
  }

  /** `INSERT ... ON CONFLICT (<key>) DO UPDATE SET ...` of every non-key column, against a table with a unique index on the key. */
  function InsertOrUpdate<R, K(==)>(key: R -> K): (seq<R>, R) -> Result<seq<R>, Error>
  {
    (rows: seq<R>, rec: R) => Success(Upsert(rows, key, rec))
  }

  /** A batch of plain inserts never fails and appends the batch in order. */
  lemma {:induction false} ExecutePlainInsert<R>(rows: seq<R>, recs: seq<R>)
    ensures Execute(rows, PlainInsert(), recs) == (InsertAll(rows, recs), None)
    decreases |recs|
  {
    if recs != [] {
      assert PlainInsert<R>()(rows, recs[0]) == Success(rows + [recs[0]]);
      assert Execute(rows, PlainInsert(), recs) == Execute(rows + [recs[0]], PlainInsert(), recs[1..]);
      ExecutePlainInsert(rows + [recs[0]], recs[1..]);
      assert rows + [recs[0]] + recs[1..] == rows + recs by {
        assert recs == [recs[0]] + recs[1..];
      }
    } else {
      assert rows + recs == rows;
    }
  }

  /** A batch of DO NOTHING inserts never fails and stores what `InsertAllIfAbsent` describes. */
  lemma {:induction false} ExecuteInsertOrSkip<R, K>(rows: seq<R>, key: R -> K, recs: seq<R>)
    ensures Execute(rows, InsertOrSkip(key), recs) == (InsertAllIfAbsent(rows, key, recs), None)
    decreases |recs|
  {
    if recs != [] {
      ExecuteInsertOrSkip(InsertIfAbsent(rows, key, recs[0]), key, recs[1..]);
    }
  }

  /** A batch of upserts never fails and stores what `UpsertAll` describes. */
  lemma {:induction false} ExecuteInsertOrUpdate<R, K>(rows: seq<R>, key: R -> K, recs: seq<R>)
    ensures Execute(rows, InsertOrUpdate(key), recs) == (UpsertAll(rows, key, recs), None)
    decreases |recs|
  {
    if recs != [] {
      ExecuteInsertOrUpdate(Upsert(rows, key, recs[0]), key, recs[1..]);
    }
  }

  /** The rows stored after `bulk_insert(records)` and what it returns or raises. */
  function BulkOutcome<R>(autocommit: bool, server: Server, rows: seq<R>, sql: (seq<R>, R) -> Result<seq<R>, Error>, records: seq<R>): (o: (seq<R>, Result<nat, Error>))
    ensures records == [] ==> o == (rows, Success(0))
    ensures o.1.Success? && records != [] ==> o.1.value == |records| && o.0 == Execute(rows, sql, records).0
    ensures o.1.Failure? && !autocommit ==> o.0 == rows
    ensures o.1.Success? <==> records == [] || (Acquired(server).Success? && Execute(rows, sql, records).1.None? && (autocommit || server.commitError.None?))
  {
    if records == [] then (rows, Success(0))
    else
      var (s, r) := TransactionOutcome(autocommit, server, rows, sql, records);
      (s, if r.Success? then Success(|records|) else Failure(r.error))
  }

  /**
   * A table written only by plain-insert `bulk_insert` (`UserWithdrawnEventsRepository`, and
   * `UserClaimLockedRepository` and `OverplusBridgedEventsRepository`, which share its code).
   */
  class AppendOnlyTable<R> {
    var rows: seq<R>
    const db: Database

    constructor (db: Database, rows: seq<R>)
      ensures this.db == db && this.rows == rows
    {
      this.db := db;
      this.rows := rows;
    }

    /** `bulk_insert`: plain inserts, without conflict handling, in one transaction. */
    method BulkInsert(records: seq<R>, server: Server) returns (r: Result<nat, Error>)
      modifies this, db
      ensures db.inUse == old(db.inUse)
      ensures (rows, r) == BulkOutcome(db.cfg.autocommit, server, old(rows), PlainInsert(), records)
    {
      if records == [] {
        return Success(0);
      }
      var stored, t := db.Transaction(rows, PlainInsert(), records, server);
      rows := stored;
      r := if t.Success? then Success(|records|) else Failure(t.error);
    }
  }
}
