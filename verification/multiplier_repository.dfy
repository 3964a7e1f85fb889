/** app/repository/user_multiplier_repository.py: the `user_multiplier` table, rebuilt on every run. */
module MultiplierRepository {
  import opened Wrappers
  import opened Errors
  import opened Records
  import opened Sequences
  import opened RowStore
  import opened Database
  import opened BulkWrite

  function BlockOf(m: UserMultiplier): int
  {
    m.blockNumber
  }

  /**
   * The row `bulk_insert` writes for `rec`, given the first record of the batch: the column
   * list is the first record's non-`None` fields, so a first record without a multiplier means
   * no record's multiplier is written (the column is left NULL), and a first record with one
   * makes a later record without one raise `KeyError('multiplier')`.
   */
  function ValuesRow(first: UserMultiplier, rec: UserMultiplier): Result<UserMultiplier, Error>
  {
    if first.multiplier.None? then Success(rec.(multiplier := None))
    else if rec.multiplier.None? then Failure(KeyError("multiplier"))
    else Success(rec)
  }

  /** The `values_list` of `bulk_insert` for a batch headed by `first`, or the error building it raised. */
  function ValuesList(first: UserMultiplier, records: seq<UserMultiplier>): Result<seq<UserMultiplier>, Error>
  {
    if records == [] then Success([])
    else
      var init := ValuesList(first, records[..|records| - 1]);
      var last := ValuesRow(first, records[|records| - 1]);
      if init.Failure? then init
      else if last.Failure? then Failure(last.error)
      else Success(init.value + [last.value])
  }

  /**
   * The values list with each row built from its own record's non-`None` fields rather than
   * the first record's: it never fails, and every record is written as it is, its multiplier
   * included, NULL only where the record has none.
   */
  function {:induction false} IntendedValues(records: seq<UserMultiplier>): (r: Result<seq<UserMultiplier>, Error>)
    ensures r.Success? && |r.value| == |records|
    ensures forall i :: 0 <= i < |records| ==> r.value[i].multiplier == records[i].multiplier
    ensures r == Success(records)
  {
    if records == [] then Success([])
    else
      assert records == records[..|records| - 1] + [records[|records| - 1]];
      var init := IntendedValues(records[..|records| - 1]);
      var last := ValuesRow(records[|records| - 1], records[|records| - 1]);
      if init.Failure? then init
      else if last.Failure? then Failure(last.error)
      else Success(init.value + [last.value])
  }

  /**
   * When the first record has a multiplier, the batch is written as given exactly when every
   * record has one; a missing multiplier after the first record fails the whole batch.
   */
  lemma {:induction false} ValuesListWithMultiplier(first: UserMultiplier, records: seq<UserMultiplier>)
    requires first.multiplier.Some?
    ensures ValuesList(first, records).Success? <==> forall i :: 0 <= i < |records| ==> records[i].multiplier.Some?
    ensures ValuesList(first, records).Success? ==> ValuesList(first, records) == IntendedValues(records)
  {
    if records != [] {
      var init := records[..|records| - 1];
      ValuesListWithMultiplier(first, init);
      assert forall i :: 0 <= i < |init| ==> init[i] == records[i];
      assert records == init + [records[|records| - 1]];
    }
  }

  /** When the first record has no multiplier, every row is written with a NULL multiplier. */
  lemma {:induction false} ValuesListWithoutMultiplier(first: UserMultiplier, records: seq<UserMultiplier>)
    requires first.multiplier.None?
    ensures ValuesList(first, records).Success?
    ensures |ValuesList(first, records).value| == |records|
    ensures forall i :: 0 <= i < |records| ==> ValuesList(first, records).value[i] == records[i].(multiplier := None)
  {
    if records != [] {
      var init := records[..|records| - 1];
      ValuesListWithoutMultiplier(first, init);
      assert forall i :: 0 <= i < |init| ==> init[i] == records[i];
    }
  }

  /** The values list, when built, has one row per record. */
  lemma ValuesListLength(first: UserMultiplier, records: seq<UserMultiplier>)
    ensures ValuesList(first, records).Success? ==> |ValuesList(first, records).value| == |records|
  {
    if first.multiplier.Some? {
      ValuesListWithMultiplier(first, records);
    } else {
      ValuesListWithoutMultiplier(first, records);
    }
  }

  /** A batch whose first record has no multiplier stores a NULL multiplier for a later record that had one. */
  lemma FirstWithoutMultiplierDropsTheRest(a: UserMultiplier, b: UserMultiplier)
    requires a.multiplier.None? && b.multiplier.Some?
    ensures ValuesList(a, [a, b]).Success? && |ValuesList(a, [a, b]).value| == 2
    ensures ValuesList(a, [a, b]).value[1].multiplier.None?
    ensures ValuesList(a, [a, b]) != IntendedValues([a, b])
  {
    ValuesListWithoutMultiplier(a, [a, b]);
    assert [a, b][1] == b;
  }

  /** The loop of `bulk_insert` that builds `values_list` from the first record's columns. */
  method BuildValues(records: seq<UserMultiplier>) returns (r: Result<seq<UserMultiplier>, Error>)
    requires records != []
    ensures r == ValuesList(records[0], records)
  {
    var first := records[0];
    var values: seq<UserMultiplier> := [];
    var i := 0;
    while i < |records|
      invariant 0 <= i <= |records|
      invariant ValuesList(first, records[..i]) == Success(values)
    {
      assert records[..i + 1][..i] == records[..i];
      var row := ValuesRow(first, records[i]);
      if row.Failure? {
        assert ValuesList(first, records[..i + 1]) == Failure(row.error);
        FailurePersists(first, records, i + 1);
        return Failure(row.error);
      }
      values := values + [row.value];
      i := i + 1;
    }
    assert records[..i] == records;
    r := Success(values);
  }

  /** Once a prefix fails, every longer prefix fails with the same error. */
  lemma {:induction false} FailurePersists(first: UserMultiplier, records: seq<UserMultiplier>, k: nat)
    requires k <= |records| && ValuesList(first, records[..k]).Failure?
    ensures ValuesList(first, records) == ValuesList(first, records[..k])
    decreases |records| - k
  {
    if k < |records| {
      assert records[..k + 1][..k] == records[..k];
      FailurePersists(first, records, k + 1);
    } else {
      assert records[..k] == records;
    }
  }

  /** The `DELETE FROM user_multiplier` statement. */
  function DeleteAll(): (seq<UserMultiplier>, ()) -> Result<seq<UserMultiplier>, Error>
  {
    (rows: seq<UserMultiplier>, u: ()) => Success([])
  }

  /** The rows after `bulk_insert(records)` and what it returns or raises. */
  function BulkInsertOutcome(autocommit: bool, server: Server, rows: seq<UserMultiplier>, records: seq<UserMultiplier>): (seq<UserMultiplier>, Result<nat, Error>)
  {
    if records == [] then (rows, Success(0))
    else
      match ValuesList(records[0], records)
      case Failure(e) => (rows, Failure(e))
      case Success(values) => BulkOutcome(autocommit, server, rows, PlainInsert(), values)
  }

  /** `UserMultiplierRepository` */
  class Repository {
    var rows: seq<UserMultiplier>
    const db: Database

    constructor (db: Database, rows: seq<UserMultiplier>)
      ensures this.db == db && this.rows == rows
    {
      this.db := db;
      this.rows := rows;
    }

    /** `bulk_insert`: plain inserts of the rows built from the first record's columns, in one transaction. */
    method BulkInsert(records: seq<UserMultiplier>, server: Server) returns (r: Result<nat, Error>)
      modifies this, db
      ensures db.inUse == old(db.inUse)
      ensures (rows, r) == BulkInsertOutcome(db.cfg.autocommit, server, old(rows), records)
    {
      if records == [] {
        return Success(0);
      }
      var values := BuildValues(records);
      if values.Failure? {
        return Failure(values.error);
      }
      assert |values.value| == |records| by {
        ValuesListLength(records[0], records);
      }
      var stored, t := db.Transaction(rows, PlainInsert(), values.value, server);
      rows := stored;
      r := if t.Success? then Success(|values.value|) else Failure(t.error);
    }

    /** `clean_table`: delete every row in one transaction, then return True. */
    method CleanTable(server: Server) returns (r: Result<bool, Error>)
      modifies this, db
      ensures db.inUse == old(db.inUse)
      ensures var (s, t) := TransactionOutcome(db.cfg.autocommit, server, old(rows), DeleteAll(), [()]);
        rows == s && r == (if t.Success? then Success(true) else Failure(t.error))
    {
      var stored, t := db.Transaction(rows, DeleteAll(), [()], server);
      rows := stored;
      r := if t.Success? then Success(true) else Failure(t.error);
    }
  }

  /** `clean_table` returns True exactly when it committed, and then the table is empty; otherwise nothing is deleted. */
  lemma CleanTableEmpties(server: Server, rows: seq<UserMultiplier>)
    ensures var (s, t) := TransactionOutcome(false, server, rows, DeleteAll(), [()]);
      && (t.Success? <==> Acquired(server).Success? && server.commitError.None?)
      && (t.Success? ==> s == [])
      && (t.Failure? ==> s == rows)
  {
    assert Execute(rows, DeleteAll(), [()]) == ([], None);
  }

  /**
   * A committed batch whose records all carry a multiplier appends them all, in order, after the
   * stored rows: nothing is checked for duplicates. The count is the batch length.
   */
  lemma BulkInsertAppends(autocommit: bool, server: Server, rows: seq<UserMultiplier>, records: seq<UserMultiplier>)
    requires records != [] && forall i :: 0 <= i < |records| ==> records[i].multiplier.Some?
    ensures var (stored, r) := BulkInsertOutcome(autocommit, server, rows, records);
      r.Success? ==> stored == rows + records && r.value == |records|
  {
    ValuesListWithMultiplier(records[0], records);
    ExecutePlainInsert(rows, records);
  }

  /** Inserting the same batch twice stores every record twice. */
  lemma DuplicatesAccumulate(server: Server, m: UserMultiplier)
    requires m.multiplier.Some? && Acquired(server).Success? && server.commitError.None?
    ensures BulkInsertOutcome(false, server, [m], [m]) == ([m, m], Success(1))
  {
    ValuesListWithMultiplier(m, [m]);
    ExecutePlainInsert([m], [m]);
    assert InsertAll([m], [m]) == [m, m];
  }

  predicate OfUserAndPool(m: UserMultiplier, user: string, pool: int)
  {
    m.userAddress == user && m.poolId == pool
  }

  /** `get_latest_by_user_and_pool`: a row of that user and pool with the highest block, or `None`. */
  function LatestByUserAndPool(rows: seq<UserMultiplier>, user: string, pool: int): (r: Option<UserMultiplier>)
    ensures r.None? <==> forall i :: 0 <= i < |rows| ==> !OfUserAndPool(rows[i], user, pool)
    ensures r.Some? ==> r.value in rows && OfUserAndPool(r.value, user, pool)
    ensures r.Some? ==> forall i :: 0 <= i < |rows| && OfUserAndPool(rows[i], user, pool) ==> rows[i].blockNumber <= r.value.blockNumber
  {
    var p := (m: UserMultiplier) => OfUserAndPool(m, user, pool);
    var mine := Filter(rows, p);
    assert forall i :: 0 <= i < |rows| && p(rows[i]) ==> rows[i] in mine;
    match MaxBy(mine, BlockOf)
    case None => None
    case Some(m) =>
      assert p(m);
      Some(m)
  }
}
