/** app/repository/emission_repository.py: the `emissions` table, one row per date. */
module EmissionRepository {
  import opened Wrappers
  import opened Errors
  import opened Calendar
  import opened Records
  import opened Sequences
  import opened Sorting
  import opened RowStore
  import opened Database
  import opened BulkWrite

  /** The conflict target (`date`, unique in the seeded schema). */
  function DateOf(e: Emission): Date
  {
    e.date
  }

  function DateKey(e: Emission): int
  {
    Key(e.date)
  }

  /** `EmissionRepository` */
  class Repository {
    var rows: seq<Emission>
    const db: Database

    constructor (db: Database, rows: seq<Emission>)
      ensures this.db == db && this.rows == rows
    {
      this.db := db;
      this.rows := rows;
    }

    /** `bulk_insert`: every record through `ON CONFLICT (date) DO UPDATE` of the eight other columns, in one transaction. */
    method BulkInsert(records: seq<Emission>, server: Server) returns (r: Result<nat, Error>)
      modifies this, db
      ensures db.inUse == old(db.inUse)
      ensures (rows, r) == BulkOutcome(db.cfg.autocommit, server, old(rows), InsertOrUpdate(DateOf), records)
    {
      if records == [] {
        return Success(0);
      }
      var stored, t := db.Transaction(rows, InsertOrUpdate(DateOf), records, server);
      rows := stored;
      r := if t.Success? then Success(|records|) else Failure(t.error);
    }
  }

  /**
   * A committed batch keeps one row per date, and the row of a date in the batch carries every
   * column of the batch's last record for that date (day, the five category emissions, the
   * total emission and the total supply).
   */
  lemma UpsertReplacesRow(autocommit: bool, server: Server, rows: seq<Emission>, records: seq<Emission>)
    requires records != []
    ensures var (stored, r) := BulkOutcome(autocommit, server, rows, InsertOrUpdate(DateOf), records);
      r.Success? ==>
        && r.value == |records|
        && stored == UpsertAll(rows, DateOf, records)
        && |rows| <= |stored| <= |rows| + |records|
        && (UniqueKeys(rows, DateOf) ==> UniqueKeys(stored, DateOf))
        && (forall i :: 0 <= i < |rows| && !HasKey(records, DateOf, rows[i].date) ==> stored[i] == rows[i])
        && (forall i :: 0 <= i < |stored| && HasKey(records, DateOf, stored[i].date) ==>
              var last := LastWithKey(records, DateOf, stored[i].date);
              && stored[i].day == last.day && stored[i].capital == last.capital && stored[i].code == last.code
              && stored[i].compute == last.compute && stored[i].community == last.community
              && stored[i].protection == last.protection && stored[i].totalEmission == last.totalEmission
              && stored[i].totalSupply == last.totalSupply)
  {
    ExecuteInsertOrUpdate(rows, DateOf, records);
    UpsertAllSpec(rows, DateOf, records);
  }

  /** Two records for one new date in one batch leave a single row: the later one. */
  lemma SameDateTwiceKeepsLater(server: Server, a: Emission, b: Emission)
    requires a.date == b.date
    requires Acquired(server).Success? && server.commitError.None?
    ensures BulkOutcome(false, server, [], InsertOrUpdate(DateOf), [a, b]) == ([b], Success(2))
  {
    ExecuteInsertOrUpdate([], DateOf, [a, b]);
    assert Upsert([], DateOf, a) == [a];
    assert HasKey([a], DateOf, b.date) by {
      assert [a][0] == a;
    }
    var u := Upsert([a], DateOf, b);
    assert |u| == 1 && u[0] == b;
    assert u == [b];
    assert [a, b][1..] == [b] && [a, b][1..][1..] == [];
    assert UpsertAll([], DateOf, [a, b]) == UpsertAll([a], DateOf, [b]) == UpsertAll(u, DateOf, []);
  }

  /** `get_latest`: the row with the greatest date, `None` for an empty table. */
  function Latest(rows: seq<Emission>): (r: Option<Emission>)
    ensures r.None? <==> rows == []
    ensures r.Some? ==> r.value in rows && forall i :: 0 <= i < |rows| ==> Key(rows[i].date) <= Key(r.value.date)
  {
    MaxBy(rows, DateKey)
  }

  predicate InDateRange(e: Emission, startDate: Date, endDate: Date)
  {
    Key(startDate) <= Key(e.date) <= Key(endDate)
  }

  /** `get_by_date_range`: the rows dated from `start_date` to `end_date`, both included, in date order. */
  function ByDateRange(rows: seq<Emission>, startDate: Date, endDate: Date): (r: seq<Emission>)
    ensures SortedBy(r, DateKey)
    ensures forall i :: 0 <= i < |r| ==> r[i] in rows && InDateRange(r[i], startDate, endDate)
    ensures forall i :: 0 <= i < |rows| && InDateRange(rows[i], startDate, endDate) ==> rows[i] in r
    ensures forall x :: x in rows ==> multiset(r)[x] == if InDateRange(x, startDate, endDate) then multiset(rows)[x] else 0
  {
    Select(rows, (e: Emission) => InDateRange(e, startDate, endDate), DateKey)
  }
}
