/** app/repository/circulating_supply_repository.py: the `circulating_supply` table, one row per date. */
module CirculatingSupplyRepository {
  import opened Wrappers
  import opened Errors
  import opened Calendar
  import opened Text
  import opened Records
  import opened Sequences
  import opened RowStore
  import opened Database
  import opened BulkWrite

  /** The conflict target (`date`, unique in the seeded schema). */
  function DateOf(c: CirculatingSupply): Date
  {
    c.date
  }

  function DateKey(c: CirculatingSupply): int
  {
    Key(c.date)
  }

  /** A `date` entry of `save_new_supply_data`'s input: a date, or text in `%d/%m/%Y`. */
  datatype DateField = DateValue(date: Date) | DateText(text: string)

  /** One dict of `save_new_supply_data`'s input. */
  datatype SupplyInput = SupplyInput(date: DateField, supply: real, blockTimestamp: int, totalClaimed: real)

  /** What `strptime(..., '%d/%m/%Y')` raises on text that is not such a date. */
  const BadDate := ValueError("time data does not match format '%d/%m/%Y'")

  /** The record `save_new_supply_data` builds from one input dict. */
  function SupplyRecord(x: SupplyInput): (r: Result<CirculatingSupply, Error>)
  {
    match x.date
    case DateValue(d) => Success(CirculatingSupply(d, x.supply, x.blockTimestamp, x.totalClaimed))
    case DateText(t) =>
      match ParseDmy(t)
      case None => Failure(BadDate)
      case Some(d) => Success(CirculatingSupply(d, x.supply, x.blockTimestamp, x.totalClaimed))
  }

  /** The records built from a whole input list, or the error of the first one that fails. */
  function SupplyRecords(xs: seq<SupplyInput>): Result<seq<CirculatingSupply>, Error>
  {
    if xs == [] then Success([])
    else
      var init := SupplyRecords(xs[..|xs| - 1]);
      var last := SupplyRecord(xs[|xs| - 1]);
      if init.Failure? then init
      else if last.Failure? then Failure(last.error)
      else Success(init.value + [last.value])
  }

  /**
   * The record list is the inputs one for one, with the supply, timestamp and claimed amount
   * copied and text dates read as `%d/%m/%Y`; one unreadable date fails the whole call.
   */
  lemma {:induction false} SupplyRecordsSpec(xs: seq<SupplyInput>)
    ensures SupplyRecords(xs).Success? <==> forall i :: 0 <= i < |xs| ==> SupplyRecord(xs[i]).Success?
    ensures SupplyRecords(xs).Success? ==>
      && |SupplyRecords(xs).value| == |xs|
      && forall i :: 0 <= i < |xs| ==> SupplyRecords(xs).value[i] == SupplyRecord(xs[i]).value
  {
    if xs != [] {
      var init := xs[..|xs| - 1];
      SupplyRecordsSpec(init);
      assert forall i :: 0 <= i < |init| ==> init[i] == xs[i];
    }
  }

  /** A date written back as `%d/%m/%Y` text is stored under that same date. */
  lemma TextDateRoundTrip(d: Date, supply: real, ts: int, claimed: real)
    requires ValidDate(d) && 1000 <= d.year <= 9999
    ensures SupplyRecord(SupplyInput(DateText(FormatDmy(d)), supply, ts, claimed)) == Success(CirculatingSupply(d, supply, ts, claimed))
  {
    DmyRoundTrip(d);
  }

  /** The record-building loop of `save_new_supply_data`. */
  method BuildRecords(xs: seq<SupplyInput>) returns (r: Result<seq<CirculatingSupply>, Error>)
    ensures r == SupplyRecords(xs)
  {
    var records: seq<CirculatingSupply> := [];
    var i := 0;
    while i < |xs|
      invariant 0 <= i <= |xs|
      invariant SupplyRecords(xs[..i]) == Success(records)
    {
      assert xs[..i + 1][..i] == xs[..i];
      var rec := SupplyRecord(xs[i]);
      if rec.Failure? {
        assert SupplyRecords(xs[..i + 1]) == Failure(rec.error);
        FailurePersists(xs, i + 1);
        return Failure(rec.error);
      }
      records := records + [rec.value];
      i := i + 1;
    }
    assert xs[..i] == xs;
    r := Success(records);
  }

  /** Once a prefix fails, every longer prefix fails with the same error. */
  lemma {:induction false} FailurePersists(xs: seq<SupplyInput>, k: nat)
    requires k <= |xs| && SupplyRecords(xs[..k]).Failure?
    ensures SupplyRecords(xs) == SupplyRecords(xs[..k])
    decreases |xs| - k
  {
    if k < |xs| {
      assert xs[..k + 1][..k] == xs[..k];
      FailurePersists(xs, k + 1);
    } else {
      assert xs[..k] == xs;
    }
  }

  /** `CirculatingSupplyRepository` */
  class Repository {
    var rows: seq<CirculatingSupply>
    const db: Database

    constructor (db: Database, rows: seq<CirculatingSupply>)
      ensures this.db == db && this.rows == rows
    {
      this.db := db;
      this.rows := rows;
    }

    /** `bulk_insert`: every record through `ON CONFLICT (date) DO UPDATE` in one transaction. */
    method BulkInsert(records: seq<CirculatingSupply>, server: Server) returns (r: Result<nat, Error>)
      modifies this, db
      ensures db.inUse == old(db.inUse)
      ensures (rows, r) == BulkOutcome(db.cfg.autocommit, server, old(rows), InsertOrUpdate(DateOf), records)
    {
      if records == [] {
        return Success(0);
      }
      var stored, t := db.Transaction(rows, InsertOrUpdate(DateOf), records, server);
      rows := stored;
      r := if t.Success? then Success(|records|) else Failure(t.error);
    }

    /** `save_new_supply_data`: build the records, then `bulk_insert` them. */
    method SaveNewSupplyData(newData: seq<SupplyInput>, server: Server) returns (r: Result<nat, Error>)
      modifies this, db
      ensures db.inUse == old(db.inUse)
      ensures newData == [] ==> r == Success(0) && rows == old(rows)
      ensures SupplyRecords(newData).Failure? ==> r == Failure(SupplyRecords(newData).error) && rows == old(rows)
      ensures SupplyRecords(newData).Success? ==>
        (rows, r) == BulkOutcome(db.cfg.autocommit, server, old(rows), InsertOrUpdate(DateOf), SupplyRecords(newData).value)
    {
      if newData == [] {
        return Success(0);
      }
      var records := BuildRecords(newData);
      if records.Failure? {
        return Failure(records.error);
      }
      r := BulkInsert(records.value, server);
    }
  }

  /**
   * A committed batch leaves at most one row per date, overwrites the row of every date in the
   * batch with the batch's last record for that date, leaves every other row as it was, and
   * returns the batch length.
   */
  lemma UpsertLatestWins(autocommit: bool, server: Server, rows: seq<CirculatingSupply>, records: seq<CirculatingSupply>)
    requires records != []
    ensures var (stored, r) := BulkOutcome(autocommit, server, rows, InsertOrUpdate(DateOf), records);
      r.Success? ==>
        && r.value == |records|
        && stored == UpsertAll(rows, DateOf, records)
        && |rows| <= |stored| <= |rows| + |records|
        && (UniqueKeys(rows, DateOf) ==> UniqueKeys(stored, DateOf))
        && (forall i :: 0 <= i < |rows| && !HasKey(records, DateOf, rows[i].date) ==> stored[i] == rows[i])
        && (forall i :: 0 <= i < |stored| && HasKey(records, DateOf, stored[i].date) ==> stored[i] == LastWithKey(records, DateOf, stored[i].date))
  {
    ExecuteInsertOrUpdate(rows, DateOf, records);
    UpsertAllSpec(rows, DateOf, records);
  }

  /** `get_latest`: the row with the greatest date, `None` for an empty table. */
  function Latest(rows: seq<CirculatingSupply>): (r: Option<CirculatingSupply>)
    ensures r.None? <==> rows == []
    ensures r.Some? ==> r.value in rows && forall i :: 0 <= i < |rows| ==> Key(rows[i].date) <= Key(r.value.date)
  {
    MaxBy(rows, DateKey)
  }

  /**
   * `get_latest` as written: the `fetchone` row is a tuple, and `CirculatingSupply(**result)`
   * refuses it, so any stored row makes the read raise `TypeError`.
   */
  function LatestAsWritten(rows: seq<CirculatingSupply>): (r: Result<Option<CirculatingSupply>, Error>)
    ensures r.Success? <==> rows == []
    ensures r.Success? ==> r.value.None?
    ensures r.Failure? ==> r.error.TypeError?
  {
    match Latest(rows)
    case None => Success(None)
    case Some(_) => Failure(TypeError("argument after ** must be a mapping, not tuple"))
  }

  /** Row `i` is a latest row dated on or before `d`. */
  predicate LatestUpTo(rows: seq<CirculatingSupply>, d: Date, i: int)
  {
    0 <= i < |rows| && Key(rows[i].date) <= Key(d) &&
    forall j :: 0 <= j < |rows| && Key(rows[j].date) <= Key(d) ==> Key(rows[j].date) <= Key(rows[i].date)
  }

  /** The supply of the latest row dated on or before `d`, as the growth-rate subqueries read it. */
  function SupplyAsOf(rows: seq<CirculatingSupply>, d: Date): (s: Option<real>)
    ensures s.None? <==> forall i :: 0 <= i < |rows| ==> Key(rows[i].date) > Key(d)
    ensures s.Some? ==> exists i :: LatestUpTo(rows, d, i) && rows[i].supply == s.value
  {
    var p := (c: CirculatingSupply) => Key(c.date) <= Key(d);
    var upTo := Filter(rows, p);
    match MaxBy(upTo, DateKey)
    case None =>
      assert forall i :: 0 <= i < |rows| && p(rows[i]) ==> rows[i] in upTo;
      None
    case Some(c) =>
      var i :| 0 <= i < |rows| && rows[i] == c;
      assert forall j :: 0 <= j < |rows| && p(rows[j]) ==> rows[j] in upTo;
      assert LatestUpTo(rows, d, i);
      Some(c.supply)
  }

  /**
   * `get_supply_growth_rate` on the two endpoint supplies: `(0, 0)` when either is missing;
   * otherwise the absolute change and the change as a percentage of the start, which is 0 for
   * a start of 0.
   */
  function Growth(startSupply: Option<real>, endSupply: Option<real>): (g: (real, real))
  {
    match (startSupply, endSupply)
    case (Some(s), Some(e)) => (e - s, if s != 0.0 then (e - s) / s * 100.0 else 0.0)
    case _ => (0.0, 0.0)
  }

  /**
   * `get_supply_growth_rate` for the window from `startDate` to `endDate` (the caller's today
   * minus `period_days`, and today).
   */
  function GrowthRate(rows: seq<CirculatingSupply>, startDate: Date, endDate: Date): (real, real)
  {
    Growth(SupplyAsOf(rows, startDate), SupplyAsOf(rows, endDate))
  }

  /** The growth relates the two endpoint supplies: `start + absolute == end` and, for a non-zero start, `percentage * start == 100 * absolute`. */
  lemma GrowthSpec(startSupply: Option<real>, endSupply: Option<real>)
    ensures var (absolute, percentage) := Growth(startSupply, endSupply);
      && (startSupply.None? || endSupply.None? ==> absolute == 0.0 && percentage == 0.0)
      && (startSupply.Some? && endSupply.Some? ==>
            && startSupply.value + absolute == endSupply.value
            && (startSupply.value != 0.0 ==> percentage * startSupply.value == 100.0 * absolute)
            && (startSupply.value == 0.0 ==> percentage == 0.0))
  {
    if startSupply.Some? && endSupply.Some? && startSupply.value != 0.0 {
      PercentageScales(endSupply.value - startSupply.value, startSupply.value);
    }
  }

  lemma PercentageScales(a: real, s: real)
    requires s != 0.0
    ensures a / s * 100.0 * s == 100.0 * a
  {
    assert a / s * s == a;
    assert a / s * 100.0 * s == (a / s * s) * 100.0;
  }
}
