/**
 * scripts/vii_update_emissions.py: parse the emission schedule (one row per day, with the
 * emission of each category, the total emission and the total supply) from delimited text,
 * and hand the parsed rows to the emissions repository.
 */
module EmissionsStage {
  import opened Wrappers
  import opened Errors
  import opened Calendar
  import opened Text
  import opened Records
  import opened Sequences

  /** A parsed text row: column name to cell; a cell `csv.DictReader` had no field for is `None`. */
  type Row = map<string, Option<string>>

  /** What one row turns into: skipped, kept, or an exception that ends the whole parse. */
  datatype RowOutcome = Skip | Keep(emission: Emission) | Abort(error: Error)

  /** The seven decimal columns, in the order the row dictionary reads them. */
  const DecimalColumns: seq<string> := ["Capital Emission", "Code Emission", "Compute Emission",
    "Community Emission", "Protection Emission", "Total Emission", "Total Supply"]

  /** What `strptime` raises on a date it cannot read. */
  const BadDate := ValueError("time data does not match format '%Y-%m-%d'")

  /** `dict(zip(header, fields))`: pairs up to the shorter list; a repeated column name keeps its last cell. */
  function ZipRow(header: seq<string>, fields: seq<string>): (row: Row)
    ensures forall k :: k in row ==> row[k].Some?
    decreases |header|
  {
    if header == [] || fields == [] then map[]
    else
      var n := Min(|header|, |fields|);
      ZipRow(header[..n - 1], fields[..n - 1])[header[n - 1] := Some(fields[n - 1])]
  }

  function Min(a: nat, b: nat): nat
  {
    if a < b then a else b
  }

  /** The columns of a zipped row are the header names that have a field. */
  lemma {:induction false} ZipRowKeys(header: seq<string>, fields: seq<string>, k: string)
    ensures k in ZipRow(header, fields) <==> exists i :: 0 <= i < Min(|header|, |fields|) && header[i] == k
    decreases |header|
  {
    if header != [] && fields != [] {
      var n := Min(|header|, |fields|);
      var h, f := header[..n - 1], fields[..n - 1];
      ZipRowKeys(h, f, k);
      assert Min(|h|, |f|) == n - 1;
      if k in ZipRow(header, fields) && k != header[n - 1] {
        var i :| 0 <= i < n - 1 && h[i] == k;
        assert header[i] == k;
      }
      if i :| 0 <= i < n && header[i] == k {
        if i < n - 1 {
          assert h[i] == k;
        }
      }
    }
  }

  /** A repeated column name keeps the cell of its last position: `j`, when no later position repeats it. */
  lemma {:induction false} ZipRowLastWins(header: seq<string>, fields: seq<string>, j: nat)
    requires j < Min(|header|, |fields|)
    requires forall l :: j < l < Min(|header|, |fields|) ==> header[l] != header[j]
    ensures header[j] in ZipRow(header, fields) && ZipRow(header, fields)[header[j]] == Some(fields[j])
    decreases |header|
  {
    var n := Min(|header|, |fields|);
    if j < n - 1 {
      var h, f := header[..n - 1], fields[..n - 1];
      assert Min(|h|, |f|) == n - 1;
      ZipRowLastWins(h, f, j);
      assert h[j] == header[j];
    }
  }

  /**
   * A `csv.DictReader` row: every column of the header, with the field in its place or `None`
   * when the line is shorter; fields past the header are not kept under any column name.
   */
  function ReaderRow(header: seq<string>, fields: seq<string>): (row: Row)
    ensures forall k :: k in row <==> k in header
    decreases |header|
  {
    if header == [] then map[]
    else
      var i := |header| - 1;
      ReaderRow(header[..i], fields)[header[i] := if i < |fields| then Some(fields[i]) else None]
  }

  /** `int(row.get('Day', 0))`: 0 for a missing column; `TypeError` for `None`; `ValueError` for text that is not an integer. */
  function DayField(row: Row): (r: Result<int, Error>)
    ensures r.Failure? ==> r.error.ValueError? || r.error.TypeError?
  {
    if "Day" !in row then Success(0)
    else
      match row["Day"]
      case None => Failure(TypeError("int() argument must be a string, not 'NoneType'"))
      case Some(s) =>
        match ParseInt(s)
        case None => Failure(ValueError("invalid literal for int()"))
        case Some(v) => Success(v)
  }

  /** `Decimal(row.get(key, 0))`: 0 for a missing column; `TypeError` for `None`; `InvalidOperation` for text that is not a number. */
  function DecimalField(row: Row, key: string): Result<real, Error>
  {
    if key !in row then Success(0.0)
    else
      match row[key]
      case None => Failure(TypeError("conversion from NoneType to Decimal is not supported"))
      case Some(s) =>
        match ParseDecimal(s)
        case None => Failure(InvalidOperation)
        case Some(v) => Success(v)
  }

  /** The decimal columns `keys`, read in order: their values, or the first exception. */
  function Decimals(row: Row, keys: seq<string>): (r: Result<seq<real>, Error>)
    ensures r.Success? ==> |r.value| == |keys|
    ensures r.Failure? ==> r.error == InvalidOperation || r.error.TypeError?
  {
    if keys == [] then Success([])
    else
      match DecimalField(row, keys[0])
      case Failure(e) => Failure(e)
      case Success(v) =>
        match Decimals(row, keys[1..])
        case Failure(e) => Failure(e)
        case Success(vs) => Success([v] + vs)
  }

  /** `row.get('Date')` is truthy: the column is there, with a non-empty cell. */
  predicate HasDate(row: Row)
  {
    "Date" in row && row["Date"].Some? && row["Date"].value != ""
  }

  /**
   * One row of the parse loop. No date: skipped. A date `strptime` rejects: the exception
   * leaves the loop. Otherwise the row dictionary is built, `day` first; an exception that
   * `caught` names is logged and the row skipped, any other leaves the loop.
   */
  function ParseRow(row: Row, caught: Error -> bool): (o: RowOutcome)
    ensures o.Keep? ==> HasDate(row) && ParseYmd(row["Date"].value) == Some(o.emission.date)
    ensures !HasDate(row) ==> o == Skip
  {
    if !HasDate(row) then Skip
    else
      match ParseYmd(row["Date"].value)
      case None => Abort(BadDate)
      case Some(date) =>
        match DayField(row)
        case Failure(e) => if caught(e) then Skip else Abort(e)
        case Success(day) =>
          match Decimals(row, DecimalColumns)
          case Failure(e) => if caught(e) then Skip else Abort(e)
          case Success(vs) => Keep(Emission(day, date, vs[0], vs[1], vs[2], vs[3], vs[4], vs[5], vs[6]))
  }

  /** The inner handler AS WRITTEN: `except (ValueError, TypeError)`. */
  predicate CaughtAsWritten(e: Error)
  {
    e.ValueError? || e.TypeError?
  }

  /** The inner handler as intended: every field conversion error, `decimal.InvalidOperation` included. */
  predicate Caught(e: Error)
  {
    e.ValueError? || e.TypeError? || e.InvalidOperation?
  }

  /** The rows kept, in order, or the exception that left the loop first. */
  function Collect(rows: seq<Row>, caught: Error -> bool): (r: Result<seq<Emission>, Error>)
    ensures r.Success? ==> |r.value| <= |rows|
  {
    if rows == [] then Success([])
    else
      match Collect(rows[..|rows| - 1], caught)
      case Failure(e) => Failure(e)
      case Success(es) =>
        match ParseRow(rows[|rows| - 1], caught)
        case Abort(e) => Failure(e)
        case Skip => Success(es)
        case Keep(x) => Success(es + [x])
  }

  /** The outer handler: an exception out of the loop is logged and the parse returns `[]`. */
  function OrEmpty(r: Result<seq<Emission>, Error>): seq<Emission>
  {
    if r.Success? then r.value else []
  }

  /** The data rows of a string: strip it, split it into lines, split the first into the header and zip it with each later line. */
  function StringRows(data: string, delimiter: char): (rows: seq<Row>)
    ensures |rows| == |Split(Strip(data), '\n')| - 1
  {
    var lines := Split(Strip(data), '\n');
    var header := Split(lines[0], delimiter);
    seq(|lines| - 1, i requires 0 <= i < |lines| - 1 => ZipRow(header, Split(lines[i + 1], delimiter)))
  }

  lemma StringRow(data: string, delimiter: char, i: nat)
    requires i < |Split(Strip(data), '\n')| - 1
    ensures StringRows(data, delimiter)[i]
         == ZipRow(Split(Split(Strip(data), '\n')[0], delimiter), Split(Split(Strip(data), '\n')[i + 1], delimiter))
  {
  }

  /**
   * `parse_emission_data_from_string`, with the inner handler `caught`: the emissions of the
   * rows kept, in line order, or `[]` when an exception leaves the loop.
   */
  method ParseEmissionDataFromString(data: string, delimiter: char, caught: Error -> bool) returns (emissions: seq<Emission>)
    ensures emissions == OrEmpty(Collect(StringRows(data, delimiter), caught))
  {
    var lines := Split(Strip(data), '\n');
    var header := Split(lines[0], delimiter);
    ghost var rows := StringRows(data, delimiter);
    emissions := [];
    for i := 1 to |lines|
      invariant Collect(rows[..i - 1], caught) == Success(emissions)
    {
      var row := ZipRow(header, Split(lines[i], delimiter));
      StringRow(data, delimiter, i - 1);
      TakeLast(rows, i);
      CollectSnoc(rows[..i - 1], row, caught);
      match ParseRow(row, caught)
      case Abort(e) =>
        PrefixAborts(rows, i, caught);
        return [];
      case Skip =>
      case Keep(x) =>
        emissions := emissions + [x];
    }
    assert rows[..|lines| - 1] == rows;
  }

  /** An exception in row `i` leaves the loop, whatever the later rows hold. */
  lemma {:induction false} PrefixAborts(rows: seq<Row>, i: nat, caught: Error -> bool)
    requires 0 < i <= |rows| && Collect(rows[..i], caught).Failure?
    ensures Collect(rows, caught).Failure?
    decreases |rows| - i
  {
    if i < |rows| {
      assert rows[..i + 1][..i] == rows[..i];
      PrefixAborts(rows, i + 1, caught);
    } else {
      assert rows[..i] == rows;
    }
  }

  /** `csv.DictReader` over text: the first line names the columns, blank lines are passed over. */
  function ReaderRows(text: string, delimiter: char): seq<Row>
  {
    var lines := Split(text, '\n');
    var header := Split(lines[0], delimiter);
    NonBlank(lines[1..], header, delimiter)
  }

  function NonBlank(lines: seq<string>, header: seq<string>, delimiter: char): (rows: seq<Row>)
    ensures |rows| <= |lines|
  {
    if lines == [] then []
    else
      var rest := NonBlank(lines[..|lines| - 1], header, delimiter);
      var last := lines[|lines| - 1];
      if last == "" then rest else rest + [ReaderRow(header, Split(last, delimiter))]
  }

  /** The delimiter `parse_emission_data` picks: a comma for a `.csv` path (any case), a tab otherwise. */
  function FileDelimiter(path: string): (c: char)
    ensures c == ',' <==> EndsWithCsv(path)
  {
    if EndsWithCsv(path) then ',' else '\t'
  }

  /**
   * `parse_emission_data(path)`, given the file's text or the error opening it raised: `[]` on
   * that error, otherwise the rows of the delimited text, with the inner handler `caught`.
   */
  function ParseEmissionData(path: string, text: Result<string, Error>, caught: Error -> bool): (emissions: seq<Emission>)
  {
    match text
    case Failure(_) => []
    case Success(t) => OrEmpty(Collect(ReaderRows(t, FileDelimiter(path)), caught))
  }

  // ---------------------------------------------------------------- properties

  /** Rows with no date are skipped: they add nothing to the result. */
  lemma {:induction false} UndatedRowsSkipped(rows: seq<Row>, caught: Error -> bool)
    requires forall i :: 0 <= i < |rows| ==> !HasDate(rows[i])
    ensures Collect(rows, caught) == Success([])
  {
    if rows != [] {
      UndatedRowsSkipped(rows[..|rows| - 1], caught);
    }
  }

  /**
   * With the intended handler, a row fails the parse only through its date: every row with a
   * readable date (or none) is either kept or skipped, and a date `strptime` rejects fails it.
   */
  lemma IntendedAbortsOnlyOnDate(row: Row)
    ensures ParseRow(row, Caught).Abort? <==> HasDate(row) && ParseYmd(row["Date"].value).None?
  {
    if HasDate(row) && ParseYmd(row["Date"].value).Some? {
      var d := DayField(row);
      if d.Success? {
        var ds := Decimals(row, DecimalColumns);
        assert ds.Failure? ==> Caught(ds.error);
      }
    }
  }

  /**
   * With the intended handler and readable dates the parse keeps exactly the rows whose every
   * field converts, in order.
   */
  lemma {:induction false} IntendedKeepsConvertibleRows(rows: seq<Row>)
    requires forall i :: 0 <= i < |rows| ==> !HasDate(rows[i]) || ParseYmd(rows[i]["Date"].value).Some?
    ensures Collect(rows, Caught).Success?
    ensures Collect(rows, Caught).value == KeptRows(rows)
  {
    if rows != [] {
      var init := rows[..|rows| - 1];
      IntendedKeepsConvertibleRows(init);
      IntendedAbortsOnlyOnDate(rows[|rows| - 1]);
    }
  }

  /** The emissions of the rows that parse, in order. */
  function KeptRows(rows: seq<Row>): seq<Emission>
  {
    if rows == [] then []
    else
      var o := ParseRow(rows[|rows| - 1], Caught);
      KeptRows(rows[..|rows| - 1]) + (if o.Keep? then [o.emission] else [])
  }

  /**
   * As written, one row whose date and day read but one of whose decimals does not
   * (`Decimal('n/a')` raises `InvalidOperation`) discards every row of the data, the good rows
   * before and after it included.
   */
  lemma {:induction false} BadDecimalDiscardsAll(rows: seq<Row>, i: nat)
    requires i < |rows| && HasDate(rows[i]) && ParseYmd(rows[i]["Date"].value).Some?
    requires DayField(rows[i]).Success? && Decimals(rows[i], DecimalColumns) == Failure(InvalidOperation)
    ensures OrEmpty(Collect(rows, CaughtAsWritten)) == []
  {
    assert rows[..i + 1][..i] == rows[..i];
    assert rows[..i + 1][i] == rows[i];
    assert ParseRow(rows[i], CaughtAsWritten) == Abort(InvalidOperation);
    assert Collect(rows[..i + 1], CaughtAsWritten).Failure?;
    PrefixAborts(rows, i + 1, CaughtAsWritten);
  }

  /** A row with the date `date` and a `Capital Emission` of `bad`. */
  function BadCapital(date: string, bad: string): Row
  {
    map["Date" := Some(date), "Capital Emission" := Some(bad)]
  }

  /** A row with the date `date` and no other column: day 0 and every amount 0. */
  function DateOnly(date: string): Row
  {
    map["Date" := Some(date)]
  }

  /**
   * For any two dates `strptime` reads and any text `Decimal` rejects (`n/a`, say), the data
   * `[DateOnly(d1), BadCapital(d2, bad)]` parses to nothing as written ...
   */
  lemma BadCapitalDiscardsAll(d1: string, d2: string, bad: string)
    requires ParseYmd(d2).Some? && ParseDecimal(bad).None?
    ensures OrEmpty(Collect([DateOnly(d1), BadCapital(d2, bad)], CaughtAsWritten)) == []
  {
    BadCapitalFails(d2, bad);
    BadDecimalDiscardsAll([DateOnly(d1), BadCapital(d2, bad)], 1);
  }

  /** ... and to the first row's emission with the intended handler. */
  lemma BadCapitalSkipped(d1: string, d2: string, bad: string)
    requires ParseYmd(d1).Some? && ParseYmd(d2).Some? && ParseDecimal(bad).None?
    ensures OrEmpty(Collect([DateOnly(d1), BadCapital(d2, bad)], Caught))
         == [Emission(0, ParseYmd(d1).value, 0.0, 0.0, 0.0, 0.0, 0.0, 0.0, 0.0)]
  {
    var r0, r1 := DateOnly(d1), BadCapital(d2, bad);
    BadCapitalFails(d2, bad);
    DateOnlyKept(d1);
    CollectSnoc([], r0, Caught);
    assert [] + [r0] == [r0];
    CollectSnoc([r0], r1, Caught);
    assert [r0] + [r1] == [r0, r1];
  }

  /** The parse of `rows + [row]` extends the parse of `rows` by the outcome of `row`. */
  lemma CollectSnoc(rows: seq<Row>, row: Row, caught: Error -> bool)
    ensures Collect(rows + [row], caught) == match Collect(rows, caught)
      case Failure(e) => Failure(e)
      case Success(es) => match ParseRow(row, caught)
        case Abort(e) => Failure(e)
        case Skip => Success(es)
        case Keep(x) => Success(es + [x])
  {
    assert (rows + [row])[..|rows|] == rows;
  }

  /** `BadCapital(d, bad)` reads its date and day, fails on its first amount, and is skipped by the intended handler. */
  lemma BadCapitalFails(d: string, bad: string)
    requires ParseYmd(d).Some? && ParseDecimal(bad).None?
    ensures HasDate(BadCapital(d, bad)) && ParseYmd(BadCapital(d, bad)["Date"].value).Some?
    ensures DayField(BadCapital(d, bad)) == Success(0)
    ensures Decimals(BadCapital(d, bad), DecimalColumns) == Failure(InvalidOperation)
    ensures ParseRow(BadCapital(d, bad), Caught) == Skip
  {
    var row := BadCapital(d, bad);
    assert "Day" !in row;
    assert DecimalField(row, DecimalColumns[0]) == Failure(InvalidOperation);
  }

  /** `DateOnly(d)` is kept under either handler, with day 0 and every amount 0. */
  lemma DateOnlyKept(d: string)
    requires ParseYmd(d).Some?
    ensures ParseRow(DateOnly(d), Caught) == Keep(Emission(0, ParseYmd(d).value, 0.0, 0.0, 0.0, 0.0, 0.0, 0.0, 0.0))
    ensures ParseRow(DateOnly(d), CaughtAsWritten) == ParseRow(DateOnly(d), Caught)
  {
    DateIsNoDecimalColumn();
    NoDecimalColumns(DateOnly(d), DecimalColumns);
    assert Zeros(7) == [0.0, 0.0, 0.0, 0.0, 0.0, 0.0, 0.0];
  }

  lemma DateIsNoDecimalColumn()
    ensures forall i :: 0 <= i < |DecimalColumns| ==> DecimalColumns[i] != "Date"
  {
  }

  /** A row with none of the columns `keys` reads 0 for each. */
  lemma {:induction false} NoDecimalColumns(row: Row, keys: seq<string>)
    requires forall i :: 0 <= i < |keys| ==> keys[i] !in row
    ensures Decimals(row, keys) == Success(Zeros(|keys|))
    decreases |keys|
  {
    if keys != [] {
      assert forall i :: 0 <= i < |keys| - 1 ==> keys[1..][i] == keys[i + 1];
      NoDecimalColumns(row, keys[1..]);
      assert DecimalField(row, keys[0]) == Success(0.0);
    }
  }

  function Zeros(n: nat): seq<real>
  {
    if n == 0 then [] else [0.0] + Zeros(n - 1)
  }

  /** `n/a` is not a number. */
  lemma NotANumber()
    ensures ParseDecimal("n/a").None?
  {
    StripNoSpace("n/a");
  }

  /** Such dates exist: `2024-02-08` is one. */
  lemma SampleDate()
    ensures ParseYmd("2024" + "-" + "02" + "-" + "08") == Some(Date(2024, 2, 8))
  {
    YmdFields("2024", "02", "08");
    DigitsValue2("02");
    DigitsValue2("08");
    DigitsValue4("2024");
    assert DaysInMonth(2024, 2) == 29;
  }

  /** `strptime` with `%Y-%m-%d` reads the three dash-free fields of `y-m-d`. */
  lemma YmdFields(y: string, m: string, d: string)
    requires '-' !in y && '-' !in m && '-' !in d
    ensures ParseYmd(y + "-" + m + "-" + d) == ParseDateFields(y, m, d)
  {
    var parts := [y, m, d];
    assert parts[1..] == [m, d] && parts[1..][1..] == [d];
    assert Join(parts[1..], '-') == m + "-" + d;
    assert Join(parts, '-') == y + "-" + (m + "-" + d);
    assert y + "-" + (m + "-" + d) == y + "-" + m + "-" + d;
    SplitJoin(parts, '-');
  }

  lemma DigitsValue2(s: string)
    requires |s| == 2 && AllDigits(s)
    ensures DigitsValue(s) == 10 * (s[0] as int - '0' as int) + (s[1] as int - '0' as int)
  {
    var h := s[..1];
    assert h[..0] == [] && h[0] == s[0] && AllDigits(h);
    assert DigitsValue(h) == s[0] as int - '0' as int;
  }

  lemma DigitsValue4(s: string)
    requires |s| == 4 && AllDigits(s)
    ensures DigitsValue(s) == 1000 * (s[0] as int - '0' as int) + 100 * (s[1] as int - '0' as int)
                            + 10 * (s[2] as int - '0' as int) + (s[3] as int - '0' as int)
  {
    DigitsValue2(s[..2]);
    assert s[..3][..2] == s[..2];
  }

  // ---------------------------------------------------------------- process_emission_events

  /**
   * `process_emission_events`. With no rows given, the rows come from the data file when it
   * exists (`fileRows`, the result of `parse_emission_data`), otherwise from the configured
   * source (`configured`: its converted rows, or the exception that left the conversion). No
   * rows: 0. Otherwise the rows go to `save_emission_data` (`save`), whose count is returned,
   * or 0 when it raises.
   */
  function ProcessEmissionEvents(given: seq<Emission>, fileExists: bool, fileRows: seq<Emission>,
                                 configured: Result<seq<Emission>, Error>,
                                 save: seq<Emission> -> Result<nat, Error>): (count: nat)
    ensures given != [] ==> count == (if save(given).Success? then save(given).value else 0)
    ensures given == [] && fileExists ==> count == (if fileRows != [] && save(fileRows).Success? then save(fileRows).value else 0)
    ensures given == [] && !fileExists && (configured.Failure? || configured.value == []) ==> count == 0
    ensures count > 0 ==> exists data :: data != [] && save(data) == Success(count)
  {
    var data := if given != [] then Success(given) else if fileExists then Success(fileRows) else configured;
    if data.Failure? || data.value == [] then 0
    else
      match save(data.value)
      case Failure(_) => 0
      case Success(n) => n
  }

  /** `main`: exit status 0 when some record was stored, 1 otherwise. */
  function ExitStatus(count: nat): (status: nat)
    ensures status == 0 <==> count > 0
  {
    if count > 0 then 0 else 1
  }
}
