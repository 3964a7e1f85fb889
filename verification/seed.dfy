/**
 * seed_database.py: create the tables, then import each table's CSV export from the data
 * directory, passing over the rows whose parser raises, and report the total number of rows
 * inserted.
 *
 * Each parser first evaluates the arguments of the record it builds, left to right (`row[k]`
 * raises `KeyError`, `int()` and `Decimal()` raise on bad text), and the record then validates
 * its fields: a `str` field given `None`, or an `int` field given text that is not a numeral or
 * a decimal with a fraction, fails with a `ValidationError`.
 */
module Seed {
  import opened Wrappers
  import opened Errors
  import opened Calendar
  import opened Text
  import opened Records
  import EmissionsStage

  /** A `csv.DictReader` row: column name to cell, `None` for a cell the line did not have. */
  type Row = EmissionsStage.Row

  // ---------------------------------------------------------------- cells

  /** The column is there and the line had a cell for it. */
  predicate Present(row: Row, key: string)
  {
    key in row && row[key].Some?
  }

  predicate IntOk(row: Row, key: string)
  {
    Present(row, key) && ParseInt(row[key].value).Some?
  }

  predicate DecimalOk(row: Row, key: string)
  {
    Present(row, key) && ParseDecimal(row[key].value).Some?
  }

  predicate TimestampOk(row: Row, key: string)
  {
    Present(row, key) && ParseYmdHms(row[key].value).Some?
  }

  /** `row[key]`: `KeyError` for a column the file does not have. */
  function Cell(row: Row, key: string): (r: Result<Option<string>, Error>)
    ensures r.Failure? <==> key !in row
    ensures r.Success? ==> r.value == row[key]
  {
    if key in row then Success(row[key]) else Failure(KeyError(key))
  }

  /** `int(row[key])` */
  function IntCell(row: Row, key: string): (r: Result<int, Error>)
    ensures r.Success? <==> IntOk(row, key)
    ensures r.Success? ==> Some(r.value) == ParseInt(row[key].value)
  {
    match Cell(row, key)
    case Failure(e) => Failure(e)
    case Success(None) => Failure(TypeError("int() argument must be a string, not 'NoneType'"))
    case Success(Some(s)) =>
      match ParseInt(s)
      case None => Failure(ValueError("invalid literal for int() with base 10"))
      case Some(v) => Success(v)
  }

  /** `Decimal(row[key])`: `TypeError` for a missing cell, `InvalidOperation` for text that is not a number. */
  function DecimalCell(row: Row, key: string): (r: Result<real, Error>)
    ensures r.Success? <==> DecimalOk(row, key)
    ensures r.Success? ==> Some(r.value) == ParseDecimal(row[key].value)
  {
    match Cell(row, key)
    case Failure(e) => Failure(e)
    case Success(None) => Failure(TypeError("conversion from NoneType to Decimal is not supported"))
    case Success(Some(s)) =>
      match ParseDecimal(s)
      case None => Failure(InvalidOperation)
      case Some(v) => Success(v)
  }

  /** `Decimal(str(row[key]))`: a missing cell becomes the text `None`, which is not a number. */
  function DecimalTextCell(row: Row, key: string): (r: Result<real, Error>)
    ensures r.Success? <==> DecimalOk(row, key)
    ensures r.Success? ==> Some(r.value) == ParseDecimal(row[key].value)
  {
    match Cell(row, key)
    case Failure(e) => Failure(e)
    case Success(None) => Failure(InvalidOperation)
    case Success(Some(s)) =>
      match ParseDecimal(s)
      case None => Failure(InvalidOperation)
      case Some(v) => Success(v)
  }

  /** `datetime.strptime(row[key], '%Y-%m-%d %H:%M:%S')` */
  function TimestampCell(row: Row, key: string): (r: Result<DateTime, Error>)
    ensures r.Success? <==> TimestampOk(row, key)
    ensures r.Success? ==> Some(r.value) == ParseYmdHms(row[key].value)
  {
    match Cell(row, key)
    case Failure(e) => Failure(e)
    case Success(None) => Failure(TypeError("strptime() argument 1 must be str, not None"))
    case Success(Some(s)) =>
      match ParseYmdHms(s)
      case None => Failure(ValueError("time data does not match format '%Y-%m-%d %H:%M:%S'"))
      case Some(t) => Success(t)
  }

  /** `datetime.strptime(row[key], format).date()`, the format read by `parse`. */
  function DateCell(row: Row, key: string, parse: string -> Option<Date>): (r: Result<Date, Error>)
    ensures r.Success? <==> Present(row, key) && parse(row[key].value).Some?
    ensures r.Success? ==> Some(r.value) == parse(row[key].value)
  {
    match Cell(row, key)
    case Failure(e) => Failure(e)
    case Success(None) => Failure(TypeError("strptime() argument 1 must be str, not None"))
    case Success(Some(s)) =>
      match parse(s)
      case None => Failure(ValueError("time data does not match format"))
      case Some(d) => Success(d)
  }

  /** The record's validation of a `str` field. */
  function TextField(cell: Option<string>, field: string): (r: Result<string, Error>)
    ensures r.Success? <==> cell.Some?
    ensures r.Success? ==> r.value == cell.value
  {
    match cell
    case None => Failure(ValidationError(field))
    case Some(s) => Success(s)
  }

  /** The record's validation of an `int` field handed a cell's text: a numeral is coerced, anything else rejected. */
  function IntField(cell: Option<string>, field: string): (r: Result<int, Error>)
    ensures r.Success? <==> cell.Some? && ParseInt(cell.value).Some?
    ensures r.Success? ==> Some(r.value) == ParseInt(cell.value)
  {
    match cell
    case None => Failure(ValidationError(field))
    case Some(s) =>
      match ParseInt(s)
      case None => Failure(ValidationError(field))
      case Some(v) => Success(v)
  }

  /** The record's validation of an `int` field handed a decimal: one with a fraction is rejected. */
  function WholeField(v: real, field: string): (r: Result<int, Error>)
    ensures r.Success? <==> v == v.Floor as real
    ensures r.Success? ==> r.value as real == v
  {
    if v == v.Floor as real then Success(v.Floor) else Failure(ValidationError(field))
  }

  // ---------------------------------------------------------------- row parsers

  /** `parse_circulating_supply`: the date is written day first (`%d/%m/%Y`). */
  function ParseCirculatingSupply(row: Row): (r: Result<CirculatingSupply, Error>)
    ensures r.Success? <==> (Present(row, "date") && ParseDmy(row["date"].value).Some?
      && DecimalOk(row, "circulating_supply_at_that_date") && IntOk(row, "block_timestamp_at_that_date")
      && DecimalOk(row, "total_claimed_that_day"))
    ensures r.Success? ==> Some(r.value.date) == ParseDmy(row["date"].value)
  {
    var date :- DateCell(row, "date", ParseDmy);
    var supply :- DecimalTextCell(row, "circulating_supply_at_that_date");
    var block :- IntCell(row, "block_timestamp_at_that_date");
    var claimed :- DecimalTextCell(row, "total_claimed_that_day");
    Success(CirculatingSupply(date, supply, block, claimed))
  }

  /** The seven decimal cells of an emission row all hold numbers. */
  predicate EmissionDecimalsOk(row: Row)
  {
    DecimalOk(row, "Capital Emission") && DecimalOk(row, "Code Emission") && DecimalOk(row, "Compute Emission")
    && DecimalOk(row, "Community Emission") && DecimalOk(row, "Protection Emission")
    && DecimalOk(row, "Total Emission") && DecimalOk(row, "Total Supply")
  }

  /** `parse_emission`: the date is written year first (`%Y-%m-%d`). */
  function ParseEmission(row: Row): (r: Result<Emission, Error>)
    ensures r.Success? <==> (Present(row, "Date") && ParseYmd(row["Date"].value).Some? && IntOk(row, "Day")
      && EmissionDecimalsOk(row))
    ensures r.Success? ==> Some(r.value.date) == ParseYmd(row["Date"].value)
  {
    var date :- DateCell(row, "Date", ParseYmd);
    var day :- IntCell(row, "Day");
    var capital :- DecimalCell(row, "Capital Emission");
    var code :- DecimalCell(row, "Code Emission");
    var compute :- DecimalCell(row, "Compute Emission");
    var community :- DecimalCell(row, "Community Emission");
    var protection :- DecimalCell(row, "Protection Emission");
    var total :- DecimalCell(row, "Total Emission");
    var supply :- DecimalCell(row, "Total Supply");
    Success(Emission(day, date, capital, code, compute, community, protection, total, supply))
  }

  /** `parse_user_claim_locked`: the lock bounds are handed over as text for the record to coerce. */
  function ParseUserClaimLocked(row: Row): (r: Result<UserClaimLocked, Error>)
    ensures r.Success? <==> (TimestampOk(row, "Timestamp") && Present(row, "TransactionHash")
      && IntOk(row, "BlockNumber") && IntOk(row, "poolId") && Present(row, "user")
      && IntOk(row, "claimLockStart") && IntOk(row, "claimLockEnd"))
    ensures r.Success? ==> (Some(r.value.claimLockStart) == ParseInt(row["claimLockStart"].value)
      && Some(r.value.claimLockEnd) == ParseInt(row["claimLockEnd"].value))
  {
    var timestamp :- TimestampCell(row, "Timestamp");
    var hash :- Cell(row, "TransactionHash");
    var block :- IntCell(row, "BlockNumber");
    var pool :- IntCell(row, "poolId");
    var user :- Cell(row, "user");
    var start :- Cell(row, "claimLockStart");
    var end :- Cell(row, "claimLockEnd");
    var h :- TextField(hash, "transaction_hash");
    var u :- TextField(user, "user_address");
    var s :- IntField(start, "claim_lock_start");
    var e :- IntField(end, "claim_lock_end");
    Success(UserClaimLocked(timestamp, h, block, pool, u, s, e))
  }

  /** `row.get(key)` is truthy: the column is there with a non-empty cell. */
  predicate Filled(row: Row, key: string)
  {
    Present(row, key) && row[key].value != ""
  }

  /**
   * The multiplier of `parse_user_multiplier`: `None` for a missing or empty cell; otherwise
   * the decimal of the cell, or else the decimal of the cell stripped and without commas, or
   * else `None`. It never raises.
   */
  function Multiplier(row: Row): (m: Option<real>)
    ensures !Filled(row, "multiplier") ==> m == None
    ensures Filled(row, "multiplier") && ParseDecimal(row["multiplier"].value).Some? ==>
      m == ParseDecimal(row["multiplier"].value)
    ensures Filled(row, "multiplier") && ParseDecimal(row["multiplier"].value).None? ==>
      m == ParseDecimal(RemoveAll(Strip(row["multiplier"].value), ','))
  {
    if !Filled(row, "multiplier") then None
    else
      var s := row["multiplier"].value;
      match ParseDecimal(s)
      case Some(v) => Some(v)
      case None => ParseDecimal(RemoveAll(Strip(s), ','))
  }

  /** `parse_user_multiplier`: a multiplier that cannot be read is stored as `None` instead of failing the row. */
  function ParseUserMultiplier(row: Row): (r: Result<UserMultiplier, Error>)
    ensures r.Success? <==> (TimestampOk(row, "Timestamp") && IntOk(row, "claimLockStart")
      && IntOk(row, "claimLockEnd") && Present(row, "TransactionHash") && IntOk(row, "BlockNumber")
      && IntOk(row, "poolId") && Present(row, "user"))
    ensures r.Success? ==> r.value.multiplier == Multiplier(row)
  {
    var timestamp :- TimestampCell(row, "Timestamp");
    var multiplier := Multiplier(row);
    var start :- IntCell(row, "claimLockStart");
    var end :- IntCell(row, "claimLockEnd");
    var hash :- Cell(row, "TransactionHash");
    var block :- IntCell(row, "BlockNumber");
    var pool :- IntCell(row, "poolId");
    var user :- Cell(row, "user");
    var h :- TextField(hash, "transaction_hash");
    var u :- TextField(user, "user_address");
    Success(UserMultiplier(start, end, timestamp, h, block, pool, u, multiplier))
  }

  /** `parse_reward_summary`: the timestamp is the block time, in seconds since the epoch. */
  function ParseRewardSummary(row: Row): (r: Result<RewardSummary, Error>)
    ensures r.Success? <==> (IntOk(row, "block_timestamp_at_that_date") && IntOk(row, "calculation_block_current")
      && IntOk(row, "calculation_block_past") && Present(row, "category") && DecimalOk(row, "value"))
    ensures r.Success? ==> ValidDateTime(r.value.timestamp)
  {
    var seconds :- IntCell(row, "block_timestamp_at_that_date");
    var current :- IntCell(row, "calculation_block_current");
    var past :- IntCell(row, "calculation_block_past");
    var category :- Cell(row, "category");
    var value :- DecimalCell(row, "value");
    var c :- TextField(category, "category");
    Success(RewardSummary(DateTimeOfTimestamp(seconds), current, past, c, value))
  }

  /**
   * The staked amount: the decimal of the cell, or else that of the cell stripped and without
   * commas, whose failure now propagates. A missing cell raises `TypeError`, which the fallback
   * does not catch.
   */
  function StakedAmount(row: Row): (r: Result<real, Error>)
    ensures r.Success? <==> (Present(row, "Amount") && (ParseDecimal(row["Amount"].value).Some?
      || ParseDecimal(RemoveAll(Strip(row["Amount"].value), ',')).Some?))
    ensures DecimalOk(row, "Amount") ==> r == Success(ParseDecimal(row["Amount"].value).value)
  {
    match Cell(row, "Amount")
    case Failure(e) => Failure(e)
    case Success(None) => Failure(TypeError("conversion from NoneType to Decimal is not supported"))
    case Success(Some(s)) =>
      match ParseDecimal(s)
      case Some(v) => Success(v)
      case None =>
        match ParseDecimal(RemoveAll(Strip(s), ','))
        case Some(v) => Success(v)
        case None => Failure(InvalidOperation)
  }

  /** `parse_user_staked_event`: the record's amount is an integer, so a fractional amount fails the row. */
  function ParseUserStakedEvent(row: Row): (r: Result<UserStakedEvent, Error>)
    ensures r.Success? <==> (TimestampOk(row, "Timestamp") && StakedAmount(row).Success?
      && Present(row, "TransactionHash") && IntOk(row, "BlockNumber") && IntOk(row, "PoolId")
      && Present(row, "User") && StakedAmount(row).value == StakedAmount(row).value.Floor as real)
    ensures r.Success? ==> r.value.amount as real == StakedAmount(row).value
  {
    var timestamp :- TimestampCell(row, "Timestamp");
    var decimal :- StakedAmount(row);
    var hash :- Cell(row, "TransactionHash");
    var block :- IntCell(row, "BlockNumber");
    var pool :- IntCell(row, "PoolId");
    var user :- Cell(row, "User");
    var h :- TextField(hash, "transaction_hash");
    var u :- TextField(user, "user_address");
    var amount :- WholeField(decimal, "amount");
    Success(UserStakedEvent(timestamp, h, block, pool, u, amount))
  }

  /** `parse_user_withdrawn_event` */
  function ParseUserWithdrawnEvent(row: Row): (r: Result<UserWithdrawnEvent, Error>)
    ensures r.Success? <==> (TimestampOk(row, "Timestamp") && Present(row, "TransactionHash")
      && IntOk(row, "BlockNumber") && IntOk(row, "PoolId") && Present(row, "User") && DecimalOk(row, "Amount"))
    ensures r.Success? ==> Some(r.value.amount) == ParseDecimal(row["Amount"].value)
  {
    var timestamp :- TimestampCell(row, "Timestamp");
    var hash :- Cell(row, "TransactionHash");
    var block :- IntCell(row, "BlockNumber");
    var pool :- IntCell(row, "PoolId");
    var user :- Cell(row, "User");
    var amount :- DecimalCell(row, "Amount");
    var h :- TextField(hash, "transaction_hash");
    var u :- TextField(user, "user_address");
    Success(UserWithdrawnEvent(timestamp, h, block, pool, u, amount))
  }

  /** `parse_overplus_bridged_event` */
  function ParseOverplusBridgedEvent(row: Row): (r: Result<OverplusBridgedEvent, Error>)
    ensures r.Success? <==> (TimestampOk(row, "Timestamp") && Present(row, "TransactionHash")
      && IntOk(row, "BlockNumber") && DecimalOk(row, "amount") && Present(row, "uniqueId"))
    ensures r.Success? ==> Some(r.value.amount) == ParseDecimal(row["amount"].value)
  {
    var timestamp :- TimestampCell(row, "Timestamp");
    var hash :- Cell(row, "TransactionHash");
    var block :- IntCell(row, "BlockNumber");
    var amount :- DecimalCell(row, "amount");
    var unique :- Cell(row, "uniqueId");
    var h :- TextField(hash, "transaction_hash");
    var u :- TextField(unique, "unique_id");
    Success(OverplusBridgedEvent(timestamp, h, block, amount, u))
  }

  // ---------------------------------------------------------------- tables and the data mapping

  datatype Table =
    | CirculatingSupplyTable | EmissionsTable | UserClaimLockedTable | UserMultiplierTable
    | RewardSummaryTable | UserStakedEventsTable | UserWithdrawnEventsTable | OverplusBridgedEventsTable

  /** A record of any of the tables. */
  datatype Record =
    | CirculatingSupplyRecord(circulatingSupply: CirculatingSupply)
    | EmissionRecord(emission: Emission)
    | UserClaimLockedRecord(claimLocked: UserClaimLocked)
    | UserMultiplierRecord(multiplier: UserMultiplier)
    | RewardSummaryRecord(rewardSummary: RewardSummary)
    | UserStakedEventRecord(staked: UserStakedEvent)
    | UserWithdrawnEventRecord(withdrawn: UserWithdrawnEvent)
    | OverplusBridgedEventRecord(bridged: OverplusBridgedEvent)

  /** The table a record belongs to. */
  function TableOf(r: Record): Table
  {
    match r
    case CirculatingSupplyRecord(_) => CirculatingSupplyTable
    case EmissionRecord(_) => EmissionsTable
    case UserClaimLockedRecord(_) => UserClaimLockedTable
    case UserMultiplierRecord(_) => UserMultiplierTable
    case RewardSummaryRecord(_) => RewardSummaryTable
    case UserStakedEventRecord(_) => UserStakedEventsTable
    case UserWithdrawnEventRecord(_) => UserWithdrawnEventsTable
    case OverplusBridgedEventRecord(_) => OverplusBridgedEventsTable
  }

  /** The parser of a table, applied to one row. */
  function Parse(table: Table, row: Row): Result<Record, Error>
  {
    match table
    case CirculatingSupplyTable => var c :- ParseCirculatingSupply(row); Success(CirculatingSupplyRecord(c))
    case EmissionsTable => var e :- ParseEmission(row); Success(EmissionRecord(e))
    case UserClaimLockedTable => var c :- ParseUserClaimLocked(row); Success(UserClaimLockedRecord(c))
    case UserMultiplierTable => var m :- ParseUserMultiplier(row); Success(UserMultiplierRecord(m))
    case RewardSummaryTable => var s :- ParseRewardSummary(row); Success(RewardSummaryRecord(s))
    case UserStakedEventsTable => var s :- ParseUserStakedEvent(row); Success(UserStakedEventRecord(s))
    case UserWithdrawnEventsTable => var w :- ParseUserWithdrawnEvent(row); Success(UserWithdrawnEventRecord(w))
    case OverplusBridgedEventsTable => var b :- ParseOverplusBridgedEvent(row); Success(OverplusBridgedEventRecord(b))
  }

  /** One entry of `DATA_MAPPING`; `csvFile` is `None` for the entry with neither file nor parser. */
  datatype Mapping = Mapping(csvFile: Option<string>, tableName: string, table: Table)

  const DataMapping: seq<Mapping> := [
    Mapping(Some("MASTER MOR EXPLORER - CircSupply.csv"), "circulating_supply", CirculatingSupplyTable),
    Mapping(Some("MASTER MOR EXPLORER - Emissions.csv"), "emissions", EmissionsTable),
    Mapping(Some("MASTER MOR EXPLORER - UserClaimLocked.csv"), "user_claim_locked", UserClaimLockedTable),
    Mapping(Some("MASTER MOR EXPLORER - UserMultiplier.csv"), "user_multiplier", UserMultiplierTable),
    Mapping(None, "reward_summary", RewardSummaryTable),
    Mapping(Some("MASTER MOR EXPLORER - UserStaked.csv"), "user_staked_events", UserStakedEventsTable),
    Mapping(Some("MASTER MOR EXPLORER - UserWithdrawn.csv"), "user_withdrawn_events", UserWithdrawnEventsTable),
    Mapping(Some("MASTER MOR EXPLORER - OverplusBridged.csv"), "overplus_bridged_events", OverplusBridgedEventsTable)
  ]

  /** The tables of `TABLE_DEFINITIONS`, in the order they are created. */
  const TableNames: seq<string> := ["circulating_supply", "emissions", "user_claim_locked", "user_multiplier",
    "reward_summary", "user_staked_events", "user_withdrawn_events", "overplus_bridged_events"]

  // ---------------------------------------------------------------- import_data_from_csv

  /** A CSV file of the data directory: absent, failing to open or read, or its text. */
  datatype FileState = Missing | Unreadable(error: Error) | Contents(text: string)

  /** The parser `DATA_MAPPING` pairs with a table. */
  function ParserOf(table: Table): Row -> Result<Record, Error>
  {
    row => Parse(table, row)
  }

  /** The records of the rows on which `parse` succeeds, in file order. */
  function Parsed(parse: Row -> Result<Record, Error>, rows: seq<Row>): (records: seq<Record>)
    ensures |records| <= |rows|
  {
    if rows == [] then []
    else
      var init := Parsed(parse, rows[..|rows| - 1]);
      match parse(rows[|rows| - 1])
      case Success(record) => init + [record]
      case Failure(_) => init
  }

  /**
   * `import_data_from_csv(file, parser, repository)`: 0 for a missing file or one without a
   * row the parser accepts, otherwise what the repository's `bulk_insert` of the records
   * returns (`insert`); an error opening the file or inserting propagates.
   */
  function Import(file: FileState, table: Table, insert: (Table, seq<Record>) -> Result<int, Error>): (r: Result<int, Error>)
    ensures file.Missing? ==> r == Success(0)
    ensures file.Unreadable? ==> r == Failure(file.error)
    ensures file.Contents? && Parsed(ParserOf(table), EmissionsStage.ReaderRows(file.text, ',')) == [] ==> r == Success(0)
    ensures file.Contents? && Parsed(ParserOf(table), EmissionsStage.ReaderRows(file.text, ',')) != [] ==>
      r == insert(table, Parsed(ParserOf(table), EmissionsStage.ReaderRows(file.text, ',')))
  {
    match file
    case Missing => Success(0)
    case Unreadable(e) => Failure(e)
    case Contents(text) =>
      var records := Parsed(ParserOf(table), EmissionsStage.ReaderRows(text, ','));
      if records == [] then Success(0) else insert(table, records)
  }

  method ImportDataFromCsv(file: FileState, table: Table, insert: (Table, seq<Record>) -> Result<int, Error>)
    returns (r: Result<int, Error>)
    ensures r == Import(file, table, insert)
  {
    match file {
      case Missing =>
        return Success(0);
      case Unreadable(e) =>
        return Failure(e);
      case Contents(text) =>
        var rows := EmissionsStage.ReaderRows(text, ',');
        var records := ParseRows(rows, ParserOf(table));
        if records == [] {
          return Success(0);
        }
        r := insert(table, records);
    }
  }

  /** The loop of `import_data_from_csv`: each row through the parser, a failing row logged and skipped. */
  method ParseRows(rows: seq<Row>, parse: Row -> Result<Record, Error>) returns (records: seq<Record>)
    ensures records == Parsed(parse, rows)
  {
    records := [];
    for i := 0 to |rows|
      invariant records == Parsed(parse, rows[..i])
    {
      assert rows[..i + 1][..i] == rows[..i];
      var parsed := parse(rows[i]);
      if parsed.Success? {
        records := records + [parsed.value];
      }
    }
    assert rows[..|rows|] == rows;
  }

  // ---------------------------------------------------------------- ensure_tables_exist, seed_database, main

  /** The `CREATE` statements of `names` run in order; the first that fails raises. */
  function CreateTables(names: seq<string>, execute: string -> Result<(), Error>): (r: Result<(), Error>)
    ensures r.Success? <==> forall i :: 0 <= i < |names| ==> execute(names[i]).Success?
  {
    if names == [] then Success(())
    else
      var _ :- execute(names[0]);
      CreateTables(names[1..], execute)
  }

  /**
   * `ensure_tables_exist()`: a health check that fails or raises becomes a `DatabaseError` with
   * the message "Database connection error"; then every table is created.
   */
  function EnsureTablesExist(health: Result<bool, Error>, execute: string -> Result<(), Error>): (r: Result<(), Error>)
    ensures health != Success(true) ==> r == Failure(DatabaseError("Database connection error"))
    ensures health == Success(true) ==> r == CreateTables(TableNames, execute)
  {
    if health != Success(true) then Failure(DatabaseError("Database connection error"))
    else CreateTables(TableNames, execute)
  }

  /** What one mapping adds to the total: its import's count, or 0 when it raises (the entry without a file raises `KeyError`). */
  function Contribution(m: Mapping, files: string -> FileState, insert: (Table, seq<Record>) -> Result<int, Error>): int
  {
    match m.csvFile
    case None => 0
    case Some(f) =>
      match Import(files(f), m.table, insert)
      case Success(count) => count
      case Failure(_) => 0
  }

  /** The sum of the contributions of `mappings`. */
  function Total(mappings: seq<Mapping>, files: string -> FileState, insert: (Table, seq<Record>) -> Result<int, Error>): int
  {
    if mappings == [] then 0
    else Total(mappings[..|mappings| - 1], files, insert) + Contribution(mappings[|mappings| - 1], files, insert)
  }

  /** `seed_database()` over the given database and data directory. */
  function Seeded(health: Result<bool, Error>, execute: string -> Result<(), Error>, files: string -> FileState,
                  insert: (Table, seq<Record>) -> Result<int, Error>): (r: Result<int, Error>)
    ensures r.Failure? <==> EnsureTablesExist(health, execute).Failure?
    ensures r.Success? ==> r.value == Total(DataMapping, files, insert)
  {
    var _ :- EnsureTablesExist(health, execute);
    Success(Total(DataMapping, files, insert))
  }

  method SeedDatabase(health: Result<bool, Error>, execute: string -> Result<(), Error>, files: string -> FileState,
                      insert: (Table, seq<Record>) -> Result<int, Error>)
    returns (r: Result<int, Error>)
    ensures r == Seeded(health, execute, files, insert)
  {
    var ensured := EnsureTablesExist(health, execute);
    if ensured.Failure? {
      return Failure(ensured.error);
    }
    var total := ImportAll(DataMapping, files, insert);
    r := Success(total);
  }

  /** The loop of `seed_database()`: each mapping with a file imported, a failing import logged and counted as 0. */
  method ImportAll(mappings: seq<Mapping>, files: string -> FileState, insert: (Table, seq<Record>) -> Result<int, Error>)
    returns (total: int)
    ensures total == Total(mappings, files, insert)
  {
    total := 0;
    for i := 0 to |mappings|
      invariant total == Total(mappings[..i], files, insert)
    {
      assert mappings[..i + 1][..i] == mappings[..i];
      var m := mappings[i];
      if m.csvFile.Some? {
        var count := ImportDataFromCsv(files(m.csvFile.value), m.table, insert);
        if count.Success? {
          total := total + count.value;
        }
      }
    }
    assert mappings[..|mappings|] == mappings;
  }

  /** `main()`: the exit status, 0 whenever seeding returns (whatever the count) and 1 when it raises. */
  function MainStatus(seeded: Result<int, Error>): (status: int)
    ensures status == 0 <==> seeded.Success?
    ensures status == 0 || status == 1
  {
    if seeded.Success? then 0 else 1
  }

  // ---------------------------------------------------------------- properties

  /** A circulating-supply date written day first reads back as the same date. */
  lemma CirculatingSupplyDateDayFirst(row: Row, d: Date)
    requires ValidDate(d) && 1000 <= d.year <= 9999
    requires "date" in row && row["date"] == Some(FormatDmy(d))
    ensures ParseCirculatingSupply(row).Success? ==> ParseCirculatingSupply(row).value.date == d
    ensures ParseCirculatingSupply(row).Success? <==> (DecimalOk(row, "circulating_supply_at_that_date")
      && IntOk(row, "block_timestamp_at_that_date") && DecimalOk(row, "total_claimed_that_day"))
  {
    DmyRoundTrip(d);
  }

  /** A circulating-supply date without a `/` fails the row; so does an emission date without a `-`. */
  lemma DateFormatsDiffer(row: Row, s: string)
    ensures "date" in row && row["date"] == Some(s) && '/' !in s ==> ParseCirculatingSupply(row).Failure?
    ensures "Date" in row && row["Date"] == Some(s) && '-' !in s ==> ParseEmission(row).Failure?
  {
  }

  /** An emission row with a day-first date, as the circulating-supply file writes them, is rejected. */
  lemma EmissionRejectsDayFirstDate(row: Row, d: Date)
    requires ValidDate(d) && 1000 <= d.year <= 9999
    requires "Date" in row && row["Date"] == Some(FormatDmy(d))
    ensures ParseEmission(row).Failure?
  {
    var s := FormatDmy(d);
    Pad2Value(d.day);
    Pad2Value(d.month);
    forall i | 0 <= i < |s| ensures s[i] != '-' {
      var a, b, y := Pad2(d.day), Pad2(d.month), NatToString(d.year);
      assert s == a + "/" + b + "/" + y;
      if i < 2 {
        assert s[i] == a[i];
      } else if i == 2 || i == 5 {
      } else if i < 5 {
        assert s[i] == b[i - 3];
      } else {
        assert s[i] == y[i - 6];
      }
    }
    DateFormatsDiffer(row, s);
  }

  /** Whatever the multiplier cell holds, it does not decide whether a multiplier row is kept. */
  lemma MultiplierNeverFailsRow(row: Row, cell: Option<string>)
    ensures ParseUserMultiplier(row["multiplier" := cell]).Success? <==> ParseUserMultiplier(row).Success?
  {
    var row' := row["multiplier" := cell];
    forall k | k in ["Timestamp", "claimLockStart", "claimLockEnd", "TransactionHash", "BlockNumber", "poolId", "user"]
      ensures (k in row' <==> k in row) && (k in row ==> row'[k] == row[k])
    {
      assert k != "multiplier";
    }
  }

  /** A multiplier written as an integer numeral reads as that integer. */
  lemma MultiplierOfNumeral(row: Row, n: int)
    requires "multiplier" in row && row["multiplier"] == Some(IntToString(n))
    ensures Multiplier(row) == Some(n as real)
  {
    ParseDecimalOfInt(n);
    assert IntToString(n) != "";
  }

  /** A multiplier that neither reading accepts is stored as `None`. */
  lemma UnreadableMultiplierIsNone(row: Row)
    requires Filled(row, "multiplier")
    requires ParseDecimal(row["multiplier"].value).None?
    requires ParseDecimal(RemoveAll(Strip(row["multiplier"].value), ',')).None?
    ensures ParseUserMultiplier(row).Success? ==> ParseUserMultiplier(row).value.multiplier == None
  {
  }

  /** A staked amount with a fraction part fails the row, whatever the other cells hold. */
  lemma FractionalStakeRejected(row: Row)
    requires StakedAmount(row).Success? && StakedAmount(row).value != StakedAmount(row).value.Floor as real
    ensures ParseUserStakedEvent(row).Failure?
  {
  }

  /** `Parsed` distributes over concatenation: each row is parsed on its own. */
  lemma {:induction false} ParsedAppend(parse: Row -> Result<Record, Error>, a: seq<Row>, b: seq<Row>)
    ensures Parsed(parse, a + b) == Parsed(parse, a) + Parsed(parse, b)
    decreases |b|
  {
    if b == [] {
      assert a + b == a;
    } else {
      var b' := b[..|b| - 1];
      assert (a + b)[..|a + b| - 1] == a + b';
      assert (a + b)[|a + b| - 1] == b[|b| - 1];
      ParsedAppend(parse, a, b');
    }
  }

  /** A row whose parser raises is passed over: the records are those of the other rows. */
  lemma FailingRowSkipped(parse: Row -> Result<Record, Error>, rows: seq<Row>, i: nat)
    requires i < |rows| && parse(rows[i]).Failure?
    ensures Parsed(parse, rows) == Parsed(parse, rows[..i] + rows[i + 1..])
  {
    assert rows == rows[..i] + [rows[i]] + rows[i + 1..];
    ParsedAppend(parse, rows[..i] + [rows[i]], rows[i + 1..]);
    ParsedAppend(parse, rows[..i], [rows[i]]);
    assert [rows[i]][..0] == [];
    ParsedAppend(parse, rows[..i], rows[i + 1..]);
  }

  /** When every row parses, the records are the parsed rows, one for one and in order. */
  lemma {:induction false} AllRowsParsed(parse: Row -> Result<Record, Error>, rows: seq<Row>)
    requires forall i :: 0 <= i < |rows| ==> parse(rows[i]).Success?
    ensures |Parsed(parse, rows)| == |rows|
    ensures forall i :: 0 <= i < |rows| ==> Parsed(parse, rows)[i] == parse(rows[i]).value
  {
    if rows != [] {
      AllRowsParsed(parse, rows[..|rows| - 1]);
    }
  }

  /** Every record comes from a row of the file. */
  lemma {:induction false} RecordsComeFromRows(parse: Row -> Result<Record, Error>, rows: seq<Row>, k: nat)
    requires k < |Parsed(parse, rows)|
    ensures exists i :: 0 <= i < |rows| && parse(rows[i]) == Success(Parsed(parse, rows)[k])
  {
    var init := rows[..|rows| - 1];
    if k < |Parsed(parse, init)| {
      RecordsComeFromRows(parse, init, k);
      var i :| 0 <= i < |init| && parse(init[i]) == Success(Parsed(parse, init)[k]);
      assert rows[i] == init[i];
    } else {
      assert parse(rows[|rows| - 1]) == Success(Parsed(parse, rows)[k]);
    }
  }

  /** A file none of whose rows parse imports nothing and inserts nothing. */
  lemma NoValidRowsImportsNothing(text: string, table: Table, insert: (Table, seq<Record>) -> Result<int, Error>)
    requires forall row :: row in EmissionsStage.ReaderRows(text, ',') ==> Parse(table, row).Failure?
    ensures Import(Contents(text), table, insert) == Success(0)
  {
    NoneParsed(ParserOf(table), EmissionsStage.ReaderRows(text, ','));
  }

  lemma {:induction false} NoneParsed(parse: Row -> Result<Record, Error>, rows: seq<Row>)
    requires forall row :: row in rows ==> parse(row).Failure?
    ensures Parsed(parse, rows) == []
  {
    if rows != [] {
      NoneParsed(parse, rows[..|rows| - 1]);
    }
  }

  /** `Total` distributes over concatenation. */
  lemma {:induction false} TotalAppend(a: seq<Mapping>, b: seq<Mapping>, files: string -> FileState,
                                       insert: (Table, seq<Record>) -> Result<int, Error>)
    ensures Total(a + b, files, insert) == Total(a, files, insert) + Total(b, files, insert)
    decreases |b|
  {
    if b == [] {
      assert a + b == a;
    } else {
      var b' := b[..|b| - 1];
      assert (a + b)[..|a + b| - 1] == a + b';
      TotalAppend(a, b', files, insert);
    }
  }

  /** A mapping whose import raises adds nothing: the total is that of the other mappings. */
  lemma FailingTableSkipped(mappings: seq<Mapping>, i: nat, files: string -> FileState,
                            insert: (Table, seq<Record>) -> Result<int, Error>)
    requires i < |mappings|
    requires mappings[i].csvFile.None? || Import(files(mappings[i].csvFile.value), mappings[i].table, insert).Failure?
    ensures Total(mappings, files, insert) == Total(mappings[..i] + mappings[i + 1..], files, insert)
  {
    assert mappings == mappings[..i + 1] + mappings[i + 1..];
    TotalAppend(mappings[..i + 1], mappings[i + 1..], files, insert);
    assert mappings[..i + 1][..i] == mappings[..i];
    assert Contribution(mappings[i], files, insert) == 0;
    TotalAppend(mappings[..i], mappings[i + 1..], files, insert);
  }

  /** The `reward_summary` entry has no file, so seeding never imports that table. */
  lemma RewardSummaryNeverSeeded(files: string -> FileState, insert: (Table, seq<Record>) -> Result<int, Error>)
    ensures Total(DataMapping, files, insert) == Total(DataMapping[..4] + DataMapping[5..], files, insert)
    ensures forall j :: 0 <= j < |DataMapping| && DataMapping[j].table == RewardSummaryTable ==> DataMapping[j].csvFile.None?
  {
    FailingTableSkipped(DataMapping, 4, files, insert);
  }

  lemma NonNegativeContribution(m: Mapping, files: string -> FileState, insert: (Table, seq<Record>) -> Result<int, Error>)
    requires forall t, records :: insert(t, records).Success? ==> insert(t, records).value >= 0
    ensures Contribution(m, files, insert) >= 0
  {
  }

  /** When no insert reports a negative count, neither does seeding. */
  lemma {:induction false} NonNegativeTotal(mappings: seq<Mapping>, files: string -> FileState,
                                            insert: (Table, seq<Record>) -> Result<int, Error>)
    requires forall t, records :: insert(t, records).Success? ==> insert(t, records).value >= 0
    ensures Total(mappings, files, insert) >= 0
  {
    if mappings != [] {
      NonNegativeTotal(mappings[..|mappings| - 1], files, insert);
      NonNegativeContribution(mappings[|mappings| - 1], files, insert);
    }
  }

  /** `main` exits 0 exactly when the tables could be made, however many rows were imported. */
  lemma MainSucceedsIffTablesExist(health: Result<bool, Error>, execute: string -> Result<(), Error>,
                                   files: string -> FileState, insert: (Table, seq<Record>) -> Result<int, Error>)
    ensures MainStatus(Seeded(health, execute, files, insert)) == 0 <==>
      health == Success(true) && forall i :: 0 <= i < |TableNames| ==> execute(TableNames[i]).Success?
  {
  }
}
