/**
 * helpers/code_helpers/code_main.py: the code pool's summary. Over the stored stake events, the
 * pool 1 stakers are the code contributors; the summary is their total weight, how many there
 * are, and how many of them still hold a positive weight on the distribution contract.
 */
module CodeContributors {
  import opened Wrappers
  import opened Errors
  import opened Text
  import opened Records
  import opened Sequences
  import opened Batching

  /** How many addresses are looked up on the contract together. */
  const BatchSize := 50

  /** The most rows `get_repository_data_as_dataframe` asks for. */
  const FetchLimit := 100000

  /** The code pool. */
  const CodePool := 1.0

  // ---------------------------------------------------------------- active contributors

  /**
   * `process_batch`: the weights of the addresses of one batch, gathered together; one lookup
   * that raises makes the whole batch raise.
   */
  function BatchWeights(batch: seq<string>, weight: string -> Result<int, Error>): (r: Result<seq<int>, Error>)
    ensures r.Success? <==> forall i :: 0 <= i < |batch| ==> weight(batch[i]).Success?
    ensures r.Success? ==> |r.value| == |batch| && forall i :: 0 <= i < |batch| ==> r.value[i] == weight(batch[i]).value
  {
    if batch == [] then Success([])
    else
      var init :- BatchWeights(batch[..|batch| - 1], weight);
      var w :- weight(batch[|batch| - 1]);
      Success(init + [w])
  }

  /** How many of the weights are positive. */
  function CountPositive(ws: seq<int>): (n: nat)
    ensures n <= |ws|
  {
    if ws == [] then 0 else CountPositive(ws[..|ws| - 1]) + (if ws[|ws| - 1] > 0 then 1 else 0)
  }

  /** The active contributors one batch adds: those with a positive weight, or none when the batch raises. */
  function BatchActive(batch: seq<string>, weight: string -> Result<int, Error>): (n: nat)
    ensures n <= |batch|
  {
    match BatchWeights(batch, weight)
    case Success(ws) => CountPositive(ws)
    case Failure(_) => 0
  }

  /** The active contributors the batches add up to. */
  function ActiveCount(batches: seq<seq<string>>, weight: string -> Result<int, Error>): nat
  {
    if batches == [] then 0
    else ActiveCount(batches[..|batches| - 1], weight) + BatchActive(batches[|batches| - 1], weight)
  }

  /** The addresses whose lookup succeeds with a positive weight: the reference count, without batching. */
  function Active(addresses: seq<string>, weight: string -> Result<int, Error>): (n: nat)
    ensures n <= |addresses|
  {
    if addresses == [] then 0
    else
      var a := addresses[|addresses| - 1];
      Active(addresses[..|addresses| - 1], weight) + (if weight(a).Success? && weight(a).value > 0 then 1 else 0)
  }

  /** `get_active_code_contributors(addresses)`: the count over batches of `BatchSize`. */
  function ActiveContributors(addresses: seq<string>, weight: string -> Result<int, Error>): nat
  {
    ActiveCount(Chunks(addresses, BatchSize), weight)
  }

  method GetActiveCodeContributors(addresses: seq<string>, weight: string -> Result<int, Error>) returns (n: nat)
    ensures n == ActiveContributors(addresses, weight)
  {
    var batches := Chunks(addresses, BatchSize);
    var active: seq<(string, int)> := [];
    for k := 0 to |batches|
      invariant |active| == ActiveCount(batches[..k], weight)
    {
      assert batches[..k + 1][..k] == batches[..k];
      var weights := BatchWeights(batches[k], weight);
      if weights.Success? {
        active := AppendActive(active, batches[k], weights.value);
      }
    }
    assert batches[..|batches|] == batches;
    n := |active|;
  }

  /** The inner loop of `get_active_code_contributors`: each address of the batch with a positive weight is appended with its weight. */
  method AppendActive(active: seq<(string, int)>, batch: seq<string>, ws: seq<int>) returns (r: seq<(string, int)>)
    requires |ws| == |batch|
    ensures |r| == |active| + CountPositive(ws)
    ensures r[..|active|] == active
    ensures forall i :: |active| <= i < |r| ==> r[i].1 > 0
  {
    r := active;
    for j := 0 to |batch|
      invariant |r| == |active| + CountPositive(ws[..j])
      invariant r[..|active|] == active
      invariant forall i :: |active| <= i < |r| ==> r[i].1 > 0
    {
      assert ws[..j + 1][..j] == ws[..j];
      if ws[j] > 0 {
        r := r + [(batch[j], ws[j])];
      }
    }
    assert ws[..|batch|] == ws;
  }

  // ---------------------------------------------------------------- the summary

  /** A cell of the stake-events frame. */
  datatype Cell = Number(v: real) | Text(s: string) | Null

  /** One row of the frame: the columns the summary reads. */
  datatype FrameRow = FrameRow(poolId: Cell, user: string, amount: Cell)

  /** The stake events as a frame, its columns already renamed. */
  datatype Frame = Frame(columns: set<string>, rows: seq<FrameRow>)

  const RequiredColumns: seq<string> := ["Timestamp", "TransactionHash", "BlockNumber", "PoolId", "User", "Amount"]

  /** `{'total_weights_assigned': ..., 'unique_contributors': ..., 'active_contributors': ...}`, or the empty `OrderedDict()`. */
  datatype Summary =
    | NoSummary
    | Summary(totalWeights: real, uniqueContributors: nat, activeContributors: nat)

  /** `pd.to_numeric(cell, errors='coerce')`: a number, or `None` for NaN. */
  function Numeric(c: Cell): Option<real>
  {
    match c
    case Number(v) => Some(v)
    case Text(s) => ParseDecimal(s)
    case Null => None
  }

  /** `dropna(subset=['PoolId', 'Amount'])`: the rows whose pool and amount are both numbers. */
  function ValidRows(rows: seq<FrameRow>): (r: seq<FrameRow>)
    ensures |r| <= |rows|
    ensures forall i :: 0 <= i < |r| ==> Numeric(r[i].poolId).Some? && Numeric(r[i].amount).Some?
  {
    if rows == [] then []
    else
      var last := rows[|rows| - 1];
      ValidRows(rows[..|rows| - 1]) + (if Numeric(last.poolId).Some? && Numeric(last.amount).Some? then [last] else [])
  }

  /** `valid_data[valid_data['PoolId'] == 1]` */
  function CodeRows(valid: seq<FrameRow>): (r: seq<FrameRow>)
    requires forall i :: 0 <= i < |valid| ==> Numeric(valid[i].amount).Some?
    ensures |r| <= |valid|
    ensures forall i :: 0 <= i < |r| ==> Numeric(r[i].poolId) == Some(CodePool) && Numeric(r[i].amount).Some?
  {
    if valid == [] then []
    else
      var last := valid[|valid| - 1];
      CodeRows(valid[..|valid| - 1]) + (if Numeric(last.poolId) == Some(CodePool) then [last] else [])
  }

  function Users(rows: seq<FrameRow>): (r: seq<string>)
    ensures |r| == |rows|
    ensures forall i :: 0 <= i < |rows| ==> r[i] == rows[i].user
  {
    if rows == [] then [] else Users(rows[..|rows| - 1]) + [rows[|rows| - 1].user]
  }

  /** The amounts of rows whose amount is a number. */
  function Amounts(rows: seq<FrameRow>): (r: seq<real>)
    requires forall i :: 0 <= i < |rows| ==> Numeric(rows[i].amount).Some?
    ensures |r| == |rows|
  {
    if rows == [] then [] else Amounts(rows[..|rows| - 1]) + [Numeric(rows[|rows| - 1].amount).value]
  }

  /** `Series.unique()`: each value once, in order of first appearance. */
  function Distinct(xs: seq<string>): (r: seq<string>)
    ensures forall x :: x in r <==> x in xs
    ensures forall i, j :: 0 <= i < j < |r| ==> r[i] != r[j]
  {
    if xs == [] then []
    else
      var init := Distinct(xs[..|xs| - 1]);
      var x := xs[|xs| - 1];
      if x in init then init else init + [x]
  }

  /** `Series.nunique()` */
  function CountDistinct(xs: seq<string>): nat
  {
    |set x | x in xs|
  }

  /** The summary of a frame, with `weight` the contract lookup of an address. */
  function Summarize(frame: Frame, weight: string -> Result<int, Error>): (s: Summary)
    ensures frame.rows == [] || frame.columns == {} ==> s == NoSummary
    ensures (exists c :: c in RequiredColumns && c !in frame.columns) ==> s == NoSummary
  {
    if frame.rows == [] || frame.columns == {} then NoSummary
    else if exists c :: c in RequiredColumns && c !in frame.columns then NoSummary
    else
      var code := CodeRows(ValidRows(frame.rows));
      Summary(SumReal(Amounts(code)), CountDistinct(Users(code)), ActiveContributors(Distinct(Users(code)), weight))
  }

  /** The columns of a non-empty frame of stored stake events, after the renaming. */
  const EventColumns: set<string> := {"id", "Timestamp", "TransactionHash", "BlockNumber", "PoolId", "User", "Amount"}

  function EventRows(events: seq<UserStakedEvent>): (r: seq<FrameRow>)
    ensures |r| == |events|
    ensures forall i :: 0 <= i < |events| ==> r[i] == FrameRow(Number(events[i].poolId as real), events[i].userAddress, Number(events[i].amount as real))
  {
    if events == [] then [] else EventRows(events[..|events| - 1]) + [EventRow(events[|events| - 1])]
  }

  function EventRow(e: UserStakedEvent): FrameRow
  {
    FrameRow(Number(e.poolId as real), e.userAddress, Number(e.amount as real))
  }

  /**
   * `get_repository_data_as_dataframe(UserStakedEventsRepository, ...)` with the columns
   * renamed: the first `FetchLimit` stored events in id order, or the empty frame when there
   * are none or reading them raises.
   */
  function EventsFrame(table: Result<seq<UserStakedEvent>, Error>): (f: Frame)
    ensures table.Failure? || table.value == [] ==> f.rows == []
    ensures f.rows != [] ==> f.columns == EventColumns
  {
    match table
    case Failure(_) => Frame({}, [])
    case Success(events) =>
      var fetched := if |events| <= FetchLimit then events else events[..FetchLimit];
      if fetched == [] then Frame({}, []) else Frame(EventColumns, EventRows(fetched))
  }

  /** `get_total_weights_and_contributors()` over the stored events and the contract lookups. */
  method GetTotalWeightsAndContributors(table: Result<seq<UserStakedEvent>, Error>, weight: string -> Result<int, Error>)
    returns (s: Summary)
    ensures s == Summarize(EventsFrame(table), weight)
  {
    var frame := EventsFrame(table);
    if frame.rows == [] || frame.columns == {} {
      return NoSummary;
    }
    if exists c :: c in RequiredColumns && c !in frame.columns {
      return NoSummary;
    }
    var code := CodeRows(ValidRows(frame.rows));
    var active := GetActiveCodeContributors(Distinct(Users(code)), weight);
    s := Summary(SumReal(Amounts(code)), CountDistinct(Users(code)), active);
  }

  // ---------------------------------------------------------------- properties

  lemma {:induction false} ActiveCountAppend(a: seq<seq<string>>, b: seq<seq<string>>, weight: string -> Result<int, Error>)
    ensures ActiveCount(a + b, weight) == ActiveCount(a, weight) + ActiveCount(b, weight)
    decreases |b|
  {
    if b == [] {
      assert a + b == a;
    } else {
      assert (a + b)[..|a + b| - 1] == a + b[..|b| - 1];
      ActiveCountAppend(a, b[..|b| - 1], weight);
    }
  }

  /** A batch whose lookups raise adds nothing: the count is that of the batches before it and after it. */
  lemma FailedBatchSkipped(batches: seq<seq<string>>, k: nat, weight: string -> Result<int, Error>)
    requires k < |batches| && BatchWeights(batches[k], weight).Failure?
    ensures ActiveCount(batches, weight) == ActiveCount(batches[..k], weight) + ActiveCount(batches[k + 1..], weight)
  {
    assert batches == batches[..k + 1] + batches[k + 1..];
    ActiveCountAppend(batches[..k + 1], batches[k + 1..], weight);
    assert batches[..k + 1][..k] == batches[..k];
  }

  lemma {:induction false} ActiveAppend(a: seq<string>, b: seq<string>, weight: string -> Result<int, Error>)
    ensures Active(a + b, weight) == Active(a, weight) + Active(b, weight)
    decreases |b|
  {
    if b == [] {
      assert a + b == a;
    } else {
      assert (a + b)[..|a + b| - 1] == a + b[..|b| - 1];
      ActiveAppend(a, b[..|b| - 1], weight);
    }
  }

  /** A batch adds at most its active addresses, and exactly those when none of its lookups raises. */
  lemma {:induction false} BatchActiveBounded(batch: seq<string>, weight: string -> Result<int, Error>)
    ensures BatchActive(batch, weight) <= Active(batch, weight)
    ensures (forall i :: 0 <= i < |batch| ==> weight(batch[i]).Success?) ==> BatchActive(batch, weight) == Active(batch, weight)
    decreases |batch|
  {
    if batch != [] && BatchWeights(batch, weight).Success? {
      var init := batch[..|batch| - 1];
      BatchActiveBounded(init, weight);
      var ws := BatchWeights(batch, weight).value;
      assert ws[..|ws| - 1] == BatchWeights(init, weight).value;
    }
  }

  /**
   * Batching loses only the batches that raise: the count is at most the active addresses,
   * and equals them when no lookup raises.
   */
  lemma {:induction false} ActiveCountBounded(batches: seq<seq<string>>, weight: string -> Result<int, Error>)
    ensures ActiveCount(batches, weight) <= Active(Flatten(batches), weight)
    ensures (forall k, i :: 0 <= k < |batches| && 0 <= i < |batches[k]| ==> weight(batches[k][i]).Success?) ==>
      ActiveCount(batches, weight) == Active(Flatten(batches), weight)
    decreases |batches|
  {
    if batches != [] {
      var init, last := batches[..|batches| - 1], batches[|batches| - 1];
      ActiveCountBounded(init, weight);
      BatchActiveBounded(last, weight);
      ActiveAppend(Flatten(init), last, weight);
      assert forall k :: 0 <= k < |init| ==> init[k] == batches[k];
    }
  }

  /** With no lookup raising, the batched count is the number of addresses with a positive weight. */
  lemma NoFailureCountsAllActive(addresses: seq<string>, weight: string -> Result<int, Error>)
    requires forall i :: 0 <= i < |addresses| ==> weight(addresses[i]).Success?
    ensures ActiveContributors(addresses, weight) == Active(addresses, weight)
  {
    var batches := Chunks(addresses, BatchSize);
    forall k, i | 0 <= k < |batches| && 0 <= i < |batches[k]| ensures weight(batches[k][i]).Success? {
      FlattenMember(batches, k, i);
    }
    ActiveCountBounded(batches, weight);
  }

  /** An element of a batch is an element of the flattened list. */
  lemma {:induction false} FlattenMember<T>(xss: seq<seq<T>>, k: nat, i: nat)
    requires k < |xss| && i < |xss[k]|
    ensures xss[k][i] in Flatten(xss)
    decreases |xss|
  {
    var init := xss[..|xss| - 1];
    if k < |init| {
      FlattenMember(init, k, i);
      assert xss[k] == init[k];
    } else {
      assert Flatten(xss) == Flatten(init) + xss[k];
      assert Flatten(xss)[|Flatten(init)| + i] == xss[k][i];
    }
  }

  /** Each distinct value once: the unique list is as long as the number of distinct values. */
  lemma {:induction false} DistinctCount(xs: seq<string>)
    ensures |Distinct(xs)| == CountDistinct(xs)
  {
    DistinctHasNoRepeats(Distinct(xs));
    assert (set x | x in Distinct(xs)) == (set x | x in xs);
  }

  /** A list without repeats is as long as its set of elements. */
  lemma {:induction false} DistinctHasNoRepeats(r: seq<string>)
    requires forall i, j :: 0 <= i < j < |r| ==> r[i] != r[j]
    ensures |r| == |set x | x in r|
  {
    if r != [] {
      var init, last := r[..|r| - 1], r[|r| - 1];
      DistinctHasNoRepeats(init);
      assert (set x | x in r) == (set x | x in init) + {last};
      assert last !in (set x | x in init);
    }
  }

  /** Only the code pool counts: a row of another pool, or with a non-numeric pool or amount, leaves the summary as it was. */
  lemma OtherRowsIgnored(frame: Frame, row: FrameRow, weight: string -> Result<int, Error>)
    requires frame.rows != []
    requires Numeric(row.poolId) != Some(CodePool) || Numeric(row.amount).None?
    ensures Summarize(Frame(frame.columns, frame.rows + [row]), weight) == Summarize(frame, weight)
  {
    CodeRowsUnchanged(frame.rows, row);
  }

  lemma CodeRowsUnchanged(rows: seq<FrameRow>, row: FrameRow)
    requires Numeric(row.poolId) != Some(CodePool) || Numeric(row.amount).None?
    ensures CodeRows(ValidRows(rows + [row])) == CodeRows(ValidRows(rows))
  {
    var rows' := rows + [row];
    assert rows'[..|rows'| - 1] == rows;
    if Numeric(row.poolId).Some? && Numeric(row.amount).Some? {
      assert ValidRows(rows') == ValidRows(rows) + [row];
      OtherPoolDropped(ValidRows(rows), row);
    } else {
      assert ValidRows(rows') == ValidRows(rows);
    }
  }

  lemma OtherPoolDropped(v: seq<FrameRow>, row: FrameRow)
    requires forall i :: 0 <= i < |v| ==> Numeric(v[i].amount).Some?
    requires Numeric(row.amount).Some? && Numeric(row.poolId) != Some(CodePool)
    ensures CodeRows(v + [row]) == CodeRows(v)
  {
    assert (v + [row])[..|v|] == v;
  }

  /** The summary counts the distinct code-pool stakers, and at most that many of them are active. */
  lemma SummaryCounts(frame: Frame, weight: string -> Result<int, Error>)
    requires Summarize(frame, weight).Summary?
    ensures var s := Summarize(frame, weight);
      var code := CodeRows(ValidRows(frame.rows));
      s.uniqueContributors == |set i | 0 <= i < |code| :: code[i].user|
      && s.activeContributors <= s.uniqueContributors
      && s.totalWeights == SumReal(Amounts(code))
  {
    var code := CodeRows(ValidRows(frame.rows));
    var users := Users(code);
    assert (set x | x in users) == (set i | 0 <= i < |code| :: code[i].user) by {
      forall x | x in users ensures x in (set i | 0 <= i < |code| :: code[i].user) {
        var i :| 0 <= i < |users| && users[i] == x;
      }
    }
    DistinctCount(users);
    var batches := Chunks(Distinct(users), BatchSize);
    ActiveCountBounded(batches, weight);
  }

  /** Stored events always carry every required column, so their summary is empty only when there are none. */
  lemma StoredEventsHaveColumns(table: Result<seq<UserStakedEvent>, Error>, weight: string -> Result<int, Error>)
    requires table.Success? && table.value != []
    ensures Summarize(EventsFrame(table), weight).Summary?
  {
    var f := EventsFrame(table);
    assert f.rows != [];
    forall c | c in RequiredColumns ensures c in f.columns {
    }
  }
}
