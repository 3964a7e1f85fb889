/**
 * scripts/iiii_update_circulating_supply.py: starting from the latest stored day, find the
 * block of its timestamp, add up the `UserClaimed` amounts after it, and upsert one row per day.
 */
module CirculatingSupplyStage {
  import opened Wrappers
  import opened Errors
  import opened Calendar
  import opened Text
  import opened Sequences
  import opened Records
  import opened RowStore
  import opened Database
  import opened BulkWrite
  import opened ChainEvents
  import opened CirculatingSupplyRepository

  /**
   * The node during one run: the latest block number, `get_block(n)` (the block's timestamp,
   * `BlockNotFound`, or another error), and the `UserClaimed` events from a block to the latest.
   */
  datatype SupplyChain = SupplyChain(
    latestBlock: int,
    block: int -> Result<nat, Error>,
    claimsFrom: int -> Result<seq<ChainEvent>, Error>)

  // ---------------------------------------------------------------- block by timestamp

  /**
   * The binary search of `get_block_number_by_timestamp` over the blocks `left..right`: the
   * block with exactly the `target` timestamp, else the `left` bound where the search closes.
   * A missing block moves the upper bound down; any other error ends the search.
   */
  function Search(block: int -> Result<nat, Error>, target: int, left: int, right: int): (r: Result<int, Error>)
    ensures r.Success? ==> left <= r.value <= (if left <= right then right + 1 else left)
    decreases if left <= right then right - left + 1 else 0
  {
    if left > right then Success(left)
    else
      var mid := (left + right) / 2;
      match block(mid)
      case Failure(BlockNotFound) => Search(block, target, left, mid - 1)
      case Failure(e) => Failure(e)
      case Success(ts) =>
        if ts == target then Success(mid)
        else if ts < target then Search(block, target, mid + 1, right)
        else Search(block, target, left, mid - 1)
  }

  /** `get_block_number_by_timestamp(target)`, searching blocks 1 to `latest`. */
  method BlockByTimestamp(block: int -> Result<nat, Error>, latest: int, target: int) returns (r: Result<int, Error>)
    ensures r == Search(block, target, 1, latest)
  {
    var left, right := 1, latest;
    while left <= right
      invariant Search(block, target, left, right) == Search(block, target, 1, latest)
      decreases right - left + 1
    {
      var mid := (left + right) / 2;
      var b := block(mid);
      if b.Failure? {
        if b.error == BlockNotFound {
          right := mid - 1;
        } else {
          return Failure(b.error);
        }
      } else if b.value == target {
        return Success(mid);
      } else if b.value < target {
        left := mid + 1;
      } else {
        right := mid - 1;
      }
    }
    return Success(left);
  }

  /** Blocks 1 to `latest` all exist and their timestamps never decrease. */
  predicate Ordered(block: int -> Result<nat, Error>, latest: int)
  {
    && (forall k :: 1 <= k <= latest ==> block(k).Success?)
    && (forall j, k :: 1 <= j <= k <= latest ==> Stamp(block, j) <= Stamp(block, k))
  }

  /** The timestamp of block `k`, or 0 for a block that cannot be read. */
  function Stamp(block: int -> Result<nat, Error>, k: int): nat
  {
    if block(k).Success? then block(k).value else 0
  }

  /** Every block from 1 to before `left` exists and is older than `target`. */
  predicate OlderBefore(block: int -> Result<nat, Error>, left: int, target: int)
  {
    forall k :: 1 <= k < left ==> block(k).Success? && block(k).value < target
  }

  /** Every block after `right` up to `latest` exists and is newer than `target`. */
  predicate NewerAfter(block: int -> Result<nat, Error>, right: int, latest: int, target: int)
  {
    forall k :: right < k <= latest ==> block(k).Success? && block(k).value > target
  }

  /**
   * What the search promises about block `b`: it has exactly the target timestamp, or every
   * block before it is older than the target and every block from it to `latest` is newer.
   */
  predicate Closest(block: int -> Result<nat, Error>, latest: int, target: int, b: int)
  {
    || (1 <= b <= latest && block(b).Success? && block(b).value == target)
    || (OlderBefore(block, b, target) && NewerAfter(block, b - 1, latest, target))
  }

  lemma OlderUpTo(block: int -> Result<nat, Error>, latest: int, target: int, left: int, mid: int)
    requires Ordered(block, latest) && 1 <= left <= mid <= latest
    requires OlderBefore(block, left, target)
    requires block(mid).value < target
    ensures OlderBefore(block, mid + 1, target)
  {
    forall k | 1 <= k < mid + 1
      ensures block(k).Success? && block(k).value < target
    {
      if k >= left {
        assert Stamp(block, k) <= Stamp(block, mid);
      }
    }
  }

  lemma NewerFrom(block: int -> Result<nat, Error>, latest: int, target: int, mid: int, right: int)
    requires Ordered(block, latest) && 1 <= mid <= right <= latest
    requires NewerAfter(block, right, latest, target)
    requires block(mid).value > target
    ensures NewerAfter(block, mid - 1, latest, target)
  {
    forall k | mid - 1 < k <= latest
      ensures block(k).Success? && block(k).value > target
    {
      if k <= right {
        assert Stamp(block, mid) <= Stamp(block, k);
      }
    }
  }

  /** One probe of the search, at a block that exists. */
  lemma SearchStep(block: int -> Result<nat, Error>, target: int, left: int, right: int)
    requires left <= right && block((left + right) / 2).Success?
    ensures var mid := (left + right) / 2;
      var ts := block(mid).value;
      Search(block, target, left, right) ==
        if ts == target then Success(mid)
        else if ts < target then Search(block, target, mid + 1, right)
        else Search(block, target, left, mid - 1)
  {
  }

  /**
   * On a chain whose timestamps never decrease, a search whose bounds keep older blocks to
   * the left and newer ones to the right cannot fail and ends at the `Closest` block.
   */
  lemma {:induction false} SearchFinds(block: int -> Result<nat, Error>, latest: int, target: int, left: int, right: int)
    requires Ordered(block, latest)
    requires 1 <= left <= right + 1 && right <= latest
    requires OlderBefore(block, left, target) && NewerAfter(block, right, latest, target)
    ensures Found(block, latest, target, Search(block, target, left, right))
    decreases right - left + 1
  {
    if left <= right {
      var mid := (left + right) / 2;
      assert left <= mid <= right && block(mid).Success?;
      SearchStep(block, target, left, right);
      if block(mid).value < target {
        OlderUpTo(block, latest, target, left, mid);
        SearchFinds(block, latest, target, mid + 1, right);
      } else if block(mid).value > target {
        NewerFrom(block, latest, target, mid, right);
        SearchFinds(block, latest, target, left, mid - 1);
      } else {
        SearchHit(block, latest, target, left, right);
      }
    }
  }

  /** The search succeeded with a `Closest` block. */
  predicate Found(block: int -> Result<nat, Error>, latest: int, target: int, r: Result<int, Error>)
  {
    r.Success? && Closest(block, latest, target, r.value)
  }

  /** A probe that hits the target timestamp ends the search at that block. */
  lemma SearchHit(block: int -> Result<nat, Error>, latest: int, target: int, left: int, right: int)
    requires 1 <= left <= right <= latest
    requires block((left + right) / 2).Success? && block((left + right) / 2).value == target
    ensures Found(block, latest, target, Search(block, target, left, right))
  {
    SearchStep(block, target, left, right);
  }

  /** `get_block_number_by_timestamp` on an ordered chain cannot fail and returns the `Closest` block. */
  lemma BlockByTimestampFinds(block: int -> Result<nat, Error>, latest: int, target: int)
    requires Ordered(block, latest)
    ensures Search(block, target, 1, latest).Success?
    ensures 1 <= Search(block, target, 1, latest).value
    ensures Closest(block, latest, target, Search(block, target, 1, latest).value)
  {
    if latest >= 0 {
      SearchFinds(block, latest, target, 1, latest);
    }
  }

  // ---------------------------------------------------------------- claims

  /** Wei per MOR: claimed amounts are divided by 10^18. */
  const Wei: real := 1000000000000000000.0

  /** What the loop body makes of one claim event. */
  datatype Step = Skip | Stop | Claim(day: Date, timestamp: nat, amount: real)

  /**
   * One claim event: `BlockNotFound` for its block skips it; any other error stops the loop,
   * and so does a timestamp whose UTC year has more than four digits (`datetime` cannot hold
   * it) or an event without an `amount` argument.
   */
  function ClaimStep(block: int -> Result<nat, Error>, e: ChainEvent): (s: Step)
    ensures s.Claim? ==> ValidDate(s.day) && 1970 <= s.day.year <= 9999 && s.day == DateOfTimestamp(s.timestamp)
  {
    match block(e.blockNumber)
    case Failure(BlockNotFound) => Skip
    case Failure(_) => Stop
    case Success(ts) =>
      var d := DateOfTimestamp(ts);
      if d.year > 9999 then Stop
      else
        match e.args.amount
        case None => Stop
        case Some(a) => Claim(d, ts, a as real / Wei)
  }

  /** A day's entry of `new_data`: the day, the running supply, the block time and the amount claimed. */
  datatype ClaimRow = ClaimRow(day: Date, supply: real, blockTimestamp: int, claimed: real)

  /** A day `datetime` can write with `%d/%m/%Y`. */
  predicate Writable(c: ClaimRow)
  {
    ValidDate(c.day) && 1000 <= c.day.year <= 9999
  }

  /**
   * `new_data` after the loop over the claim events, starting from the baseline supply: one
   * entry per claimed event up to the first event that stops the loop.
   */
  function ClaimRows(events: seq<ChainEvent>, block: int -> Result<nat, Error>, supply: real): (rows: seq<ClaimRow>)
    ensures |rows| <= |events|
    ensures forall j :: 0 <= j < |rows| ==> Writable(rows[j])
    decreases |events|
  {
    if events == [] then []
    else
      match ClaimStep(block, events[0])
      case Skip => ClaimRows(events[1..], block, supply)
      case Stop => []
      case Claim(d, ts, amount) => [ClaimRow(d, supply + amount, ts, amount)] + ClaimRows(events[1..], block, supply + amount)
  }

  /** The loop of `process_circulating_supply_events` over the claim events. */
  method CollectClaims(events: seq<ChainEvent>, block: int -> Result<nat, Error>, baseline: real) returns (rows: seq<ClaimRow>)
    ensures rows == ClaimRows(events, block, baseline)
  {
    rows := [];
    var supply := baseline;
    var i := 0;
    while i < |events|
      invariant 0 <= i <= |events|
      invariant rows + ClaimRows(events[i..], block, supply) == ClaimRows(events, block, baseline)
    {
      var step := ClaimStep(block, events[i]);
      if step.Stop? {
        ClaimStopped(events, i, block, supply, rows);
        return;
      } else if step.Claim? {
        ClaimAppended(events, i, block, supply, rows, ClaimRows(events, block, baseline));
        supply := supply + step.amount;
        rows := rows + [ClaimRow(step.day, supply, step.timestamp, step.amount)];
      } else {
        ClaimSkipped(events, i, block, supply);
        assert rows + ClaimRows(events[i + 1..], block, supply) == ClaimRows(events, block, baseline);
      }
      i := i + 1;
    }
    assert events[i..] == [];
  }

  /** A claimed event moves its entry from the events still to read to the entries made. */
  lemma ClaimAppended(events: seq<ChainEvent>, i: nat, block: int -> Result<nat, Error>, supply: real, rows: seq<ClaimRow>, total: seq<ClaimRow>)
    requires i < |events| && ClaimStep(block, events[i]).Claim?
    requires rows + ClaimRows(events[i..], block, supply) == total
    ensures var step := ClaimStep(block, events[i]);
      var next := supply + step.amount;
      (rows + [ClaimRow(step.day, next, step.timestamp, step.amount)]) + ClaimRows(events[i + 1..], block, next) == total
  {
    ClaimRowsAt(events, i, block, supply);
    var step := ClaimStep(block, events[i]);
    var entry := ClaimRow(step.day, supply + step.amount, step.timestamp, step.amount);
    assert rows + ([entry] + ClaimRows(events[i + 1..], block, supply + step.amount))
      == (rows + [entry]) + ClaimRows(events[i + 1..], block, supply + step.amount);
  }

  /** A stopping event ends the entries. */
  lemma ClaimStopped(events: seq<ChainEvent>, i: nat, block: int -> Result<nat, Error>, supply: real, rows: seq<ClaimRow>)
    requires i < |events| && ClaimStep(block, events[i]).Stop?
    ensures rows + ClaimRows(events[i..], block, supply) == rows
  {
    ClaimRowsAt(events, i, block, supply);
    assert rows + [] == rows;
  }

  /** A skipped event adds no entry. */
  lemma ClaimSkipped(events: seq<ChainEvent>, i: nat, block: int -> Result<nat, Error>, supply: real)
    requires i < |events| && ClaimStep(block, events[i]).Skip?
    ensures ClaimRows(events[i..], block, supply) == ClaimRows(events[i + 1..], block, supply)
  {
    ClaimRowsAt(events, i, block, supply);
  }

  /** The entries from event `i` on: those of event `i`'s step, then those of the events after it. */
  lemma ClaimRowsAt(events: seq<ChainEvent>, i: nat, block: int -> Result<nat, Error>, supply: real)
    requires i < |events|
    ensures ClaimRows(events[i..], block, supply) ==
      match ClaimStep(block, events[i])
      case Skip => ClaimRows(events[i + 1..], block, supply)
      case Stop => []
      case Claim(d, ts, amount) => [ClaimRow(d, supply + amount, ts, amount)] + ClaimRows(events[i + 1..], block, supply + amount)
  {
    assert events[i..][1..] == events[i + 1..];
  }

  /** The claimed amounts of the entries, in order. */
  function Claimed(rows: seq<ClaimRow>): (xs: seq<real>)
    ensures |xs| == |rows| && forall j :: 0 <= j < |rows| ==> xs[j] == rows[j].claimed
  {
    seq(|rows|, j requires 0 <= j < |rows| => rows[j].claimed)
  }

  /**
   * The running supply: the first entry adds its claim to the baseline and every later entry
   * adds its claim to the entry before.
   */
  lemma {:induction false} RunningSupply(events: seq<ChainEvent>, block: int -> Result<nat, Error>, supply: real)
    ensures var rows := ClaimRows(events, block, supply);
      && (rows != [] ==> rows[0].supply == supply + rows[0].claimed)
      && (forall j :: 0 < j < |rows| ==> rows[j].supply == rows[j - 1].supply + rows[j].claimed)
    decreases |events|
  {
    if events != [] {
      match ClaimStep(block, events[0])
      case Skip => RunningSupply(events[1..], block, supply);
      case Stop =>
      case Claim(d, ts, amount) =>
        var rows := ClaimRows(events, block, supply);
        var rest := ClaimRows(events[1..], block, supply + amount);
        RunningSupply(events[1..], block, supply + amount);
        assert rows == [ClaimRow(d, supply + amount, ts, amount)] + rest;
        forall j | 1 < j < |rows|
          ensures rows[j].supply == rows[j - 1].supply + rows[j].claimed
        {
          assert rows[j] == rest[j - 1] && rows[j - 1] == rest[j - 2];
        }
    }
  }

  /** Hence each entry holds the baseline plus every claim up to and including its own. */
  lemma {:induction false} SupplyIsBaselinePlusClaims(rows: seq<ClaimRow>, supply: real, j: nat)
    requires rows != [] ==> rows[0].supply == supply + rows[0].claimed
    requires forall j :: 0 < j < |rows| ==> rows[j].supply == rows[j - 1].supply + rows[j].claimed
    requires j < |rows|
    ensures rows[j].supply == supply + SumReal(Claimed(rows[..j + 1]))
  {
    assert Claimed(rows[..j + 1])[..j] == Claimed(rows[..j]);
    if j == 0 {
      assert Claimed(rows[..0]) == [];
    } else {
      SupplyIsBaselinePlusClaims(rows, supply, j - 1);
      assert rows[..j - 1 + 1] == rows[..j];
    }
  }

  // ---------------------------------------------------------------- aggregation by day

  /** The position of the entry for day `d`, if there is one. */
  function IndexOfDay(acc: seq<ClaimRow>, d: Date): (r: Option<nat>)
    ensures r.Some? ==> r.value < |acc| && acc[r.value].day == d
    ensures r.None? <==> forall i :: 0 <= i < |acc| ==> acc[i].day != d
  {
    if acc == [] then None
    else if acc[0].day == d then Some(0)
    else
      match IndexOfDay(acc[1..], d)
      case None => None
      case Some(i) => Some(i + 1)
  }

  /** No two entries share a day. */
  predicate DistinctDays(acc: seq<ClaimRow>)
  {
    forall i, j :: 0 <= i < j < |acc| ==> acc[i].day != acc[j].day
  }

  /**
   * A later entry folded into the day's entry: the claims add up, the later supply replaces
   * the earlier, and the block time is the later one if it is larger.
   */
  function Combine(prev: ClaimRow, r: ClaimRow): ClaimRow
  {
    ClaimRow(prev.day, r.supply,
      if r.blockTimestamp > prev.blockTimestamp then r.blockTimestamp else prev.blockTimestamp,
      prev.claimed + r.claimed)
  }

  /** One step of the `date_totals` loop: fold `r` into its day's entry, or add it as a new one. */
  function Merge(acc: seq<ClaimRow>, r: ClaimRow): seq<ClaimRow>
  {
    match IndexOfDay(acc, r.day)
    case Some(j) => acc[j := Combine(acc[j], r)]
    case None => acc + [r]
  }

  /** `list(date_totals.values())` after the loop: the entries merged by day, in first-seen order. */
  function Aggregate(rows: seq<ClaimRow>): seq<ClaimRow>
  {
    if rows == [] then [] else Merge(Aggregate(rows[..|rows| - 1]), rows[|rows| - 1])
  }

  /** The total claimed on day `d`. */
  function ClaimedOn(rows: seq<ClaimRow>, d: Date): real
  {
    if rows == [] then 0.0
    else ClaimedOn(rows[..|rows| - 1], d) + (if rows[|rows| - 1].day == d then rows[|rows| - 1].claimed else 0.0)
  }

  /** The last entry of day `d`. */
  function LastOn(rows: seq<ClaimRow>, d: Date): Option<ClaimRow>
  {
    if rows == [] then None
    else if rows[|rows| - 1].day == d then Some(rows[|rows| - 1])
    else LastOn(rows[..|rows| - 1], d)
  }

  /** The largest block time on day `d`. */
  function LatestTimeOn(rows: seq<ClaimRow>, d: Date): Option<int>
  {
    if rows == [] then None
    else
      var m := LatestTimeOn(rows[..|rows| - 1], d);
      var t := rows[|rows| - 1].blockTimestamp;
      if rows[|rows| - 1].day != d then m
      else if m.None? || t > m.value then Some(t)
      else m
  }

  /** The aggregated entry `e` sums up its day in `rows`. */
  predicate Summarises(rows: seq<ClaimRow>, e: ClaimRow)
  {
    && e.claimed == ClaimedOn(rows, e.day)
    && LastOn(rows, e.day).Some? && e.supply == LastOn(rows, e.day).value.supply
    && LatestTimeOn(rows, e.day) == Some(e.blockTimestamp)
  }

  /** A day without entries has nothing claimed, no last entry and no block time. */
  lemma {:induction false} NothingOnDay(rows: seq<ClaimRow>, d: Date)
    requires forall k :: 0 <= k < |rows| ==> rows[k].day != d
    ensures ClaimedOn(rows, d) == 0.0 && LastOn(rows, d).None? && LatestTimeOn(rows, d).None?
  {
    if rows != [] {
      NothingOnDay(rows[..|rows| - 1], d);
    }
  }

  /** Merging one entry keeps the days distinct, gives `r`'s day an entry, and keeps every other day. */
  lemma MergeDays(acc: seq<ClaimRow>, r: ClaimRow)
    requires DistinctDays(acc)
    ensures DistinctDays(Merge(acc, r))
    ensures |Merge(acc, r)| <= |acc| + 1
    ensures IndexOfDay(Merge(acc, r), r.day).Some?
    ensures forall d :: IndexOfDay(acc, d).Some? ==> IndexOfDay(Merge(acc, r), d).Some?
    ensures forall i :: 0 <= i < |Merge(acc, r)| ==> Merge(acc, r)[i].day == r.day || IndexOfDay(acc, Merge(acc, r)[i].day).Some?
  {
    var m := Merge(acc, r);
    match IndexOfDay(acc, r.day)
    case Some(j) =>
      assert m[j].day == r.day;
      forall d | IndexOfDay(acc, d).Some?
        ensures IndexOfDay(m, d).Some?
      {
        var i := IndexOfDay(acc, d).value;
        assert m[i].day == d;
      }
      forall i | 0 <= i < |m|
        ensures m[i].day == r.day || IndexOfDay(acc, m[i].day).Some?
      {
        assert m[i].day == acc[i].day;
      }
    case None =>
      assert m[|acc|].day == r.day;
      forall d | IndexOfDay(acc, d).Some?
        ensures IndexOfDay(m, d).Some?
      {
        var i := IndexOfDay(acc, d).value;
        assert m[i].day == d;
      }
      forall i | 0 <= i < |m|
        ensures m[i].day == r.day || IndexOfDay(acc, m[i].day).Some?
      {
        if i < |acc| {
          assert m[i].day == acc[i].day;
        }
      }
  }

  /** Aggregation gives one entry per claimed day, for claimed days only, and no more entries than claims. */
  lemma {:induction false} AggregateDays(rows: seq<ClaimRow>)
    ensures DistinctDays(Aggregate(rows))
    ensures |Aggregate(rows)| <= |rows|
    ensures forall k :: 0 <= k < |rows| ==> IndexOfDay(Aggregate(rows), rows[k].day).Some?
    ensures forall i :: 0 <= i < |Aggregate(rows)| ==> exists k :: 0 <= k < |rows| && rows[k].day == Aggregate(rows)[i].day
  {
    if rows != [] {
      var init, last := rows[..|rows| - 1], rows[|rows| - 1];
      AggregateDays(init);
      var prev := Aggregate(init);
      MergeDays(prev, last);
      var agg := Aggregate(rows);
      assert agg == Merge(prev, last);
      forall k | 0 <= k < |rows|
        ensures IndexOfDay(agg, rows[k].day).Some?
      {
        if k < |rows| - 1 {
          assert rows[k] == init[k];
        }
      }
      forall i | 0 <= i < |agg|
        ensures exists k :: 0 <= k < |rows| && rows[k].day == agg[i].day
      {
        if agg[i].day != last.day {
          var j := IndexOfDay(prev, agg[i].day).value;
          var k :| 0 <= k < |init| && init[k].day == prev[j].day;
          assert rows[k] == init[k];
        } else {
          assert rows[|rows| - 1].day == agg[i].day;
        }
      }
    }
  }

  /**
   * Every aggregated entry sums up its day: its claim is the day's total, its supply is the
   * supply after the day's last claim and its block time is the day's latest.
   */
  lemma {:induction false} AggregateSummarises(rows: seq<ClaimRow>)
    ensures forall i :: 0 <= i < |Aggregate(rows)| ==> Summarises(rows, Aggregate(rows)[i])
  {
    if rows != [] {
      var init, last := rows[..|rows| - 1], rows[|rows| - 1];
      AggregateSummarises(init);
      AggregateDays(init);
      var prev := Aggregate(init);
      var agg := Aggregate(rows);
      assert agg == Merge(prev, last);
      match IndexOfDay(prev, last.day)
      case Some(j) =>
        forall i | 0 <= i < |agg|
          ensures Summarises(rows, agg[i])
        {
          assert Summarises(init, prev[i]);
          if i != j {
            assert agg[i] == prev[i] && prev[i].day != last.day;
          }
        }
      case None =>
        forall i | 0 <= i < |agg|
          ensures Summarises(rows, agg[i])
        {
          if i < |prev| {
            assert Summarises(init, prev[i]);
            assert agg[i] == prev[i] && prev[i].day != last.day;
          } else {
            forall k | 0 <= k < |init|
              ensures init[k].day != last.day
            {
              assert IndexOfDay(prev, init[k].day).Some?;
            }
            NothingOnDay(init, last.day);
          }
        }
    }
  }

  /** The dict's values in insertion order. */
  function Values(order: seq<Date>, totals: map<Date, ClaimRow>): (vs: seq<ClaimRow>)
    requires forall j :: 0 <= j < |order| ==> order[j] in totals
    ensures |vs| == |order| && forall j :: 0 <= j < |order| ==> vs[j] == totals[order[j]]
  {
    seq(|order|, j requires 0 <= j < |order| => totals[order[j]])
  }

  /** The dict `date_totals` in insertion order: distinct days, each keyed by its own day. */
  ghost predicate Tracks(order: seq<Date>, totals: map<Date, ClaimRow>)
  {
    && (forall d :: d in totals <==> d in order)
    && (forall a, b :: 0 <= a < b < |order| ==> order[a] != order[b])
    && (forall j :: 0 <= j < |order| ==> totals[order[j]].day == order[j])
  }

  /** Folding an entry into a day the dict already holds is `Merge`. */
  lemma MergeKnownDay(order: seq<Date>, totals: map<Date, ClaimRow>, r: ClaimRow)
    requires Tracks(order, totals) && r.day in totals
    ensures Tracks(order, totals[r.day := Combine(totals[r.day], r)])
    ensures Merge(Values(order, totals), r) == Values(order, totals[r.day := Combine(totals[r.day], r)])
  {
    var prev := Values(order, totals);
    var j :| 0 <= j < |order| && order[j] == r.day;
    assert prev[j].day == r.day;
    var i := IndexOfDay(prev, r.day).value;
    assert order[i] == r.day;
  }

  /** Adding a day the dict does not hold is `Merge`. */
  lemma MergeNewDay(order: seq<Date>, totals: map<Date, ClaimRow>, r: ClaimRow)
    requires Tracks(order, totals) && r.day !in totals
    ensures Tracks(order + [r.day], totals[r.day := r])
    ensures Merge(Values(order, totals), r) == Values(order + [r.day], totals[r.day := r])
  {
    var prev := Values(order, totals);
    assert IndexOfDay(prev, r.day).None?;
  }

  /** The `date_totals` loop of `process_circulating_supply_events`, over a dict kept in insertion order. */
  method AggregateByDay(rows: seq<ClaimRow>) returns (daily: seq<ClaimRow>)
    ensures daily == Aggregate(rows)
  {
    var totals: map<Date, ClaimRow> := map[];
    var order: seq<Date> := [];
    for i := 0 to |rows|
      invariant Tracks(order, totals)
      invariant Aggregate(rows[..i]) == Values(order, totals)
    {
      var r := rows[i];
      assert rows[..i + 1][..i] == rows[..i];
      if r.day in totals {
        MergeKnownDay(order, totals, r);
        totals := totals[r.day := Combine(totals[r.day], r)];
      } else {
        MergeNewDay(order, totals, r);
        totals := totals[r.day := r];
        order := order + [r.day];
      }
    }
    assert rows[..|rows|] == rows;
    daily := Values(order, totals);
  }

  /** Each aggregated entry's day is one of the claimed days, so it can be written as text. */
  lemma AggregateWritable(rows: seq<ClaimRow>)
    requires forall k :: 0 <= k < |rows| ==> Writable(rows[k])
    ensures forall i :: 0 <= i < |Aggregate(rows)| ==> Writable(Aggregate(rows)[i])
  {
    AggregateDays(rows);
  }

  /** The dicts passed to `save_new_supply_data`, the day written as `%d/%m/%Y`. */
  function Inputs(daily: seq<ClaimRow>): (xs: seq<SupplyInput>)
    requires forall i :: 0 <= i < |daily| ==> Writable(daily[i])
    ensures |xs| == |daily|
  {
    seq(|daily|, i requires 0 <= i < |daily| && Writable(daily[i]) =>
      SupplyInput(DateText(FormatDmy(daily[i].day)), daily[i].supply, daily[i].blockTimestamp, daily[i].claimed))
  }

  /** The row stored for an aggregated day. */
  function AsRecord(c: ClaimRow): CirculatingSupply
  {
    CirculatingSupply(c.day, c.supply, c.blockTimestamp, c.claimed)
  }

  /** The rows stored for the claimed days, one per day in first-claim order. */
  function DailyRecords(claims: seq<ClaimRow>): (records: seq<CirculatingSupply>)
    ensures |records| == |Aggregate(claims)|
    ensures forall i :: 0 <= i < |records| ==> records[i] == AsRecord(Aggregate(claims)[i])
  {
    var daily := Aggregate(claims);
    seq(|daily|, i requires 0 <= i < |daily| => AsRecord(daily[i]))
  }

  /** What `insert_circulating_supply_events` receives: the aggregated days as dicts. */
  function DailyInputs(claims: seq<ClaimRow>): seq<SupplyInput>
    requires forall k :: 0 <= k < |claims| ==> Writable(claims[k])
  {
    AggregateWritable(claims);
    Inputs(Aggregate(claims))
  }

  /** The day text written by the job always reads back, so building the records never fails. */
  lemma InputsRead(claims: seq<ClaimRow>)
    requires forall k :: 0 <= k < |claims| ==> Writable(claims[k])
    ensures SupplyRecords(DailyInputs(claims)) == Success(DailyRecords(claims))
  {
    AggregateWritable(claims);
    var daily := Aggregate(claims);
    var xs := DailyInputs(claims);
    assert xs == Inputs(daily);
    var want := DailyRecords(claims);
    forall i | 0 <= i < |xs|
      ensures SupplyRecord(xs[i]) == Success(want[i])
    {
      TextDateRoundTrip(daily[i].day, daily[i].supply, daily[i].blockTimestamp, daily[i].claimed);
    }
    SupplyRecordsSpec(xs);
    var got := SupplyRecords(xs).value;
    assert |got| == |want|;
    assert forall i :: 0 <= i < |got| ==> got[i] == want[i];
    assert got == want;
  }

  /**
   * The daily rows have one row per claimed day and no other, and the row of each day sums up
   * that day's claims.
   */
  lemma DailyRecordsFacts(claims: seq<ClaimRow>)
    ensures UniqueKeys(DailyRecords(claims), DateOf)
    ensures forall k :: 0 <= k < |claims| ==> HasKey(DailyRecords(claims), DateOf, claims[k].day)
    ensures forall d :: HasKey(DailyRecords(claims), DateOf, d) ==> IndexOfDay(claims, d).Some?
    ensures forall j :: 0 <= j < |DailyRecords(claims)| ==>
      Summarises(claims, ClaimRow(DailyRecords(claims)[j].date, DailyRecords(claims)[j].supply, DailyRecords(claims)[j].blockTimestamp, DailyRecords(claims)[j].totalClaimed))
  {
    AggregateDays(claims);
    DailyRecordsCover(claims);
    DailyRecordsSum(claims);
  }

  /** Every claimed day has a daily row, and every daily row is of a claimed day. */
  lemma DailyRecordsCover(claims: seq<ClaimRow>)
    ensures forall k :: 0 <= k < |claims| ==> HasKey(DailyRecords(claims), DateOf, claims[k].day)
    ensures forall d :: HasKey(DailyRecords(claims), DateOf, d) ==> IndexOfDay(claims, d).Some?
  {
    AggregateDays(claims);
    var daily := Aggregate(claims);
    var records := DailyRecords(claims);
    forall k | 0 <= k < |claims|
      ensures HasKey(records, DateOf, claims[k].day)
    {
      var j := IndexOfDay(daily, claims[k].day).value;
      assert DateOf(records[j]) == claims[k].day;
    }
    forall d | HasKey(records, DateOf, d)
      ensures IndexOfDay(claims, d).Some?
    {
      var j :| 0 <= j < |records| && DateOf(records[j]) == d;
      var k :| 0 <= k < |claims| && claims[k].day == daily[j].day;
      assert claims[k].day == d;
    }
  }

  /** The daily row of each day sums up that day's claims. */
  lemma DailyRecordsSum(claims: seq<ClaimRow>)
    ensures forall j :: 0 <= j < |DailyRecords(claims)| ==>
      Summarises(claims, ClaimRow(DailyRecords(claims)[j].date, DailyRecords(claims)[j].supply, DailyRecords(claims)[j].blockTimestamp, DailyRecords(claims)[j].totalClaimed))
  {
    AggregateSummarises(claims);
    var daily := Aggregate(claims);
    var records := DailyRecords(claims);
    forall j | 0 <= j < |records|
      ensures Summarises(claims, ClaimRow(records[j].date, records[j].supply, records[j].blockTimestamp, records[j].totalClaimed))
    {
      assert ClaimRow(records[j].date, records[j].supply, records[j].blockTimestamp, records[j].totalClaimed) == daily[j];
    }
  }

  // ---------------------------------------------------------------- the job

  /**
   * The claim rows of a run: from the latest stored row's supply, over the claims after the
   * block of its timestamp; `None` with no stored row or when a node query raises.
   */
  function RunClaims(rows: seq<CirculatingSupply>, chain: SupplyChain): Option<seq<ClaimRow>>
  {
    match Latest(rows)
    case None => None
    case Some(base) =>
      match Search(chain.block, base.blockTimestamp, 1, chain.latestBlock)
      case Failure(_) => None
      case Success(b) =>
        match chain.claimsFrom(b + 1)
        case Failure(_) => None
        case Success(events) => Some(ClaimRows(events, chain.block, base.supply))
  }

  /** The rows left in `circulating_supply` by `process_circulating_supply_events`, and what it returns. */
  function StageOutcome(rows: seq<CirculatingSupply>, chain: SupplyChain, autocommit: bool, server: Server): (seq<CirculatingSupply>, Option<nat>)
  {
    match RunClaims(rows, chain)
    case None => (rows, None)
    case Some(claims) =>
      if claims == [] then (rows, None)
      else
        match SupplyRecords(DailyInputs(claims))
        case Failure(_) => (rows, None)
        case Success(records) =>
          var (stored, r) := BulkOutcome(autocommit, server, rows, InsertOrUpdate(DateOf), records);
          (stored, if r.Success? then Some(r.value) else None)
  }

  /** `process_circulating_supply_events` */
  method ProcessCirculatingSupply(repo: Repository, chain: SupplyChain, server: Server) returns (r: Option<nat>)
    modifies repo, repo.db
    ensures repo.db.inUse == old(repo.db.inUse)
    ensures (repo.rows, r) == StageOutcome(old(repo.rows), chain, repo.db.cfg.autocommit, server)
  {
    var run := FetchClaims(repo.rows, chain);
    if run.None? || run.value == [] {
      return None;
    }
    ghost var before := repo.rows;
    r := SaveDailyTotals(repo, run.value, server);
    RunSavesDailyRecords(before, chain, repo.db.cfg.autocommit, server);
  }

  /** The start of `process_circulating_supply_events`: the claims after the latest stored row. */
  method FetchClaims(rows: seq<CirculatingSupply>, chain: SupplyChain) returns (run: Option<seq<ClaimRow>>)
    ensures run == RunClaims(rows, chain)
  {
    var latest := Latest(rows);
    if latest.None? {
      return None;
    }
    var base := latest.value;
    var b := BlockByTimestamp(chain.block, chain.latestBlock, base.blockTimestamp);
    if b.Failure? {
      return None;
    }
    var events := chain.claimsFrom(b.value + 1);
    if events.Failure? {
      return None;
    }
    var claims := CollectClaims(events.value, chain.block, base.supply);
    return Some(claims);
  }

  /** The end of `process_circulating_supply_events`: the claims summed per day and saved. */
  method SaveDailyTotals(repo: Repository, claims: seq<ClaimRow>, server: Server) returns (r: Option<nat>)
    requires forall k :: 0 <= k < |claims| ==> Writable(claims[k])
    modifies repo, repo.db
    ensures repo.db.inUse == old(repo.db.inUse)
    ensures var (stored, t) := BulkOutcome(repo.db.cfg.autocommit, server, old(repo.rows), InsertOrUpdate(DateOf), DailyRecords(claims));
      repo.rows == stored && r == (if t.Success? then Some(t.value) else None)
  {
    var daily := AggregateByDay(claims);
    AggregateWritable(claims);
    var inputs := Inputs(daily);
    assert inputs == DailyInputs(claims);
    InputsRead(claims);
    var saved := repo.SaveNewSupplyData(inputs, server);
    r := if saved.Success? then Some(saved.value) else None;
  }

  /**
   * `process_circulating_supply_events` as written: the baseline read re-raises the `TypeError`
   * of `get_latest` on a tuple row, and the job's outer handler turns it into `None`.
   */
  function StageOutcomeAsWritten(rows: seq<CirculatingSupply>, chain: SupplyChain, autocommit: bool, server: Server): (seq<CirculatingSupply>, Option<nat>)
  {
    match LatestAsWritten(rows)
    case Failure(_) => (rows, None)
    case Success(None) => (rows, None)
    case Success(Some(_)) => StageOutcome(rows, chain, autocommit, server)
  }

  /**
   * As written no run ever saves: with no stored row there is no baseline, and with one the
   * baseline read raises; either way the table is left as it was and `None` is returned.
   */
  lemma AsWrittenRunNeverSaves(rows: seq<CirculatingSupply>, chain: SupplyChain, autocommit: bool, server: Server)
    ensures StageOutcomeAsWritten(rows, chain, autocommit, server) == (rows, None)
  {
  }

  /** Without a stored row there is no baseline: the run changes nothing and returns `None`. */
  lemma NoBaselineNoRun(chain: SupplyChain, autocommit: bool, server: Server)
    ensures StageOutcome([], chain, autocommit, server) == ([], None)
  {
  }

  /** A run with claims saves exactly the daily rows: the `None` branch for unreadable dates is never taken. */
  lemma RunSavesDailyRecords(rows: seq<CirculatingSupply>, chain: SupplyChain, autocommit: bool, server: Server)
    requires RunClaims(rows, chain).Some? && RunClaims(rows, chain).value != []
    ensures var claims := RunClaims(rows, chain).value;
      var (stored, r) := BulkOutcome(autocommit, server, rows, InsertOrUpdate(DateOf), DailyRecords(claims));
      StageOutcome(rows, chain, autocommit, server) == (stored, if r.Success? then Some(r.value) else None)
  {
    InputsRead(RunClaims(rows, chain).value);
  }

  /**
   * A committed run stores one row per claimed day: the number of days is returned, each
   * claimed day's row holds the day's total claim, the supply after its last claim and its
   * latest block time, and the rows of other days are left as they were.
   */
  lemma CommittedRunStoresDailyTotals(rows: seq<CirculatingSupply>, chain: SupplyChain, server: Server)
    ensures var (stored, r) := StageOutcome(rows, chain, false, server);
      r.Some? ==>
        && RunClaims(rows, chain).Some?
        && var claims := RunClaims(rows, chain).value;
        && r.value == |Aggregate(claims)|
        && (forall k :: 0 <= k < |claims| ==> HasKey(stored, DateOf, claims[k].day))
        && (forall i :: 0 <= i < |stored| && IndexOfDay(claims, stored[i].date).Some? ==>
              Summarises(claims, ClaimRow(stored[i].date, stored[i].supply, stored[i].blockTimestamp, stored[i].totalClaimed)))
        && |rows| <= |stored|
        && (forall i :: 0 <= i < |rows| && IndexOfDay(claims, rows[i].date).None? ==> stored[i] == rows[i])
  {
    var (stored, r) := StageOutcome(rows, chain, false, server);
    if r.Some? {
      var claims := RunClaims(rows, chain).value;
      RunSavesDailyRecords(rows, chain, false, server);
      var records := DailyRecords(claims);
      DailyRecordsFacts(claims);
      UpsertLatestWins(false, server, rows, records);
      UpsertAllStoresEveryKey(rows, DateOf, records);
      forall i | 0 <= i < |stored| && IndexOfDay(claims, stored[i].date).Some?
        ensures Summarises(claims, ClaimRow(stored[i].date, stored[i].supply, stored[i].blockTimestamp, stored[i].totalClaimed))
      {
        var k := IndexOfDay(claims, stored[i].date).value;
        assert HasKey(records, DateOf, claims[k].day);
        var j :| 0 <= j < |records| && DateOf(records[j]) == stored[i].date;
        LastWithKeyOfUnique(records, DateOf, j);
      }
      forall i | 0 <= i < |rows| && IndexOfDay(claims, rows[i].date).None?
        ensures stored[i] == rows[i]
      {
        assert !HasKey(records, DateOf, rows[i].date);
      }
    }
  }
}
