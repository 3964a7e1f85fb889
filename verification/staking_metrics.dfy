/**
 * helpers/staking_helpers/staking_main.py: the staking metrics computed from the stored user
 * multipliers (unique stakers, stake times, average multipliers, the longest stake of each
 * wallet), the reward summary per pool, and the power factor of a staking period.
 */
module StakingMetrics {
  import opened Wrappers
  import opened Errors
  import opened Calendar
  import opened Text
  import opened Records
  import opened Sequences
  import EmissionSchedule

  /** `25 * 365 * 24 * 60 * 60`: how far in the future a lock may end and still count. */
  const LockHorizon := 25 * 365 * 24 * 60 * 60

  /** The multiplier scale: a stored multiplier is in units of 10^18. */
  const Wei: real := 1000000000000000000.0

  /** `is_valid_stake(row)` at the clock reading `now` (Unix seconds). */
  predicate IsValidStake(row: UserMultiplier, now: int)
  {
    row.claimLockStart != 0 && row.claimLockEnd != 0 && now < row.claimLockEnd <= now + LockHorizon
  }

  /** The seconds between the start and the end of a row's claim lock. */
  function Span(row: UserMultiplier): int
  {
    row.claimLockEnd - row.claimLockStart
  }

  // ---------------------------------------------------------------- filters

  /** Every row has a multiplier. */
  predicate AllMultipliers(rows: seq<UserMultiplier>)
  {
    forall i :: 0 <= i < |rows| ==> rows[i].multiplier.Some?
  }

  /** The valid stakes of a frame, in frame order. */
  function ValidRows(rows: seq<UserMultiplier>, now: int): (r: seq<UserMultiplier>)
    ensures |r| <= |rows|
    ensures forall i :: 0 <= i < |r| ==> IsValidStake(r[i], now)
  {
    if rows == [] then []
    else
      var init := ValidRows(rows[..|rows| - 1], now);
      if IsValidStake(rows[|rows| - 1], now) then init + [rows[|rows| - 1]] else init
  }

  /** The rows of pool `p`, in frame order. */
  function OfPool(rows: seq<UserMultiplier>, p: int): (r: seq<UserMultiplier>)
    ensures |r| <= |rows|
    ensures forall i :: 0 <= i < |r| ==> r[i].poolId == p
    ensures AllMultipliers(rows) ==> AllMultipliers(r)
  {
    if rows == [] then []
    else
      var init := OfPool(rows[..|rows| - 1], p);
      if rows[|rows| - 1].poolId == p then init + [rows[|rows| - 1]] else init
  }

  /** `get_user_multiplier_dataframe`: each row's claim lock replaced by the one `usersData` reports, or kept when that call fails. */
  function Enriched(rows: seq<UserMultiplier>, usersData: (string, int) -> Result<(int, int), Error>): (r: seq<UserMultiplier>)
    ensures |r| == |rows|
    ensures forall i :: 0 <= i < |rows| ==>
      var d := usersData(rows[i].userAddress, rows[i].poolId);
      r[i] == if d.Success? then rows[i].(claimLockStart := d.value.0, claimLockEnd := d.value.1) else rows[i]
  {
    seq(|rows|, i requires 0 <= i < |rows| =>
      var d := usersData(rows[i].userAddress, rows[i].poolId);
      if d.Success? then rows[i].(claimLockStart := d.value.0, claimLockEnd := d.value.1) else rows[i])
  }

  // ---------------------------------------------------------------- calculate_power_factor

  const PowerFactors: seq<real> := [1.0, 2.12, 4.17, 6.08, 7.82, 9.35, 10.67]

  /**
   * `calculate_power_factor(days)`. Python's `//` floors, as Dafny's `/` does for a positive
   * divisor; a negative year count indexes the list from its end, and below -7 raises.
   */
  function PowerFactor(days: int): Result<real, Error>
  {
    var years := days / 365;
    if years >= 6 then Success(PowerFactors[6])
    else if years >= 0 then Success(PowerFactors[years])
    else if years >= -7 then Success(PowerFactors[7 + years])
    else Failure(IndexError)
  }

  /** For a nonnegative period the factor is the entry of its whole years, capped at the seventh. */
  lemma PowerFactorOfYears(days: nat)
    ensures PowerFactor(days) == Success(PowerFactors[if days / 365 < 6 then days / 365 else 6])
    ensures 1.0 <= PowerFactor(days).value <= 10.67
  {
  }

  /** The factor never falls as the staking period grows. */
  lemma PowerFactorMonotone(d1: nat, d2: nat)
    requires d1 <= d2
    ensures PowerFactor(d1).value <= PowerFactor(d2).value
  {
    assert d1 / 365 <= d2 / 365 by {
      DivMonotone(d1, d2, 365);
    }
  }

  lemma DivMonotone(a: nat, b: nat, d: nat)
    requires a <= b && d > 0
    ensures a / d <= b / d
  {
    var qa, qb := a / d, b / d;
    assert qa * d <= a;
    assert b < qb * d + d;
    assert qa * d < (qb + 1) * d;
    if qa > qb {
      assert qa >= qb + 1;
      MulMonotone(qb + 1, qa, d);
    }
  }

  lemma MulMonotone(x: int, y: int, d: nat)
    requires x <= y
    ensures x * d <= y * d
  {
  }

  /** A period of minus one day is taken from the end of the list. */
  lemma PowerFactorOfNegativeDay()
    ensures PowerFactor(-1) == Success(10.67)
    ensures PowerFactor(-365 * 7 - 1) == Failure(IndexError)
  {
  }

  // ---------------------------------------------------------------- analyze_mor_stakers

  /** The sets and sums the staker analysis accumulates. */
  datatype Tally = Tally(stakers0: set<string>, stakers1: set<string>,
                         daily: map<Date, (set<string>, set<string>)>,
                         time0: int, time1: int, count0: nat, count1: nat)

  const EmptyTally := Tally({}, {}, map[], 0, 0, 0, 0)

  /** A valid row of pool 0 or 1 added to the tally; any other pool raises `KeyError`. */
  function Add(t: Tally, row: UserMultiplier): Result<Tally, Error>
  {
    var d := row.timestamp.date;
    var day := if d in t.daily then t.daily[d] else ({}, {});
    var u := row.userAddress;
    if row.poolId == 0 then
      Success(Tally(t.stakers0 + {u}, t.stakers1, t.daily[d := (day.0 + {u}, day.1)],
                    t.time0 + Span(row), t.time1, t.count0 + 1, t.count1))
    else if row.poolId == 1 then
      Success(Tally(t.stakers0, t.stakers1 + {u}, t.daily[d := (day.0, day.1 + {u})],
                    t.time0, t.time1 + Span(row), t.count0, t.count1 + 1))
    else Failure(KeyError(IntToString(row.poolId)))
  }

  /** The tally of the valid rows of a frame, or the `KeyError` of the first valid row of another pool. */
  function Tallied(rows: seq<UserMultiplier>, now: int): Result<Tally, Error>
  {
    if rows == [] then Success(EmptyTally)
    else
      match Tallied(rows[..|rows| - 1], now)
      case Failure(e) => Failure(e)
      case Success(t) =>
        if IsValidStake(rows[|rows| - 1], now) then Add(t, rows[|rows| - 1]) else Success(t)
  }

  /** `{'pool_0': ..., 'pool_1': ..., 'combined': ...}` */
  datatype Counts = Counts(pool0: nat, pool1: nat, combined: nat)

  /** The result of `analyze_mor_stakers`; stake times are in seconds. */
  datatype Analysis = Analysis(
    totalUnique: Counts, dailyUnique: map<Date, Counts>,
    averageTime0: real, averageTime1: real, combinedAverageTime: real,
    totalStakes0: nat, totalStakes1: nat,
    morPrice: Option<real>, ethPrice: Option<real>, emissionToday: real)

  /** The result for an empty frame: no prices are fetched and everything is 0. */
  const EmptyAnalysis := Analysis(Counts(0, 0, 0), map[], 0.0, 0.0, 0.0, 0, 0, None, None, 0.0)

  /** `total / count`, or 0 when nothing was counted. */
  function Average(total: int, count: nat): (a: real)
    ensures count > 0 ==> a * count as real == total as real
    ensures count == 0 ==> a == 0.0
  {
    if count > 0 then total as real / count as real else 0.0
  }

  function Unique(a: set<string>, b: set<string>): (c: Counts)
    ensures c.pool0 <= c.combined && c.pool1 <= c.combined && c.combined <= c.pool0 + c.pool1
  {
    UnionBounds(a, b);
    Counts(|a|, |b|, |a + b|)
  }

  lemma UnionBounds<T>(a: set<T>, b: set<T>)
    ensures |a| <= |a + b| && |b| <= |a + b| && |a + b| <= |a| + |b|
  {
    assert a + b == a + (b - a);
    assert a <= a + b && b <= a + b;
    SubsetCard(a, a + b);
    SubsetCard(b, a + b);
    SubsetCard(b - a, b);
  }

  lemma SubsetCard<T>(a: set<T>, b: set<T>)
    requires a <= b
    ensures |a| <= |b|
  {
    assert b == a + (b - a);
  }

  /** The analysis of a tally, with the prices and today's emission the job fetched. */
  function Report(t: Tally, morPrice: Option<real>, ethPrice: Option<real>, emissionToday: real): Analysis
  {
    Analysis(
      Unique(t.stakers0, t.stakers1),
      map d | d in t.daily :: Unique(t.daily[d].0, t.daily[d].1),
      Average(t.time0, t.count0), Average(t.time1, t.count1),
      Average(t.time0 + t.time1, t.count0 + t.count1),
      t.count0, t.count1, morPrice, ethPrice, emissionToday)
  }

  /** `analyze_mor_stakers` over a frame, given the prices and today's capital emission. */
  function StakerReport(rows: seq<UserMultiplier>, now: int, morPrice: Option<real>, ethPrice: Option<real>, emissionToday: real): Result<Analysis, Error>
  {
    if rows == [] then Success(EmptyAnalysis)
    else
      match Tallied(rows, now)
      case Failure(e) => Failure(e)
      case Success(t) => Success(Report(t, morPrice, ethPrice, emissionToday))
  }

  /** `analyze_mor_stakers`: one pass over the frame, adding each valid row's user to its pool and day, and its stake time to its pool. */
  method AnalyzeMorStakers(rows: seq<UserMultiplier>, now: int, morPrice: Option<real>, ethPrice: Option<real>, emissionToday: real)
    returns (r: Result<Analysis, Error>)
    ensures r == StakerReport(rows, now, morPrice, ethPrice, emissionToday)
  {
    if rows == [] {
      return Success(EmptyAnalysis);
    }
    var stakers0, stakers1: set<string> := {}, {};
    var daily: map<Date, (set<string>, set<string>)> := map[];
    var time0, time1 := 0, 0;
    var count0, count1 := 0, 0;
    for i := 0 to |rows|
      invariant Tallied(rows[..i], now) == Success(Tally(stakers0, stakers1, daily, time0, time1, count0, count1))
    {
      var row := rows[i];
      ghost var t := Tally(stakers0, stakers1, daily, time0, time1, count0, count1);
      TalliedStep(rows, i, now, t);
      if !IsValidStake(row, now) {
        continue;
      }
      if row.poolId != 0 && row.poolId != 1 {
        TalliedPrefixFails(rows, i + 1, now);
        return Failure(KeyError(IntToString(row.poolId)));
      }
      var d := row.timestamp.date;
      var day := if d in daily then daily[d] else ({}, {});
      if row.poolId == 0 {
        stakers0 := stakers0 + {row.userAddress};
        daily := daily[d := (day.0 + {row.userAddress}, day.1)];
        time0 := time0 + Span(row);
        count0 := count0 + 1;
      } else {
        stakers1 := stakers1 + {row.userAddress};
        daily := daily[d := (day.0, day.1 + {row.userAddress})];
        time1 := time1 + Span(row);
        count1 := count1 + 1;
      }
      assert Add(t, row) == Success(Tally(stakers0, stakers1, daily, time0, time1, count0, count1));
    }
    assert rows[..|rows|] == rows;
    return Success(Report(Tally(stakers0, stakers1, daily, time0, time1, count0, count1), morPrice, ethPrice, emissionToday));
  }

  /** One more row of the frame: the tally so far, with the row added when it is a valid stake. */
  lemma TalliedStep(rows: seq<UserMultiplier>, i: nat, now: int, t: Tally)
    requires i < |rows| && Tallied(rows[..i], now) == Success(t)
    ensures Tallied(rows[..i + 1], now) == if IsValidStake(rows[i], now) then Add(t, rows[i]) else Success(t)
  {
    assert rows[..i + 1][..i] == rows[..i];
  }

  /** Once a prefix of the frame raises, the whole analysis raises the same error. */
  lemma {:induction false} TalliedPrefixFails(rows: seq<UserMultiplier>, i: nat, now: int)
    requires i <= |rows| && Tallied(rows[..i], now).Failure?
    ensures Tallied(rows, now) == Tallied(rows[..i], now)
    decreases |rows| - i
  {
    if i < |rows| {
      TakeLast(rows, i + 1);
      assert rows[..i + 1][..i] == rows[..i];
      TalliedPrefixFails(rows, i + 1, now);
    } else {
      assert rows[..i] == rows;
    }
  }

  /** The users of the valid stakes of pool `p`. */
  function PoolUsers(rows: seq<UserMultiplier>, now: int, p: int): set<string>
  {
    set i | 0 <= i < |rows| && IsValidStake(rows[i], now) && rows[i].poolId == p :: rows[i].userAddress
  }

  /** The stake times of a list of rows, summed. */
  function TotalSpan(rows: seq<UserMultiplier>): int
  {
    if rows == [] then 0 else TotalSpan(rows[..|rows| - 1]) + Span(rows[|rows| - 1])
  }

  /** Every valid stake belongs to pool 0 or 1. */
  predicate KnownPools(rows: seq<UserMultiplier>, now: int)
  {
    forall i :: 0 <= i < |rows| && IsValidStake(rows[i], now) ==> rows[i].poolId == 0 || rows[i].poolId == 1
  }

  /** The analysis succeeds exactly when every valid stake is in pool 0 or 1. */
  lemma {:induction false} TallySucceedsOnKnownPools(rows: seq<UserMultiplier>, now: int)
    ensures Tallied(rows, now).Success? <==> KnownPools(rows, now)
  {
    if rows != [] {
      var init := rows[..|rows| - 1];
      TallySucceedsOnKnownPools(init, now);
      assert forall i :: 0 <= i < |init| ==> init[i] == rows[i];
    }
  }

  /** Each pool's stakers are the users of its valid stakes. */
  lemma {:induction false} TallyStakers(rows: seq<UserMultiplier>, now: int)
    requires Tallied(rows, now).Success?
    ensures Tallied(rows, now).value.stakers0 == PoolUsers(rows, now, 0)
    ensures Tallied(rows, now).value.stakers1 == PoolUsers(rows, now, 1)
  {
    if rows != [] {
      TallyStakers(rows[..|rows| - 1], now);
      PoolUsersSnoc(rows, now, 0);
      PoolUsersSnoc(rows, now, 1);
    }
  }

  /** A pool's stake count in a tally. */
  function CountOf(t: Tally, p: int): nat
  {
    if p == 0 then t.count0 else t.count1
  }

  /** A pool's total stake time in a tally. */
  function TimeOf(t: Tally, p: int): int
  {
    if p == 0 then t.time0 else t.time1
  }

  /** Each pool's stake count and total stake time are those of its valid stakes. */
  lemma {:induction false} TallyCounts(rows: seq<UserMultiplier>, now: int, p: int)
    requires p == 0 || p == 1
    requires Tallied(rows, now).Success?
    ensures CountOf(Tallied(rows, now).value, p) == |OfPool(ValidRows(rows, now), p)|
    ensures TimeOf(Tallied(rows, now).value, p) == TotalSpan(OfPool(ValidRows(rows, now), p))
  {
    if rows != [] {
      var init := rows[..|rows| - 1];
      var row := rows[|rows| - 1];
      TallyCounts(init, now, p);
      var t := Tallied(init, now).value;
      if IsValidStake(row, now) {
        assert ValidRows(rows, now) == ValidRows(init, now) + [row];
        AddCounts(t, row, p);
        OfPoolSnoc(ValidRows(init, now), row, p);
        TotalSpanSnoc(OfPool(ValidRows(init, now), p), row);
      } else {
        assert ValidRows(rows, now) == ValidRows(init, now);
      }
    }
  }

  /** Adding a row counts it, and its stake time, in its own pool only. */
  lemma AddCounts(t: Tally, row: UserMultiplier, p: int)
    requires p == 0 || p == 1
    requires Add(t, row).Success?
    ensures CountOf(Add(t, row).value, p) == CountOf(t, p) + (if row.poolId == p then 1 else 0)
    ensures TimeOf(Add(t, row).value, p) == TimeOf(t, p) + (if row.poolId == p then Span(row) else 0)
  {
  }

  lemma OfPoolSnoc(v: seq<UserMultiplier>, row: UserMultiplier, p: int)
    ensures OfPool(v + [row], p) == OfPool(v, p) + (if row.poolId == p then [row] else [])
  {
    assert (v + [row])[..|v|] == v;
  }

  lemma TotalSpanSnoc(v: seq<UserMultiplier>, row: UserMultiplier)
    ensures TotalSpan(v + [row]) == TotalSpan(v) + Span(row)
  {
    assert (v + [row])[..|v|] == v;
  }

  lemma PoolUsersSnoc(rows: seq<UserMultiplier>, now: int, p: int)
    requires rows != []
    ensures var row := rows[|rows| - 1];
      PoolUsers(rows, now, p) == PoolUsers(rows[..|rows| - 1], now, p)
        + (if IsValidStake(row, now) && row.poolId == p then {row.userAddress} else {})
  {
    var init := rows[..|rows| - 1];
    assert forall i :: 0 <= i < |init| ==> init[i] == rows[i];
  }

  /** Each day's stakers are stakers of the same pool overall. */
  lemma {:induction false} DailyWithinPools(rows: seq<UserMultiplier>, now: int)
    requires Tallied(rows, now).Success?
    ensures var t := Tallied(rows, now).value;
      forall d :: d in t.daily ==> t.daily[d].0 <= t.stakers0 && t.daily[d].1 <= t.stakers1
  {
    if rows != [] {
      DailyWithinPools(rows[..|rows| - 1], now);
    }
  }

  /** The users of the valid stakes of pool `p` made on day `d`. */
  function DayUsers(rows: seq<UserMultiplier>, now: int, p: int, d: Date): set<string>
  {
    set i | 0 <= i < |rows| && IsValidStake(rows[i], now) && rows[i].poolId == p && rows[i].timestamp.date == d :: rows[i].userAddress
  }

  /** Some valid stake of pool 0 or 1 was made on day `d`. */
  predicate StakedOn(rows: seq<UserMultiplier>, now: int, d: Date)
  {
    exists i :: 0 <= i < |rows| && IsValidStake(rows[i], now) && (rows[i].poolId == 0 || rows[i].poolId == 1) && rows[i].timestamp.date == d
  }

  /**
   * `daily_unique_stakers`: a day has an entry exactly when some valid stake of pool 0 or 1
   * was made on it, and the entry holds, per pool, the users of that day's valid stakes.
   */
  lemma {:induction false} TallyDaily(rows: seq<UserMultiplier>, now: int)
    requires Tallied(rows, now).Success?
    ensures var t := Tallied(rows, now).value;
      forall d :: d in t.daily <==> StakedOn(rows, now, d)
    ensures var t := Tallied(rows, now).value;
      forall d :: d in t.daily ==> t.daily[d] == (DayUsers(rows, now, 0, d), DayUsers(rows, now, 1, d))
  {
    if rows != [] {
      var init := rows[..|rows| - 1];
      TallyDaily(init, now);
      var row := rows[|rows| - 1];
      var t0 := Tallied(init, now).value;
      var t := Tallied(rows, now).value;
      forall d
        ensures d in t.daily <==> StakedOn(rows, now, d)
        ensures d in t.daily ==> t.daily[d] == (DayUsers(rows, now, 0, d), DayUsers(rows, now, 1, d))
      {
        DaySnoc(rows, now, 0, d);
        DaySnoc(rows, now, 1, d);
        if DatedStake(row, now, d) {
          assert Tallied(rows, now) == Add(t0, row);
          assert (if d in t0.daily then t0.daily[d] else ({}, {})) == (DayUsers(init, now, 0, d), DayUsers(init, now, 1, d));
        } else if IsValidStake(row, now) {
          assert Tallied(rows, now) == Add(t0, row);
          assert t.daily == t0.daily[row.timestamp.date := t.daily[row.timestamp.date]];
        } else {
          assert t == t0;
        }
      }
    }
  }

  /** A valid stake of pool 0 or 1 made on day `d`. */
  predicate DatedStake(row: UserMultiplier, now: int, d: Date)
  {
    IsValidStake(row, now) && (row.poolId == 0 || row.poolId == 1) && row.timestamp.date == d
  }

  lemma DaySnoc(rows: seq<UserMultiplier>, now: int, p: int, d: Date)
    requires rows != [] && (p == 0 || p == 1)
    ensures var init, row := rows[..|rows| - 1], rows[|rows| - 1];
      && (StakedOn(rows, now, d) <==> StakedOn(init, now, d) || DatedStake(row, now, d))
      && DayUsers(rows, now, p, d)
        == (if IsValidStake(row, now) && row.poolId == p && row.timestamp.date == d
            then DayUsers(init, now, p, d) + {row.userAddress} else DayUsers(init, now, p, d))
      && (!StakedOn(init, now, d) ==> DayUsers(init, now, p, d) == {})
  {
    var init := rows[..|rows| - 1];
    assert forall i :: 0 <= i < |init| ==> init[i] == rows[i];
    if StakedOn(rows, now, d) && !DatedStake(rows[|rows| - 1], now, d) {
      var i :| 0 <= i < |rows| && IsValidStake(rows[i], now) && (rows[i].poolId == 0 || rows[i].poolId == 1) && rows[i].timestamp.date == d;
      assert i < |init|;
    }
  }

  /**
   * The combined average stake time is the mean of the two pools' averages weighted by their
   * stake counts, for any tally in which a pool without stakes has no stake time (as
   * `NoStakesNoTime` shows every tally of a frame does).
   */
  lemma CombinedAverageWeighted(t: Tally, morPrice: Option<real>, ethPrice: Option<real>, emissionToday: real)
    requires (t.count0 == 0 ==> t.time0 == 0) && (t.count1 == 0 ==> t.time1 == 0)
    ensures var a := Report(t, morPrice, ethPrice, emissionToday);
      a.combinedAverageTime * (t.count0 + t.count1) as real
        == a.averageTime0 * t.count0 as real + a.averageTime1 * t.count1 as real
  {
    var a := Report(t, morPrice, ethPrice, emissionToday);
    WeightedAverage(t.time0, t.count0, t.time1, t.count1, a.combinedAverageTime, a.averageTime0, a.averageTime1);
  }

  /** A pool without stakes has no stake time. */
  lemma NoStakesNoTime(rows: seq<UserMultiplier>, now: int)
    requires Tallied(rows, now).Success?
    ensures var t := Tallied(rows, now).value;
      (t.count0 == 0 ==> t.time0 == 0) && (t.count1 == 0 ==> t.time1 == 0)
  {
    TallyCounts(rows, now, 0);
    TallyCounts(rows, now, 1);
  }

  /** The average of two totals over their two counts, weighted. */
  lemma WeightedAverage(t0: int, c0: nat, t1: int, c1: nat, a: real, a0: real, a1: real)
    requires c0 == 0 ==> t0 == 0
    requires c1 == 0 ==> t1 == 0
    requires a == Average(t0 + t1, c0 + c1) && a0 == Average(t0, c0) && a1 == Average(t1, c1)
    ensures a * (c0 + c1) as real == a0 * c0 as real + a1 * c1 as real
  {
    AverageTimesCount(t0, c0);
    AverageTimesCount(t1, c1);
    AverageTimesCount(t0 + t1, c0 + c1);
  }

  /** An average times its count gives back the total, when nothing counted means a zero total. */
  lemma AverageTimesCount(total: int, count: nat)
    requires count == 0 ==> total == 0
    ensures Average(total, count) * count as real == total as real
  {
  }

  // ---------------------------------------------------------------- get_todays_capital_emission

  /** `get_todays_capital_emission`: today's new capital emission from the schedule, or 0 when it has none. */
  function TodaysCapitalEmission(schedule: seq<Emission>, today: Date): (r: real)
    ensures EmissionSchedule.UpTo(schedule, today) == [] ==> r == 0.0
  {
    var s := EmissionSchedule.ReadEmissionSchedule(schedule, today);
    if "Capital Emission" in s.newEmissions then s.newEmissions["Capital Emission"] else 0.0
  }

  /** With a stored day up to today, the capital emission is the difference of the last two such days. */
  lemma TodaysCapitalEmissionIsDifference(schedule: seq<Emission>, today: Date, i: int, j: nat)
    requires j < |schedule| && EmissionSchedule.OnOrBefore(schedule[j], today)
    requires forall l :: j < l < |schedule| ==> !EmissionSchedule.OnOrBefore(schedule[l], today)
    requires -1 <= i < j
    requires 0 <= i ==> EmissionSchedule.OnOrBefore(schedule[i], today)
    requires forall l :: i < l < j ==> !EmissionSchedule.OnOrBefore(schedule[l], today)
    ensures TodaysCapitalEmission(schedule, today) == schedule[j].capital - (if 0 <= i then schedule[i].capital else 0.0)
  {
    var c := EmissionSchedule.Categories[0];
    EmissionSchedule.NewEmissionsAreDifferences(schedule, today, i, j, c);
  }

  // ---------------------------------------------------------------- calculate_average_multipliers

  /** `{'overall_average': ..., 'capital_average': ..., 'code_average': ...}` */
  datatype Averages = Averages(overall: real, capital: real, code: real)

  const ZeroAverages := Averages(0.0, 0.0, 0.0)

  /** The sum of `multiplier / 10^18` over rows that all have a multiplier. */
  function MultiplierSum(rows: seq<UserMultiplier>): real
    requires AllMultipliers(rows)
  {
    if rows == [] then 0.0
    else MultiplierSum(rows[..|rows| - 1]) + rows[|rows| - 1].multiplier.value / Wei
  }

  /** The mean of `multiplier / 10^18`, or 0 for no rows. */
  function MeanMultiplier(rows: seq<UserMultiplier>): real
    requires AllMultipliers(rows)
  {
    if rows == [] then 0.0 else MultiplierSum(rows) / |rows| as real
  }

  /**
   * `calculate_average_multipliers`: the means over the valid stakes, overall and per pool;
   * all 0 for an empty frame, no valid stake, or a valid stake without a multiplier (whose
   * `Decimal(None)` raises a `TypeError` the function catches).
   */
  function AverageMultipliers(rows: seq<UserMultiplier>, now: int): (a: Averages)
    ensures rows == [] || ValidRows(rows, now) == [] || !AllMultipliers(ValidRows(rows, now)) ==> a == ZeroAverages
    ensures a == AveragesOf(ValidRows(rows, now))
  {
    if rows == [] then ZeroAverages else AveragesOf(ValidRows(rows, now))
  }

  /** The averages over the valid stakes: all 0 when there are none or one lacks a multiplier. */
  function AveragesOf(valid: seq<UserMultiplier>): (a: Averages)
    ensures valid != [] && AllMultipliers(valid) ==>
      a.overall == MeanMultiplier(valid) && a.capital == MeanMultiplier(OfPool(valid, 0)) && a.code == MeanMultiplier(OfPool(valid, 1))
  {
    if valid == [] || !AllMultipliers(valid) then ZeroAverages
    else Averages(MeanMultiplier(valid), MeanMultiplier(OfPool(valid, 0)), MeanMultiplier(OfPool(valid, 1)))
  }

  /** Rows of pools 0 and 1 only: their multiplier sum is the two pools' sums added. */
  lemma {:induction false} MultiplierSumSplits(rows: seq<UserMultiplier>)
    requires AllMultipliers(rows)
    requires forall i :: 0 <= i < |rows| ==> rows[i].poolId == 0 || rows[i].poolId == 1
    ensures MultiplierSum(rows) == MultiplierSum(OfPool(rows, 0)) + MultiplierSum(OfPool(rows, 1))
    ensures |rows| == |OfPool(rows, 0)| + |OfPool(rows, 1)|
  {
    if rows != [] {
      var init := rows[..|rows| - 1];
      assert forall i :: 0 <= i < |init| ==> init[i] == rows[i];
      MultiplierSumSplits(init);
    }
  }

  /** With every valid stake in pool 0 or 1, every row of `ValidRows` is too. */
  lemma {:induction false} ValidRowsOfKnownPools(rows: seq<UserMultiplier>, now: int)
    requires KnownPools(rows, now)
    ensures forall i :: 0 <= i < |ValidRows(rows, now)| ==> ValidRows(rows, now)[i].poolId == 0 || ValidRows(rows, now)[i].poolId == 1
  {
    if rows != [] {
      var init := rows[..|rows| - 1];
      assert forall i :: 0 <= i < |init| ==> init[i] == rows[i];
      ValidRowsOfKnownPools(init, now);
    }
  }

  /** The mean times the number of rows is the sum. */
  lemma MeanTimesCount(rows: seq<UserMultiplier>, mean: real, n: real)
    requires AllMultipliers(rows) && mean == MeanMultiplier(rows) && n == |rows| as real
    ensures mean * n == MultiplierSum(rows)
  {
  }

  /**
   * Over valid stakes all of pool 0 or 1 (as `ValidRowsOfKnownPools` gives), the overall mean
   * `m` times the number `n` of stakes is the pool 0 mean `m0` times its number `n0` of stakes
   * plus the pool 1 mean `m1` times its number `n1`: the overall average is the mean of the two
   * pool averages weighted by their numbers of stakes.
   */
  lemma OverallAverageWeighted(rows: seq<UserMultiplier>, m: real, m0: real, m1: real, n: real, n0: real, n1: real)
    requires AllMultipliers(rows)
    requires forall i :: 0 <= i < |rows| ==> rows[i].poolId == 0 || rows[i].poolId == 1
    requires m == MeanMultiplier(rows) && m0 == MeanMultiplier(OfPool(rows, 0)) && m1 == MeanMultiplier(OfPool(rows, 1))
    requires n == |rows| as real && n0 == |OfPool(rows, 0)| as real && n1 == |OfPool(rows, 1)| as real
    ensures m * n == m0 * n0 + m1 * n1
  {
    var v0, v1 := OfPool(rows, 0), OfPool(rows, 1);
    MultiplierSumSplits(rows);
    MeanTimesCount(rows, m, n);
    MeanTimesCount(v0, m0, n0);
    MeanTimesCount(v1, m1, n1);
    SumOfParts(m, m0, m1, n, n0, n1, MultiplierSum(rows), MultiplierSum(v0), MultiplierSum(v1));
  }

  /** Two parts of a whole: when the whole's sum is the parts' sums added, so are the products. */
  lemma SumOfParts(m: real, m0: real, m1: real, n: real, n0: real, n1: real, s: real, s0: real, s1: real)
    requires m * n == s && m0 * n0 == s0 && m1 * n1 == s1 && s == s0 + s1
    ensures m * n == m0 * n0 + m1 * n1
  {
  }

  // ---------------------------------------------------------------- calculate_pool_rewards_summary

  /** `{'daily_reward_sum': ..., 'total_current_user_reward_sum': ...}` */
  datatype PoolReward = PoolReward(daily: real, total: real)

  const NoReward := PoolReward(0.0, 0.0)

  function Abs(x: real): real
  {
    if x < 0.0 then -x else x
  }

  /** The pool a summary category sets and whether it is the daily figure; `None` for any other category. */
  function CategoryOf(category: string): (r: Option<(int, bool)>)
    ensures r.Some? ==> r.value.0 == 0 || r.value.0 == 1
  {
    if category == "Daily Pool 0" then Some((0, true))
    else if category == "Daily Pool 1" then Some((1, true))
    else if category == "Total Pool 0" then Some((0, false))
    else if category == "Total Pool 1" then Some((1, false))
    else None
  }

  /** The `pool_rewards` dictionary after the rows `(category, value)`: an entry appears the first time one of its categories does. */
  function PoolRewards(rows: seq<(string, real)>): (m: map<int, PoolReward>)
    ensures forall p :: p in m ==> p == 0 || p == 1
  {
    if rows == [] then map[]
    else
      var m := PoolRewards(rows[..|rows| - 1]);
      var row := rows[|rows| - 1];
      match CategoryOf(row.0)
      case None => m
      case Some((p, isDaily)) =>
        var cur := if p in m then m[p] else NoReward;
        m[p := if isDaily then cur.(daily := Abs(row.1)) else cur.(total := Abs(row.1))]
  }

  /** `calculate_pool_rewards_summary` over the summary rows: zeros for both pools when there are none. */
  function PoolRewardsSummary(rows: seq<(string, real)>): (m: map<int, PoolReward>)
    ensures rows == [] ==> m == map[0 := NoReward, 1 := NoReward]
  {
    if rows == [] then map[0 := NoReward, 1 := NoReward] else PoolRewards(rows)
  }

  /** A row of any other category changes nothing. */
  lemma OtherCategoriesIgnored(rows: seq<(string, real)>, row: (string, real))
    requires CategoryOf(row.0).None?
    ensures PoolRewards(rows + [row]) == PoolRewards(rows)
  {
    assert (rows + [row])[..|rows|] == rows;
  }

  /** A pool has an entry exactly when one of its categories occurs. */
  lemma {:induction false} PoolEntryPresent(rows: seq<(string, real)>, p: int)
    ensures p in PoolRewards(rows) <==> exists i :: 0 <= i < |rows| && CategoryOf(rows[i].0).Some? && CategoryOf(rows[i].0).value.0 == p
  {
    if rows != [] {
      var init := rows[..|rows| - 1];
      PoolEntryPresent(init, p);
      assert forall i :: 0 <= i < |init| ==> init[i] == rows[i];
    }
  }

  /**
   * The last row of a category sets its figure: the absolute value of that row's value, whatever
   * earlier rows of the same category said.
   */
  lemma {:induction false} LastRowWins(rows: seq<(string, real)>, i: nat)
    requires i < |rows| && CategoryOf(rows[i].0).Some?
    requires forall l :: i < l < |rows| ==> rows[l].0 != rows[i].0
    ensures var (p, isDaily) := CategoryOf(rows[i].0).value;
      p in PoolRewards(rows)
      && (if isDaily then PoolRewards(rows)[p].daily else PoolRewards(rows)[p].total) == Abs(rows[i].1)
  {
    var init := rows[..|rows| - 1];
    if i < |rows| - 1 {
      assert forall l :: 0 <= l < |init| ==> init[l] == rows[l];
      LastRowWins(init, i);
      var last := rows[|rows| - 1];
      CategoryOfInjective(last.0, rows[i].0);
    }
  }

  lemma CategoryOfInjective(a: string, b: string)
    ensures CategoryOf(a).Some? && a != b ==> CategoryOf(a) != CategoryOf(b)
  {
  }

  // ---------------------------------------------------------------- get_wallet_stake_info

  /** `{'stake_time': ..., 'power_multiplier': ...}`, the stake time in seconds. */
  datatype Entry = Entry(stakeTime: int, powerMultiplier: int)

  /** `wallet_info`: the entry kept per wallet, over all pools, pool 0, and every other pool. */
  datatype Wallets = Wallets(combined: map<string, Entry>, capital: map<string, Entry>, code: map<string, Entry>)

  /** `int(x)` for a float: truncation toward zero. */
  function Trunc(x: real): int
  {
    if x >= 0.0 then x.Floor else -((-x).Floor)
  }

  /** A row's entry: its stake time and `int(float(multiplier))`. */
  function EntryOf(row: UserMultiplier): Entry
    requires row.multiplier.Some?
  {
    Entry(Span(row), Trunc(row.multiplier.value))
  }

  /** The entry of `w` replaced by `e` when `w` has none or `e`'s stake time is strictly longer. */
  function Keep(m: map<string, Entry>, w: string, e: Entry): map<string, Entry>
  {
    if w !in m || e.stakeTime > m[w].stakeTime then m[w := e] else m
  }

  /** The entries kept after the rows, in order, all with a multiplier. */
  function Longest(rows: seq<UserMultiplier>): map<string, Entry>
    requires AllMultipliers(rows)
  {
    if rows == [] then map[]
    else Keep(Longest(rows[..|rows| - 1]), rows[|rows| - 1].userAddress, EntryOf(rows[|rows| - 1]))
  }

  /** The rows of any pool but 0: the `code` key. */
  function NotPool0(rows: seq<UserMultiplier>): (r: seq<UserMultiplier>)
    ensures |r| <= |rows|
    ensures forall i :: 0 <= i < |r| ==> r[i].poolId != 0
    ensures AllMultipliers(rows) ==> AllMultipliers(r)
  {
    if rows == [] then []
    else
      var init := NotPool0(rows[..|rows| - 1]);
      if rows[|rows| - 1].poolId != 0 then init + [rows[|rows| - 1]] else init
  }

  /**
   * The wallet entries of a frame: a valid stake without a multiplier raises `TypeError` from
   * `float(None)`; otherwise the longest stake per wallet, over all pools, pool 0 and the rest.
   */
  function WalletInfo(rows: seq<UserMultiplier>, now: int): Result<Wallets, Error>
  {
    var valid := ValidRows(rows, now);
    if !AllMultipliers(valid) then Failure(TypeError("float() argument must be a string or a real number, not 'NoneType'"))
    else Success(WalletsOf(valid))
  }

  /** The longest entries of valid stakes that all have a multiplier. */
  function WalletsOf(valid: seq<UserMultiplier>): Wallets
    requires AllMultipliers(valid)
  {
    Wallets(Longest(valid), Longest(OfPool(valid, 0)), Longest(NotPool0(valid)))
  }

  /** `get_wallet_stake_info` up to the histograms: one pass keeping, per wallet, the entry of its longest stake. */
  method GetWalletStakeInfo(rows: seq<UserMultiplier>, now: int) returns (r: Result<Wallets, Error>)
    ensures r == WalletInfo(rows, now)
  {
    var combined, capital, code: map<string, Entry> := map[], map[], map[];
    ghost var valid: seq<UserMultiplier> := [];
    for i := 0 to |rows|
      invariant valid == ValidRows(rows[..i], now) && AllMultipliers(valid)
      invariant Wallets(combined, capital, code) == WalletsOf(valid)
    {
      var row := rows[i];
      ValidRowsStep(rows, i, now);
      if !IsValidStake(row, now) {
        continue;
      }
      if row.multiplier.None? {
        NoMultiplierFails(rows, i, now);
        return Failure(TypeError("float() argument must be a string or a real number, not 'NoneType'"));
      }
      WalletStep(valid, row);
      valid := valid + [row];
      var e := EntryOf(row);
      combined := Keep(combined, row.userAddress, e);
      if row.poolId == 0 {
        capital := Keep(capital, row.userAddress, e);
      } else {
        code := Keep(code, row.userAddress, e);
      }
    }
    assert rows[..|rows|] == rows;
    return Success(Wallets(combined, capital, code));
  }

  /** The valid rows of one more row of the frame. */
  lemma ValidRowsStep(rows: seq<UserMultiplier>, i: nat, now: int)
    requires i < |rows|
    ensures ValidRows(rows[..i + 1], now) == ValidRows(rows[..i], now) + (if IsValidStake(rows[i], now) then [rows[i]] else [])
  {
    TakeLast(rows, i + 1);
  }

  /** One more row with a multiplier: each map keeps its entry if it is of that map's pools. */
  lemma WalletStep(v: seq<UserMultiplier>, row: UserMultiplier)
    requires AllMultipliers(v) && row.multiplier.Some?
    ensures AllMultipliers(v + [row])
    ensures var w := WalletsOf(v); var e := EntryOf(row);
      WalletsOf(v + [row]) == Wallets(Keep(w.combined, row.userAddress, e),
        if row.poolId == 0 then Keep(w.capital, row.userAddress, e) else w.capital,
        if row.poolId != 0 then Keep(w.code, row.userAddress, e) else w.code)
  {
    assert (v + [row])[..|v|] == v;
  }

  /** A valid stake without a multiplier makes the whole computation raise. */
  lemma NoMultiplierFails(rows: seq<UserMultiplier>, i: nat, now: int)
    requires i < |rows| && IsValidStake(rows[i], now) && rows[i].multiplier.None?
    ensures !AllMultipliers(ValidRows(rows, now))
  {
    ValidRowsKeep(rows, i, now);
  }

  /** Every valid stake appears in `ValidRows`. */
  lemma {:induction false} ValidRowsKeep(rows: seq<UserMultiplier>, i: nat, now: int)
    requires i < |rows| && IsValidStake(rows[i], now)
    ensures rows[i] in ValidRows(rows, now)
  {
    if i < |rows| - 1 {
      ValidRowsKeep(rows[..|rows| - 1], i, now);
    }
  }

  /**
   * Each kept entry is the longest stake of its wallet: some row of the wallet has it, and no
   * row of the wallet has a longer stake.
   */
  lemma {:induction false} LongestIsMaximal(rows: seq<UserMultiplier>)
    requires AllMultipliers(rows)
    ensures forall w :: w in Longest(rows) ==> exists i :: 0 <= i < |rows| && rows[i].userAddress == w && EntryOf(rows[i]) == Longest(rows)[w]
    ensures forall i :: 0 <= i < |rows| ==>
      rows[i].userAddress in Longest(rows) && Span(rows[i]) <= Longest(rows)[rows[i].userAddress].stakeTime
  {
    if rows != [] {
      var init := rows[..|rows| - 1];
      assert forall i :: 0 <= i < |init| ==> init[i] == rows[i];
      LongestIsMaximal(init);
    }
  }
}
