/**
 * scripts/iii_update_total_daily_rewards.py: for every distinct (user, pool) row of the
 * `UserMultiplier` sheet, read the user's current reward now and 24 hours ago, and sum the
 * daily and total rewards of pools 0 and 1 into six categories.
 */
module RewardsStage {
  import opened Wrappers
  import opened Errors
  import opened Batching
  import Sequences

  const MaxRetries: nat := 3
  const BatchSize: nat := 50
  const Wei: real := 1000000000000000000.0

  /** The block a reward is read at: `'latest'`, or a block number. */
  datatype Block = Latest | Number(n: int)

  /** The two columns of a sheet row that the job reads. */
  datatype StakeRow = StakeRow(user: string, poolId: int)

  /**
   * The node as the job sees it: whether `to_checksum_address` accepts an address, and
   * `getCurrentUserReward(pool, user)` at a block, on a given attempt, in wei, or the error
   * the call raises.
   */
  datatype Node = Node(validAddress: string -> bool, reward: (int, string, Block, nat) -> Result<int, Error>)

  /** What `to_checksum_address` raises on an address it rejects. */
  const BadAddress := ValueError("invalid address")

  // ---------------------------------------------------------------- get_user_reward_at_block

  /**
   * `get_user_reward_at_block` from attempt `attempt` on: the reward in ether; a rate-limited
   * attempt other than the last is retried; any other failure, or the last attempt failing,
   * gives 0. (Past the last attempt the loop would fall through; the last attempt never
   * continues, so that case is never reached and reads as 0 here.)
   */
  function RewardFrom(node: Node, pool: int, user: string, block: Block, attempt: nat): real
    decreases MaxRetries - attempt
  {
    if attempt >= MaxRetries then 0.0
    else
      match node.reward(pool, user, block, attempt)
      case Success(wei) => wei as real / Wei
      case Failure(e) =>
        if RateLimited(e) && attempt < MaxRetries - 1 then RewardFrom(node, pool, user, block, attempt + 1) else 0.0
  }

  function RewardAt(node: Node, pool: int, user: string, block: Block): real
  {
    RewardFrom(node, pool, user, block, 0)
  }

  /** `get_user_reward_at_block` */
  method GetUserRewardAtBlock(node: Node, pool: int, user: string, block: Block) returns (reward: real)
    ensures reward == RewardAt(node, pool, user, block)
  {
    var attempt := 0;
    while attempt < MaxRetries
      invariant attempt <= MaxRetries
      invariant RewardFrom(node, pool, user, block, attempt) == RewardAt(node, pool, user, block)
      decreases MaxRetries - attempt
    {
      var c := node.reward(pool, user, block, attempt);
      if c.Success? {
        return c.value as real / Wei;
      }
      if !(RateLimited(c.error) && attempt < MaxRetries - 1) {
        return 0.0;
      }
      attempt := attempt + 1;
    }
    return 0.0;
  }

  /** Attempt `k` answers, and attempts `from` to `k - 1` were rate limited. */
  predicate Answers(node: Node, pool: int, user: string, block: Block, from: nat, k: nat)
  {
    && node.reward(pool, user, block, k).Success?
    && forall j :: from <= j < k ==> node.reward(pool, user, block, j).Failure? && RateLimited(node.reward(pool, user, block, j).error)
  }

  /**
   * A reward read is the answer of an attempt that every earlier attempt was rate limited
   * before, within `MaxRetries` attempts, and 0 when there is no such attempt.
   */
  lemma {:induction false} RewardSpec(node: Node, pool: int, user: string, block: Block, attempt: nat)
    ensures forall k :: attempt <= k < MaxRetries && Answers(node, pool, user, block, attempt, k) ==>
      RewardFrom(node, pool, user, block, attempt) == node.reward(pool, user, block, k).value as real / Wei
    ensures (forall k :: attempt <= k < MaxRetries ==> !Answers(node, pool, user, block, attempt, k)) ==>
      RewardFrom(node, pool, user, block, attempt) == 0.0
    decreases MaxRetries - attempt
  {
    if attempt < MaxRetries {
      var next := attempt + 1;
      var c := node.reward(pool, user, block, attempt);
      if c.Failure? {
        if RateLimited(c.error) && attempt < MaxRetries - 1 {
          RewardSpec(node, pool, user, block, next);
          forall k | attempt <= k < MaxRetries && Answers(node, pool, user, block, attempt, k)
            ensures next <= k && Answers(node, pool, user, block, next, k)
          {
          }
          forall k | next <= k < MaxRetries && Answers(node, pool, user, block, next, k)
            ensures Answers(node, pool, user, block, attempt, k)
          {
          }
        } else {
          forall k | attempt <= k < MaxRetries
            ensures !Answers(node, pool, user, block, attempt, k)
          {
            if k > attempt {
              assert !RateLimited(c.error) || attempt == MaxRetries - 1;
            }
          }
        }
      } else {
        assert Answers(node, pool, user, block, attempt, attempt);
        forall k | attempt < k < MaxRetries
          ensures !Answers(node, pool, user, block, attempt, k)
        {
        }
      }
    }
  }

  /** A first failure that is not a rate limit gives 0 at once, whatever later attempts would answer. */
  lemma OtherFailureGivesZero(node: Node, pool: int, user: string, block: Block)
    requires node.reward(pool, user, block, 0).Failure? && !RateLimited(node.reward(pool, user, block, 0).error)
    ensures RewardAt(node, pool, user, block) == 0.0
  {
  }

  // ---------------------------------------------------------------- process_rewards_batch

  /** The reward of a row now. */
  function Now(node: Node, row: StakeRow): real
  {
    RewardAt(node, row.poolId, row.user, Latest)
  }

  /** The reward of a row at the block of 24 hours ago. */
  function Ago(node: Node, row: StakeRow, ago: int): real
  {
    RewardAt(node, row.poolId, row.user, Number(ago))
  }

  /** The `gather` results: for each row, its reward now, then its reward 24 hours ago. */
  function Results(batch: seq<StakeRow>, node: Node, ago: int): (rs: seq<real>)
    ensures |rs| == 2 * |batch|
  {
    seq(2 * |batch|, i requires 0 <= i < 2 * |batch| =>
      if i % 2 == 0 then Now(node, batch[i / 2]) else Ago(node, batch[i / 2], ago))
  }

  /** `[results[i] - results[i + 1] for i in range(0, len(results), 2)]` */
  function Differences(results: seq<real>): seq<real>
    requires |results| % 2 == 0
  {
    seq(|results| / 2, k requires 0 <= k < |results| / 2 => results[2 * k] - results[2 * k + 1])
  }

  /** `results[::2]` */
  function EveryOther(results: seq<real>): seq<real>
  {
    seq((|results| + 1) / 2, k requires 0 <= k < (|results| + 1) / 2 => results[2 * k])
  }

  /**
   * `process_rewards_batch`: the daily and total rewards of the batch's rows, or the error
   * `to_checksum_address` raises on the first address it rejects. Row `k` gets its reward now
   * minus its reward 24 hours ago, and its reward now.
   */
  function ProcessRewardsBatch(batch: seq<StakeRow>, node: Node, ago: int): (r: Result<(seq<real>, seq<real>), Error>)
    ensures r.Failure? <==> exists k :: 0 <= k < |batch| && !node.validAddress(batch[k].user)
    ensures r.Failure? ==> r.error == BadAddress
    ensures r.Success? ==>
      && |r.value.0| == |batch| && |r.value.1| == |batch|
      && forall k :: 0 <= k < |batch| ==>
           r.value.0[k] == Now(node, batch[k]) - Ago(node, batch[k], ago) && r.value.1[k] == Now(node, batch[k])
  {
    if exists k :: 0 <= k < |batch| && !node.validAddress(batch[k].user) then Failure(BadAddress)
    else
      var results := Results(batch, node, ago);
      ResultsPaired(batch, node, ago);
      Success((Differences(results), EveryOther(results)))
  }

  /** Row `k`'s daily reward is at `k` of the differences and its total reward at `k` of `results[::2]`. */
  lemma ResultsPaired(batch: seq<StakeRow>, node: Node, ago: int)
    ensures var rs := Results(batch, node, ago);
      && |Differences(rs)| == |batch| && |EveryOther(rs)| == |batch|
      && forall k :: 0 <= k < |batch| ==>
           Differences(rs)[k] == Now(node, batch[k]) - Ago(node, batch[k], ago) && EveryOther(rs)[k] == Now(node, batch[k])
  {
    var rs := Results(batch, node, ago);
    forall k | 0 <= k < |batch|
      ensures Differences(rs)[k] == Now(node, batch[k]) - Ago(node, batch[k], ago) && EveryOther(rs)[k] == Now(node, batch[k])
    {
      assert (2 * k) / 2 == k && (2 * k + 1) / 2 == k && (2 * k) % 2 == 0 && (2 * k + 1) % 2 == 1;
      assert rs[2 * k] == Now(node, batch[k]) && rs[2 * k + 1] == Ago(node, batch[k], ago);
    }
  }

  // ---------------------------------------------------------------- calculate_rewards

  /** `df.drop_duplicates(subset=['user', 'poolId'], keep='first')` */
  function DropDuplicates(rows: seq<StakeRow>): (r: seq<StakeRow>)
    ensures |r| <= |rows|
  {
    if rows == [] then []
    else
      var init := DropDuplicates(rows[..|rows| - 1]);
      var last := rows[|rows| - 1];
      if last in init then init else init + [last]
  }

  /** The rows left hold every row once, and nothing else. */
  lemma {:induction false} DropDuplicatesSpec(rows: seq<StakeRow>)
    ensures forall i, j :: 0 <= i < j < |DropDuplicates(rows)| ==> DropDuplicates(rows)[i] != DropDuplicates(rows)[j]
    ensures forall x :: x in DropDuplicates(rows) <==> x in rows
  {
    if rows != [] {
      var init := rows[..|rows| - 1];
      DropDuplicatesSpec(init);
      assert rows == init + [rows[|rows| - 1]];
    }
  }

  /** A row is kept at the place of its first occurrence: rows before it in the result come before it in the input. */
  lemma {:induction false} DropDuplicatesKeepsFirst(rows: seq<StakeRow>, i: nat, j: nat)
    requires i < j < |DropDuplicates(rows)|
    ensures exists a, b ::
      0 <= a < b < |rows| && rows[a] == DropDuplicates(rows)[i] && rows[b] == DropDuplicates(rows)[j] && DropDuplicates(rows)[j] !in rows[..b]
  {
    var init := rows[..|rows| - 1];
    var last := rows[|rows| - 1];
    var d := DropDuplicates(init);
    DropDuplicatesSpec(init);
    if j < |d| {
      DropDuplicatesKeepsFirst(init, i, j);
      var a, b :| 0 <= a < b < |init| && init[a] == d[i] && init[b] == d[j] && d[j] !in init[..b];
      assert rows[..b] == init[..b];
    } else {
      assert last !in d && DropDuplicates(rows)[j] == last;
      assert d[i] in init;
      var a :| 0 <= a < |init| && init[a] == d[i];
      assert rows[..|rows| - 1] == init;
    }
  }

  /** The four running sums of `calculate_rewards`. */
  datatype Sums = Sums(daily0: real, daily1: real, total0: real, total1: real)

  /** The sums after one more row: pool 0 and pool 1 rows add their rewards, other rows change nothing. */
  function AddRow(s: Sums, row: StakeRow, daily: real, total: real): Sums
  {
    if row.poolId == 0 then s.(daily0 := s.daily0 + daily, total0 := s.total0 + total)
    else if row.poolId == 1 then s.(daily1 := s.daily1 + daily, total1 := s.total1 + total)
    else s
  }

  function Zero(): Sums { Sums(0.0, 0.0, 0.0, 0.0) }

  /** The sums over `rows`, each with its daily and total reward. */
  function Totals(rows: seq<StakeRow>, node: Node, ago: int): Sums
  {
    if rows == [] then Zero()
    else
      var last := rows[|rows| - 1];
      AddRow(Totals(rows[..|rows| - 1], node, ago), last, Now(node, last) - Ago(node, last, ago), Now(node, last))
  }

  /** Sums from a starting point `s`: adding rows one by one. */
  function TotalsFrom(s: Sums, rows: seq<StakeRow>, node: Node, ago: int): Sums
  {
    if rows == [] then s
    else
      var last := rows[|rows| - 1];
      AddRow(TotalsFrom(s, rows[..|rows| - 1], node, ago), last, Now(node, last) - Ago(node, last, ago), Now(node, last))
  }

  lemma {:induction false} TotalsFromAppend(s: Sums, xs: seq<StakeRow>, ys: seq<StakeRow>, node: Node, ago: int)
    ensures TotalsFrom(s, xs + ys, node, ago) == TotalsFrom(TotalsFrom(s, xs, node, ago), ys, node, ago)
    decreases |ys|
  {
    if ys == [] {
      assert xs + ys == xs;
    } else {
      assert (xs + ys)[..|xs + ys| - 1] == xs + ys[..|ys| - 1];
      TotalsFromAppend(s, xs, ys[..|ys| - 1], node, ago);
    }
  }

  lemma {:induction false} TotalsFromZero(rows: seq<StakeRow>, node: Node, ago: int)
    ensures TotalsFrom(Zero(), rows, node, ago) == Totals(rows, node, ago)
  {
    if rows != [] {
      TotalsFromZero(rows[..|rows| - 1], node, ago);
    }
  }

  /** The rows of pools 0 and 1, in order. */
  function Pools01(rows: seq<StakeRow>): seq<StakeRow>
  {
    if rows == [] then []
    else
      var last := rows[|rows| - 1];
      Pools01(rows[..|rows| - 1]) + (if last.poolId == 0 || last.poolId == 1 then [last] else [])
  }

  /** Rows of pools other than 0 and 1 change no sum. */
  lemma {:induction false} OtherPoolsIgnored(rows: seq<StakeRow>, node: Node, ago: int)
    ensures Totals(rows, node, ago) == Totals(Pools01(rows), node, ago)
  {
    if rows != [] {
      OtherPoolsIgnored(rows[..|rows| - 1], node, ago);
      if rows[|rows| - 1].poolId == 0 || rows[|rows| - 1].poolId == 1 {
        KeptRowAdded(rows, node, ago);
      } else {
        OtherRowSkipped(rows, node, ago);
      }
    }
  }

  lemma KeptRowAdded(rows: seq<StakeRow>, node: Node, ago: int)
    requires rows != [] && (rows[|rows| - 1].poolId == 0 || rows[|rows| - 1].poolId == 1)
    requires Totals(rows[..|rows| - 1], node, ago) == Totals(Pools01(rows[..|rows| - 1]), node, ago)
    ensures Totals(rows, node, ago) == Totals(Pools01(rows), node, ago)
  {
    var init, last := rows[..|rows| - 1], rows[|rows| - 1];
    var f := Pools01(rows);
    assert f[..|f| - 1] == Pools01(init) && f[|f| - 1] == last by {
      assert f == Pools01(init) + [last];
    }
    TotalsLast(f, node, ago);
    TotalsLast(rows, node, ago);
  }

  lemma TotalsLast(rows: seq<StakeRow>, node: Node, ago: int)
    requires rows != []
    ensures var last := rows[|rows| - 1];
      Totals(rows, node, ago) == AddRow(Totals(rows[..|rows| - 1], node, ago), last, Now(node, last) - Ago(node, last, ago), Now(node, last))
  {
  }

  lemma OtherRowSkipped(rows: seq<StakeRow>, node: Node, ago: int)
    requires rows != [] && rows[|rows| - 1].poolId != 0 && rows[|rows| - 1].poolId != 1
    requires Totals(rows[..|rows| - 1], node, ago) == Totals(Pools01(rows[..|rows| - 1]), node, ago)
    ensures Totals(rows, node, ago) == Totals(Pools01(rows), node, ago)
  {
    var init := rows[..|rows| - 1];
    assert Pools01(rows) == Pools01(init) + [];
    assert Pools01(init) + [] == Pools01(init);
  }

  /** The pool-0 and pool-1 sums are the sums of the rows of that pool alone. */
  lemma {:induction false} PoolSums(rows: seq<StakeRow>, node: Node, ago: int)
    ensures Totals(rows, node, ago).total0 == PoolTotal(rows, 0, node)
    ensures Totals(rows, node, ago).total1 == PoolTotal(rows, 1, node)
    ensures Totals(rows, node, ago).daily0 == PoolTotal(rows, 0, node) - PoolTotal24(rows, 0, node, ago)
    ensures Totals(rows, node, ago).daily1 == PoolTotal(rows, 1, node) - PoolTotal24(rows, 1, node, ago)
  {
    if rows != [] {
      PoolSums(rows[..|rows| - 1], node, ago);
    }
  }

  /** The sum of the rewards now of the rows of pool `pool`. */
  function PoolTotal(rows: seq<StakeRow>, pool: int, node: Node): real
  {
    if rows == [] then 0.0
    else
      var last := rows[|rows| - 1];
      PoolTotal(rows[..|rows| - 1], pool, node) + (if last.poolId == pool then Now(node, last) else 0.0)
  }

  /** The sum of the rewards 24 hours ago of the rows of pool `pool`. */
  function PoolTotal24(rows: seq<StakeRow>, pool: int, node: Node, ago: int): real
  {
    if rows == [] then 0.0
    else
      var last := rows[|rows| - 1];
      PoolTotal24(rows[..|rows| - 1], pool, node, ago) + (if last.poolId == pool then Ago(node, last, ago) else 0.0)
  }

  /** The six categories of the `RewardSum` sheet, in order. */
  function Summary(s: Sums): (cs: seq<(string, real)>)
    ensures |cs| == 6
    ensures cs[2].1 == cs[0].1 + cs[1].1 && cs[5].1 == cs[3].1 + cs[4].1
  {
    [ ("Daily Pool 0", s.daily0), ("Daily Pool 1", s.daily1), ("Daily Combined", s.daily0 + s.daily1),
      ("Total Pool 0", s.total0), ("Total Pool 1", s.total1), ("Total Combined", s.total0 + s.total1) ]
  }

  /**
   * What `calculate_rewards` uploads, given the sheet's rows and the block of 24 hours ago
   * (or the error reading it raised): the error, `BadAddress` when some distinct row's
   * address is rejected, or the six categories over the distinct rows.
   */
  function RewardSummary(rows: seq<StakeRow>, node: Node, ago: Result<int, Error>): Result<seq<(string, real)>, Error>
  {
    if ago.Failure? then Failure(ago.error)
    else
      var distinct := DropDuplicates(rows);
      if exists k :: 0 <= k < |distinct| && !node.validAddress(distinct[k].user) then Failure(BadAddress)
      else Success(Summary(Totals(distinct, node, ago.value)))
  }

  /** `calculate_rewards`, up to the upload: batches of 50 distinct rows, summed per pool. */
  method CalculateRewards(rows: seq<StakeRow>, node: Node, ago: Result<int, Error>) returns (r: Result<seq<(string, real)>, Error>)
    ensures r == RewardSummary(rows, node, ago)
  {
    var distinct := DropDuplicates(rows);
    if ago.Failure? {
      return Failure(ago.error);
    }
    var batches := Chunks(distinct, BatchSize);
    var sums := Zero();
    for i := 0 to |batches|
      invariant sums == TotalsFrom(Zero(), Flatten(batches[..i]), node, ago.value)
      invariant AllValid(Flatten(batches[..i]), node)
    {
      var batch := batches[i];
      var processed := ProcessRewardsBatch(batch, node, ago.value);
      if processed.Failure? {
        BadBatchFails(rows, distinct, batches, i, node, ago.value);
        return Failure(processed.error);
      }
      ghost var before := sums;
      sums := AddBatch(sums, batch, processed.value.0, processed.value.1, node, ago.value);
      NextBatch(batches, i, before, node, ago.value);
    }
    AllBatchesSummed(rows, batches, sums, node, ago.value);
    return Success(Summary(sums));
  }

  /** After the last batch the sums are those of every distinct row, and every address was accepted. */
  lemma AllBatchesSummed(rows: seq<StakeRow>, batches: seq<seq<StakeRow>>, sums: Sums, node: Node, ago: int)
    requires Flatten(batches) == DropDuplicates(rows)
    requires sums == TotalsFrom(Zero(), Flatten(batches[..|batches|]), node, ago)
    requires AllValid(Flatten(batches[..|batches|]), node)
    ensures RewardSummary(rows, node, Success(ago)) == Success(Summary(sums))
  {
    assert batches[..|batches|] == batches;
    TotalsFromZero(DropDuplicates(rows), node, ago);
  }

  /** The loop over one batch's rewards in `calculate_rewards`. */
  method AddBatch(sums: Sums, batch: seq<StakeRow>, daily: seq<real>, total: seq<real>, node: Node, ago: int) returns (s: Sums)
    requires |daily| == |batch| && |total| == |batch|
    requires forall k :: 0 <= k < |batch| ==> daily[k] == Now(node, batch[k]) - Ago(node, batch[k], ago) && total[k] == Now(node, batch[k])
    ensures s == TotalsFrom(sums, batch, node, ago)
  {
    s := sums;
    for j := 0 to |daily|
      invariant s == TotalsFrom(sums, batch[..j], node, ago)
    {
      assert batch[..j + 1][..j] == batch[..j];
      s := AddRow(s, batch[j], daily[j], total[j]);
    }
    assert batch[..|daily|] == batch;
  }

  /** Every row's address is one `to_checksum_address` accepts. */
  predicate AllValid(rows: seq<StakeRow>, node: Node)
  {
    forall k :: 0 <= k < |rows| ==> node.validAddress(rows[k].user)
  }

  /** The sums and the addresses checked after batch `i`, from those before it. */
  lemma NextBatch(batches: seq<seq<StakeRow>>, i: nat, before: Sums, node: Node, ago: int)
    requires i < |batches|
    requires before == TotalsFrom(Zero(), Flatten(batches[..i]), node, ago)
    requires AllValid(Flatten(batches[..i]), node)
    requires AllValid(batches[i], node)
    ensures TotalsFrom(before, batches[i], node, ago) == TotalsFrom(Zero(), Flatten(batches[..i + 1]), node, ago)
    ensures AllValid(Flatten(batches[..i + 1]), node)
  {
    assert batches[..i + 1][..i] == batches[..i];
    TotalsFromAppend(Zero(), Flatten(batches[..i]), batches[i], node, ago);
  }

  /** A batch with a rejected address means a distinct row with a rejected address. */
  lemma BadBatchFails(rows: seq<StakeRow>, distinct: seq<StakeRow>, batches: seq<seq<StakeRow>>, i: nat, node: Node, ago: int)
    requires Flatten(batches) == distinct && i < |batches|
    requires exists k :: 0 <= k < |batches[i]| && !node.validAddress(batches[i][k].user)
    ensures exists k :: 0 <= k < |distinct| && !node.validAddress(distinct[k].user)
    ensures distinct == DropDuplicates(rows) ==> RewardSummary(rows, node, Success(ago)) == Failure(BadAddress)
  {
    var k :| 0 <= k < |batches[i]| && !node.validAddress(batches[i][k].user);
    FlattenSplit(batches, i);
    assert distinct[|Flatten(batches[..i])| + k] == batches[i][k];
  }

  /**
   * The upload of a run whose reads succeed: per pool, the daily sum is the pool's rewards now
   * minus its rewards 24 hours ago over the distinct rows, the total sum is its rewards now,
   * and the combined categories add pools 0 and 1.
   */
  lemma RewardSummaryFacts(rows: seq<StakeRow>, node: Node, ago: int)
    requires forall k :: 0 <= k < |rows| ==> node.validAddress(rows[k].user)
    ensures var distinct := DropDuplicates(rows);
      && RewardSummary(rows, node, Success(ago)).Success?
      && var cs := RewardSummary(rows, node, Success(ago)).value;
      && |cs| == 6
      && cs[0] == ("Daily Pool 0", PoolTotal(distinct, 0, node) - PoolTotal24(distinct, 0, node, ago))
      && cs[1] == ("Daily Pool 1", PoolTotal(distinct, 1, node) - PoolTotal24(distinct, 1, node, ago))
      && cs[2].0 == "Daily Combined" && cs[2].1 == cs[0].1 + cs[1].1
      && cs[3] == ("Total Pool 0", PoolTotal(distinct, 0, node))
      && cs[4] == ("Total Pool 1", PoolTotal(distinct, 1, node))
      && cs[5].0 == "Total Combined" && cs[5].1 == cs[3].1 + cs[4].1
  {
    SummaryAccepted(rows, node, ago);
    SummaryOfTotals(DropDuplicates(rows), node, ago);
  }

  lemma SummaryAccepted(rows: seq<StakeRow>, node: Node, ago: int)
    requires forall k :: 0 <= k < |rows| ==> node.validAddress(rows[k].user)
    ensures RewardSummary(rows, node, Success(ago)) == Success(Summary(Totals(DropDuplicates(rows), node, ago)))
  {
    DistinctValid(rows, node);
  }

  lemma SummaryOfTotals(rows: seq<StakeRow>, node: Node, ago: int)
    ensures var cs := Summary(Totals(rows, node, ago));
      && cs[0] == ("Daily Pool 0", PoolTotal(rows, 0, node) - PoolTotal24(rows, 0, node, ago))
      && cs[1] == ("Daily Pool 1", PoolTotal(rows, 1, node) - PoolTotal24(rows, 1, node, ago))
      && cs[2].0 == "Daily Combined"
      && cs[3] == ("Total Pool 0", PoolTotal(rows, 0, node))
      && cs[4] == ("Total Pool 1", PoolTotal(rows, 1, node))
      && cs[5].0 == "Total Combined"
  {
    PoolSums(rows, node, ago);
  }

  lemma DistinctValid(rows: seq<StakeRow>, node: Node)
    requires forall k :: 0 <= k < |rows| ==> node.validAddress(rows[k].user)
    ensures forall k :: 0 <= k < |DropDuplicates(rows)| ==> node.validAddress(DropDuplicates(rows)[k].user)
  {
    var distinct := DropDuplicates(rows);
    DropDuplicatesSpec(rows);
    forall k | 0 <= k < |distinct|
      ensures node.validAddress(distinct[k].user)
    {
      assert distinct[k] in rows;
    }
  }
}
