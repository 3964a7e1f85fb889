/**
 * scripts/ii_update_user_multipliers.py: empty `user_multiplier`, then for every (user, pool)
 * record ask the contract for the user's current multiplier, in batches of 50, and insert the
 * answers batch by batch.
 */
module MultiplierStage {
  import opened Wrappers
  import opened Errors
  import opened Text
  import opened Records
  import opened Batching
  import opened Database
  import opened BulkWrite
  import opened MultiplierRepository

  const MaxRetries: nat := 3
  const BatchSize: nat := 50

  /**
   * The node as `get_multiplier` sees it: whether `to_checksum_address` accepts an address,
   * and, for a record and an attempt number, the block number and the contract's
   * `getCurrentUserMultiplier`, or the error the calls raise.
   */
  datatype Rpc = Rpc(validAddress: string -> bool, call: (UserClaimLocked, nat) -> Result<(int, int), Error>)

  /** `format_multiplier`: `None` stays `None`; an integer becomes the exact `Decimal` of its digits. */
  function FormatMultiplier(value: Option<int>): (r: Option<real>)
    ensures r.None? <==> value.None?
    ensures r.Some? ==> r.value == value.value as real && r.value.Floor == value.value
  {
    match value
    case None => None
    case Some(v) => Some(v as real)
  }

  // ---------------------------------------------------------------- get_multiplier as written

  /**
   * `get_multiplier` AS WRITTEN. The row it builds omits `transaction_hash`, which the model
   * requires, so every successful call ends in a `ValidationError` that the handler turns into
   * `None`; a failed call (rate limit or not) also returns `None`, after one attempt. An address
   * `to_checksum_address` rejects makes the handler read `user` before it was assigned, so
   * `UnboundLocalError` escapes.
   */
  function MultiplierAsWritten(rec: UserClaimLocked, rpc: Rpc): Result<Option<UserMultiplier>, Error>
  {
    if !rpc.validAddress(rec.userAddress) then Failure(UnboundLocalError("user"))
    else
      match rpc.call(rec, 0)
      case Failure(_) => Success(None)
      case Success(_) =>
        var missing := ValidationError("transaction_hash");
        Success(None)
  }

  /** As written, `get_multiplier` never yields a multiplier, whatever the node answers. */
  lemma AsWrittenNeverYields(rec: UserClaimLocked, rpc: Rpc)
    ensures MultiplierAsWritten(rec, rpc).Success? ==> MultiplierAsWritten(rec, rpc).value.None?
    ensures MultiplierAsWritten(rec, rpc).Failure? <==> !rpc.validAddress(rec.userAddress)
  {
  }

  // ---------------------------------------------------------------- get_multiplier as intended

  /**
   * `get_multiplier` as its loop intends, from attempt `attempt` on: a rate-limited attempt
   * other than the last is retried; any other failure, or the last attempt failing, gives
   * `None`; an answer gives the row, with the record's transaction hash.
   */
  function MultiplierFrom(rec: UserClaimLocked, rpc: Rpc, attempt: nat): (r: Option<UserMultiplier>)
    ensures r.Some? ==> r.value.multiplier.Some?
    decreases MaxRetries - attempt
  {
    if attempt >= MaxRetries || !rpc.validAddress(rec.userAddress) then None
    else
      match rpc.call(rec, attempt)
      case Success(answer) => Some(RowOf(rec, answer))
      case Failure(e) =>
        if RateLimited(e) && attempt < MaxRetries - 1 then MultiplierFrom(rec, rpc, attempt + 1) else None
  }

  /**
   * The row for a record and the node's answer (block number, multiplier): the record's
   * columns, including its transaction hash, with the answer's block and multiplier.
   */
  function RowOf(rec: UserClaimLocked, answer: (int, int)): (m: UserMultiplier)
    ensures m.multiplier == Some(answer.1 as real) && m.blockNumber == answer.0
    ensures m.userAddress == rec.userAddress && m.poolId == rec.poolId && m.transactionHash == rec.transactionHash
    ensures m.claimLockStart == rec.claimLockStart && m.claimLockEnd == rec.claimLockEnd && m.timestamp == rec.timestamp
  {
    UserMultiplier(rec.claimLockStart, rec.claimLockEnd, rec.timestamp, rec.transactionHash,
      answer.0, rec.poolId, rec.userAddress, FormatMultiplier(Some(answer.1)))
  }

  function Multiplier(rec: UserClaimLocked, rpc: Rpc): Option<UserMultiplier>
  {
    MultiplierFrom(rec, rpc, 0)
  }

  /**
   * The intended `get_multiplier` yields a row exactly when some attempt answers and every
   * attempt before it was rate limited; the row is the record's, at the answering call's block,
   * with the answered multiplier.
   */
  lemma {:induction false} MultiplierSpec(rec: UserClaimLocked, rpc: Rpc, attempt: nat)
    ensures var r := MultiplierFrom(rec, rpc, attempt);
      && (r.Some? <==> rpc.validAddress(rec.userAddress) && exists k :: attempt <= k < MaxRetries && Answers(rec, rpc, attempt, k))
      && (forall k :: rpc.validAddress(rec.userAddress) && attempt <= k < MaxRetries && Answers(rec, rpc, attempt, k) ==>
            r == Some(RowOf(rec, rpc.call(rec, k).value)))
    decreases MaxRetries - attempt
  {
    if attempt < MaxRetries && rpc.validAddress(rec.userAddress) {
      var next := attempt + 1;
      var c := rpc.call(rec, attempt);
      if c.Success? {
        assert Answers(rec, rpc, attempt, attempt);
      } else if RateLimited(c.error) && attempt < MaxRetries - 1 {
        MultiplierSpec(rec, rpc, next);
        forall k | attempt <= k < MaxRetries && Answers(rec, rpc, attempt, k)
          ensures next <= k && Answers(rec, rpc, next, k)
        {
        }
        forall k | next <= k < MaxRetries && Answers(rec, rpc, next, k)
          ensures Answers(rec, rpc, attempt, k)
        {
        }
      } else {
        forall k | attempt <= k < MaxRetries
          ensures !Answers(rec, rpc, attempt, k)
        {
          if k > attempt {
            assert !(c.Failure? && RateLimited(c.error)) || attempt == MaxRetries - 1;
          }
        }
      }
    }
  }

  /** Attempt `k` answers, and attempts `from` to `k - 1` were rate limited. */
  predicate Answers(rec: UserClaimLocked, rpc: Rpc, from: nat, k: nat)
  {
    && rpc.call(rec, k).Success?
    && forall j :: from <= j < k ==> rpc.call(rec, j).Failure? && RateLimited(rpc.call(rec, j).error)
  }

  /** A rate limit on the first attempt is retried by the intended code and not by the code as written. */
  lemma RateLimitRetried(rec: UserClaimLocked, rpc: Rpc)
    requires rpc.validAddress(rec.userAddress)
    requires rpc.call(rec, 0).Failure? && RateLimited(rpc.call(rec, 0).error) && rpc.call(rec, 1).Success?
    ensures Multiplier(rec, rpc).Some?
    ensures MultiplierAsWritten(rec, rpc) == Success(None)
  {
  }

  // ---------------------------------------------------------------- batches

  /** `process_batch`: one `get_multiplier` per record, in the batch's order. */
  function Fetch(batch: seq<UserClaimLocked>, rpc: Rpc): (ms: seq<Option<UserMultiplier>>)
    ensures |ms| == |batch|
  {
    seq(|batch|, i requires 0 <= i < |batch| => Multiplier(batch[i], rpc))
  }

  /** The rows among the answers, in order. */
  function Present(ms: seq<Option<UserMultiplier>>): (rs: seq<UserMultiplier>)
    ensures |rs| <= |ms|
  {
    if ms == [] then []
    else
      var init := Present(ms[..|ms| - 1]);
      var last := ms[|ms| - 1];
      if last.Some? then init + [last.value] else init
  }

  /** Every row kept is one of the answers, and every answer that is a row is kept. */
  lemma {:induction false} PresentKeeps(ms: seq<Option<UserMultiplier>>)
    ensures forall i :: 0 <= i < |Present(ms)| ==> Some(Present(ms)[i]) in ms
    ensures forall i :: 0 <= i < |ms| && ms[i].Some? ==> ms[i].value in Present(ms)
  {
    if ms != [] {
      var init := ms[..|ms| - 1];
      PresentKeeps(init);
      assert forall i :: 0 <= i < |init| ==> init[i] == ms[i];
      assert forall x :: x in init ==> x in ms;
    }
  }

  lemma {:induction false} PresentAppend(xs: seq<Option<UserMultiplier>>, ys: seq<Option<UserMultiplier>>)
    ensures Present(xs + ys) == Present(xs) + Present(ys)
    decreases |ys|
  {
    if ys == [] {
      assert xs + ys == xs;
    } else {
      var init := ys[..|ys| - 1];
      assert (xs + ys)[..|xs + ys| - 1] == xs + init;
      PresentAppend(xs, init);
    }
  }

  /** How one batch is turned into inserted rows: the table before and the batch, to the table after and the count. */
  type BatchInsert = (seq<UserMultiplier>, seq<UserClaimLocked>) -> (seq<UserMultiplier>, Result<nat, Error>)

  /**
   * One batch as intended: `bulk_insert` of the answers that are rows, so that a record
   * without an answer is skipped instead of failing the batch.
   */
  function InsertAnswers(autocommit: bool, server: Server, rpc: Rpc): BatchInsert
  {
    (rows: seq<UserMultiplier>, batch: seq<UserClaimLocked>) =>
      BulkInsertOutcome(autocommit, server, rows, Present(Fetch(batch, rpc)))
  }

  /** The loop's state after `total` records: the rest of the loop's outcome, with `total` added to its count. */
  function Continue(total: nat, rest: (seq<UserMultiplier>, Result<nat, Error>)): (seq<UserMultiplier>, Result<nat, Error>)
  {
    (rest.0, if rest.1.Success? then Success(total + rest.1.value) else rest.1)
  }

  /**
   * The batch loop from `batches` on, on a table holding `rows`: the rows after it and
   * `total_processed`, or the first error an insert raises (the batches before it stay).
   */
  function Batches(rows: seq<UserMultiplier>, batches: seq<seq<UserClaimLocked>>, insert: BatchInsert)
    : (seq<UserMultiplier>, Result<nat, Error>)
    decreases |batches|
  {
    if batches == [] then (rows, Success(0))
    else
      var first := insert(rows, batches[0]);
      if first.1.Failure? then (first.0, Failure(first.1.error))
      else Continue(|batches[0]|, Batches(first.0, batches[1..], insert))
  }

  /** The table after `process_user_multiplier_events` and `total_processed`, or the error it raises. */
  function StageOutcome(autocommit: bool, server: Server, rows: seq<UserMultiplier>, records: seq<UserClaimLocked>, insert: BatchInsert)
    : (seq<UserMultiplier>, Result<nat, Error>)
  {
    var cleaned := TransactionOutcome(autocommit, server, rows, DeleteAll(), [()]);
    if cleaned.1.Failure? then (cleaned.0, Failure(cleaned.1.error))
    else Batches(cleaned.0, Chunks(records, BatchSize), insert)
  }

  /** `process_user_multiplier_events`, given the (user, pool) records it reads, inserting the answers of each batch. */
  method ProcessMultipliers(repo: Repository, records: seq<UserClaimLocked>, rpc: Rpc, server: Server) returns (r: Result<nat, Error>)
    modifies repo, repo.db
    ensures repo.db.inUse == old(repo.db.inUse)
    ensures (repo.rows, r) == StageOutcome(repo.db.cfg.autocommit, server, old(repo.rows), records, InsertAnswers(repo.db.cfg.autocommit, server, rpc))
  {
    var cleaned := repo.CleanTable(server);
    if cleaned.Failure? {
      return Failure(cleaned.error);
    }
    r := InsertBatches(repo, Chunks(records, BatchSize), rpc, server);
  }

  /** The batch loop of `process_user_multiplier_events`: `total_processed`, or the first error an insert raises. */
  method InsertBatches(repo: Repository, batches: seq<seq<UserClaimLocked>>, rpc: Rpc, server: Server) returns (r: Result<nat, Error>)
    modifies repo, repo.db
    ensures repo.db.inUse == old(repo.db.inUse)
    ensures (repo.rows, r) == Batches(old(repo.rows), batches, InsertAnswers(repo.db.cfg.autocommit, server, rpc))
  {
    var insert := InsertAnswers(repo.db.cfg.autocommit, server, rpc);
    var total: nat := 0;
    var i := 0;
    while i < |batches|
      invariant 0 <= i <= |batches|
      invariant repo.db.inUse == old(repo.db.inUse)
      invariant Batches(old(repo.rows), batches, insert) == Continue(total, Batches(repo.rows, batches[i..], insert))
    {
      ghost var before := repo.rows;
      var processed := Fetch(batches[i], rpc);
      var inserted := repo.BulkInsert(Present(processed), server);
      InsertAnswersApply(repo.db.cfg.autocommit, server, rpc, before, batches[i]);
      LoopStep(Batches(old(repo.rows), batches, insert), total, before, batches, i, insert, repo.rows, inserted);
      if inserted.Failure? {
        return Failure(inserted.error);
      }
      total := total + |batches[i]|;
      i := i + 1;
    }
    return Success(total);
  }

  lemma InsertAnswersApply(autocommit: bool, server: Server, rpc: Rpc, rows: seq<UserMultiplier>, batch: seq<UserClaimLocked>)
    ensures InsertAnswers(autocommit, server, rpc)(rows, batch) == BulkInsertOutcome(autocommit, server, rows, Present(Fetch(batch, rpc)))
  {
  }

  /** What one turn of the loop in `InsertBatches` leaves to do. */
  lemma LoopStep(goal: (seq<UserMultiplier>, Result<nat, Error>), total: nat, before: seq<UserMultiplier>,
                 batches: seq<seq<UserClaimLocked>>, i: nat, insert: BatchInsert,
                 after: seq<UserMultiplier>, inserted: Result<nat, Error>)
    requires i < |batches|
    requires goal == Continue(total, Batches(before, batches[i..], insert))
    requires insert(before, batches[i]) == (after, inserted)
    ensures inserted.Failure? ==> goal == (after, Failure(inserted.error))
    ensures inserted.Success? ==> goal == Continue(total + |batches[i]|, Batches(after, batches[i + 1..], insert))
  {
    BatchesStep(before, batches[i..], insert);
    assert batches[i..][1..] == batches[i + 1..];
  }

  /** One turn of the batch loop. */
  lemma BatchesStep(rows: seq<UserMultiplier>, batches: seq<seq<UserClaimLocked>>, insert: BatchInsert)
    requires batches != []
    ensures var first := insert(rows, batches[0]);
      Batches(rows, batches, insert) ==
        (if first.1.Failure? then (first.0, Failure(first.1.error)) else Continue(|batches[0]|, Batches(first.0, batches[1..], insert)))
  {
  }

  /** Flattening a list of batches takes the first batch, then the rest. */
  lemma FlattenCons<T>(batches: seq<seq<T>>)
    requires batches != []
    ensures Flatten(batches) == batches[0] + Flatten(batches[1..])
  {
    assert batches == [batches[0]] + batches[1..];
    FlattenAppend([batches[0]], batches[1..]);
    assert [batches[0]][..0] == [];
  }

  /** Asking for a batch after another is asking for the two together. */
  lemma FetchAppend(xs: seq<UserClaimLocked>, ys: seq<UserClaimLocked>, rpc: Rpc)
    ensures Fetch(xs + ys, rpc) == Fetch(xs, rpc) + Fetch(ys, rpc)
  {
  }

  /** With the database up, one batch appends its answers and reports their number. */
  lemma InsertAnswersCommits(server: Server, rows: seq<UserMultiplier>, batch: seq<UserClaimLocked>, rpc: Rpc)
    requires Acquired(server).Success? && server.commitError.None?
    ensures InsertAnswers(false, server, rpc)(rows, batch) == (rows + Present(Fetch(batch, rpc)), Success(|Present(Fetch(batch, rpc))|))
  {
    var present := Present(Fetch(batch, rpc));
    if present == [] {
      assert rows + present == rows;
    } else {
      PresentKeeps(Fetch(batch, rpc));
      forall i | 0 <= i < |present|
        ensures present[i].multiplier.Some?
      {
        assert Some(present[i]) in Fetch(batch, rpc);
      }
      ValuesListWithMultiplier(present[0], present);
      ExecutePlainInsert(rows, present);
      BulkInsertAppends(false, server, rows, present);
    }
  }

  /** Appending the answers to one batch and then to the next appends the answers to both. */
  lemma AnswersConcat(rows: seq<UserMultiplier>, xs: seq<UserClaimLocked>, ys: seq<UserClaimLocked>, rpc: Rpc)
    ensures rows + Present(Fetch(xs, rpc)) + Present(Fetch(ys, rpc)) == rows + Present(Fetch(xs + ys, rpc))
  {
    FetchAppend(xs, ys, rpc);
    PresentAppend(Fetch(xs, rpc), Fetch(ys, rpc));
    var a, b := Present(Fetch(xs, rpc)), Present(Fetch(ys, rpc));
    assert rows + a + b == rows + (a + b);
  }

  /** With the database up, the loop appends the answers of every batch, in order, and counts every record. */
  lemma {:induction false} BatchesCommit(server: Server, rows: seq<UserMultiplier>, batches: seq<seq<UserClaimLocked>>, rpc: Rpc)
    requires Acquired(server).Success? && server.commitError.None?
    ensures Batches(rows, batches, InsertAnswers(false, server, rpc))
      == (rows + Present(Fetch(Flatten(batches), rpc)), Success(|Flatten(batches)|))
    decreases |batches|
  {
    if batches == [] {
      assert Fetch([], rpc) == [];
      assert rows + [] == rows;
    } else {
      var first := rows + Present(Fetch(batches[0], rpc));
      BatchesCommit(server, first, batches[1..], rpc);
      FirstBatchCommits(server, rows, batches, rpc);
      BatchesConcat(rows, batches, InsertAnswers(false, server, rpc), rpc);
    }
  }

  /** With the database up, the first batch's answers are appended and the loop goes on from there. */
  lemma FirstBatchCommits(server: Server, rows: seq<UserMultiplier>, batches: seq<seq<UserClaimLocked>>, rpc: Rpc)
    requires Acquired(server).Success? && server.commitError.None? && batches != []
    ensures var first := Present(Fetch(batches[0], rpc));
      Batches(rows, batches, InsertAnswers(false, server, rpc))
        == Continue(|batches[0]|, Batches(rows + first, batches[1..], InsertAnswers(false, server, rpc)))
  {
    var insert := InsertAnswers(false, server, rpc);
    InsertAnswersCommits(server, rows, batches[0], rpc);
    BatchesStep(rows, batches, insert);
  }

  /** A first batch whose answers are appended, then the rest's: the answers of all the records. */
  lemma BatchesConcat(rows: seq<UserMultiplier>, batches: seq<seq<UserClaimLocked>>, insert: BatchInsert, rpc: Rpc)
    requires batches != []
    requires var first := rows + Present(Fetch(batches[0], rpc));
      && Batches(rows, batches, insert) == Continue(|batches[0]|, Batches(first, batches[1..], insert))
      && Batches(first, batches[1..], insert)
        == (first + Present(Fetch(Flatten(batches[1..]), rpc)), Success(|Flatten(batches[1..])|))
    ensures Batches(rows, batches, insert)
      == (rows + Present(Fetch(Flatten(batches), rpc)), Success(|Flatten(batches)|))
  {
    FlattenCons(batches);
    AnswersConcat(rows, batches[0], Flatten(batches[1..]), rpc);
  }

  /**
   * A run with the database up leaves the table holding exactly one row per record that got an
   * answer, in record order, whatever it held before, and processes every record.
   */
  lemma CommittedRunReplacesTable(server: Server, rows: seq<UserMultiplier>, records: seq<UserClaimLocked>, rpc: Rpc)
    requires Acquired(server).Success? && server.commitError.None?
    ensures StageOutcome(false, server, rows, records, InsertAnswers(false, server, rpc))
      == (Present(Fetch(records, rpc)), Success(|records|))
  {
    CleanTableEmpties(server, rows);
    BatchesCommit(server, [], Chunks(records, BatchSize), rpc);
    assert [] + Present(Fetch(records, rpc)) == Present(Fetch(records, rpc));
  }

  // ---------------------------------------------------------------- the batch as written

  /** What `bulk_insert` raises on reaching a `None` entry: `None.model_dump`. */
  const NoneModelDump := AttributeError("'NoneType' object has no attribute 'model_dump'")

  /** `asyncio.gather` over `get_multiplier` as written: the answers, or the first exception raised. */
  function FetchAsWritten(batch: seq<UserClaimLocked>, rpc: Rpc): (r: Result<seq<Option<UserMultiplier>>, Error>)
    ensures r.Success? ==> |r.value| == |batch|
  {
    if batch == [] then Success([])
    else
      var init := FetchAsWritten(batch[..|batch| - 1], rpc);
      var last := MultiplierAsWritten(batch[|batch| - 1], rpc);
      if init.Failure? then init
      else if last.Failure? then Failure(last.error)
      else Success(init.value + [last.value])
  }

  /**
   * One batch AS WRITTEN: the answers, `None` entries included, go to `bulk_insert`, which
   * raises on the first `None` before opening a transaction.
   */
  function InsertAsWritten(autocommit: bool, server: Server, rpc: Rpc): BatchInsert
  {
    (rows: seq<UserMultiplier>, batch: seq<UserClaimLocked>) =>
      match FetchAsWritten(batch, rpc)
      case Failure(e) => (rows, Failure(e))
      case Success(ms) =>
        if ms == [] then (rows, Success(0))
        else if exists i :: 0 <= i < |ms| && ms[i].None? then (rows, Failure(NoneModelDump))
        else BulkInsertOutcome(autocommit, server, rows, Present(ms))
  }

  lemma {:induction false} FetchAsWrittenAllNone(batch: seq<UserClaimLocked>, rpc: Rpc)
    requires forall i :: 0 <= i < |batch| ==> rpc.validAddress(batch[i].userAddress)
    ensures FetchAsWritten(batch, rpc).Success?
    ensures forall i :: 0 <= i < |batch| ==> FetchAsWritten(batch, rpc).value[i].None?
  {
    if batch != [] {
      var init := batch[..|batch| - 1];
      assert forall i :: 0 <= i < |init| ==> init[i] == batch[i];
      FetchAsWrittenAllNone(init, rpc);
      AsWrittenNeverYields(batch[|batch| - 1], rpc);
    }
  }

  /** As written, a batch of records with valid addresses raises before writing anything. */
  lemma InsertAsWrittenFails(autocommit: bool, server: Server, rows: seq<UserMultiplier>, batch: seq<UserClaimLocked>, rpc: Rpc)
    requires batch != [] && forall i :: 0 <= i < |batch| ==> rpc.validAddress(batch[i].userAddress)
    ensures InsertAsWritten(autocommit, server, rpc)(rows, batch) == (rows, Failure(NoneModelDump))
  {
    FetchAsWrittenAllNone(batch, rpc);
    assert FetchAsWritten(batch, rpc).value[0].None?;
  }

  /**
   * As written, a run over at least one record with valid addresses empties the table and then
   * raises on the first batch, so it leaves the table empty.
   */
  lemma AsWrittenRunEmptiesTable(server: Server, rows: seq<UserMultiplier>, records: seq<UserClaimLocked>, rpc: Rpc)
    requires Acquired(server).Success? && server.commitError.None?
    requires records != [] && forall i :: 0 <= i < |records| ==> rpc.validAddress(records[i].userAddress)
    ensures StageOutcome(false, server, rows, records, InsertAsWritten(false, server, rpc)) == ([], Failure(NoneModelDump))
  {
    CleanTableEmpties(server, rows);
    var batches := Chunks(records, BatchSize);
    assert batches != [];
    var b := batches[0];
    assert b == records[..|b|] by {
      FlattenCons(batches);
    }
    assert forall i :: 0 <= i < |b| ==> b[i] == records[i];
    InsertAsWrittenFails(false, server, [], b, rpc);
    BatchesStep([], batches, InsertAsWritten(false, server, rpc));
  }
}
