/** helpers/database_helpers/db_helper.py: where an ingestion job resumes. */
module Watermark {
  import opened Wrappers
  import opened Errors
  import opened Sequences

  /**
   * `get_last_block_from_db(table)`: `MAX(block_number)` of the table as an int; `None` for an
   * empty table, for any error on the way (`read` is the column or the error raised reading
   * it), and also for a maximum of 0, because the result is tested for truthiness.
   */
  function LastBlockFromDb(read: Result<seq<int>, Error>): (w: Option<int>)
    ensures w.Some? <==> read.Success? && read.value != [] && MaxInt(read.value) != 0
    ensures w.Some? ==> w.value in read.value && forall i :: 0 <= i < |read.value| ==> read.value[i] <= w.value
  {
    match read
    case Failure(_) => None
    case Success(blocks) =>
      if blocks == [] then None
      else
        var m := MaxInt(blocks);
        if m != 0 then Some(m) else None
  }

  /** A table whose only block is 0 reads as empty, so the job starts again from its first block. */
  lemma ZeroMaximumReadsAsEmpty(n: nat)
    requires n > 0
    ensures LastBlockFromDb(Success(seq(n, _ => 0))) == None
  {
    var zeros := seq(n, _ => 0);
    assert zeros[0] == 0;
    assert MaxInt(zeros) in zeros;
  }

  /** Adding rows never moves a positive watermark back. */
  lemma WatermarkMonotone(xs: seq<int>, ys: seq<int>)
    requires LastBlockFromDb(Success(xs)).Some? && LastBlockFromDb(Success(xs)).value > 0
    ensures LastBlockFromDb(Success(xs + ys)).Some?
    ensures LastBlockFromDb(Success(xs + ys)).value >= LastBlockFromDb(Success(xs)).value
  {
    var w := LastBlockFromDb(Success(xs)).value;
    var k :| 0 <= k < |xs| && xs[k] == w;
    assert (xs + ys)[k] == w;
    assert MaxInt(xs + ys) >= w;
  }

  /** The first block a job fetches: its configured first block, or the one after its watermark. */
  function ResumeFrom(watermark: Option<int>, firstBlock: int): int
  {
    match watermark
    case None => firstBlock
    case Some(w) => w + 1
  }

  /** The `block_number` column of a table's rows. */
  function BlockColumn<R>(rows: seq<R>, block: R -> int): (bs: seq<int>)
    ensures |bs| == |rows| && forall i :: 0 <= i < |rows| ==> bs[i] == block(rows[i])
  {
    seq(|rows|, i requires 0 <= i < |rows| => block(rows[i]))
  }

  /** `get_last_block_from_db(table)` on a table's rows, or `None` when reading them raised `readError`. */
  function StoredWatermark<R>(rows: seq<R>, block: R -> int, readError: Option<Error>): Option<int>
  {
    LastBlockFromDb(if readError.Some? then Failure(readError.value) else Success(BlockColumn(rows, block)))
  }

  /** Appending rows to a table never moves its positive watermark back. */
  lemma StoredWatermarkMonotone<R>(rows: seq<R>, extra: seq<R>, block: R -> int)
    requires StoredWatermark(rows, block, None).Some? && StoredWatermark(rows, block, None).value > 0
    ensures StoredWatermark(rows + extra, block, None).Some?
    ensures StoredWatermark(rows + extra, block, None).value >= StoredWatermark(rows, block, None).value
  {
    assert BlockColumn(rows + extra, block) == BlockColumn(rows, block) + BlockColumn(extra, block);
    WatermarkMonotone(BlockColumn(rows, block), BlockColumn(extra, block));
  }
}
