/**
 * Fetching contract event logs for a block interval in sub-ranges
 * (`get_events_in_batches` and `get_events` in helpers/web3_helper.py).
 *
 * The node is an oracle `chain(from, to)`: `Some(logs)` when the filter query for the
 * inclusive block range succeeds, `None` when it raises.
 */
module EventSource {
  import opened Wrappers
  import opened Sequences

  /** An inclusive block range `[lo, hi]`. */
  datatype BlockRange = BlockRange(lo: int, hi: int)

  /** `get_events`: the logs of one range; any failure of the query gives no logs. */
  function GetEvents<E>(chain: (int, int) -> Option<seq<E>>, r: BlockRange): (es: seq<E>)
    ensures chain(r.lo, r.hi).None? ==> es == []
    ensures chain(r.lo, r.hi).Some? ==> es == chain(r.lo, r.hi).value
  {
    chain(r.lo, r.hi).GetOr([])
  }

  /** The sub-ranges the loop of `get_events_in_batches` queries, in order. */
  function SubRanges(start: int, end: int, size: nat): seq<BlockRange>
    decreases if start > end then 0 else end - start + 1
  {
    if start > end then []
    else
      var e := Min(start + size, end);
      [BlockRange(start, e)] + SubRanges(e + 1, end, size)
  }

  /** The logs of a list of ranges, concatenated in range order. */
  function Fetched<E>(chain: (int, int) -> Option<seq<E>>, rs: seq<BlockRange>): seq<E>
  {
    if rs == [] then [] else Fetched(chain, rs[..|rs| - 1]) + GetEvents(chain, rs[|rs| - 1])
  }

  lemma {:induction false} FetchedAppend<E>(chain: (int, int) -> Option<seq<E>>, xs: seq<BlockRange>, ys: seq<BlockRange>)
    ensures Fetched(chain, xs + ys) == Fetched(chain, xs) + Fetched(chain, ys)
    decreases |ys|
  {
    if ys == [] {
      assert xs + ys == xs;
    } else {
      assert (xs + ys)[..|xs + ys| - 1] == xs + ys[..|ys| - 1];
      FetchedAppend(chain, xs, ys[..|ys| - 1]);
    }
  }

  /**
   * `list(get_events_in_batches(start, end, name, size))`: the logs of every sub-range, in
   * sub-range order; `queried` is the list of ranges the node was asked for.
   */
  method GetEventsInBatches<E>(chain: (int, int) -> Option<seq<E>>, start: int, end: int, size: nat)
    returns (events: seq<E>, queried: seq<BlockRange>)
    ensures queried == SubRanges(start, end, size)
    ensures events == Fetched(chain, queried)
  {
    var currentStart := start;
    events, queried := [], [];
    while currentStart <= end
      invariant queried + SubRanges(currentStart, end, size) == SubRanges(start, end, size)
      invariant events == Fetched(chain, queried)
      decreases if currentStart > end then 0 else end - currentStart + 1
    {
      var currentEnd := Min(currentStart + size, end);
      var batch := GetEvents(chain, BlockRange(currentStart, currentEnd));
      assert SubRanges(currentStart, end, size)
        == [BlockRange(currentStart, currentEnd)] + SubRanges(currentEnd + 1, end, size);
      FetchedAppend(chain, queried, [BlockRange(currentStart, currentEnd)]);
      assert Fetched(chain, [BlockRange(currentStart, currentEnd)]) == batch by {
        assert [BlockRange(currentStart, currentEnd)][..0] == [];
      }
      events := events + batch;
      queried := queried + [BlockRange(currentStart, currentEnd)];
      currentStart := currentEnd + 1;
    }
  }

  /**
   * The sub-ranges are non-empty, each `[s, min(s + size, end)]`, consecutive (each starts one
   * block after the previous ends), and together run from `start` to `end`.
   */
  lemma {:induction false} SubRangesPartition(start: int, end: int, size: nat)
    requires start <= end
    ensures var rs := SubRanges(start, end, size);
      && |rs| > 0
      && rs[0].lo == start
      && rs[|rs| - 1].hi == end
      && (forall i :: 0 <= i < |rs| ==> rs[i].lo <= rs[i].hi == Min(rs[i].lo + size, end))
      && (forall i :: 0 <= i < |rs| - 1 ==> rs[i + 1].lo == rs[i].hi + 1)
    decreases end - start
  {
    var rs := SubRanges(start, end, size);
    var e := Min(start + size, end);
    var rest := SubRanges(e + 1, end, size);
    assert rs == [BlockRange(start, e)] + rest;
    if e + 1 <= end {
      SubRangesPartition(e + 1, end, size);
      assert rest[0].lo == e + 1;
      assert forall i :: 1 <= i < |rs| ==> rs[i] == rest[i - 1];
    } else {
      assert rest == [];
    }
  }

  /** A block lies in `[start, end]` exactly when it lies in one of the sub-ranges. */
  lemma {:induction false} SubRangesCover(start: int, end: int, size: nat, b: int)
    ensures (start <= b <= end) <==>
      exists i :: 0 <= i < |SubRanges(start, end, size)| && SubRanges(start, end, size)[i].lo <= b <= SubRanges(start, end, size)[i].hi
    decreases if start > end then 0 else end - start + 1
  {
    var rs := SubRanges(start, end, size);
    if start <= end {
      var e := Min(start + size, end);
      var rest := SubRanges(e + 1, end, size);
      assert rs == [BlockRange(start, e)] + rest;
      SubRangesCover(e + 1, end, size, b);
      if start <= b <= e {
        assert rs[0].lo <= b <= rs[0].hi;
      } else if e < b <= end {
        var j :| 0 <= j < |rest| && rest[j].lo <= b <= rest[j].hi;
        assert rs[j + 1] == rest[j];
      }
      if exists i :: 0 <= i < |rs| && rs[i].lo <= b <= rs[i].hi {
        var i :| 0 <= i < |rs| && rs[i].lo <= b <= rs[i].hi;
        if i > 0 {
          assert rest[i - 1] == rs[i];
          SubRangesPartition(start, end, size);
        }
      }
    }
  }

  /** No two sub-ranges share a block. */
  lemma {:induction false} SubRangesDisjoint(start: int, end: int, size: nat, i: nat, j: nat)
    requires start <= end
    requires i < j < |SubRanges(start, end, size)|
    ensures SubRanges(start, end, size)[i].hi < SubRanges(start, end, size)[j].lo
    decreases j - i
  {
    SubRangesPartition(start, end, size);
    if j > i + 1 {
      SubRangesDisjoint(start, end, size, i, j - 1);
    }
  }

  /** With `start > end` nothing is queried and nothing is returned. */
  lemma EmptyInterval<E>(chain: (int, int) -> Option<seq<E>>, start: int, end: int, size: nat)
    requires start > end
    ensures SubRanges(start, end, size) == [] && Fetched(chain, SubRanges(start, end, size)) == []
  {
  }

  /** A sub-range whose query fails adds no logs; the ranges after it are still fetched. */
  lemma {:induction false} FailedRangeSkipped<E>(chain: (int, int) -> Option<seq<E>>, rs: seq<BlockRange>, k: nat)
    requires k < |rs| && chain(rs[k].lo, rs[k].hi).None?
    ensures Fetched(chain, rs) == Fetched(chain, rs[..k]) + Fetched(chain, rs[k + 1..])
  {
    var pre, mid, post := rs[..k], [rs[k]], rs[k + 1..];
    assert rs == (pre + mid) + post;
    FetchedAppend(chain, pre + mid, post);
    FetchedAppend(chain, pre, mid);
    assert mid[..0] == [];
    assert Fetched(chain, mid) == Fetched(chain, []) + GetEvents(chain, rs[k]);
  }

  /** Blocks 1000 to 1500 in batches of 200 are queried as [1000,1200], [1201,1401], [1402,1500]. */
  lemma ExampleBatches()
    ensures SubRanges(1000, 1500, 200)
      == [BlockRange(1000, 1200), BlockRange(1201, 1401), BlockRange(1402, 1500)]
  {
    assert SubRanges(1402, 1500, 200) == [BlockRange(1402, 1500)] + SubRanges(1501, 1500, 200);
    assert SubRanges(1201, 1500, 200) == [BlockRange(1201, 1401)] + SubRanges(1402, 1500, 200);
  }
}
