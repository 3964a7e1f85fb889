/**
 * What the three INSERT forms the repositories use do to a table held as a list of rows:
 * plain `INSERT`, `ON CONFLICT (<key>) DO NOTHING` and `ON CONFLICT (<key>) DO UPDATE`
 * replacing every non-key column.
 */
module RowStore {

  /** No two rows share a key: what a unique index guarantees. */
  predicate UniqueKeys<R, K(==)>(rows: seq<R>, key: R -> K)
  {
    forall i, j :: 0 <= i < j < |rows| ==> key(rows[i]) != key(rows[j])
  }

  predicate HasKey<R, K(==)>(rows: seq<R>, key: R -> K, k: K)
  {
    exists i :: 0 <= i < |rows| && key(rows[i]) == k
  }

  /** `INSERT ... ON CONFLICT (<key>) DO NOTHING` of one row. */
  function InsertIfAbsent<R, K(==)>(rows: seq<R>, key: R -> K, rec: R): (r: seq<R>)
    ensures HasKey(rows, key, key(rec)) ==> r == rows
    ensures !HasKey(rows, key, key(rec)) ==> r == rows + [rec]
    ensures UniqueKeys(rows, key) ==> UniqueKeys(r, key)
  {
    if HasKey(rows, key, key(rec)) then rows else rows + [rec]
  }

  /** `INSERT ... ON CONFLICT (<key>) DO UPDATE SET <every other column> = EXCLUDED.<column>` of one row. */
  function Upsert<R, K(==)>(rows: seq<R>, key: R -> K, rec: R): (r: seq<R>)
    ensures !HasKey(rows, key, key(rec)) ==> r == rows + [rec]
    ensures HasKey(rows, key, key(rec)) ==> |r| == |rows|
    ensures forall i :: 0 <= i < |rows| && key(rows[i]) != key(rec) ==> r[i] == rows[i]
    ensures forall i :: 0 <= i < |rows| && key(rows[i]) == key(rec) ==> r[i] == rec
    ensures UniqueKeys(rows, key) ==> UniqueKeys(r, key)
  {
    if HasKey(rows, key, key(rec)) then
      seq(|rows|, i requires 0 <= i < |rows| => if key(rows[i]) == key(rec) then rec else rows[i])
    else rows + [rec]
  }

  /** Plain `INSERT` of a list of rows, one statement each. */
  function InsertAll<R>(rows: seq<R>, recs: seq<R>): seq<R>
  {
    rows + recs
  }

  /** `DO NOTHING` inserts of a list of rows, in order. */
  function InsertAllIfAbsent<R, K(==)>(rows: seq<R>, key: R -> K, recs: seq<R>): seq<R>
    decreases |recs|
  {
    if recs == [] then rows else InsertAllIfAbsent(InsertIfAbsent(rows, key, recs[0]), key, recs[1..])
  }

  /** Upserts of a list of rows, in order. */
  function UpsertAll<R, K(==)>(rows: seq<R>, key: R -> K, recs: seq<R>): seq<R>
    decreases |recs|
  {
    if recs == [] then rows else UpsertAll(Upsert(rows, key, recs[0]), key, recs[1..])
  }

  /** The last of `recs` with key `k`. */
  function LastWithKey<R, K(==)>(recs: seq<R>, key: R -> K, k: K): (r: R)
    requires HasKey(recs, key, k)
    ensures key(r) == k
  {
    if key(recs[|recs| - 1]) == k then recs[|recs| - 1]
    else
      var init := recs[..|recs| - 1];
      var i :| 0 <= i < |recs| && key(recs[i]) == k;
      assert key(init[i]) == k;
      LastWithKey(init, key, k)
  }

  /**
   * A DO NOTHING batch keeps every stored row, adds no row whose key was already stored or
   * already added, and stores a row for every key in the batch.
   */
  lemma InsertAllIfAbsentSpec<R, K>(rows: seq<R>, key: R -> K, recs: seq<R>)
    ensures var r := InsertAllIfAbsent(rows, key, recs);
      && |rows| <= |r| <= |rows| + |recs|
      && r[..|rows|] == rows
      && (UniqueKeys(rows, key) ==> UniqueKeys(r, key))
      && (forall j :: 0 <= j < |recs| ==> HasKey(r, key, key(recs[j])))
      && (forall i :: |rows| <= i < |r| ==> exists j :: 0 <= j < |recs| && r[i] == recs[j])
  {
    InsertAllIfAbsentKeeps(rows, key, recs);
    InsertAllIfAbsentCovers(rows, key, recs);
    InsertAllIfAbsentFrom(rows, key, recs);
  }

  lemma {:induction false} InsertAllIfAbsentKeeps<R, K>(rows: seq<R>, key: R -> K, recs: seq<R>)
    ensures var r := InsertAllIfAbsent(rows, key, recs);
      && |rows| <= |r| <= |rows| + |recs|
      && r[..|rows|] == rows
      && (UniqueKeys(rows, key) ==> UniqueKeys(r, key))
    decreases |recs|
  {
    if recs != [] {
      var rows1 := InsertIfAbsent(rows, key, recs[0]);
      InsertAllIfAbsentKeeps(rows1, key, recs[1..]);
      var r := InsertAllIfAbsent(rows1, key, recs[1..]);
      assert r[..|rows|] == r[..|rows1|][..|rows|];
    }
  }

  lemma {:induction false} InsertAllIfAbsentCovers<R, K>(rows: seq<R>, key: R -> K, recs: seq<R>)
    ensures var r := InsertAllIfAbsent(rows, key, recs);
      forall j :: 0 <= j < |recs| ==> HasKey(r, key, key(recs[j]))
    decreases |recs|
  {
    if recs != [] {
      var rows1 := InsertIfAbsent(rows, key, recs[0]);
      InsertAllIfAbsentKeeps(rows1, key, recs[1..]);
      InsertAllIfAbsentCovers(rows1, key, recs[1..]);
      var r := InsertAllIfAbsent(rows1, key, recs[1..]);
      if !HasKey(rows, key, key(recs[0])) {
        assert key(rows1[|rows|]) == key(recs[0]);
      }
      var i0 :| 0 <= i0 < |rows1| && key(rows1[i0]) == key(recs[0]);
      assert r[..|rows1|][i0] == rows1[i0];
      forall j | 1 <= j < |recs| ensures HasKey(r, key, key(recs[j])) {
        assert recs[1..][j - 1] == recs[j];
      }
    }
  }

  lemma {:induction false} InsertAllIfAbsentFrom<R, K>(rows: seq<R>, key: R -> K, recs: seq<R>)
    ensures var r := InsertAllIfAbsent(rows, key, recs);
      forall i :: |rows| <= i < |r| ==> exists j :: 0 <= j < |recs| && r[i] == recs[j]
    decreases |recs|
  {
    if recs != [] {
      var rows1 := InsertIfAbsent(rows, key, recs[0]);
      InsertAllIfAbsentKeeps(rows1, key, recs[1..]);
      InsertAllIfAbsentFrom(rows1, key, recs[1..]);
      var r := InsertAllIfAbsent(rows1, key, recs[1..]);
      forall i | |rows| <= i < |r| ensures exists j :: 0 <= j < |recs| && r[i] == recs[j] {
        if i < |rows1| {
          assert r[..|rows1|][i] == rows1[i] == recs[0];
        } else {
          var j :| 0 <= j < |recs[1..]| && r[i] == recs[1..][j];
          assert r[i] == recs[j + 1];
        }
      }
    }
  }

  /**
   * After an upsert batch the table has one row per key if it had before; every key of the
   * batch holds the batch's last row with that key (the latest write wins), and every other
   * stored row is unchanged.
   */
  lemma UpsertAllSpec<R, K>(rows: seq<R>, key: R -> K, recs: seq<R>)
    ensures var r := UpsertAll(rows, key, recs);
      && (UniqueKeys(rows, key) ==> UniqueKeys(r, key))
      && |rows| <= |r| <= |rows| + |recs|
      && (forall i :: 0 <= i < |rows| && !HasKey(recs, key, key(rows[i])) ==> r[i] == rows[i])
      && (forall i :: 0 <= i < |r| && HasKey(recs, key, key(r[i])) ==> r[i] == LastWithKey(recs, key, key(r[i])))
  {
    UpsertAllShape(rows, key, recs);
    UpsertAllKeepsOthers(rows, key, recs);
    UpsertAllLatest(rows, key, recs);
  }

  lemma {:induction false} UpsertAllShape<R, K>(rows: seq<R>, key: R -> K, recs: seq<R>)
    ensures var r := UpsertAll(rows, key, recs);
      && (UniqueKeys(rows, key) ==> UniqueKeys(r, key))
      && |rows| <= |r| <= |rows| + |recs|
    decreases |recs|
  {
    if recs != [] {
      UpsertAllShape(Upsert(rows, key, recs[0]), key, recs[1..]);
    }
  }

  lemma {:induction false} UpsertAllKeepsOthers<R, K>(rows: seq<R>, key: R -> K, recs: seq<R>)
    ensures var r := UpsertAll(rows, key, recs);
      forall i :: 0 <= i < |rows| && !HasKey(recs, key, key(rows[i])) ==> i < |r| && r[i] == rows[i]
    decreases |recs|
  {
    if recs != [] {
      var rows1 := Upsert(rows, key, recs[0]);
      UpsertAllKeepsOthers(rows1, key, recs[1..]);
      forall i | 0 <= i < |rows| && !HasKey(recs, key, key(rows[i]))
        ensures i < |UpsertAll(rows, key, recs)| && UpsertAll(rows, key, recs)[i] == rows[i]
      {
        assert key(rows[i]) != key(recs[0]);
        assert rows1[i] == rows[i];
      }
    }
  }

  lemma {:induction false} UpsertAllLatest<R, K>(rows: seq<R>, key: R -> K, recs: seq<R>)
    ensures var r := UpsertAll(rows, key, recs);
      forall i :: 0 <= i < |r| && HasKey(recs, key, key(r[i])) ==> r[i] == LastWithKey(recs, key, key(r[i]))
    decreases |recs|
  {
    if recs != [] {
      var last := recs[|recs| - 1];
      var init := recs[..|recs| - 1];
      UpsertAllSnoc(rows, key, init, last);
      assert init + [last] == recs;
      UpsertAllLatest(rows, key, init);
      var mid := UpsertAll(rows, key, init);
      var r := Upsert(mid, key, last);
      forall i | 0 <= i < |r| && HasKey(recs, key, key(r[i])) ensures r[i] == LastWithKey(recs, key, key(r[i])) {
        if key(r[i]) != key(last) {
          assert i < |mid|;
          assert r[i] == mid[i];
          var j :| 0 <= j < |recs| && key(recs[j]) == key(r[i]);
          assert j < |init| && key(init[j]) == key(r[i]);
        }
      }
    }
  }

  lemma {:induction false} UpsertAllSnoc<R, K>(rows: seq<R>, key: R -> K, recs: seq<R>, last: R)
    ensures UpsertAll(rows, key, recs + [last]) == Upsert(UpsertAll(rows, key, recs), key, last)
    decreases |recs|
  {
    if recs == [] {
      assert recs + [last] == [last];
    } else {
      assert (recs + [last])[1..] == recs[1..] + [last];
      UpsertAllSnoc(Upsert(rows, key, recs[0]), key, recs[1..], last);
    }
  }

  /** After an upsert batch every key of the batch has a row. */
  lemma {:induction false} UpsertAllStoresEveryKey<R, K>(rows: seq<R>, key: R -> K, recs: seq<R>)
    ensures forall j :: 0 <= j < |recs| ==> HasKey(UpsertAll(rows, key, recs), key, key(recs[j]))
    decreases |recs|
  {
    if recs != [] {
      var last := recs[|recs| - 1];
      var init := recs[..|recs| - 1];
      UpsertAllSnoc(rows, key, init, last);
      assert init + [last] == recs;
      UpsertAllStoresEveryKey(rows, key, init);
      var mid := UpsertAll(rows, key, init);
      var r := Upsert(mid, key, last);
      forall j | 0 <= j < |recs|
        ensures HasKey(r, key, key(recs[j]))
      {
        if j == |recs| - 1 {
          if HasKey(mid, key, key(last)) {
            var i :| 0 <= i < |mid| && key(mid[i]) == key(last);
            assert r[i] == last;
          } else {
            assert r[|mid|] == last;
          }
        } else {
          assert recs[j] == init[j];
          var i :| 0 <= i < |mid| && key(mid[i]) == key(init[j]);
          assert key(r[i]) == key(init[j]);
        }
      }
    }
  }

  /** In a batch whose keys are distinct, the last row with a row's key is that row. */
  lemma {:induction false} LastWithKeyOfUnique<R, K>(recs: seq<R>, key: R -> K, j: nat)
    requires UniqueKeys(recs, key) && j < |recs|
    ensures LastWithKey(recs, key, key(recs[j])) == recs[j]
  {
    if j != |recs| - 1 {
      var init := recs[..|recs| - 1];
      assert init[j] == recs[j];
      LastWithKeyOfUnique(init, key, j);
    }
  }
}
