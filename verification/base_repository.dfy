/**
 * app/repository/base_repository.py: the generic create / read / update / delete of a table
 * whose rows carry a `SERIAL` primary key `id` and named columns.
 */
module BaseRepository {
  import opened Wrappers
  import opened Errors
  import opened Sequences
  import opened Sorting
  import opened RowStore

  /** A stored row: its `id` and its other columns. */
  datatype Row<V> = Row(id: int, columns: map<string, V>)

  function IdOf<V>(r: Row<V>): int
  {
    r.id
  }

  /** What the primary key guarantees. */
  predicate UniqueIds<V>(rows: seq<Row<V>>)
  {
    UniqueKeys(rows, IdOf)
  }

  predicate HasId<V>(rows: seq<Row<V>>, id: int)
  {
    exists i :: 0 <= i < |rows| && rows[i].id == id
  }

  /** What PostgreSQL raises for a second row with a stored primary key. */
  const DuplicateKey := SqlError("duplicate key value violates unique constraint")

  /** `model.model_dump(exclude_none=True)`: the fields whose value is not `None`. */
  function WithoutNone<V>(data: map<string, Option<V>>): (m: map<string, V>)
    ensures forall k :: k in m <==> k in data && data[k].Some?
    ensures forall k :: k in m ==> data[k] == Some(m[k])
  {
    map k | k in data && data[k].Some? :: data[k].value
  }

  /** The columns `update` writes: the entries of `data` that are not `None`, except `id`. */
  function UpdateData<V>(data: map<string, Option<V>>): (m: map<string, V>)
    ensures forall k :: k in m <==> k in data && data[k].Some? && k != "id"
    ensures forall k :: k in m ==> data[k] == Some(m[k])
  {
    map k | k in data && data[k].Some? && k != "id" :: data[k].value
  }

  /** `get_by_id`: the row with that id, or `None`. */
  function ById<V>(rows: seq<Row<V>>, id: int): (r: Option<Row<V>>)
    ensures r.Some? <==> HasId(rows, id)
    ensures r.Some? ==> r.value in rows && r.value.id == id
  {
    if rows == [] then None
    else if rows[0].id == id then Some(rows[0])
    else
      var r := ById(rows[1..], id);
      assert forall i :: 1 <= i < |rows| ==> rows[i] == rows[1..][i - 1];
      r
  }

  /** `get_all(limit, offset)`: the table ordered by id, less its first `offset` rows, cut to `limit` rows. */
  function Page<V>(rows: seq<Row<V>>, limit: nat, offset: nat): (r: seq<Row<V>>)
    ensures |r| == if offset >= |rows| then 0 else Min(limit, |rows| - offset)
    ensures SortedBy(r, IdOf)
    ensures forall i :: 0 <= i < |r| ==> r[i] in rows
    ensures offset == 0 && limit >= |rows| ==> multiset(r) == multiset(rows)
  {
    var sorted := SortBy(rows, IdOf);
    if offset >= |sorted| then []
    else
      var r := sorted[offset..][..Min(limit, |sorted| - offset)];
      assert forall i :: 0 <= i < |r| ==> r[i] == sorted[offset + i];
      forall i | 0 <= i < |r| ensures r[i] in rows {
        assert sorted[offset + i] in multiset(sorted);
      }
      assert offset == 0 && limit >= |rows| ==> r == sorted;
      r
  }

  /**
   * With the primary key unique, a page holds exactly the stored rows that have at least
   * `offset` and fewer than `offset + limit` rows of smaller id: consecutive pages of the
   * id order.
   */
  lemma PageByRank<V>(rows: seq<Row<V>>, limit: nat, offset: nat)
    requires UniqueIds(rows)
    ensures forall x :: x in rows ==> (x in Page(rows, limit, offset) <==> offset <= |Below(rows, IdOf, x.id)| < offset + limit)
  {
    forall x | x in rows
      ensures x in Page(rows, limit, offset) <==> offset <= |Below(rows, IdOf, x.id)| < offset + limit
    {
      PageRowByRank(rows, limit, offset, x);
    }
  }

  /** One stored row is on the page exactly when its rank by id falls in `[offset, offset + limit)`. */
  lemma PageRowByRank<V>(rows: seq<Row<V>>, limit: nat, offset: nat, x: Row<V>)
    requires UniqueIds(rows) && x in rows
    ensures x in Page(rows, limit, offset) <==> offset <= |Below(rows, IdOf, x.id)| < offset + limit
  {
    var s := SortBy(rows, IdOf);
    SortKeepsUniqueKeys(rows, IdOf);
    var k := PositionInSorted(rows, x);
    RankInSorted(s, IdOf, k);
    assert IdOf(s[k]) == x.id;
    BelowSameRows(rows, s, IdOf, x.id);
    assert |Below(rows, IdOf, x.id)| == k;
    PageIsSlice(rows, limit, offset);
    SliceAtRank(s, offset, limit, k, Page(rows, limit, offset));
    assert x in Page(rows, limit, offset) <==> offset <= k < offset + limit;
  }

  /** A stored row has a position in the id order. */
  lemma PositionInSorted<V>(rows: seq<Row<V>>, x: Row<V>) returns (k: nat)
    requires x in rows
    ensures k < |SortBy(rows, IdOf)| && SortBy(rows, IdOf)[k] == x
  {
    var s := SortBy(rows, IdOf);
    assert x in multiset(rows);
    assert x in multiset(s);
    k :| 0 <= k < |s| && s[k] == x;
  }

  /** A page is the slice of the id order from `offset`, at most `limit` long. */
  lemma PageIsSlice<V>(rows: seq<Row<V>>, limit: nat, offset: nat)
    ensures var s := SortBy(rows, IdOf);
      Page(rows, limit, offset) == if offset >= |s| then [] else s[offset..][..Min(limit, |s| - offset)]
  {
  }

  /** Row `k` of a list with unique ids is in the slice from `offset` of length at most `limit` exactly when `offset <= k < offset + limit`. */
  lemma SliceAtRank<V>(s: seq<Row<V>>, offset: nat, limit: nat, k: nat, r: seq<Row<V>>)
    requires UniqueKeys(s, IdOf) && k < |s|
    requires r == if offset >= |s| then [] else s[offset..][..Min(limit, |s| - offset)]
    ensures s[k] in r <==> offset <= k < offset + limit
  {
    if s[k] in r {
      var j :| 0 <= j < |r| && r[j] == s[k];
      assert s[offset + j] == s[k];
      assert IdOf(s[offset + j]) == IdOf(s[k]);
    }
    if offset <= k < offset + limit {
      assert r[k - offset] == s[k];
    }
  }

  /** The table with row `i`'s columns overwritten by `upd`. */
  function UpdateRow<V>(rows: seq<Row<V>>, i: nat, upd: map<string, V>): seq<Row<V>>
    requires i < |rows|
  {
    rows[i := Row(rows[i].id, rows[i].columns + upd)]
  }

  /** The table without the rows with that id. */
  function WithoutId<V>(rows: seq<Row<V>>, id: int): (r: seq<Row<V>>)
    ensures forall i :: 0 <= i < |r| ==> r[i] in rows && r[i].id != id
    ensures forall i :: 0 <= i < |rows| && rows[i].id != id ==> rows[i] in r
    ensures !HasId(rows, id) ==> r == rows
    ensures |r| <= |rows|
  {
    if rows == [] then []
    else
      var init := rows[..|rows| - 1];
      var last := rows[|rows| - 1];
      var rest := WithoutId(init, id);
      assert rows == init + [last];
      assert forall i :: 0 <= i < |init| ==> init[i] == rows[i];
      if last.id == id then rest else rest + [last]
  }

  /** Removing rows keeps the primary key unique. */
  lemma {:induction false} WithoutIdKeepsUniqueIds<V>(rows: seq<Row<V>>, id: int)
    requires UniqueIds(rows)
    ensures UniqueIds(WithoutId(rows, id))
  {
    if rows != [] {
      var init := rows[..|rows| - 1];
      var last := rows[|rows| - 1];
      var rest := WithoutId(init, id);
      assert UniqueIds(init) by {
        assert forall i :: 0 <= i < |init| ==> init[i] == rows[i];
      }
      WithoutIdKeepsUniqueIds(init, id);
      forall i | 0 <= i < |rest| ensures rest[i].id != last.id {
        var j :| 0 <= j < |init| && init[j] == rest[i];
        assert rows[j] == init[j];
      }
      if last.id != id {
        var r := rest + [last];
        assert WithoutId(rows, id) == r;
        forall i, j | 0 <= i < j < |r| ensures IdOf(r[i]) != IdOf(r[j]) {
          if j < |rest| {
            assert r[i] == rest[i] && r[j] == rest[j];
          }
        }
      }
    }
  }

  /** `BaseRepository`: a table and the `SERIAL` sequence behind its ids. */
  class Table<V> {
    var rows: seq<Row<V>>
    var nextId: int

    /** The primary key: no two stored rows share an id. */
    ghost predicate Valid()
      reads this
    {
      UniqueIds(rows)
    }

    constructor ()
      ensures Valid()
      ensures rows == [] && nextId == 1
    {
      rows := [];
      nextId := 1;
    }

    /**
     * `create(data)`: insert the fields that are not `None`, with the given id or, when it is
     * `None`, the sequence's next value; `RETURNING *` gives back the stored row. A taken id
     * raises, and a failed insert still uses up the sequence value it drew.
     */
    method Create(id: Option<int>, fields: map<string, Option<V>>) returns (r: Result<Row<V>, Error>)
      requires Valid()
      modifies this
      ensures Valid()
      ensures nextId == old(nextId) + (if id.None? then 1 else 0)
      ensures var newId := if id.Some? then id.value else old(nextId);
        && (HasId(old(rows), newId) ==> r == Failure(DuplicateKey) && rows == old(rows))
        && (!HasId(old(rows), newId) ==> r == Success(Row(newId, WithoutNone(fields))) && rows == old(rows) + [r.value])
    {
      var newId;
      if id.Some? {
        newId := id.value;
      } else {
        newId := nextId;
        nextId := nextId + 1;
      }
      if HasId(rows, newId) {
        return Failure(DuplicateKey);
      }
      var row := Row(newId, WithoutNone(fields));
      rows := rows + [row];
      r := Success(row);
    }

    /**
     * `update(id, data)`: overwrite the row's columns named in `data`, skipping `None` values
     * and `id`; with nothing left to write it only reads the row back. `None` when no row has
     * that id.
     */
    method Update(id: int, data: map<string, Option<V>>) returns (r: Option<Row<V>>)
      requires Valid()
      modifies this
      ensures Valid()
      ensures nextId == old(nextId)
      ensures UpdateData(data) == map[] ==> rows == old(rows) && r == ById(rows, id)
      ensures !HasId(old(rows), id) ==> rows == old(rows) && r.None?
      ensures UpdateData(data) != map[] && HasId(old(rows), id) ==>
        exists i :: 0 <= i < |old(rows)| && old(rows)[i].id == id &&
          rows == UpdateRow(old(rows), i, UpdateData(data)) && r == Some(rows[i])
    {
      var upd := UpdateData(data);
      if upd == map[] {
        return ById(rows, id);
      }
      var i := 0;
      while i < |rows| && rows[i].id != id
        invariant 0 <= i <= |rows|
        invariant forall j :: 0 <= j < i ==> rows[j].id != id
      {
        i := i + 1;
      }
      if i == |rows| {
        return None;
      }
      rows := UpdateRow(rows, i, upd);
      r := Some(rows[i]);
    }

    /** `delete(id)`: remove the row with that id; True exactly when there was one. */
    method Delete(id: int) returns (deleted: bool)
      requires Valid()
      modifies this
      ensures Valid()
      ensures nextId == old(nextId)
      ensures deleted <==> HasId(old(rows), id)
      ensures rows == WithoutId(old(rows), id)
    {
      WithoutIdKeepsUniqueIds(rows, id);
      deleted := HasId(rows, id);
      rows := WithoutId(rows, id);
    }

    /** `count()`: `COUNT(*)` always yields one row, so this is the number of rows. */
    method Count() returns (n: nat)
      ensures n == |rows|
    {
      n := |rows|;
    }
  }

  /** After a delete, the id is gone and every other row is still there. */
  lemma DeleteRemovesOnlyThatId<V>(rows: seq<Row<V>>, id: int)
    ensures !HasId(WithoutId(rows, id), id)
    ensures forall i :: 0 <= i < |rows| && rows[i].id != id ==> HasId(WithoutId(rows, id), rows[i].id)
  {
    var r := WithoutId(rows, id);
    forall i | 0 <= i < |rows| && rows[i].id != id
      ensures HasId(r, rows[i].id)
    {
      var j :| 0 <= j < |r| && r[j] == rows[i];
    }
  }

  /** An update keeps the row's id and every column it does not name, and writes every one it does. */
  lemma UpdateRowSpec<V>(rows: seq<Row<V>>, i: nat, upd: map<string, V>)
    requires i < |rows|
    ensures var r := UpdateRow(rows, i, upd);
      && |r| == |rows| && r[i].id == rows[i].id
      && (forall k :: k in upd ==> k in r[i].columns && r[i].columns[k] == upd[k])
      && (forall k :: k in rows[i].columns && k !in upd ==> k in r[i].columns && r[i].columns[k] == rows[i].columns[k])
      && (forall j :: 0 <= j < |rows| && j != i ==> r[j] == rows[j])
  {
  }
}
