/** `ORDER BY <key>` over a list of rows, as a stable insertion sort. */
module Sorting {
  import opened Sequences
  import opened RowStore

  predicate SortedBy<T>(s: seq<T>, key: T -> int)
  {
    forall i, j :: 0 <= i < j < |s| ==> key(s[i]) <= key(s[j])
  }

  /** `x` placed before the first element with a greater key. */
  function InsertBy<T>(x: T, s: seq<T>, key: T -> int): (r: seq<T>)
    requires SortedBy(s, key)
    ensures SortedBy(r, key)
    ensures multiset(r) == multiset(s) + multiset{x}
  {
    if s == [] then [x]
    else if key(x) < key(s[0]) then [x] + s
    else
      var rest := InsertBy(x, s[1..], key);
      assert s == [s[0]] + s[1..];
      HeadBelowRest(s, x, rest, key);
      ConsSorted(s[0], rest, key);
      [s[0]] + rest
  }

  /** The head of a sorted list is a lower bound of its tail with an element no smaller than the head added. */
  lemma HeadBelowRest<T>(s: seq<T>, x: T, rest: seq<T>, key: T -> int)
    requires s != [] && SortedBy(s, key) && key(s[0]) <= key(x)
    requires multiset(rest) == multiset(s[1..]) + multiset{x}
    ensures forall i :: 0 <= i < |rest| ==> key(s[0]) <= key(rest[i])
  {
    forall i | 0 <= i < |rest| ensures key(s[0]) <= key(rest[i]) {
      assert rest[i] in multiset(rest);
      if rest[i] != x {
        assert rest[i] in s[1..];
      }
    }
  }

  lemma ConsSorted<T>(h: T, rest: seq<T>, key: T -> int)
    requires SortedBy(rest, key) && forall i :: 0 <= i < |rest| ==> key(h) <= key(rest[i])
    ensures SortedBy([h] + rest, key)
  {
  }

  /** The rows ordered by key (SQL leaves the order of equal keys open; any one will do). */
  function SortBy<T>(s: seq<T>, key: T -> int): (r: seq<T>)
    ensures SortedBy(r, key)
    ensures multiset(r) == multiset(s)
    ensures |r| == |s|
  {
    if s == [] then []
    else
      assert s == s[..|s| - 1] + [s[|s| - 1]];
      var r := InsertBy(s[|s| - 1], SortBy(s[..|s| - 1], key), key);
      assert |r| == |multiset(r)|;
      r
  }

  /**
   * `SELECT * ... WHERE p ORDER BY key`: the rows satisfying `p`, each as many times as it is
   * stored, ordered by `key`.
   */
  function Select<T>(rows: seq<T>, p: T -> bool, key: T -> int): (r: seq<T>)
    ensures SortedBy(r, key)
    ensures forall i :: 0 <= i < |r| ==> r[i] in rows && p(r[i])
    ensures forall i :: 0 <= i < |rows| && p(rows[i]) ==> rows[i] in r
    ensures forall x :: x in rows ==> multiset(r)[x] == if p(x) then multiset(rows)[x] else 0
  {
    var selected := Filter(rows, p);
    var sorted := SortBy(selected, key);
    forall i | 0 <= i < |sorted|
      ensures sorted[i] in rows && p(sorted[i])
    {
      assert sorted[i] in multiset(selected);
    }
    forall i | 0 <= i < |rows| && p(rows[i])
      ensures rows[i] in sorted
    {
      assert rows[i] in multiset(selected);
    }
    sorted
  }

  /** The rows whose key is below `k`. */
  ghost function Below<T>(s: seq<T>, key: T -> int, k: int): set<T>
  {
    set x | x in s && key(x) < k
  }

  /** Two lists holding the same rows as often have the same rows below any key. */
  lemma BelowSameRows<T>(a: seq<T>, b: seq<T>, key: T -> int, k: int)
    requires multiset(a) == multiset(b)
    ensures Below(a, key, k) == Below(b, key, k)
  {
    forall y ensures y in a <==> y in b {
      assert y in a <==> y in multiset(a);
      assert y in b <==> y in multiset(b);
    }
  }

  /** Sorting keeps keys unique: two positions with one key would be one stored row counted twice. */
  lemma SortKeepsUniqueKeys<T>(s: seq<T>, key: T -> int)
    requires UniqueKeys(s, key)
    ensures UniqueKeys(SortBy(s, key), key)
  {
    var r := SortBy(s, key);
    forall i, j | 0 <= i < j < |r| ensures key(r[i]) != key(r[j]) {
      if key(r[i]) == key(r[j]) {
        assert r[i] in multiset(s) && r[j] in multiset(s);
        var a :| 0 <= a < |s| && s[a] == r[i];
        var b :| 0 <= b < |s| && s[b] == r[j];
        assert a == b;
        OnlyOnce(s, key, a);
        TwiceCounted(r, i, j);
      }
    }
  }

  /** With unique keys, row `a` is stored once. */
  lemma OnlyOnce<T>(s: seq<T>, key: T -> int, a: nat)
    requires UniqueKeys(s, key) && a < |s|
    ensures multiset(s)[s[a]] == 1
  {
    assert s == s[..a] + [s[a]] + s[a + 1..];
    assert s[a] !in s[..a] by {
      forall i | 0 <= i < a ensures s[i] != s[a] {
        assert key(s[i]) != key(s[a]);
      }
    }
    assert s[a] !in s[a + 1..] by {
      forall i | a + 1 <= i < |s| ensures s[i] != s[a] {
        assert key(s[a]) != key(s[i]);
      }
    }
  }

  /** An element at two positions is counted at least twice. */
  lemma TwiceCounted<T>(s: seq<T>, i: nat, j: nat)
    requires i < j < |s| && s[i] == s[j]
    ensures multiset(s)[s[i]] >= 2
  {
    assert s == s[..i] + [s[i]] + s[i + 1..j] + [s[j]] + s[j + 1..];
  }

  /** Distinct rows: as many as positions. */
  lemma {:induction false} DistinctCount<T>(s: seq<T>, key: T -> int)
    requires UniqueKeys(s, key)
    ensures |set x | x in s| == |s|
  {
    if s != [] {
      var init := s[..|s| - 1];
      var last := s[|s| - 1];
      assert s == init + [last];
      DistinctCount(init, key);
      assert (set x | x in s) == (set x | x in init) + {last};
      assert last !in init by {
        forall i | 0 <= i < |init| ensures init[i] != last {
          assert key(s[i]) != key(last);
        }
      }
    }
  }

  /** In a list sorted by unique keys, the row at position `k` has exactly `k` rows below its key. */
  lemma RankInSorted<T>(s: seq<T>, key: T -> int, k: nat)
    requires SortedBy(s, key) && UniqueKeys(s, key) && k < |s|
    ensures |Below(s, key, key(s[k]))| == k
  {
    var prefix := s[..k];
    assert Below(s, key, key(s[k])) == set x | x in prefix by {
      forall x | x in s && key(x) < key(s[k]) ensures x in prefix {
        var i :| 0 <= i < |s| && s[i] == x;
        assert i < k;
        assert prefix[i] == x;
      }
      forall x | x in prefix ensures x in s && key(x) < key(s[k]) {
        var i :| 0 <= i < k && prefix[i] == x;
        assert s[i] == x && key(s[i]) != key(s[k]);
      }
    }
    assert UniqueKeys(prefix, key) by {
      forall i, j | 0 <= i < j < |prefix| ensures key(prefix[i]) != key(prefix[j]) {
        assert prefix[i] == s[i] && prefix[j] == s[j];
      }
    }
    DistinctCount(prefix, key);
  }
}
