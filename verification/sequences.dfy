/** Folds over lists that several jobs share: sums, maxima and filters. */
module Sequences {
  import opened Wrappers

  /** A prefix one longer is the shorter prefix and one more element. */
  lemma TakeLast<T>(s: seq<T>, i: nat)
    requires 0 < i <= |s|
    ensures s[..i] == s[..i - 1] + [s[i - 1]]
  {
  }

  /** `sum(xs)` over integers (wei amounts, counts). */
  function SumInt(xs: seq<int>): int
  {
    if xs == [] then 0 else SumInt(xs[..|xs| - 1]) + xs[|xs| - 1]
  }

  /** `sum(xs)` over decimals. */
  function SumReal(xs: seq<real>): real
  {
    if xs == [] then 0.0 else SumReal(xs[..|xs| - 1]) + xs[|xs| - 1]
  }

  lemma {:induction false} SumIntAppend(xs: seq<int>, ys: seq<int>)
    ensures SumInt(xs + ys) == SumInt(xs) + SumInt(ys)
    decreases |ys|
  {
    if ys != [] {
      assert (xs + ys)[..|xs + ys| - 1] == xs + ys[..|ys| - 1];
      SumIntAppend(xs, ys[..|ys| - 1]);
    } else {
      assert xs + ys == xs;
    }
  }

  lemma {:induction false} SumRealAppend(xs: seq<real>, ys: seq<real>)
    ensures SumReal(xs + ys) == SumReal(xs) + SumReal(ys)
    decreases |ys|
  {
    if ys != [] {
      assert (xs + ys)[..|xs + ys| - 1] == xs + ys[..|ys| - 1];
      SumRealAppend(xs, ys[..|ys| - 1]);
    } else {
      assert xs + ys == xs;
    }
  }

  /** `max(xs)`: an element of the list that no element exceeds. */
  function MaxInt(xs: seq<int>): (m: int)
    requires xs != []
    ensures m in xs
    ensures forall i :: 0 <= i < |xs| ==> xs[i] <= m
  {
    if |xs| == 1 then xs[0]
    else
      var init := xs[..|xs| - 1];
      var m0 := MaxInt(init);
      assert forall i :: 0 <= i < |xs| - 1 ==> xs[i] == init[i];
      if xs[|xs| - 1] > m0 then xs[|xs| - 1] else m0
  }

  /** `min(a, b)` */
  function Min(a: int, b: int): int { if a <= b then a else b }

  /** `min(a, b)` on decimals */
  function MinReal(a: real, b: real): real { if a <= b then a else b }

  /** `[x for x in xs if p(x)]` */
  function Filter<T>(xs: seq<T>, p: T -> bool): (r: seq<T>)
    ensures |r| <= |xs|
    ensures forall i :: 0 <= i < |r| ==> p(r[i]) && r[i] in xs
    ensures forall i :: 0 <= i < |xs| && p(xs[i]) ==> xs[i] in r
    ensures forall x :: x in xs ==> multiset(r)[x] == if p(x) then multiset(xs)[x] else 0
  {
    if xs == [] then []
    else
      var init := xs[..|xs| - 1];
      var last := xs[|xs| - 1];
      var rest := Filter(init, p);
      assert xs == init + [last];
      assert forall i :: 0 <= i < |rest| ==> rest[i] in xs by {
        forall i | 0 <= i < |rest| ensures rest[i] in xs {
          var j :| 0 <= j < |init| && init[j] == rest[i];
          assert xs[j] == init[j];
        }
      }
      assert forall i :: 0 <= i < |xs| - 1 && p(xs[i]) ==> xs[i] in rest by {
        forall i | 0 <= i < |xs| - 1 && p(xs[i]) ensures xs[i] in rest {
          assert xs[i] == init[i];
        }
      }
      if p(last) then rest + [last] else rest
  }

  /** An element with the greatest key (`ORDER BY <key> DESC LIMIT 1`), or `None` when there is none. */
  function MaxBy<T>(xs: seq<T>, key: T -> int): (r: Option<T>)
    ensures r.None? <==> xs == []
    ensures r.Some? ==> r.value in xs && forall i :: 0 <= i < |xs| ==> key(xs[i]) <= key(r.value)
  {
    if xs == [] then None
    else
      var init := xs[..|xs| - 1];
      var last := xs[|xs| - 1];
      assert xs == init + [last];
      match MaxBy(init, key)
      case None => Some(last)
      case Some(m) =>
        assert forall i :: 0 <= i < |xs| - 1 ==> xs[i] == init[i];
        if key(last) > key(m) then Some(last) else Some(m)
  }
}
