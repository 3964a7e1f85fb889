/**
 * Fixed-size batching, the `[xs[i:i + n] for i in range(0, len(xs), n)]` idiom that the
 * multiplier, reward and code-contributor jobs use to bound how many chain calls run together.
 */
module Batching {

  /** Concatenation of a list of batches. */
  function Flatten<T>(xss: seq<seq<T>>): seq<T>
  {
    if xss == [] then [] else Flatten(xss[..|xss| - 1]) + xss[|xss| - 1]
  }

  lemma FlattenAppend<T>(xss: seq<seq<T>>, yss: seq<seq<T>>)
    ensures Flatten(xss + yss) == Flatten(xss) + Flatten(yss)
    decreases |yss|
  {
    if yss == [] {
      assert xss + yss == xss;
    } else {
      var last := yss[|yss| - 1];
      assert (xss + yss)[..|xss + yss| - 1] == xss + yss[..|yss| - 1];
      FlattenAppend(xss, yss[..|yss| - 1]);
    }
  }

  /** The batches before batch `i`, batch `i`, and the batches after it. */
  lemma FlattenSplit<T>(xss: seq<seq<T>>, i: nat)
    requires i < |xss|
    ensures Flatten(xss) == Flatten(xss[..i]) + xss[i] + Flatten(xss[i + 1..])
  {
    assert xss == xss[..i + 1] + xss[i + 1..];
    FlattenAppend(xss[..i + 1], xss[i + 1..]);
    assert xss[..i + 1][..i] == xss[..i];
  }

  lemma FlattenOne<T>(xs: seq<T>)
    ensures Flatten([xs]) == xs
  {
    assert [xs][..0] == [];
  }

  /** `ceil(n / size)`, written as code_main.py writes it: `n // size + (1 if n % size else 0)`. */
  function CeilDiv(n: nat, size: nat): nat
    requires size > 0
  {
    n / size + (if n % size != 0 then 1 else 0)
  }

  /** Euclidean division is determined by any quotient/remainder pair. */
  lemma DivModUnique(n: int, d: int, q: int, r: int)
    requires d > 0 && 0 <= r < d && n == d * q + r
    ensures n / d == q && n % d == r
  {
    var q0 := n / d;
    MulSub(d, q, q0);
    if q0 != q {
      MulAtLeast(d, if q > q0 then q - q0 else q0 - q);
    }
  }

  lemma MulSub(d: int, a: int, b: int)
    ensures d * a - d * b == d * (a - b)
  {
  }

  lemma MulAtLeast(d: int, k: int)
    requires d > 0 && k >= 1
    ensures d * k >= d
  {
    assert d * k == d + d * (k - 1);
  }

  lemma CeilDivStep(n: nat, size: nat)
    requires 0 < size < n
    ensures CeilDiv(n, size) == 1 + CeilDiv(n - size, size)
  {
    var q, r := (n - size) / size, (n - size) % size;
    DivModUnique(n, size, q + 1, r);
  }

  /**
   * The batches of `xs`: consecutive, in order, each non-empty and at most `size` long,
   * every one but the last exactly `size` long, and `ceil(|xs| / size)` of them.
   */
  function Chunks<T>(xs: seq<T>, size: nat): (r: seq<seq<T>>)
    requires size > 0
    ensures Flatten(r) == xs
    ensures |r| == CeilDiv(|xs|, size)
    ensures forall i :: 0 <= i < |r| ==> 0 < |r[i]| <= size
    ensures forall i :: 0 <= i < |r| - 1 ==> |r[i]| == size
    decreases |xs|
  {
    if |xs| == 0 then []
    else if |xs| <= size then
      assert Flatten([xs]) == Flatten([]) + xs;
      assert CeilDiv(|xs|, size) == 1 by {
        if |xs| == size { DivModUnique(|xs|, size, 1, 0); } else { DivModUnique(|xs|, size, 0, |xs|); }
      }
      [xs]
    else
      var rest := Chunks(xs[size..], size);
      FlattenAppend([xs[..size]], rest);
      assert Flatten([xs[..size]]) == xs[..size] by {
        assert Flatten([xs[..size]]) == Flatten([]) + xs[..size];
      }
      assert xs[..size] + xs[size..] == xs;
      CeilDivStep(|xs|, size);
      [xs[..size]] + rest
  }
}
