/**
 * Exact arithmetic standing in for pandas' float statistics: sums and means
 * of a per-row quantity, and Python's `round` (to an integer and to one
 * decimal place) on exact rationals.
 */
module Stats {
  import opened Wrappers

  /** The sum of `f` over the rows, first row first. */
  function SumBy<T>(xs: seq<T>, f: T -> real): real
  {
    if xs == [] then 0.0 else f(xs[0]) + SumBy(xs[1..], f)
  }

  /** `Series.mean()`: `None` (NaN) for no rows, otherwise the exact arithmetic mean. */
  function MeanBy<T>(xs: seq<T>, f: T -> real): (m: Option<real>)
    ensures m.Some? <==> xs != []
    ensures m.Some? ==> m.value * |xs| as real == SumBy(xs, f)
  {
    if xs == [] then None else Some(SumBy(xs, f) / |xs| as real)
  }

  lemma {:induction false} SumByConcat<T>(a: seq<T>, b: seq<T>, f: T -> real)
    ensures SumBy(a + b, f) == SumBy(a, f) + SumBy(b, f)
  {
    if a == [] {
      assert a + b == b;
    } else {
      assert (a + b)[1..] == a[1..] + b;
      SumByConcat(a[1..], b, f);
    }
  }

  /** A sum does not depend on the order of the rows: a permutation has the same sum. */
  lemma {:induction false} SumByPermutation<T>(a: seq<T>, b: seq<T>, f: T -> real)
    requires multiset(a) == multiset(b)
    ensures SumBy(a, f) == SumBy(b, f)
    decreases |a|
  {
    if a == [] {
      assert |b| == |multiset(b)| == 0;
    } else {
      assert a[0] in multiset(b);
      var k :| 0 <= k < |b| && b[k] == a[0];
      MultisetRemove(a, b, k);
      SumByPermutation(a[1..], b[..k] + b[k + 1..], f);
      SumByRemove(b, k, f);
    }
  }

  lemma MultisetRemove<T>(a: seq<T>, b: seq<T>, k: int)
    requires multiset(a) == multiset(b) && a != [] && 0 <= k < |b| && b[k] == a[0]
    ensures multiset(a[1..]) == multiset(b[..k] + b[k + 1..])
  {
    assert a == [a[0]] + a[1..];
    assert b == b[..k] + [b[k]] + b[k + 1..];
    calc {
      multiset(a[1..]);
      multiset(a) - multiset{a[0]};
      multiset(b) - multiset{b[k]};
      multiset(b[..k]) + multiset(b[k + 1..]);
      multiset(b[..k] + b[k + 1..]);
    }
  }

  /** Taking out the row at `k` takes its value out of the sum. */
  lemma {:induction false} SumByRemove<T>(b: seq<T>, k: int, f: T -> real)
    requires 0 <= k < |b|
    ensures SumBy(b, f) == f(b[k]) + SumBy(b[..k] + b[k + 1..], f)
  {
    if k == 0 {
      assert b[..0] + b[1..] == b[1..];
    } else {
      var t := b[1..];
      SumByRemove(t, k - 1, f);
      var rest := t[..k - 1] + t[k..];
      assert b[..k] + b[k + 1..] == [b[0]] + rest;
      assert ([b[0]] + rest)[1..] == rest;
    }
  }

  /** A mean does not depend on the order of the rows. */
  lemma MeanByPermutation<T>(a: seq<T>, b: seq<T>, f: T -> real)
    requires multiset(a) == multiset(b)
    ensures MeanBy(a, f) == MeanBy(b, f)
  {
    assert |a| == |multiset(a)| == |multiset(b)| == |b|;
    SumByPermutation(a, b, f);
  }

  /** Bounds on every row bound the sum. */
  lemma {:induction false} SumByBounds<T>(xs: seq<T>, f: T -> real, lo: real, hi: real)
    requires forall i :: 0 <= i < |xs| ==> lo <= f(xs[i]) <= hi
    ensures |xs| as real * lo <= SumBy(xs, f) <= |xs| as real * hi
  {
    if xs != [] {
      assert forall i :: 0 <= i < |xs[1..]| ==> xs[1..][i] == xs[i + 1];
      SumByBounds(xs[1..], f, lo, hi);
    }
  }

  /** Bounds on every row bound the mean: the mean lies between the smallest and largest value. */
  lemma MeanByBounds<T>(xs: seq<T>, f: T -> real, lo: real, hi: real)
    requires forall i :: 0 <= i < |xs| ==> lo <= f(xs[i]) <= hi
    ensures MeanBy(xs, f).Some? <==> xs != []
    ensures MeanBy(xs, f).Some? ==> lo <= MeanBy(xs, f).value <= hi
  {
    if xs != [] {
      SumByBounds(xs, f, lo, hi);
      var n := |xs| as real;
      var s := SumBy(xs, f);
      assert n * lo <= s <= n * hi;
      assert s / n >= lo by { assert s / n * n == s; }
      assert s / n <= hi by { assert s / n * n == s; }
    }
  }

  /** The sum of a pointwise combination `(f + g + h) / 3` is the same combination of the sums. */
  lemma {:induction false} SumByAverage3<T>(xs: seq<T>, f: T -> real, g: T -> real, h: T -> real, m: T -> real)
    requires forall i :: 0 <= i < |xs| ==> m(xs[i]) == (f(xs[i]) + g(xs[i]) + h(xs[i])) / 3.0
    ensures SumBy(xs, m) == (SumBy(xs, f) + SumBy(xs, g) + SumBy(xs, h)) / 3.0
  {
    if xs != [] {
      assert forall i :: 0 <= i < |xs[1..]| ==> xs[1..][i] == xs[i + 1];
      SumByAverage3(xs[1..], f, g, h, m);
    }
  }

  // ---- Python's round() on exact rationals ----

  /**
   * `round(x)`: the nearest integer, and on a tie (exactly half-way) the even
   * one, as Python 3 rounds.
   */
  function RoundHalfEven(x: real): (k: int)
    ensures -0.5 <= k as real - x <= 0.5
    ensures (k as real - x == 0.5 || x - k as real == 0.5) ==> k % 2 == 0
  {
    var f := x.Floor;
    var d := x - f as real;
    if d < 0.5 then f
    else if d > 0.5 then f + 1
    else if f % 2 == 0 then f
    else f + 1
  }

  /** The two postconditions of RoundHalfEven pin the result down: at most one integer satisfies them. */
  lemma RoundHalfEvenUnique(x: real, k: int)
    requires -0.5 <= k as real - x <= 0.5
    requires (k as real - x == 0.5 || x - k as real == 0.5) ==> k % 2 == 0
    ensures k == RoundHalfEven(x)
  {
  }

  /** A percentage in [0, 100] rounds to an integer percentage in [0, 100]. */
  lemma RoundPercentBounds(x: real)
    requires 0.0 <= x <= 100.0
    ensures 0 <= RoundHalfEven(x) <= 100
  {
  }

  /**
   * Ties go to the even neighbour and 100 is even, so rounding commutes with
   * taking the complement: `round(100 - x) == 100 - round(x)`.
   */
  lemma RoundComplement(x: real)
    ensures RoundHalfEven(100.0 - x) == 100 - RoundHalfEven(x)
  {
    var k := RoundHalfEven(x);
    RoundHalfEvenUnique(100.0 - x, 100 - k);
  }

  /** `round(x, 1)`, stated over exact decimals: the nearest tenth, ties to the even tenth. */
  function RoundTenth(x: real): (r: real)
    ensures -0.05 <= r - x <= 0.05
    ensures (r * 10.0).Floor as real == r * 10.0
  {
    var k := RoundHalfEven(x * 10.0);
    var r := k as real / 10.0;
    assert r * 10.0 == k as real;
    assert (k as real).Floor == k;
    r
  }
}
