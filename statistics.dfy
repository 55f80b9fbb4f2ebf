/**
 * The descriptive statistics the outlier detector takes from pandas, numpy and
 * scipy, stated over exact reals: sum, mean, population variance, sorting,
 * linear-interpolation quantile, median and median absolute deviation.
 */
module Statistics {

  function Sq(x: real): real { x * x }

  function Abs(x: real): real { if x < 0.0 then -x else x }

  function Sum(xs: seq<real>): real {
    if xs == [] then 0.0 else xs[0] + Sum(xs[1..])
  }

  function SumSquares(xs: seq<real>): (r: real)
    ensures r >= 0.0
  {
    if xs == [] then 0.0 else Sq(xs[0]) + SumSquares(xs[1..])
  }

  /** `x - c` for every element. */
  function Deviations(xs: seq<real>, c: real): (ds: seq<real>)
    ensures |ds| == |xs|
  {
    seq(|xs|, i requires 0 <= i < |xs| => xs[i] - c)
  }

  /** `|x - c|` for every element. */
  function AbsDeviations(xs: seq<real>, c: real): (ds: seq<real>)
    ensures |ds| == |xs|
    ensures forall i :: 0 <= i < |ds| ==> ds[i] >= 0.0
  {
    seq(|xs|, i requires 0 <= i < |xs| => Abs(xs[i] - c))
  }

  /** The arithmetic mean; numpy gives NaN on an empty column, the model 0. */
  function Mean(xs: seq<real>): real {
    if xs == [] then 0.0 else Sum(xs) / |xs| as real
  }

  /** The population variance (`ddof = 0`, the default of scipy's `zscore`). */
  function Variance(xs: seq<real>): (v: real)
    ensures v >= 0.0
  {
    if xs == [] then 0.0 else SumSquares(Deviations(xs, Mean(xs))) / |xs| as real
  }

  lemma {:induction false} SumAppend(a: seq<real>, b: seq<real>)
    ensures Sum(a + b) == Sum(a) + Sum(b)
    ensures SumSquares(a + b) == SumSquares(a) + SumSquares(b)
  {
    if a == [] {
      assert a + b == b;
    } else {
      assert (a + b)[0] == a[0];
      assert (a + b)[1..] == a[1..] + b;
      SumAppend(a[1..], b);
    }
  }

  lemma {:induction false} SumDeviations(xs: seq<real>, c: real)
    ensures Sum(Deviations(xs, c)) == Sum(xs) - |xs| as real * c
  {
    if xs != [] {
      assert Deviations(xs, c)[1..] == Deviations(xs[1..], c);
      SumDeviations(xs[1..], c);
    }
  }

  /** The deviations from the mean sum to zero. */
  lemma MeanDeviationsSumToZero(xs: seq<real>)
    ensures Sum(Deviations(xs, Mean(xs))) == 0.0
  {
    SumDeviations(xs, Mean(xs));
  }

  lemma {:induction false} SumSquaresZero(xs: seq<real>)
    requires forall i :: 0 <= i < |xs| ==> xs[i] == 0.0
    ensures SumSquares(xs) == 0.0
  {
    if xs != [] {
      SumSquaresZero(xs[1..]);
    }
  }

  lemma {:induction false} SumConstant(xs: seq<real>, c: real)
    requires forall i :: 0 <= i < |xs| ==> xs[i] == c
    ensures Sum(xs) == |xs| as real * c
  {
    if xs != [] {
      SumConstant(xs[1..], c);
    }
  }

  /** A constant column has mean equal to that constant and variance zero. */
  lemma ConstantMoments(xs: seq<real>, c: real)
    requires forall i :: 0 <= i < |xs| ==> xs[i] == c
    ensures xs != [] ==> Mean(xs) == c
    ensures Variance(xs) == 0.0
  {
    SumConstant(xs, c);
    if xs != [] {
      SumSquaresZero(Deviations(xs, Mean(xs)));
    }
  }

  lemma MulNonNegative(x: real, y: real)
    requires x >= 0.0 && y >= 0.0
    ensures x * y >= 0.0
  {
  }

  lemma MulPositive(x: real, y: real)
    requires x > 0.0 && y > 0.0
    ensures x * y > 0.0
  {
  }

  lemma MulPositiveFactor(k: real, x: real)
    requires k > 0.0 && k * x >= 0.0
    ensures x >= 0.0
  {
    if x < 0.0 {
      MulPositive(k, -x);
    }
  }

  lemma SquareNonNegative(x: real)
    ensures x * x >= 0.0
  {
    if x < 0.0 {
      MulNonNegative(-x, -x);
      assert x * x == (-x) * (-x);
    } else {
      MulNonNegative(x, x);
    }
  }

  lemma MulMonotone(p: real, q: real, m: real)
    requires p <= q && m >= 0.0
    ensures p * m <= q * m
  {
    MulNonNegative(q - p, m);
    assert (q - p) * m == q * m - p * m;
  }

  /** The Cauchy-Schwarz inequality in the form `n * sum(y^2) >= (sum y)^2`. */
  lemma {:induction false} SquareOfSum(ys: seq<real>)
    ensures |ys| as real * SumSquares(ys) >= Sq(Sum(ys))
  {
    if ys != [] {
      var zs := ys[1..];
      if zs == [] {
        assert Sum(zs) == 0.0 && SumSquares(zs) == 0.0;
        var y := ys[0];
        assert Sum(ys) == y && SumSquares(ys) == Sq(y) && |ys| as real == 1.0;
        assert 1.0 * Sq(y) == Sq(y);
      } else {
        SquareOfSum(zs);
        SquareOfSumStep(|ys| as real, SumSquares(ys), Sum(ys), |zs| as real, ys[0], Sum(zs), SumSquares(zs));
      }
    }
  }

  /** One more element `y` keeps `k * q >= a^2`, for `k` elements of sum `a` and sum of squares `q`. */
  lemma SquareOfSumStep(n: real, s: real, t: real, k: real, y: real, a: real, q: real)
    requires n == k + 1.0 && s == Sq(y) + q && t == y + a
    requires k > 0.0 && k * q >= a * a
    ensures n * s >= Sq(t)
  {
    var x := k * y * y + q - 2.0 * y * a;
    var e := k * y - a;
    assert k * x == e * e + (k * q - a * a);
    SquareNonNegative(e);
    MulPositiveFactor(k, x);
    assert (k + 1.0) * (y * y + q) - (y + a) * (y + a) == (k * q - a * a) + x;
  }

  /**
   * Samuelson's inequality: no element lies further than `sqrt(n - 1)`
   * population standard deviations from the mean.
   */
  lemma Samuelson(xs: seq<real>, i: nat)
    requires i < |xs|
    ensures Sq(xs[i] - Mean(xs)) <= (|xs| - 1) as real * Variance(xs)
  {
    var ds := Deviations(xs, Mean(xs));
    assert ds[i] == xs[i] - Mean(xs);
    assert Variance(xs) == SumSquares(ds) / |xs| as real;
    MeanDeviationsSumToZero(xs);
    DeviationBound(ds, i);
    DivideBound(|xs| as real, (|xs| - 1) as real, Sq(ds[i]), SumSquares(ds));
  }

  /** For deviations that sum to zero: `n * d_i^2 <= (n - 1) * sum(d^2)`. */
  lemma DeviationBound(ds: seq<real>, i: nat)
    requires i < |ds| && Sum(ds) == 0.0
    ensures |ds| as real * Sq(ds[i]) <= (|ds| - 1) as real * SumSquares(ds)
  {
    var rest := ds[..i] + ds[i + 1..];
    SumWithout(ds, i);
    SquareOfSum(rest);
    RemovedBound(|ds| as real, (|ds| - 1) as real, |rest| as real, Sum(rest), SumSquares(rest), ds[i], SumSquares(ds));
  }

  lemma RemovedBound(n: real, m: real, k: real, a: real, q: real, d: real, s: real)
    requires m == n - 1.0 && k == m && a == -d && q == s - Sq(d)
    requires k * q >= Sq(a)
    ensures n * Sq(d) <= m * s
  {
    assert k * q == m * s - m * (d * d);
  }

  lemma DivideBound(n: real, m: real, a: real, s: real)
    requires n >= 1.0 && n * a <= m * s
    ensures a <= m * (s / n)
  {
    assert m * (s / n) == (m * s) / n;
    assert n * (m * (s / n)) == m * s;
    MulPositiveFactor(n, m * (s / n) - a);
  }

  lemma {:induction false} SumWithout(ds: seq<real>, i: nat)
    requires i < |ds|
    ensures Sum(ds[..i] + ds[i + 1..]) == Sum(ds) - ds[i]
    ensures SumSquares(ds[..i] + ds[i + 1..]) == SumSquares(ds) - Sq(ds[i])
    ensures |ds[..i] + ds[i + 1..]| == |ds| - 1
  {
    assert ds == ds[..i] + [ds[i]] + ds[i + 1..];
    SumAppend(ds[..i], [ds[i]]);
    SumAppend(ds[..i] + [ds[i]], ds[i + 1..]);
    SumAppend(ds[..i], ds[i + 1..]);
    assert Sum([ds[i]]) == ds[i] && SumSquares([ds[i]]) == Sq(ds[i]);
  }

  // ---------------------------------------------------------------- sorting

  ghost predicate Sorted(s: seq<real>) {
    forall i, j :: 0 <= i <= j < |s| ==> s[i] <= s[j]
  }

  /** `x` placed before the first element of `s` that is not smaller than it. */
  function Insert(x: real, s: seq<real>): (r: seq<real>)
    ensures |r| == |s| + 1
  {
    if s == [] then [x]
    else if x <= s[0] then [x] + s
    else [s[0]] + Insert(x, s[1..])
  }

  lemma {:induction false} InsertPermutes(x: real, s: seq<real>)
    ensures multiset(Insert(x, s)) == multiset(s) + multiset{x}
  {
    if s != [] && x > s[0] {
      InsertPermutes(x, s[1..]);
      assert s == [s[0]] + s[1..];
    }
  }

  lemma {:induction false} InsertSorted(x: real, s: seq<real>)
    requires Sorted(s)
    ensures Sorted(Insert(x, s))
  {
    if s != [] && x > s[0] {
      var rest := Insert(x, s[1..]);
      InsertSorted(x, s[1..]);
      InsertPermutes(x, s[1..]);
      forall i | 0 <= i < |rest| ensures s[0] <= rest[i] {
        assert rest[i] in multiset(rest);
        if rest[i] != x {
          assert rest[i] in multiset(s[1..]);
          assert rest[i] in s[1..];
        }
      }
      SortedCons(s[0], rest);
    } else if s != [] {
      SortedCons(x, s);
    }
  }

  lemma SortedCons(b: real, r: seq<real>)
    requires Sorted(r)
    requires forall i :: 0 <= i < |r| ==> b <= r[i]
    ensures Sorted([b] + r)
  {
  }

  /** The values in ascending order, as pandas sorts them for a quantile. */
  function Sort(xs: seq<real>): (s: seq<real>)
    ensures |s| == |xs|
  {
    if xs == [] then [] else Insert(xs[0], Sort(xs[1..]))
  }

  /** `Sort` yields a sorted permutation of its input. */
  lemma {:induction false} SortSpec(xs: seq<real>)
    ensures Sorted(Sort(xs))
    ensures multiset(Sort(xs)) == multiset(xs)
  {
    if xs != [] {
      SortSpec(xs[1..]);
      InsertSorted(xs[0], Sort(xs[1..]));
      InsertPermutes(xs[0], Sort(xs[1..]));
      assert xs == [xs[0]] + xs[1..];
    }
  }

  /** Every element of a constant column's sorted copy is that constant. */
  lemma SortConstant(xs: seq<real>, c: real)
    requires forall i :: 0 <= i < |xs| ==> xs[i] == c
    ensures forall j :: 0 <= j < |xs| ==> Sort(xs)[j] == c
  {
    SortSpec(xs);
    forall j | 0 <= j < |xs| ensures Sort(xs)[j] == c {
      var s := Sort(xs);
      assert s[j] in multiset(s);
      assert s[j] in multiset(xs);
    }
  }

  // ------------------------------------------------------------- quantiles

  lemma ScaleWithin(q: real, m: real)
    requires 0.0 <= q <= 1.0 && m >= 0.0
    ensures 0.0 <= q * m <= m
  {
    MulNonNegative(q, m);
    MulMonotone(q, 1.0, m);
  }

  /** The fractional position `q * (n - 1)` of the q-quantile among `n` sorted values. */
  function QuantilePosition(n: nat, q: real): (h: real)
    requires n > 0 && 0.0 <= q <= 1.0
    ensures 0.0 <= h <= (n - 1) as real
  {
    ScaleWithin(q, (n - 1) as real);
    q * (n - 1) as real
  }

  /** The whole part of a non-negative position. */
  function Below(h: real): (lo: nat)
    requires h >= 0.0
    ensures lo as real <= h < lo as real + 1.0
  {
    h.Floor
  }

  /** Linear interpolation between `a` and `b` at fraction `f`. */
  function Lerp(a: real, b: real, f: real): real {
    a + f * (b - a)
  }

  lemma LerpBetween(a: real, b: real, f: real)
    requires a <= b && 0.0 <= f <= 1.0
    ensures a <= Lerp(a, b, f) <= b
  {
    var m := b - a;
    ScaleWithin(f, m);
    assert Lerp(a, b, f) == a + f * m;
  }

  lemma LerpMonotone(a: real, b: real, f: real, g: real)
    requires a <= b && f <= g
    ensures Lerp(a, b, f) <= Lerp(a, b, g)
  {
    MulMonotone(f, g, b - a);
  }

  /**
   * `Series.quantile(q)` with pandas' default linear interpolation: the value at
   * fractional position `q * (n - 1)` of the sorted values. pandas gives NaN on
   * an empty column; the model 0, which no comparison on an empty column reads.
   */
  function Quantile(xs: seq<real>, q: real): real
    requires 0.0 <= q <= 1.0
  {
    if xs == [] then 0.0 else ValueAt(Sort(xs), QuantilePosition(|xs|, q))
  }

  /** The value at fractional position `h` of sorted values. */
  function ValueAt(s: seq<real>, h: real): real
    requires s != [] && 0.0 <= h <= (|s| - 1) as real
  {
    var lo := Below(h);
    if lo + 1 < |s| then Lerp(s[lo], s[lo + 1], h - lo as real) else s[lo]
  }

  /** The interpolated value lies between the two sorted values around its position. */
  lemma ValueAtBracket(s: seq<real>, h: real)
    requires s != [] && Sorted(s) && 0.0 <= h <= (|s| - 1) as real
    ensures var lo := Below(h);
      s[lo] <= ValueAt(s, h) <= s[if lo + 1 < |s| then lo + 1 else lo]
  {
    var lo := Below(h);
    if lo + 1 < |s| {
      assert s[lo] <= s[lo + 1];
      LerpBetween(s[lo], s[lo + 1], h - lo as real);
    }
  }

  /** Every quantile lies between the smallest and the largest value. */
  lemma QuantileWithinRange(xs: seq<real>, q: real)
    requires xs != [] && 0.0 <= q <= 1.0
    ensures Sort(xs)[0] <= Quantile(xs, q) <= Sort(xs)[|xs| - 1]
  {
    var s, h := Sort(xs), QuantilePosition(|xs|, q);
    SortSpec(xs);
    ValueAtBracket(s, h);
    var lo := Below(h);
    assert s[0] <= s[lo];
    assert s[if lo + 1 < |xs| then lo + 1 else lo] <= s[|xs| - 1];
  }

  /** A larger q never gives a smaller quantile. */
  lemma QuantileMonotone(xs: seq<real>, p: real, q: real)
    requires 0.0 <= p <= q <= 1.0
    ensures Quantile(xs, p) <= Quantile(xs, q)
  {
    if xs != [] {
      PositionMonotone(|xs|, p, q);
      SortSpec(xs);
      ValueAtMonotone(Sort(xs), QuantilePosition(|xs|, p), QuantilePosition(|xs|, q));
    }
  }

  lemma PositionMonotone(n: nat, p: real, q: real)
    requires n > 0 && 0.0 <= p <= q <= 1.0
    ensures QuantilePosition(n, p) <= QuantilePosition(n, q)
  {
    MulMonotone(p, q, (n - 1) as real);
  }

  lemma ValueAtMonotone(s: seq<real>, g: real, h: real)
    requires s != [] && Sorted(s) && 0.0 <= g <= h <= (|s| - 1) as real
    ensures ValueAt(s, g) <= ValueAt(s, h)
  {
    var lg, lh := Below(g), Below(h);
    ValueAtBracket(s, g);
    ValueAtBracket(s, h);
    if lg < lh {
      assert s[lg + 1] <= s[lh];
    } else if lg + 1 < |s| {
      LerpMonotone(s[lg], s[lg + 1], g - lg as real, h - lg as real);
    }
  }

  /** Every quantile of a constant column is that constant. */
  lemma QuantileConstant(xs: seq<real>, q: real, c: real)
    requires xs != [] && 0.0 <= q <= 1.0
    requires forall i :: 0 <= i < |xs| ==> xs[i] == c
    ensures Quantile(xs, q) == c
  {
    SortConstant(xs, c);
    QuantileWithinRange(xs, q);
  }

  // ------------------------------------------------------- median and MAD

  /** `Series.median()` / `np.median`: the middle sorted value, or the mean of the two middle ones. */
  function Median(xs: seq<real>): real {
    if xs == [] then 0.0
    else
      var s, n := Sort(xs), |xs|;
      (s[(n - 1) / 2] + s[n / 2]) / 2.0
  }

  /** Where the 0.5 quantile falls among `n` sorted values. */
  lemma HalfPosition(n: nat)
    requires n > 0
    ensures var h := QuantilePosition(n, 0.5);
      Below(h) == (n - 1) / 2 && h - Below(h) as real == if n % 2 == 1 then 0.0 else 0.5
  {
    var k := (n - 1) / 2;
    if n % 2 == 1 {
      assert n - 1 == 2 * k;
      assert QuantilePosition(n, 0.5) == k as real;
    } else {
      assert n - 1 == 2 * k + 1;
      assert QuantilePosition(n, 0.5) == k as real + 0.5;
    }
  }

  /** The median is the 0.5 quantile: both conventions pick the same value. */
  lemma MedianIsHalfQuantile(xs: seq<real>)
    ensures Median(xs) == Quantile(xs, 0.5)
  {
    if xs != [] {
      var n, s := |xs|, Sort(xs);
      HalfPosition(n);
      var k := (n - 1) / 2;
      if n % 2 == 1 {
        assert n / 2 == k;
        assert Quantile(xs, 0.5) == if k + 1 < n then Lerp(s[k], s[k + 1], 0.0) else s[k];
      } else {
        assert n / 2 == k + 1;
        assert Quantile(xs, 0.5) == Lerp(s[k], s[k + 1], 0.5);
      }
    }
  }

  lemma MedianWithinRange(xs: seq<real>)
    requires xs != []
    ensures Sort(xs)[0] <= Median(xs) <= Sort(xs)[|xs| - 1]
  {
    MedianIsHalfQuantile(xs);
    QuantileWithinRange(xs, 0.5);
  }

  /** The median absolute deviation `median(|x - median(x)|)`. */
  function Mad(xs: seq<real>): real {
    Median(AbsDeviations(xs, Median(xs)))
  }

  lemma MadNonNegative(xs: seq<real>)
    ensures Mad(xs) >= 0.0
  {
    var ds := AbsDeviations(xs, Median(xs));
    if ds != [] {
      MedianWithinRange(ds);
      SortSpec(ds);
      var s := Sort(ds);
      assert s[0] in multiset(ds);
      assert s[0] in ds;
    }
  }

  /** A constant column has that constant as its median and a MAD of zero. */
  lemma ConstantMedianMad(xs: seq<real>, c: real)
    requires xs != []
    requires forall i :: 0 <= i < |xs| ==> xs[i] == c
    ensures Median(xs) == c
    ensures Mad(xs) == 0.0
  {
    assert Median(xs) == c by {
      MedianIsHalfQuantile(xs);
      QuantileConstant(xs, 0.5, c);
    }
    var ds := AbsDeviations(xs, c);
    assert forall i :: 0 <= i < |ds| ==> ds[i] == 0.0;
    assert Mad(xs) == Median(ds);
    assert Median(ds) == 0.0 by {
      MedianIsHalfQuantile(ds);
      QuantileConstant(ds, 0.5, 0.0);
    }
  }
}
