/** Descriptive statistics of stats_functions.py, as functions of the whole input:
    arithmetic mean, harmonic mean, population variance (the square of the
    standard deviation) and pooled variance, with the properties the routines
    promise. The accumulator loops that compute them are in StatsFunctions. */
module Descriptive {
  import opened Outcomes
  import opened Sums

  /** The non-negative square root of `square`. math.sqrt is not computed:
      a result that the source passes through it is kept as its square. */
  datatype Root = Root(square: real)

  /** x is the value math.sqrt returns for r. */
  predicate IsRootOf(x: real, r: Root)
  {
    x >= 0.0 && x * x == r.square
  }

  /** Every element of s is c. */
  predicate Constant(s: seq<real>, c: real)
  {
    forall i :: 0 <= i < |s| ==> s[i] == c
  }

  // ----- arithmetic mean -----

  function Mean(s: seq<real>): real
    requires |s| > 0
  {
    Sum(s) / |s| as real
  }

  /** The mean of a constant sequence is that constant. */
  lemma MeanOfConstant(s: seq<real>, c: real)
    requires |s| > 0 && Constant(s, c)
    ensures Mean(s) == c
  {
    SumByConstant(s, Id, c);
  }

  /** The mean does not depend on the order of the elements. */
  lemma MeanPermutation(s: seq<real>, t: seq<real>)
    requires |s| > 0 && multiset(s) == multiset(t)
    ensures |t| == |s| && Mean(t) == Mean(s)
  {
    assert |t| == |multiset(t)| == |multiset(s)| == |s|;
    SumByPermutation(s, t, Id);
  }

  // ----- harmonic mean -----

  /** The term harmonic_mean adds for x: 1/x for a positive x, nothing otherwise. */
  function Reciprocal(x: real): real
  {
    if x > 0.0 then 1.0 / x else 0.0
  }

  function ReciprocalSum(s: seq<real>): real
  {
    SumBy(s, Reciprocal)
  }

  /** The number of strictly positive elements. */
  function PositiveCount(s: seq<real>): nat
    decreases |s|
  {
    if |s| == 0 then 0
    else PositiveCount(s[..|s| - 1]) + (if s[|s| - 1] > 0.0 then 1 else 0)
  }

  predicate HasPositive(s: seq<real>)
  {
    exists i :: 0 <= i < |s| && s[i] > 0.0
  }

  /** Only positive elements are counted, and each adds a positive reciprocal. */
  lemma {:induction false} PositiveTally(s: seq<real>)
    ensures PositiveCount(s) > 0 <==> HasPositive(s)
    ensures ReciprocalSum(s) >= 0.0
    ensures PositiveCount(s) > 0 ==> ReciprocalSum(s) > 0.0
    decreases |s|
  {
    if |s| > 0 {
      var n := |s| - 1;
      PositiveTally(s[..n]);
      if HasPositive(s[..n]) {
        var i :| 0 <= i < n && s[..n][i] > 0.0;
        assert s[i] > 0.0;
      }
      if HasPositive(s) && s[n] <= 0.0 {
        var i :| 0 <= i < |s| && s[i] > 0.0;
        assert s[..n][i] > 0.0;
      }
    }
  }

  /** The count of positive elements over the sum of their reciprocals;
      0 when no element is positive (zeros and negatives are skipped). */
  function HarmonicMeanOf(s: seq<real>): (r: real)
    ensures r >= 0.0
    ensures r > 0.0 <==> HasPositive(s)
  {
    PositiveTally(s);
    if PositiveCount(s) == 0 then 0.0 else PositiveCount(s) as real / ReciprocalSum(s)
  }

  /** The harmonic mean of a constant sequence of a positive c is c; of a
      constant sequence of a c <= 0 it is 0. */
  lemma HarmonicMeanOfConstant(s: seq<real>, c: real)
    requires |s| > 0 && Constant(s, c)
    ensures HarmonicMeanOf(s) == if c > 0.0 then c else 0.0
  {
    if c > 0.0 {
      SumByConstant(s, Reciprocal, 1.0 / c);
      PositiveCountAll(s);
    } else {
      assert !HasPositive(s);
    }
  }

  /** When every element is positive, every element is counted. */
  lemma {:induction false} PositiveCountAll(s: seq<real>)
    requires forall i :: 0 <= i < |s| ==> s[i] > 0.0
    ensures PositiveCount(s) == |s|
    decreases |s|
  {
    if |s| > 0 {
      PositiveCountAll(s[..|s| - 1]);
    }
  }

  /** y/x + x/y >= 2 for positive x and y, the step of the harmonic-mean bound. */
  lemma RatioSumAtLeastTwo(x: real, y: real)
    requires x > 0.0 && y > 0.0
    ensures y / x + x / y >= 2.0
  {
    var a := y / x;
    assert a > 0.0;
    assert x / y == 1.0 / a;
    assert (a - 1.0) * (a - 1.0) >= 0.0;
    assert a * a + 1.0 >= 2.0 * a;
    assert (a * a + 1.0) / a >= 2.0;
    assert (a * a + 1.0) / a == a + 1.0 / a;
  }

  /** Sum(s)/x + x·Σ1/s[i] >= 2|s| for positive x and positive elements. */
  lemma {:induction false} CrossTerms(s: seq<real>, x: real)
    requires x > 0.0
    requires forall i :: 0 <= i < |s| ==> s[i] > 0.0
    ensures Sum(s) / x + x * ReciprocalSum(s) >= 2.0 * |s| as real
    decreases |s|
  {
    if |s| > 0 {
      var n := |s| - 1;
      var y := s[n];
      CrossTerms(s[..n], x);
      RatioSumAtLeastTwo(x, y);
      assert Sum(s) == Sum(s[..n]) + y;
      assert ReciprocalSum(s) == ReciprocalSum(s[..n]) + 1.0 / y;
      assert Sum(s) / x == Sum(s[..n]) / x + y / x;
      assert x * ReciprocalSum(s) == x * ReciprocalSum(s[..n]) + x / y;
    }
  }

  /** Sum(s)·Σ1/s[i] >= |s|² for positive elements (Cauchy-Schwarz). */
  lemma {:induction false} SumTimesReciprocalSum(s: seq<real>)
    requires forall i :: 0 <= i < |s| ==> s[i] > 0.0
    ensures Sum(s) * ReciprocalSum(s) >= |s| as real * |s| as real
    decreases |s|
  {
    if |s| > 0 {
      var n := |s| - 1;
      var y := s[n];
      var a, b := Sum(s[..n]), ReciprocalSum(s[..n]);
      SumTimesReciprocalSum(s[..n]);
      CrossTerms(s[..n], y);
      assert Sum(s) == a + y;
      assert ReciprocalSum(s) == b + 1.0 / y;
      assert a * (1.0 / y) == a / y;
      assert (a + y) * (b + 1.0 / y) == a * b + a / y + y * b + 1.0;
      assert a * b >= n as real * n as real;
      assert a / y + y * b >= 2.0 * n as real;
      assert (n as real + 1.0) * (n as real + 1.0) == n as real * n as real + 2.0 * n as real + 1.0;
    }
  }

  /** The arithmetic-harmonic mean inequality, for strictly positive data. */
  lemma HarmonicAtMostArithmetic(s: seq<real>)
    requires |s| > 0
    requires forall i :: 0 <= i < |s| ==> s[i] > 0.0
    ensures 0.0 < HarmonicMeanOf(s) <= Mean(s)
  {
    PositiveCountAll(s);
    PositiveTally(s);
    SumTimesReciprocalSum(s);
    var n, a, b := |s| as real, Sum(s), ReciprocalSum(s);
    assert HarmonicMeanOf(s) == n / b;
    QuotientsOrdered(n, a, b, a * b, n * n);
  }

  /** n/b <= a/n when a·b >= n² and n, b > 0. */
  lemma QuotientsOrdered(n: real, a: real, b: real, p: real, q: real)
    requires n > 0.0 && b > 0.0 && p == a * b && q == n * n && p >= q
    ensures 0.0 < n / b <= a / n
  {
    var h, mu := n / b, a / n;
    var w := b * n;
    assert w > 0.0;
    assert h * w == q;
    assert mu * w == p;
    CancelPositive(h, mu, w);
  }

  /** Cancelling a positive factor from both sides of an inequality; stated over plain
      reals so that the nonlinear step is checked with only these facts in view. */
  lemma CancelPositive(x: real, y: real, w: real)
    requires w > 0.0 && x * w <= y * w
    ensures x <= y
  {
  }

  // ----- standard deviation, as the population variance -----

  /** The term standard_deviation adds for x: its squared deviation from m. */
  function SquaredDeviation(m: real): real -> real
  {
    x => (x - m) * (x - m)
  }

  /** The sum of squared deviations of the elements from m. */
  function SumSqDev(s: seq<real>, m: real): (r: real)
    ensures r >= 0.0
  {
    forall i | 0 <= i < |s| ensures SquaredDeviation(m)(s[i]) >= 0.0 {
      SquaredDeviationNonNegative(m, s[i]);
    }
    SumByNonNegative(s, SquaredDeviation(m));
    SumBy(s, SquaredDeviation(m))
  }

  /** A squared deviation is never negative. */
  lemma SquaredDeviationNonNegative(m: real, x: real)
    ensures SquaredDeviation(m)(x) >= 0.0
  {
    var e := x - m;
    assert SquaredDeviation(m)(x) == e * e;
  }

  /** The product of two non-negative reals is non-negative. */
  lemma ProductNonNegative(a: real, b: real)
    requires a >= 0.0 && b >= 0.0
    ensures a * b >= 0.0
  {
  }

  /** The product of two positive reals is positive. */
  lemma PositiveProduct(a: real, b: real)
    requires a > 0.0 && b > 0.0
    ensures a * b > 0.0
  {
  }

  /** One more step of the squared-deviation loop, whose element is x. */
  lemma SumSqDevStep(s: seq<real>, j: nat, m: real, x: real)
    requires j < |s| && s[j] == x
    ensures SumSqDev(s[..j + 1], m) == SumSqDev(s[..j], m) + (x - m) * (x - m)
  {
    SumByStep(s, j, SquaredDeviation(m));
    assert SquaredDeviation(m)(x) == (x - m) * (x - m);
  }

  /** Every squared deviation of a constant sequence from its constant is 0. */
  lemma SumSqDevOfConstant(s: seq<real>, c: real)
    requires Constant(s, c)
    ensures SumSqDev(s, c) == 0.0
  {
    SumByConstant(s, SquaredDeviation(c), 0.0);
  }

  /** The square of what standard_deviation returns: squared deviations from
      the mean divided by n (not n - 1). */
  function Variance(s: seq<real>): (r: real)
    requires |s| > 0
    ensures r >= 0.0
  {
    SumSqDev(s, Mean(s)) / |s| as real
  }

  /** The variance of a constant sequence is 0 (and so is its standard deviation). */
  lemma VarianceOfConstant(s: seq<real>, c: real)
    requires |s| > 0 && Constant(s, c)
    ensures Variance(s) == 0.0
  {
    MeanOfConstant(s, c);
    SumSqDevOfConstant(s, c);
  }

  /** The variance does not depend on the order of the elements. */
  lemma VariancePermutation(s: seq<real>, t: seq<real>)
    requires |s| > 0 && multiset(s) == multiset(t)
    ensures |t| == |s| && Variance(t) == Variance(s)
  {
    MeanPermutation(s, t);
    SumByPermutation(s, t, SquaredDeviation(Mean(s)));
  }

  /** The squared deviations from any point m exceed those from the mean by
      n·(mean - m)², so the mean minimises them (König–Huygens). */
  lemma SumSqDevAboutMean(s: seq<real>, m: real)
    requires |s| > 0
    ensures SumSqDev(s, m) == SumSqDev(s, Mean(s)) + |s| as real * SquaredDeviation(m)(Mean(s))
  {
    var c := Mean(s);
    var e := c - m;
    var k, d := 2.0 * e, e * e;
    ShiftSquareEverywhere(m, c, e, k, d);
    SumSqDevShift(s, m, c, k, d);
    DeviationsFromMean(s, c, |s| as real);
    SquaredDeviationAt(m, c, e, d);
    ShiftWithoutDrift(SumSqDev(s, m), SumSqDev(s, c), SumBy(s, Deviation(c)), k, |s| as real, d);
  }

  /** The squared deviation of x from m is d = (x - m)²; stated over plain reals so that
      the nonlinear step is checked with only these facts in view. */
  lemma SquaredDeviationAt(m: real, x: real, e: real, d: real)
    requires e == x - m && d == e * e
    ensures SquaredDeviation(m)(x) == d
  {
  }

  /** The cross term drops out once the deviations sum to zero; stated over plain reals so
      that the nonlinear step is checked with only these facts in view. */
  lemma ShiftWithoutDrift(a: real, b: real, z: real, k: real, n: real, d: real)
    requires a == b + k * z + n * d && z == 0.0
    ensures a == b + n * d
  {
  }

  /** The signed deviation x - c of x from c. */
  function Deviation(c: real): real -> real
  {
    x => x - c
  }

  /** The deviations from the mean cancel out. */
  lemma DeviationsFromMean(s: seq<real>, c: real, n: real)
    requires |s| > 0 && c == Mean(s) && n == |s| as real
    ensures SumBy(s, Deviation(c)) == 0.0
  {
    SumByLinear(s, s, Id, Deviation(c), 1.0, -c);
    MeanTimesCount(Sum(s), n);
  }

  /** Moving the centre from c to m = c - e adds k·(x - c) + d, with k = 2e
      and d = e², to every squared deviation. */
  lemma SumSqDevShift(s: seq<real>, m: real, c: real, k: real, d: real)
    requires forall x :: SquaredDeviation(m)(x) == SquaredDeviation(c)(x) + k * Deviation(c)(x) + d
    ensures SumSqDev(s, m) == SumSqDev(s, c) + k * SumBy(s, Deviation(c)) + |s| as real * d
  {
    SumByCombine(s, Deviation(c), SquaredDeviation(c), SquaredDeviation(m), k, d);
  }

  /** Moving the centre from c to m adds 2(c - m)·(x - c) + (c - m)² to every squared deviation. */
  lemma ShiftSquareEverywhere(m: real, c: real, e: real, k: real, d: real)
    requires e == c - m && k == 2.0 * e && d == e * e
    ensures forall x :: SquaredDeviation(m)(x) == SquaredDeviation(c)(x) + k * Deviation(c)(x) + d
  {
    forall x ensures SquaredDeviation(m)(x) == SquaredDeviation(c)(x) + k * Deviation(c)(x) + d {
      ShiftSquare(x, m, c, e, k, d);
    }
  }

  /** The same shift for a single element x. */
  lemma ShiftSquare(x: real, m: real, c: real, e: real, k: real, d: real)
    requires e == c - m && k == 2.0 * e && d == e * e
    ensures SquaredDeviation(m)(x) == SquaredDeviation(c)(x) + k * Deviation(c)(x) + d
  {
    var u := x - c;
    assert SquaredDeviation(m)(x) == (u + e) * (u + e);
    assert SquaredDeviation(c)(x) == u * u;
    assert Deviation(c)(x) == u;
  }

  /** Multiplying a mean back by the count gives the total; stated over plain reals so that
      the nonlinear step is checked with only these facts in view. */
  lemma MeanTimesCount(total: real, n: real)
    requires n > 0.0
    ensures n * (total / n) == total
  {
  }

  /** Every element multiplied by k and then shifted by d. */
  function Affine(s: seq<real>, k: real, d: real): (r: seq<real>)
    ensures |r| == |s|
  {
    seq(|s|, i requires 0 <= i < |s| => k * s[i] + d)
  }

  /** The total of k·x + d is k times the total plus n·d. */
  lemma AffineSum(s: seq<real>, k: real, d: real)
    ensures Sum(Affine(s, k, d)) == k * Sum(s) + |s| as real * d
  {
    SumByLinear(s, Affine(s, k, d), Id, Id, k, d);
  }

  /** Squared deviations that are q times those of s sum to q times SumSqDev(s, m). */
  lemma AffineSumSqDev(s: seq<real>, t: seq<real>, m: real, c: real, q: real)
    requires ScaledTerms(s, t, SquaredDeviation(m), SquaredDeviation(c), q)
    ensures SumSqDev(t, c) == q * SumSqDev(s, m)
  {
    SumByScaled(s, t, SquaredDeviation(m), SquaredDeviation(c), q);
  }

  /** Every squared deviation of k·x + d from k·m + d is k² times that of x from m. */
  lemma ScaledSquareAll(s: seq<real>, t: seq<real>, m: real, k: real, d: real, c: real, q: real)
    requires t == Affine(s, k, d) && c == k * m + d && q == k * k
    ensures ScaledTerms(s, t, SquaredDeviation(m), SquaredDeviation(c), q)
  {
    forall i | 0 <= i < |s| ensures SquaredDeviation(c)(t[i]) == q * SquaredDeviation(m)(s[i]) {
      ScaledSquare(s[i], m, k, d, t[i], c, q);
    }
  }

  /** The same scaling for a single element x. */
  lemma ScaledSquare(x: real, m: real, k: real, d: real, y: real, c: real, q: real)
    requires y == k * x + d && c == k * m + d && q == k * k
    ensures SquaredDeviation(c)(y) == q * SquaredDeviation(m)(x)
  {
    var e := x - m;
    assert y - c == k * e;
    assert SquaredDeviation(c)(y) == (k * e) * (k * e);
    assert SquaredDeviation(m)(x) == e * e;
  }

  /** The mean follows a shift and a scaling of the elements. */
  lemma MeanAffine(s: seq<real>, k: real, d: real)
    requires |s| > 0
    ensures Mean(Affine(s, k, d)) == k * Mean(s) + d
  {
    AffineSum(s, k, d);
    ShiftedQuotient(Sum(Affine(s, k, d)), Sum(s), |s| as real, k, d);
  }

  /** A shift leaves the variance unchanged, a factor k multiplies it by k²
      (so the standard deviation by |k|); the mean follows the transformation. */
  lemma VarianceAffine(s: seq<real>, k: real, d: real)
    requires |s| > 0
    ensures Mean(Affine(s, k, d)) == k * Mean(s) + d
    ensures Variance(Affine(s, k, d)) == k * k * Variance(s)
  {
    var t := Affine(s, k, d);
    var mu, c, q := Mean(s), Mean(t), k * k;
    MeanAffine(s, k, d);
    ScaledSquareAll(s, t, mu, k, d, c, q);
    VarianceScaled(s, t, mu, c, q);
  }

  /** Multiplying every element by k multiplies the standard deviation
      (the value math.sqrt returns for the variance) by |k|; a shift by d
      leaves it unchanged. */
  lemma StandardDeviationAffine(s: seq<real>, k: real, d: real, x: real, y: real)
    requires |s| > 0
    requires IsRootOf(x, Root(Variance(s))) && IsRootOf(y, Root(Variance(Affine(s, k, d))))
    ensures y == (if k < 0.0 then -k else k) * x
  {
    VarianceAffine(s, k, d);
    var u := (if k < 0.0 then -k else k) * x;
    ProductNonNegative(if k < 0.0 then -k else k, x);
    EqualRoots(y, u, k * k * (x * x));
  }

  /** Two non-negative reals with the same square are equal. */
  lemma EqualRoots(y: real, u: real, q: real)
    requires y >= 0.0 && u >= 0.0 && y * y == q && u * u == q
    ensures y == u
  {
    assert (y - u) * (y + u) == y * y - u * u;
    if y + u == 0.0 {
      assert y == 0.0 && u == 0.0;
    } else {
      CancelPositive(y - u, 0.0, y + u);
      CancelPositive(u - y, 0.0, y + u);
    }
  }

  /** Squared deviations that are q times the matching ones of s give q
      times the variance. */
  lemma VarianceScaled(s: seq<real>, t: seq<real>, mu: real, c: real, q: real)
    requires |s| > 0 && |t| == |s| && mu == Mean(s) && c == Mean(t)
    requires ScaledTerms(s, t, SquaredDeviation(mu), SquaredDeviation(c), q)
    ensures Variance(t) == q * Variance(s)
  {
    AffineSumSqDev(s, t, mu, c, q);
    ScaledQuotient(SumSqDev(t, c), SumSqDev(s, mu), |s| as real, q);
  }

  /** Dividing k·a + n·d by n gives k·(a/n) + d; stated over plain reals so that the
      nonlinear step is checked with only these facts in view. */
  lemma ShiftedQuotient(total: real, a: real, n: real, k: real, d: real)
    requires n > 0.0 && total == k * a + n * d
    ensures total / n == k * (a / n) + d
  {
  }

  /** Dividing k·a by n gives k·(a/n); stated over plain reals so that the nonlinear step
      is checked with only these facts in view. */
  lemma ScaledQuotient(total: real, a: real, n: real, k: real)
    requires n > 0.0 && total == k * a
    ensures total / n == k * (a / n)
  {
  }

  // ----- pooled standard deviation, as the pooled variance -----

  /** The pairs that Python's zip forms: as many as the shorter list has. */
  function Zip(stds: seq<real>, ns: seq<int>): (pairs: seq<(real, int)>)
    ensures |pairs| <= |stds| && |pairs| <= |ns|
    ensures |pairs| == |stds| || |pairs| == |ns|
  {
    seq(if |stds| <= |ns| then |stds| else |ns|, i requires 0 <= i < |stds| && i < |ns| => (stds[i], ns[i]))
  }

  /** The numerator term (n - 1)·s² of one group. */
  function WeightedSquare(p: (real, int)): real
  {
    (p.1 - 1) as real * (p.0 * p.0)
  }

  /** The denominator term n - 1 of one group. */
  function DegreesOfFreedom(p: (real, int)): real
  {
    (p.1 - 1) as real
  }

  /** The square of what pooled_std returns, Σ(n_i - 1)·s_i² / Σ(n_i - 1) over
      the paired prefix, or the exception the division or math.sqrt raises. */
  function Pooled(stds: seq<real>, ns: seq<int>): Result<Root>
  {
    var pairs := Zip(stds, ns);
    var num := SumBy(pairs, WeightedSquare);
    var den := SumBy(pairs, DegreesOfFreedom);
    if den == 0.0 then Err(ZeroDivision)
    else if num / den < 0.0 then Err(MathDomain)
    else Ok(Root(num / den))
  }

  /** Groups that share one standard deviation s have pooled variance s²,
      whatever their sizes, as long as the degrees of freedom do not sum to 0. */
  lemma PooledCommonSpread(stds: seq<real>, ns: seq<int>, s: real)
    requires forall i :: 0 <= i < |stds| && i < |ns| ==> stds[i] == s
    requires SumBy(Zip(stds, ns), DegreesOfFreedom) != 0.0
    ensures Pooled(stds, ns) == Ok(Root(s * s))
  {
    var pairs := Zip(stds, ns);
    var q := s * s;
    CommonSpreadTerms(stds, ns, s, q);
    SumByScaled(pairs, pairs, DegreesOfFreedom, WeightedSquare, q);
    ExactQuotient(SumBy(pairs, WeightedSquare), SumBy(pairs, DegreesOfFreedom), q);
    SquareNonNegative(s, q);
  }

  /** With a common standard deviation s, each weighted square is s² times its degrees of
      freedom. */
  lemma CommonSpreadTerms(stds: seq<real>, ns: seq<int>, s: real, q: real)
    requires forall i :: 0 <= i < |stds| && i < |ns| ==> stds[i] == s
    requires q == s * s
    ensures ScaledTerms(Zip(stds, ns), Zip(stds, ns), DegreesOfFreedom, WeightedSquare, q)
  {
    var pairs := Zip(stds, ns);
    forall i | 0 <= i < |pairs| ensures WeightedSquare(pairs[i]) == q * DegreesOfFreedom(pairs[i]) {
      assert pairs[i] == (stds[i], ns[i]);
      WeightedCommonSquare(pairs[i], s, q);
    }
  }

  /** A square is never negative; stated over plain reals so that the nonlinear step is
      checked with only these facts in view. */
  lemma SquareNonNegative(x: real, q: real)
    requires q == x * x
    ensures q >= 0.0
  {
  }

  /** One pair of the common-spread case. */
  lemma WeightedCommonSquare(p: (real, int), s: real, q: real)
    requires p.0 == s && q == s * s
    ensures WeightedSquare(p) == q * DegreesOfFreedom(p)
  {
  }

  /** A numerator that is q times the denominator divides to q; stated over plain reals so
      that the nonlinear step is checked with only these facts in view. */
  lemma ExactQuotient(num: real, den: real, q: real)
    requires den != 0.0 && num == q * den
    ensures num / den == q
  {
  }

  /** For group sizes of at least 1, pooled_std fails (dividing by zero)
      exactly when every paired group has size 1, and otherwise returns
      a non-negative variance: its math.sqrt never fails. */
  lemma PooledDefinedness(stds: seq<real>, ns: seq<int>)
    requires forall i :: 0 <= i < |ns| ==> ns[i] >= 1
    ensures Pooled(stds, ns) == Err(ZeroDivision)
        <==> forall i :: 0 <= i < |stds| && i < |ns| ==> ns[i] == 1
    ensures Pooled(stds, ns) != Err(MathDomain)
  {
    var pairs := Zip(stds, ns);
    SumByNonNegative(pairs, DegreesOfFreedom);
    SumByNonNegative(pairs, WeightedSquare);
    SumByZero(pairs, DegreesOfFreedom);
    if forall i :: 0 <= i < |stds| && i < |ns| ==> ns[i] == 1 {
      assert forall i :: 0 <= i < |pairs| ==> DegreesOfFreedom(pairs[i]) == 0.0;
    } else {
      var i :| 0 <= i < |stds| && i < |ns| && ns[i] != 1;
      assert DegreesOfFreedom(pairs[i]) != 0.0;
    }
  }
}
