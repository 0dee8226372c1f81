/** The independent two-sample t statistic of t_test. The p-value, which the
    source obtains from Student's t distribution, is not modelled; the result
    is the statistic (as its numerator and the square of its denominator) and
    the degrees of freedom. */
module TwoSample {
  import opened Outcomes
  import opened Descriptive

  /** The keyword arguments of t_test; None is an argument left at its default. */
  datatype TTestArgs = TTestArgs(
    data1: Option<seq<real>>, data2: Option<seq<real>>,
    mu1: Option<real>, mu2: Option<real>,
    sigma1: Option<real>, sigma2: Option<real>,
    n1: Option<int>, n2: Option<int>,
    meanType: string)

  /** One group as the formula sees it: its mean, the square of its standard
      deviation and its size, each possibly None. */
  datatype GroupStats = GroupStats(mu: Option<real>, sigmaSq: Option<real>, n: Option<int>)

  /** t = meanDiff / sqrt(standardError.square), with df degrees of freedom. */
  datatype TStatistic = TStatistic(meanDiff: real, standardError: Root, df: int)

  /** Raw-data mode: both samples were passed. */
  predicate RawMode(a: TTestArgs)
  {
    a.data1.Some? && a.data2.Some?
  }

  /** sigma**2, which is never negative. */
  function SquareOf(sigma: Option<real>): (r: Option<real>)
    ensures r.Some? <==> sigma.Some?
    ensures r.Some? ==> r.value >= 0.0
  {
    if sigma.Some? then Some(sigma.value * sigma.value) else None
  }

  /** A group summarised from its sample: harmonic mean only for the exact
      mean_type "harmonic", arithmetic mean otherwise. */
  function FromSample(data: seq<real>, meanType: string): (g: GroupStats)
    requires |data| > 0
    ensures g.n == Some(|data|) && g.sigmaSq.Some? && g.sigmaSq.value >= 0.0
    ensures g.mu.Some? && (meanType == "harmonic" ==> g.mu.value >= 0.0)
    ensures meanType != "harmonic" ==> g.mu == Some(Mean(data))
  {
    var mu := if meanType == "harmonic" then HarmonicMeanOf(data) else Mean(data);
    GroupStats(Some(mu), Some(Variance(data)), Some(|data|))
  }

  /** The input-mode selection: samples, when both are given, replace whatever
      summary arguments were passed; an empty sample divides by zero. */
  function Inputs(a: TTestArgs): (r: Result<(GroupStats, GroupStats)>)
    ensures r.Err? <==> RawMode(a) && (|a.data1.value| == 0 || |a.data2.value| == 0)
    ensures r.Err? ==> r.error == ZeroDivision
    ensures r.Ok? && RawMode(a) ==>
      r.value.0.n == Some(|a.data1.value|) && r.value.1.n == Some(|a.data2.value|)
    ensures !RawMode(a) ==> r.Ok? && r.value.0.mu == a.mu1 && r.value.1.mu == a.mu2
    ensures r.Ok? ==>
      && (r.value.0.sigmaSq.Some? ==> r.value.0.sigmaSq.value >= 0.0)
      && (r.value.1.sigmaSq.Some? ==> r.value.1.sigmaSq.value >= 0.0)
  {
    if RawMode(a) then
      if |a.data1.value| == 0 || |a.data2.value| == 0 then Err(ZeroDivision)
      else Ok((FromSample(a.data1.value, a.meanType), FromSample(a.data2.value, a.meanType)))
    else
      Ok((GroupStats(a.mu1, SquareOf(a.sigma1), a.n1), GroupStats(a.mu2, SquareOf(a.sigma2), a.n2)))
  }

  /** The pooled variance ((n1 - 1)·v1 + (n2 - 1)·v2) / (n1 + n2 - 2). */
  function PooledVariance(n1: int, n2: int, v1: real, v2: real): real
    requires n1 + n2 != 2
  {
    ((n1 - 1) as real * v1 + (n2 - 1) as real * v2) / (n1 + n2 - 2) as real
  }

  /** (1/n1 + 1/n2), the factor under the second square root. */
  function SizeFactor(n1: int, n2: int): real
    requires n1 != 0 && n2 != 0
  {
    1.0 / n1 as real + 1.0 / n2 as real
  }

  /** The straight-line formula, with the exception each step can raise, in
      the order Python evaluates them. */
  function Statistic(g1: GroupStats, g2: GroupStats): (r: Result<TStatistic>)
    ensures r.Ok? ==> r.value.standardError.square > 0.0
    ensures r.Ok? ==> && g1.n.Some? && g2.n.Some? && r.value.df == g1.n.value + g2.n.value - 2
                      && g1.mu.Some? && g2.mu.Some? && r.value.meanDiff == g1.mu.value - g2.mu.value
  {
    if g1.n.None? || g2.n.None? then Err(NoneOperand)
    else
      var n1, n2 := g1.n.value, g2.n.value;
      var df := n1 + n2 - 2;
      if g1.sigmaSq.None? || g2.sigmaSq.None? then Err(NoneOperand)
      else if df == 0 then Err(ZeroDivision)
      else
        var pv := PooledVariance(n1, n2, g1.sigmaSq.value, g2.sigmaSq.value);
        if pv < 0.0 then Err(MathDomain)
        else if g1.mu.None? || g2.mu.None? then Err(NoneOperand)
        else if n1 == 0 || n2 == 0 then Err(ZeroDivision)
        else
          var h := SizeFactor(n1, n2);
          if h < 0.0 then Err(MathDomain)
          else if pv == 0.0 || h == 0.0 then Err(ZeroDivision)
          else
            PositiveProduct(pv, h);
            Ok(TStatistic(g1.mu.value - g2.mu.value, Root(pv * h), df))
  }

  /** t_test: resolve the input mode, then apply the formula. */
  function TTest(a: TTestArgs): (r: Result<TStatistic>)
    ensures r.Ok? ==> r.value.standardError.square > 0.0
    ensures RawMode(a) && (|a.data1.value| == 0 || |a.data2.value| == 0) ==> r == Err(ZeroDivision)
    ensures RawMode(a) && r.Ok? ==> r.value.df == |a.data1.value| + |a.data2.value| - 2
  {
    var groups :- Inputs(a);
    Statistic(groups.0, groups.1)
  }

  /** When both samples are given, the summary arguments are ignored, and only
      whether mean_type is exactly "harmonic" matters. */
  lemma RawModeIgnoresSummary(a: TTestArgs, b: TTestArgs)
    requires RawMode(a) && a.data1 == b.data1 && a.data2 == b.data2
    requires (a.meanType == "harmonic") == (b.meanType == "harmonic")
    ensures TTest(a) == TTest(b)
  {
  }

  /** Raw-data mode, completely: the statistic fails only by dividing by zero,
      exactly when a sample is empty, both samples have one element, or the
      pooled variance is 0; otherwise df = n1 + n2 - 2, the numerator is the
      difference of the selected means, and the squared denominator is the
      pooled variance times (1/n1 + 1/n2). */
  lemma RawModeCharacterized(d1: seq<real>, d2: seq<real>, a: TTestArgs)
    requires a.data1 == Some(d1) && a.data2 == Some(d2)
    ensures TTest(a).Err? ==> TTest(a).error == ZeroDivision
    ensures TTest(a).Ok? <==>
      |d1| > 0 && |d2| > 0 && |d1| + |d2| > 2 &&
      PooledVariance(|d1|, |d2|, Variance(d1), Variance(d2)) != 0.0
    ensures TTest(a).Ok? ==>
      var g1, g2 := FromSample(d1, a.meanType), FromSample(d2, a.meanType);
      && TTest(a).value.df == |d1| + |d2| - 2
      && TTest(a).value.meanDiff == g1.mu.value - g2.mu.value
      && TTest(a).value.standardError.square
         == PooledVariance(|d1|, |d2|, Variance(d1), Variance(d2)) * SizeFactor(|d1|, |d2|)
  {
    if |d1| > 0 && |d2| > 0 {
      var g1, g2 := FromSample(d1, a.meanType), FromSample(d2, a.meanType);
      assert TTest(a) == Statistic(g1, g2);
      KnownStatistic(g1, g2, |d1|, |d2|, Variance(d1), Variance(d2));
    }
  }

  /** The formula on two groups whose means, variances and sizes are all
      known, with sizes of at least 1 and non-negative variances: it fails
      only by dividing by zero, exactly when both sizes are 1 or the pooled
      variance is 0; otherwise df = n1 + n2 - 2, the numerator is mu1 - mu2,
      and the squared denominator is the pooled variance times
      (1/n1 + 1/n2). */
  lemma KnownStatistic(g1: GroupStats, g2: GroupStats, n1: int, n2: int, v1: real, v2: real)
    requires g1.mu.Some? && g2.mu.Some?
    requires g1.sigmaSq == Some(v1) && g2.sigmaSq == Some(v2) && g1.n == Some(n1) && g2.n == Some(n2)
    requires n1 >= 1 && n2 >= 1 && v1 >= 0.0 && v2 >= 0.0
    ensures Statistic(g1, g2).Err? ==> Statistic(g1, g2).error == ZeroDivision
    ensures Statistic(g1, g2).Ok? <==> n1 + n2 > 2 && PooledVariance(n1, n2, v1, v2) != 0.0
    ensures Statistic(g1, g2).Ok? ==>
      && Statistic(g1, g2).value.df == n1 + n2 - 2
      && Statistic(g1, g2).value.meanDiff == g1.mu.value - g2.mu.value
      && Statistic(g1, g2).value.standardError.square == PooledVariance(n1, n2, v1, v2) * SizeFactor(n1, n2)
  {
    if n1 + n2 > 2 {
      PooledVarianceNonNegative(n1, n2, v1, v2);
      SizeFactorPositive(n1, n2);
    }
  }

  /** Group sizes of at least 1 and non-negative variances give a
      non-negative pooled variance. */
  lemma PooledVarianceNonNegative(n1: int, n2: int, v1: real, v2: real)
    requires n1 >= 1 && n2 >= 1 && n1 + n2 > 2 && v1 >= 0.0 && v2 >= 0.0
    ensures PooledVariance(n1, n2, v1, v2) >= 0.0
  {
    var a, b := (n1 - 1) as real, (n2 - 1) as real;
    ProductNonNegative(a, v1);
    ProductNonNegative(b, v2);
    var num := a * v1 + b * v2;
    NonNegativeQuotient(num, (n1 + n2 - 2) as real);
  }

  /** A non-negative number divided by a positive one is non-negative. */
  lemma NonNegativeQuotient(a: real, b: real)
    requires a >= 0.0 && b > 0.0
    ensures a / b >= 0.0
  {
  }

  /** 1/n1 + 1/n2 is positive for sizes of at least 1. */
  lemma SizeFactorPositive(n1: int, n2: int)
    requires n1 >= 1 && n2 >= 1
    ensures SizeFactor(n1, n2) > 0.0
  {
    NonNegativeQuotient(1.0, n1 as real);
    NonNegativeQuotient(1.0, n2 as real);
    assert 1.0 / n1 as real != 0.0;
  }

  /** The sign of t: for the value x that math.sqrt returns for the squared
      denominator, t = meanDiff / x is positive, negative or zero exactly as
      mu1 - mu2 is. */
  lemma SignOfT(a: TTestArgs, x: real)
    requires TTest(a).Ok? && IsRootOf(x, TTest(a).value.standardError)
    ensures var s := TTest(a).value;
      && (s.meanDiff / x > 0.0 <==> s.meanDiff > 0.0)
      && (s.meanDiff / x < 0.0 <==> s.meanDiff < 0.0)
      && (s.meanDiff / x == 0.0 <==> s.meanDiff == 0.0)
  {
    var s := TTest(a).value;
    RootPositive(x, s.standardError.square);
    QuotientSign(s.meanDiff, x);
  }

  /** The non-negative root of a positive square is positive. */
  lemma RootPositive(x: real, square: real)
    requires x >= 0.0 && x * x == square && square > 0.0
    ensures x > 0.0
  {
    if x == 0.0 {
      assert false;
    }
  }

  /** Dividing by a positive number keeps the sign; stated over plain reals so that the
      nonlinear step is checked with only these facts in view. */
  lemma QuotientSign(a: real, x: real)
    requires x > 0.0
    ensures (a / x > 0.0 <==> a > 0.0) && (a / x < 0.0 <==> a < 0.0) && (a / x == 0.0 <==> a == 0.0)
  {
  }
}
