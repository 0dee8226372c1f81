/** The routines of stats_functions.py as they run: each accumulator loop is a
    method whose postcondition equates its outcome with the specification in
    Descriptive, TwoSample or Anova. */
module StatsFunctions {
  import opened Outcomes
  import opened Sums
  import opened Descriptive
  import opened Anova

  /** arithmetic_mean: accumulates the total, then divides by the length. */
  method ArithmeticMean(data: seq<real>) returns (r: Result<real>)
    ensures |data| == 0 ==> r == Err(ZeroDivision)
    ensures |data| > 0 ==> r == Ok(Mean(data))
  {
    var total := 0.0;
    for i := 0 to |data|
      invariant total == Sum(data[..i])
    {
      SumByStep(data, i, Id);
      total := total + data[i];
    }
    assert data[..|data|] == data;
    if |data| == 0 {
      return Err(ZeroDivision);
    }
    return Ok(total / |data| as real);
  }

  /** harmonic_mean: counts and reciprocates the positive elements only. */
  method HarmonicMean(data: seq<real>) returns (r: real)
    ensures r == HarmonicMeanOf(data)
  {
    var reciprocalSum := 0.0;
    var count := 0;
    for i := 0 to |data|
      invariant reciprocalSum == ReciprocalSum(data[..i])
      invariant count == PositiveCount(data[..i])
    {
      SumByStep(data, i, Reciprocal);
      assert data[..i + 1][..i] == data[..i];
      if data[i] > 0.0 {
        reciprocalSum := reciprocalSum + 1.0 / data[i];
        count := count + 1;
      }
    }
    assert data[..|data|] == data;
    if count == 0 {
      return 0.0;
    }
    PositiveTally(data);
    return count as real / reciprocalSum;
  }

  /** standard_deviation: the mean first, then the squared deviations from it,
      divided by the length; the result is kept as the root of that variance. */
  method StandardDeviation(data: seq<real>) returns (r: Result<Root>)
    ensures |data| == 0 ==> r == Err(ZeroDivision)
    ensures |data| > 0 ==> r == Ok(Root(Variance(data)))
  {
    var mean :- ArithmeticMean(data);
    var squaredDiffSum := 0.0;
    for i := 0 to |data|
      invariant squaredDiffSum == SumSqDev(data[..i], mean)
    {
      SumSqDevStep(data, i, mean, data[i]);
      squaredDiffSum := squaredDiffSum + (data[i] - mean) * (data[i] - mean);
    }
    assert data[..|data|] == data;
    var variance := squaredDiffSum / |data| as real;
    return Ok(Root(variance));
  }

  /** pooled_std: walks the pairs that zip forms, accumulating (n - 1)·s² and
      the integer n - 1, then divides and takes the root. */
  method PooledStd(stdList: seq<real>, nList: seq<int>) returns (r: Result<Root>)
    ensures r == Pooled(stdList, nList)
  {
    var numerator := 0.0;
    var denominator := 0;
    ghost var pairs := Zip(stdList, nList);
    var len := if |stdList| <= |nList| then |stdList| else |nList|;
    assert |pairs| == len;
    for i := 0 to len
      invariant numerator == SumBy(pairs[..i], WeightedSquare)
      invariant denominator as real == SumBy(pairs[..i], DegreesOfFreedom)
    {
      var s, n := stdList[i], nList[i];
      assert pairs[i] == (s, n);
      SumByStep(pairs, i, WeightedSquare);
      SumByStep(pairs, i, DegreesOfFreedom);
      numerator := numerator + (n - 1) as real * (s * s);
      denominator := denominator + (n - 1);
    }
    assert pairs[..len] == pairs;
    if denominator == 0 {
      return Err(ZeroDivision);
    }
    var variance := numerator / denominator as real;
    if variance < 0.0 {
      return Err(MathDomain);
    }
    return Ok(Root(variance));
  }

  /** one_way_anova: pools the groups with extend, then accumulates both sums
      of squares group by group, then divides. */
  method OneWayAnova(groups: seq<seq<real>>) returns (r: Result<OneWayTable>)
    ensures r == OneWay(groups)
  {
    var allData: seq<real> := [];
    for g := 0 to |groups|
      invariant allData == Concat(groups[..g])
    {
      assert groups[..g + 1][..g] == groups[..g];
      allData := allData + groups[g];
    }
    assert groups[..|groups|] == groups;
    var overallMean :- ArithmeticMean(allData);
    var sums :- GroupSumsOfSquares(groups, overallMean);
    var (ssBetween, ssWithin) := sums;
    var dfBetween := |groups| - 1;
    var dfWithin := |allData| - |groups|;
    if dfBetween == 0 {
      return Err(ZeroDivision);
    }
    var msBetween := ssBetween / dfBetween as real;
    if dfWithin == 0 {
      return Err(ZeroDivision);
    }
    var msWithin := ssWithin / dfWithin as real;
    if msWithin == 0.0 {
      return Err(ZeroDivision);
    }
    return Ok(OneWayTable(ssBetween, ssWithin, dfBetween, dfWithin, msBetween / msWithin));
  }

  /** The innermost loops of both analyses: adds (x - m)² to the running
      total for every x of xs in turn. */
  method AddSquaredDeviations(total: real, xs: seq<real>, m: real) returns (sum: real)
    ensures sum == total + SumSqDev(xs, m)
  {
    sum := total;
    for j := 0 to |xs|
      invariant sum == total + SumSqDev(xs[..j], m)
    {
      SumSqDevStep(xs, j, m, xs[j]);
      sum := sum + (xs[j] - m) * (xs[j] - m);
    }
    assert xs[..|xs|] == xs;
  }

  /** The group loop of one_way_anova: ss_between and ss_within about the
      overall mean m, or the division by zero of an empty group's mean. */
  method GroupSumsOfSquares(groups: seq<seq<real>>, m: real) returns (r: Result<(real, real)>)
    ensures NoneEmpty(groups) ==> r == Ok((SSBetween(groups, m), SSWithin(groups)))
    ensures !NoneEmpty(groups) ==> r == Err(ZeroDivision)
  {
    var ssBetween, ssWithin := 0.0, 0.0;
    for g := 0 to |groups|
      invariant NoneEmpty(groups[..g])
      invariant ssBetween == SSBetween(groups[..g], m)
      invariant ssWithin == SSWithin(groups[..g])
    {
      var group := groups[g];
      var groupMean :- ArithmeticMean(group);
      var n := |group|;
      BetweenTermOf(group, m, groupMean, n);
      ssBetween := ssBetween + n as real * ((groupMean - m) * (groupMean - m));
      ssWithin := AddSquaredDeviations(ssWithin, group, groupMean);
      SumByStep(groups, g, BetweenTerm(m));
      SumByStep(groups, g, WithinTerm);
      assert groups[..g + 1] == groups[..g] + [group];
    }
    assert groups[..|groups|] == groups;
    return Ok((ssBetween, ssWithin));
  }

  /** repeated_measures_anova: the overall and subject means, the condition
      means, the two sums of squares, then the ratio. */
  method RepeatedMeasuresAnova(matrix: seq<seq<real>>) returns (r: Result<RepeatedTable>)
    ensures r == RepeatedMeasures(matrix)
  {
    var n := |matrix|;
    if n == 0 {
      return Err(IndexOutOfRange);
    }
    var k := |matrix[0]|;
    var allValues := Concat(matrix);
    ConcatLength(matrix);
    var overallMean :- ArithmeticMean(allValues);
    if !NoneEmpty(matrix) {
      return Err(ZeroDivision);
    }
    var subjectMeans := seq(n, i requires 0 <= i < n && NoneEmpty(matrix) => Mean(matrix[i]));
    var conditionMeans :- ConditionMeansOf(matrix, k);
    var ssSubjects := SubjectsSumOfSquares(matrix, subjectMeans, k);
    var ssConditions := ConditionsSumOfSquares(conditionMeans, n, overallMean);
    r := RepeatedRatioOf(conditionMeans, ssSubjects, ssConditions, n, k);
  }

  /** The last lines of repeated_measures_anova: ss_error, the degrees of
      freedom, the mean squares and the F ratio, or the division by zero. */
  method RepeatedRatioOf(conditionMeans: seq<real>, ssSubjects: real, ssConditions: real, n: int, k: int)
    returns (r: Result<RepeatedTable>)
    ensures r == RepeatedRatio(conditionMeans, ssSubjects, ssConditions, n, k)
    ensures n >= 1 && k >= 1 ==> (r.Err? ==> r.error == ZeroDivision)
    ensures n >= 1 && k >= 1 ==> (r.Ok? <==> n >= 2 && k >= 2 && ssSubjects != ssConditions)
    ensures r.Ok? ==> r.value.ssError == ssSubjects - ssConditions && r.value.dfError == (k - 1) * (n - 1)
  {
    if n >= 1 && k >= 1 {
      RepeatedRatioOutcome(conditionMeans, ssSubjects, ssConditions, n, k);
    }
    var ssError := ssSubjects - ssConditions;
    var dfConditions := k - 1;
    var dfSubjects := n - 1;
    var dfError := dfConditions * dfSubjects;
    if dfConditions == 0 {
      return Err(ZeroDivision);
    }
    var msConditions := ssConditions / dfConditions as real;
    if dfError == 0 {
      return Err(ZeroDivision);
    }
    var msError := ssError / dfError as real;
    if msError == 0.0 {
      return Err(ZeroDivision);
    }
    return Ok(RepeatedTable(conditionMeans, ssSubjects, ssConditions, ssError,
                            dfConditions, dfSubjects, dfError, msConditions / msError));
  }

  /** The condition-means loop of repeated_measures_anova: the mean of each
      of the first k columns, or the index error of a row too short for a
      column. */
  method ConditionMeansOf(matrix: seq<seq<real>>, k: nat) returns (r: Result<seq<real>>)
    requires |matrix| > 0
    ensures RowsReach(matrix, k) ==> r == Ok(ConditionMeans(matrix, k))
    ensures !RowsReach(matrix, k) ==> r == Err(IndexOutOfRange)
  {
    var n := |matrix|;
    var conditionMeans: seq<real> := [];
    for j := 0 to k
      invariant RowsReach(matrix, j)
      invariant conditionMeans == ConditionMeans(matrix, j)
    {
      if exists i :: 0 <= i < n && |matrix[i]| <= j {
        return Err(IndexOutOfRange);
      }
      var col := Column(matrix, j);
      var mean := ArithmeticMean(col);
      conditionMeans := conditionMeans + [mean.value];
    }
    return Ok(conditionMeans);
  }

  /** The ss_subjects loop: each subject's first k entries against its mean. */
  method SubjectsSumOfSquares(matrix: seq<seq<real>>, subjectMeans: seq<real>, k: nat) returns (ss: real)
    requires NoneEmpty(matrix) && RowsReach(matrix, k) && |subjectMeans| == |matrix|
    requires forall i :: 0 <= i < |matrix| ==> subjectMeans[i] == Mean(matrix[i])
    ensures ss == SSSubjects(matrix, k)
  {
    ss := 0.0;
    for i := 0 to |matrix|
      invariant ss == SSSubjects(matrix[..i], k)
    {
      ss := AddSquaredDeviations(ss, matrix[i][..k], subjectMeans[i]);
      SumByStep(matrix, i, SubjectTerm(k));
    }
    assert matrix[..|matrix|] == matrix;
  }

  /** The ss_conditions loop: n·(mean_j - overall)² for every condition j. */
  method ConditionsSumOfSquares(means: seq<real>, n: nat, overall: real) returns (ss: real)
    ensures ss == SSConditions(means, n, overall)
  {
    ss := 0.0;
    for j := 0 to |means|
      invariant ss == SSConditions(means[..j], n, overall)
    {
      SumByStep(means, j, ConditionTerm(n, overall));
      ConditionTermOf(n, overall, means[j]);
      ss := ss + n as real * ((means[j] - overall) * (means[j] - overall));
    }
    assert means[..|means|] == means;
  }
}
