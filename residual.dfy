/** The error term of repeated_measures_anova. On a complete design, where
    every subject has the same k conditions, ss_subjects (every entry's
    squared deviation from its subject's mean) is at least ss_conditions.
    So ss_error = ss_subjects - ss_conditions is never negative, and every
    table that is returned has F >= 0. Extra entries in longer rows break
    this. */
module Residual {
  import opened Outcomes
  import opened Sums
  import opened Descriptive
  import opened Anova

  /** Every subject has exactly k entries. */
  predicate Rectangular(matrix: seq<seq<real>>, k: nat)
  {
    forall i :: 0 <= i < |matrix| ==> |matrix[i]| == k
  }

  /** The sum of f over the entries of a row or of a column. */
  function EntryTotal(f: real -> real): seq<real> -> real
  {
    xs => SumBy(xs, f)
  }

  /** The first k columns. */
  function Columns(matrix: seq<seq<real>>, k: nat): (cols: seq<seq<real>>)
    requires RowsReach(matrix, k)
    ensures |cols| == k
  {
    seq(k, j requires 0 <= j < k && RowsReach(matrix, k) => Column(matrix, j))
  }

  /** The subject means. */
  function SubjectMeans(matrix: seq<seq<real>>): (means: seq<real>)
    requires NoneEmpty(matrix)
    ensures |means| == |matrix|
  {
    seq(|matrix|, i requires 0 <= i < |matrix| && NoneEmpty(matrix) => Mean(matrix[i]))
  }

  /** Every subject's entries less that subject's mean. */
  function Centred(matrix: seq<seq<real>>): (c: seq<seq<real>>)
    requires NoneEmpty(matrix)
    ensures |c| == |matrix|
    ensures forall i :: 0 <= i < |c| ==> |c[i]| == |matrix[i]|
  {
    seq(|matrix|, i requires 0 <= i < |matrix| && NoneEmpty(matrix) => Affine(matrix[i], 1.0, -Mean(matrix[i])))
  }

  // ----- summing a matrix by rows or by columns -----

  /** Adding a subject appends its entry to every column. */
  lemma ColumnStep(matrix: seq<seq<real>>, j: nat)
    requires |matrix| > 0 && RowsReach(matrix, j + 1)
    ensures RowsReach(matrix[..|matrix| - 1], j + 1)
    ensures Column(matrix, j) == Column(matrix[..|matrix| - 1], j) + [matrix[|matrix| - 1][j]]
  {
    var n := |matrix| - 1;
    forall i | 0 <= i < n ensures |matrix[..n][i]| >= j + 1 {
      assert matrix[..n][i] == matrix[i];
    }
  }

  /** The column totals of a matrix are those of the matrix without its
      last subject, plus that subject's entries. */
  lemma ColumnsStep(matrix: seq<seq<real>>, k: nat, f: real -> real)
    requires |matrix| > 0 && Rectangular(matrix, k)
    ensures Rectangular(matrix[..|matrix| - 1], k) && RowsReach(matrix[..|matrix| - 1], k)
    ensures AddedTerms(Columns(matrix[..|matrix| - 1], k), matrix[|matrix| - 1], Columns(matrix, k),
                       EntryTotal(f), f, EntryTotal(f))
  {
    var n := |matrix| - 1;
    var prev, last := matrix[..n], matrix[n];
    forall i | 0 <= i < n ensures |prev[i]| == k {
      assert prev[i] == matrix[i];
    }
    var before, after := Columns(prev, k), Columns(matrix, k);
    forall j | 0 <= j < k ensures EntryTotal(f)(after[j]) == EntryTotal(f)(before[j]) + f(last[j]) {
      ColumnStep(matrix, j);
      var c := Column(prev, j);
      assert after[j] == c + [last[j]];
      assert (c + [last[j]])[..|c|] == c;
    }
  }

  /** Summing f over every entry gives the same total row by row as
      column by column. */
  lemma {:induction false} RowsThenColumns(matrix: seq<seq<real>>, k: nat, f: real -> real)
    requires Rectangular(matrix, k)
    ensures RowsReach(matrix, k)
    ensures SumBy(matrix, EntryTotal(f)) == SumBy(Columns(matrix, k), EntryTotal(f))
    decreases |matrix|
  {
    if |matrix| == 0 {
      var cols := Columns(matrix, k);
      forall j | 0 <= j < k ensures EntryTotal(f)(cols[j]) == 0.0 {
        assert cols[j] == [];
      }
      SumByConstant(cols, EntryTotal(f), 0.0);
    } else {
      var n := |matrix| - 1;
      ColumnsStep(matrix, k, f);
      RowsThenColumns(matrix[..n], k, f);
      SumByAdded(Columns(matrix[..n], k), matrix[n], Columns(matrix, k), EntryTotal(f), f, EntryTotal(f));
    }
  }

  // ----- ss_subjects as squares of centred entries -----

  /** One subject's term of ss_subjects is the sum of its squared centred
      entries. */
  lemma CentredRow(row: seq<real>, k: nat, y: seq<real>)
    requires |row| == k > 0 && y == Affine(row, 1.0, -Mean(row))
    ensures EntryTotal(SquaredDeviation(0.0))(y) == 1.0 * SubjectTerm(k)(row)
  {
    var r := Mean(row);
    assert row[..k] == row;
    ScaledSquareAll(row, y, r, 1.0, -r, 0.0, 1.0);
    AffineSumSqDev(row, y, r, 0.0, 1.0);
  }

  /** On a complete design ss_subjects sums the squares of all centred
      entries. */
  lemma SubjectsCentred(matrix: seq<seq<real>>, k: nat)
    requires k > 0 && Rectangular(matrix, k)
    ensures NoneEmpty(matrix)
    ensures SSSubjects(matrix, k) == SumBy(Centred(matrix), EntryTotal(SquaredDeviation(0.0)))
  {
    var ys := Centred(matrix);
    forall i | 0 <= i < |matrix|
      ensures EntryTotal(SquaredDeviation(0.0))(ys[i]) == 1.0 * SubjectTerm(k)(matrix[i])
    {
      CentredRow(matrix[i], k, ys[i]);
    }
    SumByScaled(matrix, ys, SubjectTerm(k), EntryTotal(SquaredDeviation(0.0)), 1.0);
  }

  // ----- the means of the centred columns -----

  /** The pooled data of a complete design has n·k entries. */
  lemma {:induction false} RectangularLength(matrix: seq<seq<real>>, k: nat)
    requires Rectangular(matrix, k)
    ensures |Concat(matrix)| == |matrix| * k
    decreases |matrix|
  {
    if |matrix| > 0 {
      var n := |matrix| - 1;
      forall i | 0 <= i < n ensures |matrix[..n][i]| == k {
        assert matrix[..n][i] == matrix[i];
      }
      RectangularLength(matrix[..n], k);
    }
  }

  /** The subjects' totals add up to the total of the pooled data. */
  lemma {:induction false} SumConcat(matrix: seq<seq<real>>)
    ensures SumBy(matrix, EntryTotal(Id)) == Sum(Concat(matrix))
    decreases |matrix|
  {
    if |matrix| > 0 {
      var n := |matrix| - 1;
      SumConcat(matrix[..n]);
      SumByAppend(Concat(matrix[..n]), matrix[n], Id);
    }
  }

  /** On a complete design the mean of the subject means is the overall mean. */
  lemma SubjectMeansMean(matrix: seq<seq<real>>, k: nat)
    requires |matrix| > 0 && k > 0 && Rectangular(matrix, k)
    ensures NoneEmpty(matrix) && |Concat(matrix)| > 0
    ensures Mean(SubjectMeans(matrix)) == Mean(Concat(matrix))
  {
    var q := 1.0 / k as real;
    var means, all := SubjectMeans(matrix), Concat(matrix);
    MeansScaled(matrix, k, q);
    SubjectMeansTotal(matrix, q);
    RectangularLength(matrix, k);
    MeanOfTotals(means, all, |matrix|, k, q, Sum(all));
  }

  /** Subject means that are q times the subject totals add up to q times
      the total of the pooled data. */
  lemma SubjectMeansTotal(matrix: seq<seq<real>>, q: real)
    requires NoneEmpty(matrix) && ScaledTerms(matrix, SubjectMeans(matrix), EntryTotal(Id), Id, q)
    ensures Sum(SubjectMeans(matrix)) == q * Sum(Concat(matrix))
  {
    SumByScaled(matrix, SubjectMeans(matrix), EntryTotal(Id), Id, q);
    SumConcat(matrix);
  }

  /** n means whose total is q·S, with q = 1/k, against n·k data totalling S. */
  lemma MeanOfTotals(means: seq<real>, all: seq<real>, n: nat, k: nat, q: real, total: real)
    requires |means| == n > 0 && k > 0 && |all| == n * k
    requires q == 1.0 / k as real && Sum(all) == total && Sum(means) == q * total
    ensures |all| > 0 && Mean(means) == Mean(all)
  {
    CastProduct(n, k, |all|);
    MeanOfAll(total, n as real, k as real, q, |all| as real, Sum(means));
  }

  /** Each subject mean is its total over k. */
  lemma MeansScaled(matrix: seq<seq<real>>, k: nat, q: real)
    requires k > 0 && Rectangular(matrix, k) && q == 1.0 / k as real
    ensures NoneEmpty(matrix)
    ensures ScaledTerms(matrix, SubjectMeans(matrix), EntryTotal(Id), Id, q)
  {
    var means := SubjectMeans(matrix);
    forall i | 0 <= i < |matrix| ensures Id(means[i]) == q * EntryTotal(Id)(matrix[i]) {
      ReciprocalScale(Sum(matrix[i]), k as real, q);
    }
  }

  /** Dividing by k is multiplying by 1/k; stated over plain reals so that the nonlinear
      step is checked with only these facts in view. */
  lemma ReciprocalScale(a: real, k: real, q: real)
    requires k > 0.0 && q == 1.0 / k
    ensures a / k == q * a
  {
  }

  /** The product of two integers, cast to real, is the product of the casts. */
  lemma CastProduct(n: int, k: int, p: int)
    requires p == n * k
    ensures p as real == n as real * k as real
  {
  }

  /** n means totalling total/k, against n·k data totalling total, have the same mean;
      stated over plain reals so that the nonlinear step is checked with only these facts
      in view. */
  lemma MeanOfAll(total: real, n: real, k: real, q: real, p: real, s: real)
    requires n > 0.0 && k > 0.0 && q == 1.0 / k && p == n * k && s == q * total
    ensures s / n == total / p
  {
  }

  /** Centring the subjects lowers every column mean by the mean of the
      subject means. */
  lemma CentredColumnMean(matrix: seq<seq<real>>, k: nat, j: nat)
    requires |matrix| > 0 && k > 0 && Rectangular(matrix, k) && j < k
    ensures NoneEmpty(matrix) && RowsReach(matrix, j + 1) && RowsReach(Centred(matrix), j + 1)
    ensures |Column(Centred(matrix), j)| == |Column(matrix, j)| == |matrix|
    ensures Mean(Column(Centred(matrix), j)) == Mean(Column(matrix, j)) - Mean(SubjectMeans(matrix))
  {
    var xs, ys, rs := Column(matrix, j), Column(Centred(matrix), j), SubjectMeans(matrix);
    forall i | 0 <= i < |matrix| ensures Id(xs[i]) == Id(ys[i]) + Id(rs[i]) {
      assert ys[i] == Affine(matrix[i], 1.0, -rs[i])[j];
    }
    SumByAdded(ys, rs, xs, Id, Id, Id);
    DifferenceQuotient(Sum(xs), Sum(ys), Sum(rs), |matrix| as real);
  }

  /** Division by n distributes over a difference; stated over plain reals so that the
      nonlinear step is checked with only these facts in view. */
  lemma DifferenceQuotient(a: real, b: real, c: real, n: real)
    requires n > 0.0 && a == b + c
    ensures b / n == a / n - c / n
  {
  }

  // ----- ss_conditions against the centred columns -----

  /** A column's squared entries are at least n times its squared mean. */
  lemma ColumnBound(col: seq<real>, n: nat)
    requires |col| == n > 0
    ensures n as real * SquaredDeviation(0.0)(Mean(col)) <= EntryTotal(SquaredDeviation(0.0))(col)
  {
    SumSqDevAboutMean(col, 0.0);
  }

  /** Condition j's term of ss_conditions is at most the sum of the squares
      of the centred column j. */
  lemma ConditionBound(matrix: seq<seq<real>>, k: nat, j: nat, g: real)
    requires |matrix| > 0 && k > 0 && Rectangular(matrix, k) && j < k
    requires RowsReach(matrix, k) && NoneEmpty(matrix) && g == Mean(SubjectMeans(matrix))
    ensures RowsReach(Centred(matrix), k)
    ensures ConditionTerm(|matrix|, g)(ConditionMeans(matrix, k)[j])
         <= EntryTotal(SquaredDeviation(0.0))(Columns(Centred(matrix), k)[j])
  {
    var n := |matrix|;
    CentredColumnMean(matrix, k, j);
    var c, ys := Mean(Column(matrix, j)), Column(Centred(matrix), j);
    ColumnBound(ys, n);
    TermBound(n, c, g, Mean(ys), EntryTotal(SquaredDeviation(0.0))(ys));
    assert ConditionMeans(matrix, k)[j] == c;
    assert Columns(Centred(matrix), k)[j] == ys;
  }

  /** n·(c - g)² is n times the square of the centred mean c - g. */
  lemma TermBound(n: nat, c: real, g: real, centred: real, bound: real)
    requires centred == c - g && n as real * SquaredDeviation(0.0)(centred) <= bound
    ensures ConditionTerm(n, g)(c) <= bound
  {
    var e := c - g;
    SquaredDeviationAt(g, c, e, e * e);
    SquaredDeviationAt(0.0, centred, e, e * e);
  }

  /** On a complete design ss_conditions is at most ss_subjects: the error
      sum of squares is never negative. */
  lemma ConditionsWithinSubjects(matrix: seq<seq<real>>, k: nat)
    requires |matrix| > 0 && k > 0 && Rectangular(matrix, k)
    ensures NoneEmpty(matrix) && RowsReach(matrix, k) && |Concat(matrix)| > 0
    ensures SSConditions(ConditionMeans(matrix, k), |matrix|, Mean(Concat(matrix))) <= SSSubjects(matrix, k)
  {
    var n := |matrix|;
    SubjectMeansMean(matrix, k);
    var g := Mean(Concat(matrix));
    var means, ys := ConditionMeans(matrix, k), Centred(matrix);
    var squares := EntryTotal(SquaredDeviation(0.0));
    assert Rectangular(ys, k);
    var cols := Columns(ys, k);
    forall j | 0 <= j < k ensures ConditionTerm(n, g)(means[j]) <= squares(cols[j]) {
      ConditionBound(matrix, k, j, g);
    }
    SumByBounded(means, cols, ConditionTerm(n, g), squares);
    RowsThenColumns(ys, k, SquaredDeviation(0.0));
    SubjectsCentred(matrix, k);
  }

  /** When every subject has as many entries as the first, a table that
      repeated_measures_anova returns has a positive error sum of squares
      and F >= 0. */
  lemma CompleteDesignRatio(matrix: seq<seq<real>>)
    requires |matrix| > 0 && Rectangular(matrix, |matrix[0]|)
    ensures RepeatedMeasures(matrix).Ok? ==>
      RepeatedMeasures(matrix).value.ssError > 0.0 && RepeatedMeasures(matrix).value.f >= 0.0
  {
    if RepeatedMeasures(matrix).Ok? {
      var k := |matrix[0]|;
      RepeatedMeasuresDefined(matrix);
      RepeatedMeasuresTable(matrix);
      ConditionsWithinSubjects(matrix, k);
      var t := RepeatedMeasures(matrix).value;
      assert t.ssSubjects == SSSubjects(matrix, k);
      assert t.ssConditions == SSConditions(ConditionMeans(matrix, k), |matrix|, Mean(Concat(matrix)));
      QuotientsNonNegative(t.ssConditions, t.ssError, t.dfConditions as real, t.dfError as real);
    }
  }

  // ----- an uneven matrix -----

  /** Two subjects; the second has three entries past the k = 2 conditions.
      Those entries raise the overall mean and the second subject's mean. */
  function Uneven(): seq<seq<real>> { [[0.0, 0.0], [0.0, 0.0, 5.0, 5.0, 5.0]] }

  /** Without a complete design the error sum of squares can be negative.
      Here repeated_measures_anova returns ss_error = -18/49 and F = -50. */
  lemma UnevenNegativeError()
    ensures RepeatedMeasures(Uneven()).Ok?
    ensures RepeatedMeasures(Uneven()).value.ssError == -18.0 / 49.0
    ensures RepeatedMeasures(Uneven()).value.f == -50.0
  {
    var m := Uneven();
    UnevenMeans(m);
    UnevenSubjects(m);
    UnevenConditions(15.0 / 7.0);
    UnevenRatio();
  }

  /** The pooled data and the condition means of the uneven matrix. */
  lemma UnevenMeans(m: seq<seq<real>>)
    requires m == Uneven()
    ensures NoneEmpty(m) && RowsReach(m, 2) && |Concat(m)| == 7
    ensures Mean(Concat(m)) == 15.0 / 7.0
    ensures ConditionMeans(m, 2) == [0.0, 0.0]
  {
    UnevenPooled(m);
    var zeros := [0.0, 0.0];
    assert Column(m, 0) == zeros && Column(m, 1) == zeros;
    SumByConstant(zeros, Id, 0.0);
  }

  /** The uneven matrix pools to seven entries totalling 15. */
  lemma UnevenPooled(m: seq<seq<real>>)
    requires m == Uneven()
    ensures |Concat(m)| == 7 && Sum(Concat(m)) == 15.0
  {
    var zeros, fives := [0.0, 0.0], [5.0, 5.0, 5.0];
    var second := zeros + fives;
    assert second == [0.0, 0.0, 5.0, 5.0, 5.0];
    assert m == [zeros, second];
    var none: seq<seq<real>> := [];
    assert m[..1] == [zeros] && m[..1][..0] == none;
    assert Concat(m[..1]) == zeros;
    assert Concat(m) == zeros + second;
    SumByConstant(zeros, Id, 0.0);
    SumByConstant(fives, Id, 5.0);
    SumByAppend(zeros, fives, Id);
    SumByAppend(zeros, second, Id);
  }

  /** Only the second subject deviates from its mean, which is 3. */
  lemma UnevenSubjects(m: seq<seq<real>>)
    requires m == Uneven()
    ensures SSSubjects(m, 2) == 18.0
  {
    var zeros, fives := [0.0, 0.0], [5.0, 5.0, 5.0];
    var second := zeros + fives;
    assert second == [0.0, 0.0, 5.0, 5.0, 5.0];
    assert m == [zeros, second];
    SumByConstant(zeros, Id, 0.0);
    SumByConstant(fives, Id, 5.0);
    SumByAppend(zeros, fives, Id);
    assert Mean(second) == 3.0;
    SumByConstant(zeros, SquaredDeviation(3.0), 9.0);
    SumSqDevOfConstant(zeros, 0.0);
    assert second[..2] == zeros && zeros[..2] == zeros;
    assert SubjectTerm(2)(second) == 18.0;
    assert SubjectTerm(2)(zeros) == 0.0;
    var none: seq<seq<real>> := [];
    assert m[..1] == [zeros] && m[..1][..0] == none;
    assert SumBy(m[..1], SubjectTerm(2)) == 0.0;
  }

  /** Both condition means are 0, which is 15/7 below the overall mean. */
  lemma UnevenConditions(g: real)
    requires g == 15.0 / 7.0
    ensures SSConditions([0.0, 0.0], 2, g) == 900.0 / 49.0
  {
    assert SquaredDeviation(g)(0.0) == 225.0 / 49.0;
    SumByConstant([0.0, 0.0], ConditionTerm(2, g), 450.0 / 49.0);
  }

  /** The last lines on those sums: ss_error = 18 - 900/49 < 0. */
  lemma UnevenRatio()
    ensures RepeatedRatio([0.0, 0.0], 18.0, 900.0 / 49.0, 2, 2)
         == Ok(RepeatedTable([0.0, 0.0], 18.0, 900.0 / 49.0, -18.0 / 49.0, 1, 1, 1, -50.0))
  {
  }
}
