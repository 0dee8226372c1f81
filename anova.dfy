/** One-way and repeated-measures analysis of variance, as functions of the
    groups or of the subject-by-condition matrix. The F statistic is modelled;
    its p-value, from the F distribution, is not. */
module Anova {
  import opened Outcomes
  import opened Sums
  import opened Descriptive

  /** The groups' elements one after another: what one_way_anova collects
      with extend, and the flattening comprehension over the matrix rows. */
  function Concat(groups: seq<seq<real>>): (all: seq<real>)
    decreases |groups|
  {
    if |groups| == 0 then [] else Concat(groups[..|groups| - 1]) + groups[|groups| - 1]
  }

  /** Pooling two lists of groups pools their pooled data. */
  lemma {:induction false} ConcatAppend(gs: seq<seq<real>>, hs: seq<seq<real>>)
    ensures Concat(gs + hs) == Concat(gs) + Concat(hs)
    decreases |hs|
  {
    if |hs| == 0 {
      assert gs + hs == gs;
    } else {
      var hs' := hs[..|hs| - 1];
      assert (gs + hs)[..|gs + hs| - 1] == gs + hs';
      ConcatAppend(gs, hs');
    }
  }

  /** Reordering the groups reorders the pooled data. */
  lemma {:induction false} ConcatPermutation(gs: seq<seq<real>>, hs: seq<seq<real>>)
    requires multiset(gs) == multiset(hs)
    ensures multiset(Concat(gs)) == multiset(Concat(hs))
    decreases |gs|
  {
    if |gs| == 0 {
      assert |hs| == |multiset(hs)| == 0;
    } else {
      var n := |gs| - 1;
      var g := gs[n];
      DropLast(gs);
      assert g in multiset(gs);
      var j := PickOut(hs, g);
      var rest := hs[..j] + hs[j + 1..];
      ConcatPermutation(gs[..n], rest);
      ConcatMiddle(hs[..j], g, hs[j + 1..]);
    }
  }

  /** The multiset of the pooled data of before + [g] + after is that of
      before + after, plus g. */
  lemma ConcatMiddle(before: seq<seq<real>>, g: seq<real>, after: seq<seq<real>>)
    ensures multiset(Concat(before + [g] + after)) == multiset(Concat(before + after)) + multiset(g)
  {
    ConcatAppend(before + [g], after);
    ConcatAppend(before, [g]);
    ConcatAppend(before, after);
    assert Concat([g]) == g by {
      assert [g][..0] == [];
    }
  }

  /** No group (no row) is empty. */
  predicate NoneEmpty(gs: seq<seq<real>>)
  {
    forall i :: 0 <= i < |gs| ==> |gs[i]| > 0
  }

  /** Every group contributes its own length. */
  lemma {:induction false} ConcatLength(gs: seq<seq<real>>)
    ensures NoneEmpty(gs) ==> |Concat(gs)| >= |gs|
    decreases |gs|
  {
    if |gs| > 0 {
      var n := |gs| - 1;
      ConcatLength(gs[..n]);
      if NoneEmpty(gs) {
        assert NoneEmpty(gs[..n]) by {
          forall i | 0 <= i < n ensures |gs[..n][i]| > 0 {
            assert gs[..n][i] == gs[i];
          }
        }
      }
    }
  }

  /** Reordering keeps the groups, so it keeps whether one is empty. */
  lemma NoneEmptyPermutation(gs: seq<seq<real>>, hs: seq<seq<real>>)
    requires multiset(gs) == multiset(hs)
    ensures NoneEmpty(gs) <==> NoneEmpty(hs)
  {
    if !NoneEmpty(gs) {
      var i :| 0 <= i < |gs| && |gs[i]| == 0;
      assert gs[i] in multiset(hs);
      var j :| 0 <= j < |hs| && hs[j] == gs[i];
    }
    if !NoneEmpty(hs) {
      var j :| 0 <= j < |hs| && |hs[j]| == 0;
      assert hs[j] in multiset(gs);
      var i :| 0 <= i < |gs| && gs[i] == hs[j];
    }
  }

  // ----- one-way ANOVA -----

  /** What one_way_anova adds to ss_between for a group g: |g|·(mean(g) - m)². */
  function BetweenTerm(m: real): seq<real> -> real
  {
    g => if |g| == 0 then 0.0 else |g| as real * SquaredDeviation(m)(Mean(g))
  }

  /** What one_way_anova adds to ss_within for a group: the squared
      deviations of its elements from its own mean. */
  function WithinTerm(g: seq<real>): real
  {
    if |g| == 0 then 0.0 else SumSqDev(g, Mean(g))
  }

  function SSBetween(groups: seq<seq<real>>, m: real): (r: real)
    ensures r >= 0.0
  {
    forall i | 0 <= i < |groups| ensures BetweenTerm(m)(groups[i]) >= 0.0 {
      BetweenTermNonNegative(groups[i], m);
    }
    SumByNonNegative(groups, BetweenTerm(m));
    SumBy(groups, BetweenTerm(m))
  }

  /** A group's between-groups term is never negative. */
  lemma BetweenTermNonNegative(g: seq<real>, m: real)
    ensures BetweenTerm(m)(g) >= 0.0
  {
    if |g| > 0 {
      var sq := SquaredDeviation(m)(Mean(g));
      assert sq == (Mean(g) - m) * (Mean(g) - m);
      ProductNonNegative(|g| as real, sq);
    }
  }

  /** The between term spelled out for a group of n elements whose mean is gm. */
  lemma BetweenTermOf(g: seq<real>, m: real, gm: real, n: int)
    requires |g| > 0 && gm == Mean(g) && n == |g|
    ensures BetweenTerm(m)(g) == n as real * ((gm - m) * (gm - m))
  {
    assert SquaredDeviation(m)(gm) == (gm - m) * (gm - m);
  }

  function SSWithin(groups: seq<seq<real>>): (r: real)
    ensures r >= 0.0
  {
    SumByNonNegative(groups, WithinTerm);
    SumBy(groups, WithinTerm)
  }

  /** The one-way ANOVA table: sums of squares, degrees of freedom and F. */
  datatype OneWayTable = OneWayTable(
    ssBetween: real, ssWithin: real, dfBetween: int, dfWithin: int, f: real)

  /** one_way_anova over its groups. Every failure is a division by zero: no
      data at all or an empty group (a mean of nothing), a single group
      (df_between = 0), as many data as groups (df_within = 0), or no spread
      inside the groups (ms_within = 0). */
  function OneWay(groups: seq<seq<real>>): Result<OneWayTable>
  {
    var all := Concat(groups);
    if |all| == 0 || !NoneEmpty(groups) then Err(ZeroDivision)
    else OneWayRatio(SSBetween(groups, Mean(all)), SSWithin(groups), |groups|, |all|)
  }

  /** The last lines of one_way_anova: degrees of freedom, mean squares and
      their ratio, from the sums of squares, the number of groups and the
      number of data. */
  function OneWayRatio(ssb: real, ssw: real, groupCount: int, dataCount: int): Result<OneWayTable>
  {
    var dfb, dfw := groupCount - 1, dataCount - groupCount;
    if dfb == 0 || dfw == 0 then Err(ZeroDivision)
    else
      var msb, msw := ssb / dfb as real, ssw / dfw as real;
      if msw == 0.0 then Err(ZeroDivision)
      else Ok(OneWayTable(ssb, ssw, dfb, dfw, msb / msw))
  }

  /** When one_way_anova returns, its table is well formed: at least one
      degree of freedom on each side, a positive within-group sum of squares,
      and F >= 0. It returns exactly when there are two or more groups, none
      of them empty, more data than groups, and some spread inside a group. */
  lemma OneWayOutcome(groups: seq<seq<real>>)
    ensures OneWay(groups).Err? ==> OneWay(groups).error == ZeroDivision
    ensures OneWay(groups).Ok? <==>
      |groups| >= 2 && NoneEmpty(groups) && |Concat(groups)| > |groups| && SSWithin(groups) > 0.0
    ensures OneWay(groups).Ok? ==>
      var t := OneWay(groups).value;
      && t.dfBetween == |groups| - 1 >= 1
      && t.dfWithin == |Concat(groups)| - |groups| >= 1
      && t.ssBetween >= 0.0 && t.ssWithin > 0.0 && t.f >= 0.0
  {
    ConcatLength(groups);
    var all := Concat(groups);
    if |all| > 0 && NoneEmpty(groups) && |groups| >= 2 && |all| > |groups| {
      var overall := Mean(all);
      var ssb, ssw := SSBetween(groups, overall), SSWithin(groups);
      var dfb, dfw := (|groups| - 1) as real, (|all| - |groups|) as real;
      QuotientZero(ssw, dfw);
      if ssw != 0.0 {
        QuotientsNonNegative(ssb, ssw, dfb, dfw);
      }
    }
  }

  /** A quotient by a positive number is 0 exactly when its numerator is; stated over plain
      reals so that the nonlinear step is checked with only these facts in view. */
  lemma QuotientZero(a: real, b: real)
    requires b > 0.0
    ensures a / b == 0.0 <==> a == 0.0
  {
  }

  /** The F ratio of non-negative sums over positive degrees of freedom is non-negative. */
  lemma QuotientsNonNegative(a: real, b: real, da: real, db: real)
    requires a >= 0.0 && b > 0.0 && da > 0.0 && db > 0.0
    ensures (a / da) / (b / db) >= 0.0
  {
    assert a / da >= 0.0;
    assert b / db > 0.0;
  }

  /** The order of the groups does not matter. */
  lemma OneWayPermutation(gs: seq<seq<real>>, hs: seq<seq<real>>)
    requires multiset(gs) == multiset(hs)
    ensures OneWay(gs) == OneWay(hs)
  {
    assert |gs| == |multiset(gs)| == |multiset(hs)| == |hs|;
    NoneEmptyPermutation(gs, hs);
    ConcatPermutation(gs, hs);
    var all, all' := Concat(gs), Concat(hs);
    assert |all| == |multiset(all)| == |multiset(all')| == |all'|;
    if |all| > 0 {
      MeanPermutation(all, all');
      SumByPermutation(gs, hs, BetweenTerm(Mean(all)));
      SumByPermutation(gs, hs, WithinTerm);
    }
  }

  /** The partition one-way ANOVA rests on: the squared deviations of all
      the data from any point m are the between-group and the within-group
      sums of squares about m; in particular about the overall mean. */
  lemma {:induction false} TotalSumOfSquares(groups: seq<seq<real>>, m: real)
    ensures SumSqDev(Concat(groups), m) == SSBetween(groups, m) + SSWithin(groups)
    decreases |groups|
  {
    if |groups| > 0 {
      var n := |groups| - 1;
      var g := groups[n];
      TotalSumOfSquares(groups[..n], m);
      SumByAppend(Concat(groups[..n]), g, SquaredDeviation(m));
      GroupSplit(g, m);
      assert SSBetween(groups, m) == SSBetween(groups[..n], m) + BetweenTerm(m)(g);
      assert SSWithin(groups) == SSWithin(groups[..n]) + WithinTerm(g);
    }
  }

  /** One group's squared deviations from m: its between and within terms. */
  lemma GroupSplit(g: seq<real>, m: real)
    ensures SumSqDev(g, m) == BetweenTerm(m)(g) + WithinTerm(g)
  {
    if |g| > 0 {
      SumSqDevAboutMean(g, m);
    }
  }

  // ----- repeated-measures ANOVA -----

  /** Every subject has at least k entries. */
  predicate RowsReach(matrix: seq<seq<real>>, k: nat)
  {
    forall i :: 0 <= i < |matrix| ==> |matrix[i]| >= k
  }

  /** Entry j of every subject: condition j's column. */
  function Column(matrix: seq<seq<real>>, j: nat): seq<real>
    requires RowsReach(matrix, j + 1)
  {
    seq(|matrix|, i requires 0 <= i < |matrix| && RowsReach(matrix, j + 1) => matrix[i][j])
  }

  /** The means of the first k columns. */
  function ConditionMeans(matrix: seq<seq<real>>, k: nat): (means: seq<real>)
    requires |matrix| > 0 && RowsReach(matrix, k)
    ensures |means| == k
  {
    seq(k, j requires 0 <= j < k && |matrix| > 0 && RowsReach(matrix, k) => Mean(Column(matrix, j)))
  }

  /** What a subject adds to ss_subjects: the squared deviations of its first
      k entries from the mean of its whole row. */
  function SubjectTerm(k: nat): seq<real> -> real
  {
    row => if |row| == 0 || |row| < k then 0.0 else SumSqDev(row[..k], Mean(row))
  }

  function SSSubjects(matrix: seq<seq<real>>, k: nat): (r: real)
    ensures r >= 0.0
  {
    SumByNonNegative(matrix, SubjectTerm(k));
    SumBy(matrix, SubjectTerm(k))
  }

  /** What condition j adds to ss_conditions: n·(mean_j - overall)². */
  function ConditionTerm(n: nat, overall: real): real -> real
  {
    c => n as real * SquaredDeviation(overall)(c)
  }

  /** The condition term spelled out for a condition mean c. */
  lemma ConditionTermOf(n: nat, overall: real, c: real)
    ensures ConditionTerm(n, overall)(c) == n as real * ((c - overall) * (c - overall))
  {
    assert SquaredDeviation(overall)(c) == (c - overall) * (c - overall);
  }

  function SSConditions(means: seq<real>, n: nat, overall: real): (r: real)
    ensures r >= 0.0
  {
    forall j | 0 <= j < |means| ensures ConditionTerm(n, overall)(means[j]) >= 0.0 {
      var sq := SquaredDeviation(overall)(means[j]);
      assert sq == (means[j] - overall) * (means[j] - overall);
      ProductNonNegative(n as real, sq);
    }
    SumByNonNegative(means, ConditionTerm(n, overall));
    SumBy(means, ConditionTerm(n, overall))
  }

  /** ss_conditions is n times the squared deviations of the condition means
      from the overall mean. */
  lemma SSConditionsFactor(means: seq<real>, n: nat, overall: real)
    ensures SSConditions(means, n, overall) == n as real * SumSqDev(means, overall)
  {
    ConditionTermsScaled(means, n, overall);
    SumByScaled(means, means, SquaredDeviation(overall), ConditionTerm(n, overall), n as real);
  }

  /** Each condition's term is n times its squared deviation from the overall mean. */
  lemma ConditionTermsScaled(means: seq<real>, n: nat, overall: real)
    ensures ScaledTerms(means, means, SquaredDeviation(overall), ConditionTerm(n, overall), n as real)
  {
  }

  /** The repeated-measures table, with the condition means it computes. */
  datatype RepeatedTable = RepeatedTable(
    conditionMeans: seq<real>,
    ssSubjects: real, ssConditions: real, ssError: real,
    dfConditions: int, dfSubjects: int, dfError: int, f: real)

  /** repeated_measures_anova over a matrix of subjects (rows) by conditions
      (columns). The number of conditions k is the length of the first row;
      entries past k in longer rows count in the means but not in the sums
      of squares. No subjects is an index error on the first row; an empty
      row a mean of nothing; a row shorter than k an index error when its
      column is read; one condition, one subject or a zero error term a
      division by zero. */
  function RepeatedMeasures(matrix: seq<seq<real>>): Result<RepeatedTable>
  {
    if |matrix| == 0 then Err(IndexOutOfRange)
    else if !NoneEmpty(matrix) then Err(ZeroDivision)
    else if !RowsReach(matrix, |matrix[0]|) then Err(IndexOutOfRange)
    else
      var n, k := |matrix|, |matrix[0]|;
      ConcatLength(matrix);
      var means := ConditionMeans(matrix, k);
      RepeatedRatio(means, SSSubjects(matrix, k), SSConditions(means, n, Mean(Concat(matrix))), n, k)
  }

  /** The last lines of repeated_measures_anova: the error sum of squares,
      the degrees of freedom, the mean squares and their ratio. */
  function RepeatedRatio(means: seq<real>, ssS: real, ssC: real, n: int, k: int): Result<RepeatedTable>
  {
    var ssE := ssS - ssC;
    var dfC, dfS := k - 1, n - 1;
    var dfE := dfC * dfS;
    if dfC == 0 || dfE == 0 then Err(ZeroDivision)
    else
      var msC, msE := ssC / dfC as real, ssE / dfE as real;
      if msE == 0.0 then Err(ZeroDivision)
      else Ok(RepeatedTable(means, ssS, ssC, ssE, dfC, dfS, dfE, msC / msE))
  }

  /** The failures of repeated_measures_anova, in the order Python meets
      them: no subjects, an empty row, a row shorter than the first; after
      those only divisions by zero remain. */
  lemma RepeatedMeasuresErrors(matrix: seq<seq<real>>)
    ensures |matrix| == 0 ==> RepeatedMeasures(matrix) == Err(IndexOutOfRange)
    ensures |matrix| > 0 && !NoneEmpty(matrix) ==> RepeatedMeasures(matrix) == Err(ZeroDivision)
    ensures |matrix| > 0 && NoneEmpty(matrix) && !RowsReach(matrix, |matrix[0]|) ==>
      RepeatedMeasures(matrix) == Err(IndexOutOfRange)
    ensures |matrix| > 0 && NoneEmpty(matrix) && RowsReach(matrix, |matrix[0]|) ==>
      RepeatedMeasures(matrix).Err? ==> RepeatedMeasures(matrix).error == ZeroDivision
  {
  }

  /** repeated_measures_anova returns exactly when there are two or more
      subjects, no empty row, every row reaches the first row's length
      k >= 2, and the error term is not zero. */
  lemma RepeatedMeasuresDefined(matrix: seq<seq<real>>)
    ensures RepeatedMeasures(matrix).Ok? <==>
      && |matrix| >= 2 && NoneEmpty(matrix) && |matrix[0]| >= 2 && RowsReach(matrix, |matrix[0]|)
      && SSSubjects(matrix, |matrix[0]|)
         != SSConditions(ConditionMeans(matrix, |matrix[0]|), |matrix|, Mean(Concat(matrix)))
  {
    if |matrix| > 0 && NoneEmpty(matrix) && RowsReach(matrix, |matrix[0]|) {
      var n, k := |matrix|, |matrix[0]|;
      ConcatLength(matrix);
      var means := ConditionMeans(matrix, k);
      RepeatedRatioOutcome(means, SSSubjects(matrix, k), SSConditions(means, n, Mean(Concat(matrix))), n, k);
    }
  }

  /** The table repeated_measures_anova returns: df_error = (k - 1)(n - 1)
      >= 1, ss_conditions >= 0, ss_error = ss_subjects - ss_conditions, and
      the condition means are the column means. */
  lemma RepeatedMeasuresTable(matrix: seq<seq<real>>)
    ensures RepeatedMeasures(matrix).Ok? ==>
      var t, n, k := RepeatedMeasures(matrix).value, |matrix|, |matrix[0]|;
      && t.dfConditions == k - 1 >= 1 && t.dfSubjects == n - 1 >= 1
      && t.dfError == (k - 1) * (n - 1) >= 1
      && t.ssConditions >= 0.0
      && t.ssError == t.ssSubjects - t.ssConditions
      && |t.conditionMeans| == k
      && forall j :: 0 <= j < k ==> t.conditionMeans[j] == Mean(Column(matrix, j))
  {
    if RepeatedMeasures(matrix).Ok? {
      var n, k := |matrix|, |matrix[0]|;
      ConcatLength(matrix);
      var means := ConditionMeans(matrix, k);
      RepeatedRatioOutcome(means, SSSubjects(matrix, k), SSConditions(means, n, Mean(Concat(matrix))), n, k);
    }
  }

  /** The last lines fail only by dividing by zero, exactly for one
      condition, one subject or equal sums of squares; otherwise they
      return the sums and degrees of freedom they were given. */
  lemma RepeatedRatioOutcome(means: seq<real>, ssS: real, ssC: real, n: int, k: int)
    requires n >= 1 && k >= 1
    ensures RepeatedRatio(means, ssS, ssC, n, k).Err? ==>
      RepeatedRatio(means, ssS, ssC, n, k).error == ZeroDivision
    ensures RepeatedRatio(means, ssS, ssC, n, k).Ok? <==> n >= 2 && k >= 2 && ssS != ssC
    ensures RepeatedRatio(means, ssS, ssC, n, k).Ok? ==>
      var t := RepeatedRatio(means, ssS, ssC, n, k).value;
      && t.conditionMeans == means && t.ssSubjects == ssS && t.ssConditions == ssC
      && t.ssError == ssS - ssC
      && t.dfConditions == k - 1 >= 1 && t.dfSubjects == n - 1 >= 1
      && t.dfError == (k - 1) * (n - 1) >= 1
  {
    if k >= 2 && n >= 2 {
      QuotientZero(ssS - ssC, ((k - 1) * (n - 1)) as real);
    } else if n == 1 {
      assert (k - 1) * (n - 1) == 0;
    }
  }
}
