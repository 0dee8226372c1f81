# Statistics routines of homework2/stats_functions.py, modelled in Dafny

The model covers the seven routines of `homework2/stats_functions.py`:

- `arithmetic_mean`
- `harmonic_mean`
- `standard_deviation`
- `pooled_std`
- `t_test`
- `one_way_anova`
- `repeated_measures_anova`

All arithmetic is exact, over `real`.

Modules:

- `Outcomes` (outcomes.dfy) holds `Option`, standing for Python's `None`, and `Result`. A `Result` is the value a routine returns or the exception it raises:
  - `ZeroDivisionError`;
  - the `ValueError` of `math.sqrt` on a negative number;
  - `IndexError`;
  - the `TypeError` of arithmetic on `None`.
- `Sums` (sums.dfy) holds the one finite sum all the loops compute: a left fold `SumBy(xs, f)` that adds the last element last, as an accumulator loop does. Its lemmas cover:
  - appending;
  - permutation;
  - non-negativity and the zero case;
  - constant, linear, scaled, added and bounded terms.
- `Descriptive` (descriptive.dfy) gives the mean, harmonic mean, population variance and pooled variance as functions of the whole input, with their properties.
- `TwoSample` (ttest.dfy) gives `t_test` as a pure function: the input-mode selection followed by the straight-line formula.
- `Anova` (anova.dfy) gives both analyses of variance as functions of the groups or of the subject-by-condition matrix.
- `StatsFunctions` (stats_functions.dfy) holds the loops as they run. Each accumulator loop is a `method` with loop invariants, and its postcondition equates its outcome with the functions above. The nested loops of the two analyses are split into one method per loop.
- `Residual` (residual.dfy) is about the error term of `repeated_measures_anova`. When every subject has the same k entries, ss_subjects ≥ ss_conditions. So every table returned has ss_error > 0 and F ≥ 0. A concrete uneven matrix shows that extra entries in a longer row can make ss_error and F negative.

`math.sqrt` is not computed. A quantity the source passes through it is kept as `Root(square)`: the standard deviation as `Root(variance)`, the t statistic's denominator as `Root(pooled variance · (1/n1 + 1/n2))`. `IsRootOf(x, r)` says that `x` is the value `math.sqrt` returns. The domain error of a negative radicand is modelled.

The exceptions the code can raise are modelled as `Err` results, never as preconditions. Each one is raised in the order Python evaluates its expressions. One example: in `t_test` a missing `n1` fails, as a `TypeError`, before a missing `sigma1`.

Two behaviours of the code that a reader might not expect, which the model keeps:

- **Empty input to `arithmetic_mean`:** an empty list is not rejected up front; `total / len(data)` raises `ZeroDivisionError`.
- **Matrix shape in `repeated_measures_anova`:** the code does not check that the matrix is rectangular.
  - k is the length of the first row.
  - A shorter row raises `IndexError` when its column is read.
  - Entries past k in a longer row count in the overall mean and in that subject's mean, but in no column.

## Model

| member | source | states |
|---|---|---|
| StatsFunctions.ArithmeticMean | homework2/stats_functions.py:9-16 | the loop's total is the sum of the elements; an empty list divides by zero, otherwise the result is that sum over the length |
| Descriptive.MeanOfConstant | homework2/stats_functions.py:9-16 | the mean of a list whose every element is c is c |
| Descriptive.MeanPermutation | homework2/stats_functions.py:9-16 | reordering the elements does not change the mean |
| Descriptive.MeanAffine | homework2/stats_functions.py:9-16 | multiplying every element by k and adding d maps the mean m to k·m + d |
| StatsFunctions.HarmonicMean | homework2/stats_functions.py:19-35 | the loop counts and reciprocates exactly the strictly positive elements and returns count / Σ 1/x, or 0 when no element is positive |
| Descriptive.PositiveTally | homework2/stats_functions.py:27-30 | the count is positive exactly when some element is positive; the sum of reciprocals is ≥ 0, and > 0 once something was counted |
| Descriptive.HarmonicMeanOf | homework2/stats_functions.py:19-35 | the harmonic mean is ≥ 0, and > 0 exactly when some element is strictly positive |
| Descriptive.HarmonicMeanOfConstant | homework2/stats_functions.py:19-35 | a list whose every element is c has harmonic mean c when c > 0, and 0 when c ≤ 0 |
| Descriptive.HarmonicAtMostArithmetic | homework2/stats_functions.py:9-35 | for strictly positive data, 0 < harmonic mean ≤ arithmetic mean |
| Descriptive.SumTimesReciprocalSum | homework2/stats_functions.py:9-35 | for strictly positive data, (Σ x)·(Σ 1/x) ≥ n², the inequality behind the previous row |
| StatsFunctions.StandardDeviation | homework2/stats_functions.py:41-52 | an empty list divides by zero; otherwise the result is the root of the squared deviations from the mean divided by n, not n - 1 |
| StatsFunctions.AddSquaredDeviations | homework2/stats_functions.py:48-49 | the inner loop adds exactly the squared deviations of the list from the given point to the running total |
| Descriptive.SumSqDev | homework2/stats_functions.py:48-49 | a sum of squared deviations is never negative |
| Descriptive.Variance | homework2/stats_functions.py:51 | the variance is never negative, so the math.sqrt of standard_deviation never fails |
| Descriptive.VarianceOfConstant | homework2/stats_functions.py:41-52 | a list whose every element is the same has variance 0 |
| Descriptive.VariancePermutation | homework2/stats_functions.py:41-52 | reordering the elements does not change the variance |
| Descriptive.SumSqDevAboutMean | homework2/stats_functions.py:45-49 | the squared deviations from any point m are those from the mean plus n·(mean - m)²; so the mean minimises them |
| Descriptive.VarianceAffine | homework2/stats_functions.py:41-52 | adding d to every element leaves the variance unchanged; multiplying by k multiplies it by k² |
| Descriptive.StandardDeviationAffine | homework2/stats_functions.py:41-52 | for the values math.sqrt returns, the standard deviation of k·x + d is \|k\| times that of x |
| StatsFunctions.PooledStd | homework2/stats_functions.py:58-70 | the loop walks the pairs zip forms and returns the root of Σ(n_i - 1)·s_i² / Σ(n_i - 1), raising if the denominator is 0 or the quotient is negative |
| Descriptive.Zip | homework2/stats_functions.py:66 | zip pairs as many elements as the shorter list has |
| Descriptive.PooledCommonSpread | homework2/stats_functions.py:58-70 | groups that share one standard deviation s have pooled variance s², whatever their sizes, when the degrees of freedom do not sum to 0 |
| Descriptive.PooledDefinedness | homework2/stats_functions.py:58-70 | for group sizes ≥ 1, pooled_std divides by zero exactly when every paired size is 1, and math.sqrt never fails |
| TwoSample.TTest | homework2/stats_functions.py:76-112 | a returned statistic has a positive squared denominator; an empty sample in raw-data mode divides by zero; in raw-data mode df = len(data1) + len(data2) - 2 (its full meaning is stated by RawModeIgnoresSummary, RawModeCharacterized and SignOfT) |
| TwoSample.Inputs | homework2/stats_functions.py:87-99 | the mode selection fails exactly in raw-data mode with an empty sample, and then by dividing by zero; in raw-data mode the sizes are the sample lengths; otherwise mu1 and mu2 pass through; every squared sigma is ≥ 0 |
| TwoSample.FromSample | homework2/stats_functions.py:89-99 | a summarised sample has n = len(data) and a variance ≥ 0; its mean is the arithmetic mean unless mean_type is exactly "harmonic", and then it is ≥ 0 |
| TwoSample.SquareOf | homework2/stats_functions.py:104 | sigma**2 is present exactly when sigma is, and is never negative |
| TwoSample.Statistic | homework2/stats_functions.py:101-107 | when the formula returns, its squared denominator is positive, df = n1 + n2 - 2 and the numerator is mu1 - mu2 |
| TwoSample.RawModeIgnoresSummary | homework2/stats_functions.py:87-99 | with both samples given, mu, sigma and n arguments are overwritten, and only whether mean_type is exactly "harmonic" matters |
| TwoSample.RawModeCharacterized | homework2/stats_functions.py:87-107 | in raw-data mode t_test fails only by dividing by zero. That happens exactly for an empty sample, two one-element samples or a zero pooled variance. Otherwise df = n1 + n2 - 2, the numerator is the difference of the selected means, and the squared denominator is the pooled variance times (1/n1 + 1/n2) |
| TwoSample.KnownStatistic | homework2/stats_functions.py:101-107 | the same for any means, any sizes ≥ 1 and any variances ≥ 0, as the summary mode receives them |
| TwoSample.PooledVarianceNonNegative | homework2/stats_functions.py:103-105 | with sizes ≥ 1, n1 + n2 > 2 and variances ≥ 0, the pooled variance is ≥ 0, so its math.sqrt does not fail |
| TwoSample.SizeFactorPositive | homework2/stats_functions.py:107 | 1/n1 + 1/n2 > 0 for sizes ≥ 1 |
| TwoSample.SignOfT | homework2/stats_functions.py:107 | for the value math.sqrt returns, t is positive, negative or zero exactly as mu1 - mu2 is |
| StatsFunctions.OneWayAnova | homework2/stats_functions.py:118-150 | extend pools the groups, the group loop accumulates both sums of squares, and the result is the one-way table or its division by zero |
| StatsFunctions.GroupSumsOfSquares | homework2/stats_functions.py:133-142 | the group loop yields ss_between about the overall mean and ss_within; an empty group divides by zero |
| Anova.ConcatLength | homework2/stats_functions.py:124-126 | when no group is empty, the pooled data has at least one element per group |
| Anova.ConcatPermutation | homework2/stats_functions.py:124-126 | reordering the groups reorders the pooled data |
| Anova.SSBetween | homework2/stats_functions.py:138 | ss_between ≥ 0 |
| Anova.SSWithin | homework2/stats_functions.py:141-142 | ss_within ≥ 0 |
| Anova.OneWayOutcome | homework2/stats_functions.py:118-150 | one_way_anova fails only by dividing by zero. It returns exactly for ≥ 2 non-empty groups, more data than groups and ss_within > 0. Then df_between = groups - 1 ≥ 1, df_within = data - groups ≥ 1, ss_between ≥ 0 and F ≥ 0 |
| Anova.OneWayPermutation | homework2/stats_functions.py:118-150 | the order of the groups does not change the outcome: sums of squares, degrees of freedom and F |
| Anova.TotalSumOfSquares | homework2/stats_functions.py:128-142 | the squared deviations of all the data from any point split into the between-group and within-group sums |
| Anova.GroupSplit | homework2/stats_functions.py:134-142 | one group's squared deviations from the overall mean split into its between and within terms |
| StatsFunctions.RepeatedMeasuresAnova | homework2/stats_functions.py:160-204 | the flattening, the mean comprehensions and the three loops compute the repeated-measures table or its error |
| StatsFunctions.ConditionMeansOf | homework2/stats_functions.py:179-182 | the loop appends the mean of each of the first k columns; a row shorter than k raises IndexError |
| StatsFunctions.SubjectsSumOfSquares | homework2/stats_functions.py:185-188 | the nested loop adds each subject's first k entries' squared deviations from that subject's mean |
| StatsFunctions.ConditionsSumOfSquares | homework2/stats_functions.py:191-193 | the loop adds n·(condition mean - overall mean)² for every condition |
| StatsFunctions.RepeatedRatioOf | homework2/stats_functions.py:195-204 | for at least one subject and one condition it fails only by dividing by zero, and it returns exactly when n ≥ 2, k ≥ 2 and ss_subjects ≠ ss_conditions; a returned table has ss_error = ss_subjects - ss_conditions and df_error = (k - 1)(n - 1) |
| Anova.SSSubjects | homework2/stats_functions.py:185-188 | ss_subjects ≥ 0 |
| Anova.SSConditions | homework2/stats_functions.py:191-193 | ss_conditions ≥ 0 |
| Anova.SSConditionsFactor | homework2/stats_functions.py:191-193 | ss_conditions is n times the squared deviations of the condition means from the overall mean |
| Anova.RepeatedMeasuresErrors | homework2/stats_functions.py:168-202 | no subjects raises IndexError, an empty row ZeroDivisionError, a row shorter than the first IndexError; beyond those only division by zero remains |
| Anova.RepeatedMeasuresDefined | homework2/stats_functions.py:168-204 | the analysis returns exactly when there are ≥ 2 subjects, no empty row, every row reaches the first row's length k ≥ 2, and ss_subjects ≠ ss_conditions |
| Anova.RepeatedMeasuresTable | homework2/stats_functions.py:179-199 | a returned table has df_conditions = k - 1 ≥ 1, df_subjects = n - 1 ≥ 1, df_error = (k - 1)(n - 1) ≥ 1, ss_conditions ≥ 0 and ss_error = ss_subjects - ss_conditions; condition mean j is the mean of column j |
| Anova.RepeatedRatioOutcome | homework2/stats_functions.py:195-204 | the last lines fail only by dividing by zero, exactly for one condition, one subject or ss_error = 0, and otherwise keep the sums and degrees of freedom they were given |
| Residual.RowsThenColumns | homework2/stats_functions.py:185-193 | on a complete design a sum over every entry is the same row by row as column by column |
| Residual.SubjectsCentred | homework2/stats_functions.py:185-188 | on a complete design ss_subjects is the sum of the squares of every entry less its subject's mean |
| Residual.SubjectMeansMean | homework2/stats_functions.py:172-176 | on a complete design the mean of the subject means is the overall mean |
| Residual.CentredColumnMean | homework2/stats_functions.py:176-182 | subtracting every subject's mean from its entries lowers each column mean by the mean of the subject means |
| Residual.ConditionsWithinSubjects | homework2/stats_functions.py:185-195 | on a complete design ss_conditions ≤ ss_subjects, so ss_error ≥ 0 |
| Residual.CompleteDesignRatio | homework2/stats_functions.py:195-204 | when every row is as long as the first, a returned table has ss_error > 0 and F ≥ 0 |
| Residual.UnevenNegativeError | homework2/stats_functions.py:168-204 | on [[0, 0], [0, 0, 5, 5, 5]] the analysis returns ss_error = -18/49 and F = -50: extra entries in a longer row can make F negative |

## Left out

- `math.sqrt`: its value is not computed. A root is kept as its square (`Root`), and `IsRootOf` says when a real number is it. The model has no square-root function, so `standard_deviation` and `pooled_std` return `Root(variance)`.
- p-values (`stats.t.cdf` at line 110, `stats.f.cdf` at lines 152 and 206): the distributions belong to scipy and are not part of this model. The results are the statistics and their degrees of freedom.
- Floating point: all arithmetic is exact over `real`. Rounding, overflow, `inf` and `nan` are not modelled, nor is Python's distinction between `int` and `float` data.
- Dynamic typing: the data are lists of numbers. The only `None` modelled is an absent keyword argument of `t_test`. Non-numeric elements and non-list arguments are not modelled.
- t_test: the result is `TStatistic(meanDiff, Root(pooled variance · (1/n1 + 1/n2)), df)`. The final quotient t is stated through `SignOfT` for the value `math.sqrt` would return, not computed.
- Descriptive.VarianceOfConstant: states only that a constant list has variance 0, not the converse that variance 0 forces a constant list.
- Descriptive.HarmonicAtMostArithmetic: does not state that equal means imply constant data, because that direction needs the strict case of the Cauchy–Schwarz step in SumTimesReciprocalSum; the other direction (constant data gives equal means) follows from MeanOfConstant with HarmonicMeanOfConstant.
- Anova.OneWayPermutation: the permutation is of whole groups; the order of the elements inside a group also does not matter, but that is only stated through `MeanPermutation` and `VariancePermutation`.
- homework2/analysis.py: file discovery, CSV parsing and pandas grouping that feed these routines; it is not part of this model.
- homework2/test.py: a driver that prints results for a few inputs; its inputs are not replayed in the model.
