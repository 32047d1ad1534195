# lib-math classification core, modelled in Dafny

This project models the classification statistics of lib-math: receiver
operating characteristic (ROC) curves, areas under them and their confidence
intervals, and the Hosmer–Lemeshow goodness-of-fit test with its calibration
errors. Each part is stated as Dafny code and proved against a specification.

- `data.dfy`: the observed/predicted pairs (`ObservedPredictedValue` with an
  `int` label, the legacy `ProbabilityValue` with a `byte` label). It holds
  their `compareTo`, sorting as a function (`SortAscending`,
  `SortDescending`), the in-place array sort `SortArray`, and the split of
  the pairs into positives and the rest.
- `java_double.dfy`: the behaviour of Java `double` the estimators depend on.
  A `double` is the datatype `JavaDouble.Double`, one of:
  - `Finite(value)`, holding an exact real;
  - `PositiveInfinity`, `NegativeInfinity` or `NaN`.

  Division by zero, the propagation of NaN and infinities, and the
  saturating `(int)` cast are written out. `Int32` models 32-bit `int`
  wrap-around.
- `confusion_matrix.dfy`: `ConfusionMatrix` and its ten rates.
- `roc_curve.dfy`: `ROCCurve`. Its threshold sweep is the function `Sweep`
  and its trapezoid area is `Area`. The sweep is given in closed form (counts
  at or above each threshold), and the area is proved equal to the pairwise
  Mann–Whitney AUC.
- `delong_roc_curve.dfy`: `DeLongROCCurve`. Its `sens`/`spec` loops, its
  confusion matrices and its area are computed in doubles. The area is
  proved equal to `ROCCurve`'s.
- `placement.dfy`: DeLong's placement values, their means and the
  `sNorm`/`sAbnorm` variances.
- `auroc.dfy`: the legacy `AUROC` class (a `class` over arrays): its walk
  from the highest prediction, the ROC points, accuracy, precision and F1,
  and the seven threshold curves.
- `confidence_interval.dfy`: `AbstractConfidenceInterval`, the Hanley and
  DeLong standard errors, and `HanleyAUC`/`DeLongAUC`.
- `hl_groups.dfy`, `hl_statistics.dfy`: the specification of the
  Hosmer–Lemeshow groups and statistics.
  - `GroupsFrom`/`Groups` list the non-empty decile or risk groups of the
    sorted pairs.
  - Per group: `ExpectedValue`, `ObservedValue`, `Chi2` and `MarginOfError`.
  - For the whole test: `PValue` and the three calibration errors.
- `hosmer_lemeshow.dfy`: the calibration classes
  (`AbstractHosmerLemeshow` with its decile and risk subclasses) as one
  class with a `groupType` field. Each grouping's two loops are methods over
  the arrays.
- `legacy_hosmer_lemeshow.dfy`: the older `stat.test.HosmerLemeshow`. It is
  proved against the same group specification and shares the p-value
  computation.

Things the code cannot see are parameters:
- `Math.sqrt` is a function `sqrt: Double -> Double` constrained by
  `SquareRootFunction` (every result satisfies `SquareRoot`). Where one
  root is used, a `root: Double` constrained by `SquareRoot` is passed.
- The chi-squared distribution of Apache Commons Math is a parameter
  `cdf: (int, Double) -> Double`. Lemmas that need its range assume
  `ChiSquaredCdf(cdf)`: finite arguments map to [0, 1], and NaN maps to NaN.

Finite doubles are exact reals throughout; see "Left out".

Where the code and its documentation disagree, the model follows the code:
- `ROCCurve` counts every label other than 1 as a false positive, but only
  label 0 as a negative. So with labels outside {0, 1} its AUC can leave
  [0, 1]; the Hanley Q1/Q2 model that case.
- The decile cut-off of the calibration class has no `intUpperIndex == 0`
  branch, while the legacy one does. Each model keeps its own.
- The `AUROC` curve getters read `probValues[length - 1]` or `probValues[0]`
  first, so an empty array throws `ArrayIndexOutOfBoundsException`. The
  model returns `Failure` for exactly that case.
- The legacy risk grouping is documented as the intervals 0–0.1, 0.1–0.2,
  …, 0.9–1, but its cut-off starts at the float `1.0f / 10` and grows by it.
  Widened to a double that is FloatTenth = 0.100000001490116119384765625,
  so group k stops below k·FloatTenth rather than k/10. A prediction of
  exactly 0.5 falls one group lower than the documentation says, and so do
  the doubles 0.1, 0.2, 0.4, 0.8, 0.9 and 1.0, which lie just above their
  tenth (0.3, 0.6 and 0.7 lie just below theirs). The model keeps
  the float step for the legacy test (`LegacyCut`) and exact tenths for
  the calibration classes (`CutOf`); `RiskCutsAgree` shows they agree
  away from the gaps, and `FloatRiskGroupsOfGapExample` and
  `RiskGroupsOfGapExample` show three groups against two over 0.5, 0.55
  and 0.75.
- The legacy test accepts an empty list. It then has no groups, −2
  degrees of freedom and the p-value −1 (`EmptyInput`).

## Model

| member | source | states |
|---|---|---|
| Data.ObservedPredictedValue.CompareTo | src/main/java/edu/pitt/dbmi/lib/math/classification/data/ObservedPredictedValue.java:38-47 | 1, −1 or 0 exactly when this prediction is greater, smaller or equal; the label is ignored |
| Data.ProbabilityValue.CompareTo | src/main/java/edu/pitt/dbmi/lib/math/classification/data/ProbabilityValue.java:27-38 | the same order over legacy pairs |
| Data.CompareToTotalPreorder | src/main/java/edu/pitt/dbmi/lib/math/classification/data/ObservedPredictedValue.java:38-47 | the order `Arrays.sort` relies on is total and transitive |
| Data.CompareToAntisymmetric | src/main/java/edu/pitt/dbmi/lib/math/classification/data/ObservedPredictedValue.java:38-47 | a.compareTo(b) = −b.compareTo(a) |
| Data.CompareToIgnoresObserved | src/main/java/edu/pitt/dbmi/lib/math/classification/data/ObservedPredictedValue.java:38-47 | pairs with the same prediction compare equal both ways, whatever their labels |
| Data.ProbabilityCompareToPreorder | src/main/java/edu/pitt/dbmi/lib/math/classification/data/ProbabilityValue.java:27-38 | antisymmetric and transitive, and 0 on equal predictions |
| Data.SortAscending | src/main/java/edu/pitt/dbmi/lib/math/classification/calibration/AbstractHosmerLemeshow.java:125 | the result is ascending by the key and a permutation of the input |
| Data.SortDescending | src/main/java/edu/pitt/dbmi/lib/math/classification/roc/ROCCurve.java:64-66 | the result is descending by the key and a permutation of the input |
| Data.SortArray | src/main/java/edu/pitt/dbmi/lib/math/classification/roc/AUROC.java:53 | the array ends as the ascending sort of its old contents |
| Data.SplitPartitions | src/main/java/edu/pitt/dbmi/lib/math/classification/roc/ROCCurve.java:68-86 | for binary labels, positives and negatives together are every prediction, and their counts add up to the size |
| Data.CountObservedPermutation | src/main/java/edu/pitt/dbmi/lib/math/classification/roc/ROCCurve.java:64-86 | sorting does not change the class counts or the multiset of predictions per class |
| Data.ChangesDistinct | src/main/java/edu/pitt/dbmi/lib/math/classification/roc/AUROC.java:136-154 | on sorted predictions, the number of changes counted from −1 is the number of distinct predictions |
| Confusion.ConfusionMatrix.Accuracy | src/main/java/edu/pitt/dbmi/lib/math/classification/roc/ConfusionMatrix.java:80-86 | 0 for an empty matrix, else accuracy·total = TP + TN; in [0, 1] for non-negative counts |
| Confusion.ConfusionMatrix.F1Score | src/main/java/edu/pitt/dbmi/lib/math/classification/roc/ConfusionMatrix.java:93-99 | 0 on a zero denominator, else F1·(P + PP) = 2·TP; in [0, 1] |
| Confusion.ConfusionMatrix.FalseDiscoveryRate | src/main/java/edu/pitt/dbmi/lib/math/classification/roc/ConfusionMatrix.java:107-111 | 0 with no predicted positives, else FDR·(TP + FP) = FP; in [0, 1] |
| Confusion.ConfusionMatrix.TruePositiveRate | src/main/java/edu/pitt/dbmi/lib/math/classification/roc/ConfusionMatrix.java:120-124 | 0 with no positives, else TPR·(TP + FN) = TP; in [0, 1] |
| Confusion.ConfusionMatrix.TrueNegativeRate | src/main/java/edu/pitt/dbmi/lib/math/classification/roc/ConfusionMatrix.java:132-136 | 0 with no negatives, else TNR·(TN + FP) = TN; in [0, 1] |
| Confusion.ConfusionMatrix.FalsePositiveRate | src/main/java/edu/pitt/dbmi/lib/math/classification/roc/ConfusionMatrix.java:144-148 | 0 with no negatives, else FPR·(TN + FP) = FP; in [0, 1] |
| Confusion.ConfusionMatrix.NegativePredictiveValue | src/main/java/edu/pitt/dbmi/lib/math/classification/roc/ConfusionMatrix.java:156-160 | 0 with no predicted negatives, else NPV·(TN + FN) = TN; in [0, 1] |
| Confusion.ConfusionMatrix.PositivePredictiveValue | src/main/java/edu/pitt/dbmi/lib/math/classification/roc/ConfusionMatrix.java:168-172 | 0 with no predicted positives, else PPV·(TP + FP) = TP; in [0, 1] |
| Confusion.ConfusionMatrix.MisclassificationRate | src/main/java/edu/pitt/dbmi/lib/math/classification/roc/ConfusionMatrix.java:179-185 | 0 for an empty matrix, else rate·total = FP + FN; in [0, 1] |
| Confusion.ConfusionMatrix.Prevalence | src/main/java/edu/pitt/dbmi/lib/math/classification/roc/ConfusionMatrix.java:192-198 | 0 for an empty matrix, else prevalence·total = TP + FN; in [0, 1] |
| Confusion.SpecificityComplement | src/main/java/edu/pitt/dbmi/lib/math/classification/roc/ConfusionMatrix.java:132-148 | TNR + FPR = 1 when there are negatives, both 0 otherwise |
| Confusion.PrecisionComplement | src/main/java/edu/pitt/dbmi/lib/math/classification/roc/ConfusionMatrix.java:107-111 | PPV + FDR = 1 when something is predicted positive |
| Confusion.AccuracyComplement | src/main/java/edu/pitt/dbmi/lib/math/classification/roc/ConfusionMatrix.java:179-185 | accuracy + misclassification rate = 1 for a non-empty matrix |
| Confusion.F1HarmonicMean | src/main/java/edu/pitt/dbmi/lib/math/classification/roc/ConfusionMatrix.java:93-99 | F1 = 2TP/(2TP + FP + FN), and the harmonic mean of precision and recall when TP > 0 |
| JavaDouble.Int32 | src/main/java/edu/pitt/dbmi/lib/math/classification/roc/stat/HanleyConfidenceInterval.java:45 | 32-bit `int` arithmetic: the result is in the `int` range, equals its argument inside that range, and differs from it by a multiple of 2^32 |
| JavaDouble.Divide | src/main/java/edu/pitt/dbmi/lib/math/classification/calibration/HosmerLemeshowDecileGroup.java:88 | double division: a finite quotient for a non-zero divisor; for a zero divisor NaN iff the dividend is 0, and +∞/−∞ iff it is positive/negative |
| JavaDouble.Add | src/main/java/edu/pitt/dbmi/lib/math/classification/roc/DeLongROCCurve.java:133 | double addition: NaN absorbs, finite values add exactly, and a finite result needs finite operands |
| JavaDouble.Multiply | src/main/java/edu/pitt/dbmi/lib/math/classification/roc/DeLongROCCurve.java:133 | double multiplication: NaN absorbs, finite values multiply exactly, and a finite result needs finite operands |
| JavaDouble.Abs | src/main/java/edu/pitt/dbmi/lib/math/classification/roc/DeLongROCCurve.java:131 | `Math.abs`: NaN iff NaN, and a finite result is the non-negative magnitude |
| JavaDouble.ToInt | src/main/java/edu/pitt/dbmi/lib/math/classification/roc/DeLongROCCurve.java:105-107 | the `(int)` cast: always in the `int` range, NaN casts to 0, and an integral value in range is kept |
| Roc.ComputeConfusionMatrices | src/main/java/edu/pitt/dbmi/lib/math/classification/roc/ROCCurve.java:120-148 | the loop builds exactly `Sweep`: one matrix per new threshold, updated in place on ties |
| Roc.SweepStep | src/main/java/edu/pitt/dbmi/lib/math/classification/roc/ROCCurve.java:128-145 | one pair extends the sweep: it bumps the last matrix on a tie and appends a new one otherwise |
| Roc.Sweep | src/main/java/edu/pitt/dbmi/lib/math/classification/roc/ROCCurve.java:120-148 | between 1 and size + 1 matrices, each with the input's class counts |
| Roc.SweepCounts | src/main/java/edu/pitt/dbmi/lib/math/classification/roc/ROCCurve.java:120-148 | on sorted pairs each matrix counts the positives and the others at or above its threshold (closed form) |
| Roc.SweepLength | src/main/java/edu/pitt/dbmi/lib/math/classification/roc/ROCCurve.java:120-148 | the sweep has one matrix per change of prediction, plus the initial one |
| Roc.SweepDistinct | src/main/java/edu/pitt/dbmi/lib/math/classification/roc/ROCCurve.java:120-148 | on sorted pairs, the number of matrices is the number of distinct predictions plus 1 |
| Roc.SweepLast | src/main/java/edu/pitt/dbmi/lib/math/classification/roc/ROCCurve.java:120-148 | the last matrix has absorbed every pair: TP counts label 1, FP the rest |
| Roc.SweepEndsAtAllPositive | src/main/java/edu/pitt/dbmi/lib/math/classification/roc/ROCCurve.java:120-148 | for binary labels the curve ends at (1, 1) |
| Roc.SweepFirst | src/main/java/edu/pitt/dbmi/lib/math/classification/roc/ROCCurve.java:122-125 | the sweep starts with the all-negative matrix at threshold −1 |
| Roc.SweepThresholds | src/main/java/edu/pitt/dbmi/lib/math/classification/roc/ROCCurve.java:128-145 | the thresholds after the first are the predictions with repeats removed |
| Roc.SweepMonotone | src/main/java/edu/pitt/dbmi/lib/math/classification/roc/ROCCurve.java:120-148 | TP and FP never decrease along the sweep |
| Roc.RatesMonotone | src/main/java/edu/pitt/dbmi/lib/math/classification/roc/ROCCurve.java:90-95 | TPR and FPR never decrease along the sweep |
| Roc.ComputeAreaUnderRocCurve | src/main/java/edu/pitt/dbmi/lib/math/classification/roc/ROCCurve.java:99-118 | the loop returns `Area`, the trapezoid sum from the origin |
| Roc.AreaIsPairwiseAuc | src/main/java/edu/pitt/dbmi/lib/math/classification/roc/ROCCurve.java:99-118 | with both classes present, the area equals the Mann–Whitney pairwise AUC |
| Roc.AreaBounds | src/main/java/edu/pitt/dbmi/lib/math/classification/roc/ROCCurve.java:99-118 | for binary labels the area lies in [0, 1], and is 0 with only one class |
| Roc.SweepArea | src/main/java/edu/pitt/dbmi/lib/math/classification/roc/ROCCurve.java:99-148 | the area depends only on the predictions at each threshold (tie groups) |
| Roc.ThresholdAreaDedup | src/main/java/edu/pitt/dbmi/lib/math/classification/roc/ROCCurve.java:99-118 | repeated thresholds add zero-width trapezoids |
| DeLongRoc.TrapezoidInDoubles | src/main/java/edu/pitt/dbmi/lib/math/classification/roc/DeLongROCCurve.java:129-133 | one trapezoid added in doubles to a finite sum is the exact trapezoid added |
| Roc.SortedAuc | src/main/java/edu/pitt/dbmi/lib/math/classification/roc/ROCCurve.java:58-97 | after the descending sort, the classes add up to the input, the area is in [0, 1] and equals the pairwise AUC |
| Roc.NewRocCurve | src/main/java/edu/pitt/dbmi/lib/math/classification/roc/ROCCurve.java:58-97 | fails exactly on an empty list; otherwise holds counts, sorted class predictions, the sweep, rates and area of the sorted input |
| Placement.Indicator | src/main/java/edu/pitt/dbmi/lib/math/classification/roc/DeLongAUC.java:65-73 | 1, ½ or 0 exactly when x is above, equal to or below y |
| Placement.IndicatorComplement | src/main/java/edu/pitt/dbmi/lib/math/classification/roc/stat/DeLongConfidenceInterval.java:49-57 | ψ(x, y) + ψ(y, x) = 1 |
| Placement.PairwiseAuc | src/main/java/edu/pitt/dbmi/lib/math/classification/roc/DeLongAUC.java:65-93 | AUC·m·n is the pairwise indicator sum |
| Placement.PairwiseAucBounds | src/main/java/edu/pitt/dbmi/lib/math/classification/roc/DeLongAUC.java:65-93 | the pairwise AUC lies in [0, 1] |
| Placement.PlacementBounds | src/main/java/edu/pitt/dbmi/lib/math/classification/roc/DeLongAUC.java:75-93 | every placement value V10 and V01 lies in [0, 1] |
| Placement.PlacementMeans | src/main/java/edu/pitt/dbmi/lib/math/classification/roc/DeLongAUC.java:75-113 | both placement sums equal the pair sum over n (resp. m), so both means are the AUC |
| Placement.RowSumCounts | src/main/java/edu/pitt/dbmi/lib/math/classification/roc/DeLongAUC.java:85-93 | a row sum is the count below plus half the count equal |
| Placement.SNorm | src/main/java/edu/pitt/dbmi/lib/math/classification/roc/DeLongAUC.java:105-113 | non-negative, and times (n − 1) it is the sum of squared deviations of the placements from the AUC |
| Placement.SAbnorm | src/main/java/edu/pitt/dbmi/lib/math/classification/roc/DeLongAUC.java:95-103 | non-negative, and times (m − 1) it is the sum of squared deviations |
| Placement.DeLongVariance | src/main/java/edu/pitt/dbmi/lib/math/classification/roc/DeLongAUC.java:46-63 | the variance S10/m + S01/n is non-negative |
| Placement.ZeroDeviationZeroVariance | src/main/java/edu/pitt/dbmi/lib/math/classification/roc/DeLongAUC.java:95-113 | placements that all equal the AUC give variance 0 |
| DeLongRoc.Sens | src/main/java/edu/pitt/dbmi/lib/math/classification/roc/DeLongROCCurve.java:153-163 | the loop returns #{positives ≥ z}/m as a double, NaN for m = 0 |
| DeLongRoc.Spec | src/main/java/edu/pitt/dbmi/lib/math/classification/roc/DeLongROCCurve.java:141-151 | the loop returns #{negatives < z}/n as a double, NaN for n = 0 |
| DeLongRoc.SensitivityShare | src/main/java/edu/pitt/dbmi/lib/math/classification/roc/DeLongROCCurve.java:153-163 | sensitivity is the share of positives at or above z, NaN with no positives |
| DeLongRoc.FallOutShare | src/main/java/edu/pitt/dbmi/lib/math/classification/roc/DeLongROCCurve.java:98-101 | 1 − spec is the share of negatives at or above z, NaN with no negatives |
| DeLongRoc.MatrixCounts | src/main/java/edu/pitt/dbmi/lib/math/classification/roc/DeLongROCCurve.java:103-112 | in exact arithmetic the stored matrix has FN = #pos ≥ z, TP = m − FN, FP = #neg < z, TN = #neg ≥ z (the source's swap) |
| DeLongRoc.MatricesCounts | src/main/java/edu/pitt/dbmi/lib/math/classification/roc/DeLongROCCurve.java:83-118 | the same for every matrix of the curve |
| DeLongRoc.RecoverCount | src/main/java/edu/pitt/dbmi/lib/math/classification/roc/DeLongROCCurve.java:105-107 | in exact arithmetic `(int)((c/d)·d)` gives back the count c |
| DeLongRoc.ComputeConfusionMatrices | src/main/java/edu/pitt/dbmi/lib/math/classification/roc/DeLongROCCurve.java:83-118 | the loop fills the rate arrays with `Sensitivities`/`FallOuts` and returns `Matrices` of its input, one per pair |
| DeLongRoc.ComputeAreaUnderRocCurve | src/main/java/edu/pitt/dbmi/lib/math/classification/roc/DeLongROCCurve.java:120-139 | the loop returns `DoubleArea`, the trapezoid sum in doubles from (0, 0) |
| DeLongRoc.RatesMonotone | src/main/java/edu/pitt/dbmi/lib/math/classification/roc/DeLongROCCurve.java:83-118 | along the descending input, sensitivity and fall-out never decrease |
| DeLongRoc.EndsAtOne | src/main/java/edu/pitt/dbmi/lib/math/classification/roc/DeLongROCCurve.java:83-118 | at the lowest prediction sensitivity and fall-out are 1 |
| DeLongRoc.AreaMatchesRocCurve | src/main/java/edu/pitt/dbmi/lib/math/classification/roc/DeLongROCCurve.java:120-139 | for binary probabilities with both classes, the area equals `ROCCurve`'s area |
| DeLongRoc.OneClassAreaNaN | src/main/java/edu/pitt/dbmi/lib/math/classification/roc/DeLongROCCurve.java:120-139 | with one class missing the area is NaN |
| DeLongRoc.DoubleAreaLastNaN | src/main/java/edu/pitt/dbmi/lib/math/classification/roc/DeLongROCCurve.java:120-139 | a NaN rate at the last point makes the whole area NaN |
| DeLongRoc.SortedArea | src/main/java/edu/pitt/dbmi/lib/math/classification/roc/DeLongROCCurve.java:54-81 | the area of the sorted input matches `ROCCurve`, or is NaN with one class |
| DeLongRoc.Curve | src/main/java/edu/pitt/dbmi/lib/math/classification/roc/DeLongROCCurve.java:70-80 | the constructor's arrays, matrices and area are those of the sorted input |
| DeLongRoc.NewDeLongRocCurve | src/main/java/edu/pitt/dbmi/lib/math/classification/roc/DeLongROCCurve.java:54-81 | fails exactly on an empty array; one entry per pair; area equal to `ROCCurve`'s or NaN |
| LegacyRoc.ComputeNumberOfRocPoints | src/main/java/edu/pitt/dbmi/lib/math/classification/roc/AUROC.java:136-154 | the loop counts the changes of prediction walking down from −1, plus 1 |
| LegacyRoc.NumberOfRocPoints | src/main/java/edu/pitt/dbmi/lib/math/classification/roc/AUROC.java:136-154 | that count is the length of the ROC sweep |
| LegacyRoc.NumberOfRocPointsDistinct | src/main/java/edu/pitt/dbmi/lib/math/classification/roc/AUROC.java:136-154 | on sorted pairs it is the number of distinct predictions plus 1 |
| LegacyRoc.Auroc.constructor | src/main/java/edu/pitt/dbmi/lib/math/classification/roc/AUROC.java:43-47 | the pairs end sorted and `Computed()` holds |
| LegacyRoc.Auroc.ComputeAuc | src/main/java/edu/pitt/dbmi/lib/math/classification/roc/AUROC.java:52-121 | sorts the array in place and establishes `Computed()`: counts, points, rates and area of the sweep |
| LegacyRoc.Auroc.Tally | src/main/java/edu/pitt/dbmi/lib/math/classification/roc/AUROC.java:54-120 | counts the classes and sets the points, rates and area so that `Computed()` holds, in fresh arrays |
| LegacyRoc.Evaluate | src/main/java/edu/pitt/dbmi/lib/math/classification/roc/AUROC.java:54-120 | counts the classes, sizes the arrays by the number of points and walks from the end: every point, accuracy, precision, F1 and the area follow the sweep |
| LegacyRoc.WalkDown | src/main/java/edu/pitt/dbmi/lib/math/classification/roc/AUROC.java:76-119 | the walk records one row per matrix of the sweep and the chain area |
| LegacyRoc.WalkAgrees | src/main/java/edu/pitt/dbmi/lib/math/classification/roc/AUROC.java:76-119 | each matrix of the walk from the end equals the ROC sweep at the same step |
| LegacyRoc.PlottedCurve | src/main/java/edu/pitt/dbmi/lib/math/classification/roc/AUROC.java:52-121 | the number of points is the number of distinct predictions plus 1, the first point is (0, 0), and the area is the ROC area |
| LegacyRoc.PlottedClimbs | src/main/java/edu/pitt/dbmi/lib/math/classification/roc/AUROC.java:52-121 | the ROC points never move left or down |
| LegacyRoc.PlottedAreaBounds | src/main/java/edu/pitt/dbmi/lib/math/classification/roc/AUROC.java:52-121 | the area lies in [0, 1] for any labels, since every label other than 1 counts as negative |
| LegacyRoc.DescentAreaBounds | src/main/java/edu/pitt/dbmi/lib/math/classification/roc/AUROC.java:52-121 | the area of the sweep over the reversed sorted pairs lies in [0, 1] |
| LegacyRoc.PlottedMannWhitney | src/main/java/edu/pitt/dbmi/lib/math/classification/roc/AUROC.java:52-121 | with both classes the area is the pairwise AUC and the last point is (1, 1) |
| LegacyRoc.AccuracyOfAgrees | src/main/java/edu/pitt/dbmi/lib/math/classification/roc/AUROC.java:96-100 | the accuracy stored per point is that matrix's accuracy, and NaN (0/0) for an empty matrix |
| LegacyRoc.F1OfAgrees | src/main/java/edu/pitt/dbmi/lib/math/classification/roc/AUROC.java:96-100 | the F1 stored per point is that matrix's F1 |
| LegacyRoc.Auroc.PositiveCasesAboveThresholdPoints | src/main/java/edu/pitt/dbmi/lib/math/classification/roc/AUROC.java:168-193 | the rows are `CasesAbove`: threshold and pairs predicted positive so far |
| LegacyRoc.CasesAboveCounts | src/main/java/edu/pitt/dbmi/lib/math/classification/roc/AUROC.java:168-193 | the case count never decreases and its last row counts every pair |
| LegacyRoc.Auroc.PositivePrecisionRecallPoints | src/main/java/edu/pitt/dbmi/lib/math/classification/roc/AUROC.java:195-244 | fails exactly on an empty array; otherwise the rows are (recall, precision) walked from the end |
| LegacyRoc.RecallPrecisionCurve | src/main/java/edu/pitt/dbmi/lib/math/classification/roc/AUROC.java:195-244 | recall never decreases and the last row has recall 1 when there are positives |
| LegacyRoc.Auroc.PpvRecallVsThresholdPoints | src/main/java/edu/pitt/dbmi/lib/math/classification/roc/AUROC.java:246-288 | the rows are (threshold, recall) walked from the end |
| LegacyRoc.Auroc.NpvRecallVsThresholdPoints | src/main/java/edu/pitt/dbmi/lib/math/classification/roc/AUROC.java:290-334 | the rows are (threshold, specificity) walked from the start |
| LegacyRoc.Auroc.PpvVsThresholdPoints | src/main/java/edu/pitt/dbmi/lib/math/classification/roc/AUROC.java:336-380 | the rows are (threshold, precision) walked from the end |
| LegacyRoc.Auroc.NpvVsThresholdPoints | src/main/java/edu/pitt/dbmi/lib/math/classification/roc/AUROC.java:382-427 | the rows are (threshold, NPV) walked from the start |
| LegacyRoc.Auroc.NegativePrecisionRecallPoints | src/main/java/edu/pitt/dbmi/lib/math/classification/roc/AUROC.java:429-479 | the rows are (specificity, NPV) walked from the start |
| ConfidenceIntervals.Lower | src/main/java/edu/pitt/dbmi/lib/math/classification/roc/stat/AbstractConfidenceInterval.java:58-61 | AUC − 1.96·SE in doubles: finite or NaN exactly when the SE is, and −∞ for an SE of +∞ |
| ConfidenceIntervals.Upper | src/main/java/edu/pitt/dbmi/lib/math/classification/roc/stat/AbstractConfidenceInterval.java:58-62 | AUC + 1.96·SE: centred on the AUC, 2·1.96·SE wide, and above the lower bound iff SE ≥ 0 |
| ConfidenceIntervals.IntervalFromVariance | src/main/java/edu/pitt/dbmi/lib/math/classification/roc/stat/AbstractConfidenceInterval.java:56-62 | a non-negative finite variance gives a non-negative root and an ordered interval centred on the AUC; a non-finite one gives NaN or +∞; a non-positive one gives 0 or NaN |
| ConfidenceIntervals.ConfidenceInterval.constructor | src/main/java/edu/pitt/dbmi/lib/math/classification/roc/stat/AbstractConfidenceInterval.java:51-64 | stores the SE and the two bounds |
| ConfidenceIntervals.HanleyQ1 | src/main/java/edu/pitt/dbmi/lib/math/classification/roc/stat/HanleyConfidenceInterval.java:42 | Q1·(2 − A) = A and Q1 ≥ A² for A in [0, 1]; +∞ at A = 2 |
| ConfidenceIntervals.HanleyQ2 | src/main/java/edu/pitt/dbmi/lib/math/classification/roc/stat/HanleyConfidenceInterval.java:43 | Q2·(1 + A) = 2A² and Q2 ≥ A² for A in [0, 1]; +∞ at A = −1 |
| ConfidenceIntervals.HanleyVariance | src/main/java/edu/pitt/dbmi/lib/math/classification/roc/stat/HanleyConfidenceInterval.java:36-46 | a finite non-negative variance for A in [0, 1] with both classes and no overflow; not finite when the 32-bit m·n wraps to 0; ≤ 0 when it wraps negative |
| ConfidenceIntervals.HanleyVarianceWraps | src/main/java/edu/pitt/dbmi/lib/math/classification/roc/stat/HanleyConfidenceInterval.java:45 | 65536·65536 wraps to 0, so the variance is not finite |
| ConfidenceIntervals.HanleyVarianceAtEnds | src/main/java/edu/pitt/dbmi/lib/math/classification/roc/stat/HanleyConfidenceInterval.java:36-46 | a perfect or reversed classifier has variance 0 |
| ConfidenceIntervals.HanleyIntervalDefined | src/main/java/edu/pitt/dbmi/lib/math/classification/roc/stat/HanleyConfidenceInterval.java:36-46 | the SE is a non-negative number and the interval is ordered and centred on the AUC when the variance is defined; NaN or +∞ otherwise |
| ConfidenceIntervals.NewHanleyConfidenceInterval | src/main/java/edu/pitt/dbmi/lib/math/classification/roc/stat/HanleyConfidenceInterval.java:31-33 | the interval of a `ROCCurve` with the Hanley SE |
| ConfidenceIntervals.DeLongVarianceOf | src/main/java/edu/pitt/dbmi/lib/math/classification/roc/stat/DeLongConfidenceInterval.java:37-47 | finite exactly when both classes have at least two members, then the non-negative DeLong variance; NaN or +∞ otherwise |
| ConfidenceIntervals.SNormOf | src/main/java/edu/pitt/dbmi/lib/math/classification/roc/stat/DeLongConfidenceInterval.java:89-97 | sNorm in doubles equals the exact S01 when there are two or more negatives and some positive |
| ConfidenceIntervals.SAbnormOf | src/main/java/edu/pitt/dbmi/lib/math/classification/roc/stat/DeLongConfidenceInterval.java:79-87 | sAbnorm in doubles equals the exact S10 when there are two or more positives and some negative |
| ConfidenceIntervals.DeLongIntervalDefined | src/main/java/edu/pitt/dbmi/lib/math/classification/roc/stat/DeLongConfidenceInterval.java:37-47 | with two or more of each class the interval is ordered and centred on the AUC |
| ConfidenceIntervals.NewDeLongConfidenceInterval | src/main/java/edu/pitt/dbmi/lib/math/classification/roc/stat/DeLongConfidenceInterval.java:32-34 | the interval of a `ROCCurve` with the DeLong SE over its class predictions |
| ConfidenceIntervals.Partition | src/main/java/edu/pitt/dbmi/lib/math/classification/roc/DeLongAUC.java:50-60 | the loop fills the positive and the other predictions, in array order |
| ConfidenceIntervals.PartitionFits | src/main/java/edu/pitt/dbmi/lib/math/classification/roc/DeLongAUC.java:50-60 | the positives and others seen so far never exceed the class counts, so the split arrays are large enough |
| ConfidenceIntervals.Interval | src/main/java/edu/pitt/dbmi/lib/math/classification/roc/HanleyAUC.java:33-42 | a fresh array [AUC − 1.96·SE, AUC + 1.96·SE] |
| ConfidenceIntervals.HanleyAuc.constructor | src/main/java/edu/pitt/dbmi/lib/math/classification/roc/HanleyAUC.java:22-25 | the Hanley SE of an `AUROC` and its interval |
| ConfidenceIntervals.DeLongAucCounts | src/main/java/edu/pitt/dbmi/lib/math/classification/roc/DeLongAUC.java:46-49 | a computed `AUROC`'s class counts fit its array split |
| ConfidenceIntervals.DeLongAuc.constructor | src/main/java/edu/pitt/dbmi/lib/math/classification/roc/DeLongAUC.java:24-27 | the split, the DeLong SE and its interval |
| HosmerLemeshowGroups.RunEndAdmits | src/main/java/edu/pitt/dbmi/lib/math/classification/calibration/HosmerLemeshowDecileGroup.java:60-75 | the inner loop stops at the first prediction the cut-off does not admit |
| HosmerLemeshowGroups.Threshold | src/main/java/edu/pitt/dbmi/lib/math/classification/calibration/HosmerLemeshowDecileGroup.java:47-53 | from group 10 on, the decile threshold is the largest prediction; the risk threshold of group k is k/10, and the legacy float step's k·FloatTenth |
| HosmerLemeshowGroups.CutOf | src/main/java/edu/pitt/dbmi/lib/math/classification/calibration/HosmerLemeshowRiskGroup.java:40-84 | the calibration classes cut deciles with `<=` and risk groups at exact tenths, never with the float step |
| HosmerLemeshowGroups.GroupsCoverData | src/main/java/edu/pitt/dbmi/lib/math/classification/calibration/HosmerLemeshowDecileGroup.java:38-96 | the group sizes add up to the number of pairs, and the positives to the label-1 count |
| HosmerLemeshowGroups.GroupsPartitionData | src/main/java/edu/pitt/dbmi/lib/math/classification/calibration/HosmerLemeshowDecileGroup.java:38-96 | the groups cut the sorted pairs into consecutive runs, and equal predictions never fall in two groups |
| HosmerLemeshowGroups.GroupNumbersIncrease | src/main/java/edu/pitt/dbmi/lib/math/classification/calibration/HosmerLemeshowDecileGroup.java:83-93 | group numbers start at 1 and strictly increase |
| HosmerLemeshowGroups.DecileGroupsAtMostTen | src/main/java/edu/pitt/dbmi/lib/math/classification/calibration/HosmerLemeshowDecileGroup.java:42-94 | decile groups are numbered 1..10, so there are at most ten |
| HosmerLemeshowGroups.RiskGroupsByTenths | src/main/java/edu/pitt/dbmi/lib/math/classification/calibration/HosmerLemeshowRiskGroup.java:36-86 | every pair in a risk group has that group's number as its risk number: predictions below 0.1 go to group 1, and a prediction in [(k−1)/10, k/10) goes to group k |
| HosmerLemeshowGroups.GroupPositivesAtMostSize | src/main/java/edu/pitt/dbmi/lib/math/classification/calibration/HosmerLemeshowDecileGroup.java:61-66 | a group counts at most as many positives as members |
| HosmerLemeshowGroups.PredictionsBetweenBounds | src/main/java/edu/pitt/dbmi/lib/math/classification/calibration/HosmerLemeshowDecileGroup.java:61-66 | a sum of j − i predictions in [0, 1] lies in [0, j − i] |
| HosmerLemeshowGroups.GroupPredictionsAtMostSize | src/main/java/edu/pitt/dbmi/lib/math/classification/calibration/HosmerLemeshowDecileGroup.java:61-66 | over predictions in [0, 1], every group's prediction sum lies in [0, size] |
| HosmerLemeshowGroups.RiskAdmitsAgree | src/main/java/edu/pitt/dbmi/lib/math/classification/stat/test/HosmerLemeshow.java:157-167 | outside the gaps [k/10, k·FloatTenth), the exact and the float cut-off of group k admit the same predictions |
| HosmerLemeshowGroups.RiskRunEndsAgree | src/main/java/edu/pitt/dbmi/lib/math/classification/stat/test/HosmerLemeshow.java:167-178 | outside the gaps, a run ends at the same index under both risk cuts |
| HosmerLemeshowGroups.RiskCutsAgree | src/main/java/edu/pitt/dbmi/lib/math/classification/stat/test/HosmerLemeshow.java:154-204 | outside the gaps, the float-step risk groups equal the exact-tenths risk groups |
| HosmerLemeshowGroups.FloatRiskGroupsOfGapExample | src/main/java/edu/pitt/dbmi/lib/math/classification/stat/test/HosmerLemeshow.java:157-202 | over 0.5, 0.55, 0.75 the float step makes three groups, numbered 5, 6 and 8, with 0.5 alone in group 5 |
| HosmerLemeshowGroups.RiskGroupsOfGapExample | src/main/java/edu/pitt/dbmi/lib/math/classification/calibration/HosmerLemeshowRiskGroup.java:40-84 | over the same predictions exact tenths make two groups, 0.5 and 0.55 together in group 6 |
| HosmerLemeshowStatistics.ExpectedValue | src/main/java/edu/pitt/dbmi/lib/math/classification/calibration/HosmerLemeshowDecileGroup.java:78 | the mean prediction of a group: times the size it gives back the prediction sum, and it lies in [0, 1] whenever that sum lies in [0, size] |
| HosmerLemeshowStatistics.ObservedValue | src/main/java/edu/pitt/dbmi/lib/math/classification/calibration/HosmerLemeshowDecileGroup.java:79 | the fraction of positives, in [0, 1] |
| HosmerLemeshowStatistics.Chi2 | src/main/java/edu/pitt/dbmi/lib/math/classification/calibration/HosmerLemeshowDecileGroup.java:88 | (O − E)²/(E(1 − E/n)) in doubles: finite exactly when E ≠ 0 and E ≠ n, and non-negative when 0 < E < n; otherwise NaN exactly when O = E, else +∞ |
| HosmerLemeshowStatistics.Chi2NeverNegativeInfinity | src/main/java/edu/pitt/dbmi/lib/math/classification/calibration/HosmerLemeshowDecileGroup.java:88 | a chi-squared term is never −∞ |
| HosmerLemeshowStatistics.MarginOfErrorDefined | src/main/java/edu/pitt/dbmi/lib/math/classification/calibration/HosmerLemeshowDecileGroup.java:87 | the margin of error is a non-negative number exactly when the mean prediction is in [0, 1], else NaN |
| HosmerLemeshowStatistics.PValueCases | src/main/java/edu/pitt/dbmi/lib/math/classification/calibration/AbstractHosmerLemeshow.java:164-181 | the p-value is −1 exactly with no degrees of freedom or an infinite total; a probability for finite terms; NaN for a NaN term |
| HosmerLemeshowStatistics.TotalInfinite | src/main/java/edu/pitt/dbmi/lib/math/classification/calibration/AbstractHosmerLemeshow.java:169-176 | the double total is infinite exactly when some term is +∞ and none is NaN |
| HosmerLemeshowStatistics.MaxCalibrationError | src/main/java/edu/pitt/dbmi/lib/math/classification/calibration/AbstractHosmerLemeshow.java:216-231 | non-negative and at least every gap |
| HosmerLemeshowStatistics.ExpectedAtMostMax | src/main/java/edu/pitt/dbmi/lib/math/classification/calibration/AbstractHosmerLemeshow.java:193-231 | the size-weighted mean of the gaps lies between 0 and their maximum |
| HosmerLemeshowStatistics.AverageAtMostMax | src/main/java/edu/pitt/dbmi/lib/math/classification/calibration/AbstractHosmerLemeshow.java:216-254 | the plain mean of the gaps lies between 0 and their maximum |
| Calibration.HosmerLemeshow.constructor | src/main/java/edu/pitt/dbmi/lib/math/classification/calibration/AbstractHosmerLemeshow.java:115-158 | the pairs are kept sorted, and every array, the p-value and the three errors summarize them (`Valid`) |
| Calibration.NewHosmerLemeshow | src/main/java/edu/pitt/dbmi/lib/math/classification/calibration/AbstractHosmerLemeshow.java:115-119 | fails with the source's message exactly on an empty list, else a valid test of the sorted pairs |
| Calibration.HosmerLemeshow.SortedPairs | src/main/java/edu/pitt/dbmi/lib/math/classification/calibration/AbstractHosmerLemeshow.java:122-136 | fresh label and prediction arrays holding the sorted pairs |
| Calibration.HosmerLemeshow.DecileTotalNumberOfGroups | src/main/java/edu/pitt/dbmi/lib/math/classification/calibration/HosmerLemeshowDecileGroup.java:105-145 | the loop counts exactly the non-empty decile groups |
| Calibration.HosmerLemeshow.RiskTotalNumberOfGroups | src/main/java/edu/pitt/dbmi/lib/math/classification/calibration/HosmerLemeshowRiskGroup.java:95-126 | the loop counts exactly the non-empty risk groups |
| Calibration.HosmerLemeshow.ComputeTotalNumberOfGroups | src/main/java/edu/pitt/dbmi/lib/math/classification/calibration/AbstractHosmerLemeshow.java:138 | the number of non-empty groups of the chosen grouping |
| Calibration.HosmerLemeshow.DecileCutOff | src/main/java/edu/pitt/dbmi/lib/math/classification/calibration/HosmerLemeshowDecileGroup.java:47-53 | the prediction at ⌊k/10·size⌋, or the last one, is the decile threshold of group k |
| Calibration.HosmerLemeshow.SkipRun | src/main/java/edu/pitt/dbmi/lib/math/classification/calibration/HosmerLemeshowDecileGroup.java:122-134 | skips exactly the run the cut-off admits |
| Calibration.HosmerLemeshow.TakeRun | src/main/java/edu/pitt/dbmi/lib/math/classification/calibration/HosmerLemeshowDecileGroup.java:56-75 | stops at the run's end and returns its size, positives and prediction sum |
| Calibration.HosmerLemeshow.DecilePlotPoints | src/main/java/edu/pitt/dbmi/lib/math/classification/calibration/HosmerLemeshowDecileGroup.java:38-96 | entry m of every array records decile group m |
| Calibration.HosmerLemeshow.RiskPlotPoints | src/main/java/edu/pitt/dbmi/lib/math/classification/calibration/HosmerLemeshowRiskGroup.java:36-86 | entry m of every array records risk group m |
| Calibration.HosmerLemeshow.RecordGroup | src/main/java/edu/pitt/dbmi/lib/math/classification/calibration/HosmerLemeshowDecileGroup.java:76-92 | writes one group at the next entry, extending the recorded prefix by that group |
| Calibration.HosmerLemeshow.WriteGroup | src/main/java/edu/pitt/dbmi/lib/math/classification/calibration/HosmerLemeshowDecileGroup.java:81-90 | entry `groupIndex` of every array gets the group's plot point, counts, margin of error and chi-squared term; the earlier entries keep theirs |
| Calibration.HosmerLemeshow.GroupStep | src/main/java/edu/pitt/dbmi/lib/math/classification/calibration/HosmerLemeshowDecileGroup.java:55-93 | one round of either loop: the run is taken and, if non-empty, recorded in the next entry; the pairs and arrays stay as they were shaped |
| Calibration.HosmerLemeshow.DecileStep | src/main/java/edu/pitt/dbmi/lib/math/classification/calibration/HosmerLemeshowDecileGroup.java:46-93 | one round of the decile loop: the cut-off of group k at `percent`, then that group taken and, if non-empty, recorded |
| Calibration.HosmerLemeshow.ComputePlotPoints | src/main/java/edu/pitt/dbmi/lib/math/classification/calibration/AbstractHosmerLemeshow.java:139-148 | entry m of every array records group m of the chosen grouping |
| Calibration.HosmerLemeshow.ComputePValue | src/main/java/edu/pitt/dbmi/lib/math/classification/calibration/AbstractHosmerLemeshow.java:164-181 | the loop returns `PValue` of the chi-squared terms |
| Calibration.HosmerLemeshow.ComputeExpectedCalibrationError | src/main/java/edu/pitt/dbmi/lib/math/classification/calibration/AbstractHosmerLemeshow.java:193-205 | the loop returns the size-weighted mean gap |
| Calibration.HosmerLemeshow.ComputeMaxCalibrationError | src/main/java/edu/pitt/dbmi/lib/math/classification/calibration/AbstractHosmerLemeshow.java:216-231 | the loop returns the largest gap, or 0 |
| Calibration.HosmerLemeshow.ComputeAverageCalibrationError | src/main/java/edu/pitt/dbmi/lib/math/classification/calibration/AbstractHosmerLemeshow.java:242-254 | the loop returns the mean gap over the non-empty groups |
| Calibration.HosmerLemeshow.ComputeStatistics | src/main/java/edu/pitt/dbmi/lib/math/classification/calibration/AbstractHosmerLemeshow.java:150-157 | sets the degrees of freedom to groups − 2, then the p-value and the three calibration errors of the arrays |
| Calibration.HosmerLemeshow.RecordsGroups | src/main/java/edu/pitt/dbmi/lib/math/classification/calibration/AbstractHosmerLemeshow.java:138-148 | the arrays list the groups' numbers, sizes, positives and sums, with each group's plot point, margin and chi-squared term |
| Calibration.HosmerLemeshow.GroupsCoverPredictions | src/main/java/edu/pitt/dbmi/lib/math/classification/calibration/AbstractHosmerLemeshow.java:138-148 | the group sizes add up to the number of predictions, and the positives to the label-1 count |
| Calibration.HosmerLemeshow.GroupNumbersRecorded | src/main/java/edu/pitt/dbmi/lib/math/classification/calibration/HosmerLemeshowDecileGroup.java:83-93 | recorded numbers start at 1 and strictly increase; decile tests have at most ten groups, numbered ≤ 10 |
| Calibration.HosmerLemeshow.ObservedFractions | src/main/java/edu/pitt/dbmi/lib/math/classification/calibration/HosmerLemeshowDecileGroup.java:78-85 | 0 ≤ positives ≤ size, and every observed fraction lies in [0, 1] |
| Calibration.HosmerLemeshow.ExpectedFractions | src/main/java/edu/pitt/dbmi/lib/math/classification/calibration/HosmerLemeshowDecileGroup.java:78-87 | with predictions in [0, 1], every expected value lies in [0, 1] and every margin of error is finite and ≥ 0 |
| Calibration.HosmerLemeshow.CalibrationErrorsOrdered | src/main/java/edu/pitt/dbmi/lib/math/classification/calibration/AbstractHosmerLemeshow.java:154-157 | 0 ≤ ECE ≤ MCE and 0 ≤ ACE ≤ MCE |
| Calibration.HosmerLemeshow.Chi2TermsNotNegativeInfinity | src/main/java/edu/pitt/dbmi/lib/math/classification/calibration/HosmerLemeshowDecileGroup.java:88 | no recorded chi-squared term is −∞ |
| Calibration.HosmerLemeshow.PValueSentinel | src/main/java/edu/pitt/dbmi/lib/math/classification/calibration/AbstractHosmerLemeshow.java:150-152 | the p-value is −1 exactly with at most two groups or a +∞ term and no NaN; a probability for finite terms; NaN for a NaN term |
| LegacyCalibration.HosmerLemeshow.constructor | src/main/java/edu/pitt/dbmi/lib/math/classification/stat/test/HosmerLemeshow.java:41-46 | the pairs end sorted and the arrays and p-value summarize them (`Valid`) |
| LegacyCalibration.HosmerLemeshow.Compute | src/main/java/edu/pitt/dbmi/lib/math/classification/stat/test/HosmerLemeshow.java:48-61 | sorts in place, groups by deciles or (by default) risk, and sets the p-value |
| LegacyCalibration.LegacyCut | src/main/java/edu/pitt/dbmi/lib/math/classification/stat/test/HosmerLemeshow.java:51-58 | the legacy test cuts deciles with `<=` and risk groups with the float step, never at exact tenths |
| LegacyCalibration.HosmerLemeshow.Summarize | src/main/java/edu/pitt/dbmi/lib/math/classification/stat/test/HosmerLemeshow.java:51-60 | over sorted pairs: the groups of the chosen grouping are recorded and the p-value is that of their chi-squared terms |
| LegacyCalibration.HosmerLemeshow.SetPValue | src/main/java/edu/pitt/dbmi/lib/math/classification/stat/test/HosmerLemeshow.java:60 | the p-value is that of the recorded chi-squared terms, with the grouping left as recorded |
| LegacyCalibration.HosmerLemeshow.GroupPairs | src/main/java/edu/pitt/dbmi/lib/math/classification/stat/test/HosmerLemeshow.java:52-58 | decile or risk grouping: the arrays record the groups and dof = groups − 2 |
| LegacyCalibration.HosmerLemeshow.ComputeUsingDecileGroup | src/main/java/edu/pitt/dbmi/lib/math/classification/stat/test/HosmerLemeshow.java:66-138 | one fresh entry per non-empty decile group, entry m recording group m; dof = groups − 2 |
| LegacyCalibration.HosmerLemeshow.ComputeUsingRiskGroup | src/main/java/edu/pitt/dbmi/lib/math/classification/stat/test/HosmerLemeshow.java:144-207 | the same for the float-step risk groups, whose cut-off for group k is k·FloatTenth |
| LegacyCalibration.HosmerLemeshow.AllocateGroupArrays | src/main/java/edu/pitt/dbmi/lib/math/classification/stat/test/HosmerLemeshow.java:68-74 | fresh per-group arrays of the given length; the degrees of freedom and p-value unchanged |
| LegacyCalibration.HosmerLemeshow.DecileCutOff | src/main/java/edu/pitt/dbmi/lib/math/classification/stat/test/HosmerLemeshow.java:85-93 | with the extra `intUpperIndex == 0` branch, still the decile threshold of group k |
| LegacyCalibration.HosmerLemeshow.DecileGroupCount | src/main/java/edu/pitt/dbmi/lib/math/classification/stat/test/HosmerLemeshow.java:227-267 | the loop counts exactly the non-empty decile groups |
| LegacyCalibration.HosmerLemeshow.RiskGroupCount | src/main/java/edu/pitt/dbmi/lib/math/classification/stat/test/HosmerLemeshow.java:269-299 | the loop, stepping its cut-off by the float 1/10, counts exactly the non-empty float-step risk groups |
| LegacyCalibration.HosmerLemeshow.TakeRun | src/main/java/edu/pitt/dbmi/lib/math/classification/stat/test/HosmerLemeshow.java:95-114 | stops at the run's end and returns its size, positives and prediction sum |
| LegacyCalibration.HosmerLemeshow.SkipRun | src/main/java/edu/pitt/dbmi/lib/math/classification/stat/test/HosmerLemeshow.java:240-262 | skips exactly the run the cut-off admits and counts it |
| LegacyCalibration.HosmerLemeshow.GroupStep | src/main/java/edu/pitt/dbmi/lib/math/classification/stat/test/HosmerLemeshow.java:95-131 | one round of the loop: the run is taken and, if non-empty, recorded in the next entry |
| LegacyCalibration.HosmerLemeshow.DecileStep | src/main/java/edu/pitt/dbmi/lib/math/classification/stat/test/HosmerLemeshow.java:84-131 | one round of the decile loop: the cut-off of group k at `percent`, then that group taken and, if non-empty, recorded |
| LegacyCalibration.HosmerLemeshow.RecordGroup | src/main/java/edu/pitt/dbmi/lib/math/classification/stat/test/HosmerLemeshow.java:116-131 | writes one group at the next entry, extending the recorded prefix by that group |
| LegacyCalibration.HosmerLemeshow.WriteGroup | src/main/java/edu/pitt/dbmi/lib/math/classification/stat/test/HosmerLemeshow.java:119-129 | entry `groupIndex` of every array, and row `groupIndex` of the plot points, get the group's values; the earlier entries keep theirs |
| LegacyCalibration.HosmerLemeshow.DecilePlotPoints | src/main/java/edu/pitt/dbmi/lib/math/classification/stat/test/HosmerLemeshow.java:76-135 | entry m of every array, and row m of the plot points, record decile group m |
| LegacyCalibration.HosmerLemeshow.RiskPlotPoints | src/main/java/edu/pitt/dbmi/lib/math/classification/stat/test/HosmerLemeshow.java:154-204 | entry m of every array, and row m of the plot points, record float-step risk group m |
| LegacyCalibration.HosmerLemeshow.RecordsGroups | src/main/java/edu/pitt/dbmi/lib/math/classification/stat/test/HosmerLemeshow.java:116-131 | the arrays list the groups' numbers, sizes, positives and sums, with each row's point, confidence range and chi-squared term |
| LegacyCalibration.HosmerLemeshow.GroupsCoverPairs | src/main/java/edu/pitt/dbmi/lib/math/classification/stat/test/HosmerLemeshow.java:66-138 | the group sizes add up to the number of pairs, and the positives to the label-1 count |
| LegacyCalibration.HosmerLemeshow.GroupNumbersRecorded | src/main/java/edu/pitt/dbmi/lib/math/classification/stat/test/HosmerLemeshow.java:125-133 | recorded numbers start at 1 and strictly increase; at most ten decile groups |
| LegacyCalibration.HosmerLemeshow.ObservedFractions | src/main/java/edu/pitt/dbmi/lib/math/classification/stat/test/HosmerLemeshow.java:117-121 | every observed fraction in the plot points lies in [0, 1] |
| LegacyCalibration.HosmerLemeshow.ExpectedFractions | src/main/java/edu/pitt/dbmi/lib/math/classification/stat/test/HosmerLemeshow.java:117-129 | with predictions in [0, 1], every expected value in the plot points lies in [0, 1] and every confidence range is finite and ≥ 0 |
| LegacyCalibration.HosmerLemeshow.Chi2TermsNotNegativeInfinity | src/main/java/edu/pitt/dbmi/lib/math/classification/stat/test/HosmerLemeshow.java:128 | no recorded chi-squared term is −∞ |
| LegacyCalibration.HosmerLemeshow.EmptyInput | src/main/java/edu/pitt/dbmi/lib/math/classification/stat/test/HosmerLemeshow.java:41-61 | an empty list gives no groups, −2 degrees of freedom and p-value −1 |
| LegacyCalibration.HosmerLemeshow.PValueSentinel | src/main/java/edu/pitt/dbmi/lib/math/classification/stat/test/HosmerLemeshow.java:209-225 | the p-value is −1 exactly with at most two groups or a +∞ term and no NaN; a probability for finite terms; NaN for a NaN term |
| LegacyCalibration.AgreesWithCalibration | src/main/java/edu/pitt/dbmi/lib/math/classification/stat/test/HosmerLemeshow.java:48-61 | over the same sorted pairs, the legacy model and the exact-tenth model of the calibration classes record the same groups, terms and p-value: always for deciles, and for risk groups when no prediction lies in a gap [k/10, k·FloatTenth); the source's double sums break this (see Left out) |

## Left out

- Floating point: finite doubles are exact reals. Rounding, signed zero and
  overflow to infinity are not modelled; only division by zero and the NaN
  and infinity cases the code branches on are.
- HosmerLemeshowGroups.Threshold: the calibration classes' thresholds and
  decile percentages are exact k/10. The source sums `0.10` in doubles
  (HosmerLemeshowDecileGroup.java:42, :94; HosmerLemeshowRiskGroup.java:40,
  :84), giving 0.1, 0.2, 0.30000000000000004, 0.4, 0.5, 0.6, 0.7,
  0.7999999999999999, 0.8999999999999999, 0.9999999999999999. This changes
  results on ordinary inputs, not only in the last bit:
  - Deciles: `(int)(percent * size)` is the index k·size/10 only for some
    sizes. With 10 distinct predictions, group 8 gets
    `(int)(0.7999999999999999·10) = 7`, so it is empty, and group 9 takes
    two pairs: the source makes 8 groups (6 degrees of freedom), the model
    9 (7 degrees of freedom). Among sizes 1 to 100 with distinct
    predictions, the cut-off index of some group below 10 differs for 5,
    10, 15, 20, 30, 35, 40, 50, 55, 60, 65, 70, 75, 80, 90 and 100.
  - Risk groups: the 6th and 7th sums are the doubles 0.6 and 0.7, which lie
    below 6/10 and 7/10. A prediction of exactly 0.6 or 0.7 therefore goes
    to group 7 or 8 in the source and to group 6 or 7 in the model. So do
    predictions of exactly 0.7999999999999999, 0.8999999999999999 and
    0.9999999999999999, one group higher in the source.
- LegacyCalibration.HosmerLemeshow.DecileCutOff: the legacy decile
  `percent` (`0.10f` summed, stat/test/HosmerLemeshow.java:79, :134) is
  taken as exact k/10, while the legacy risk step is modelled exactly as
  k·FloatTenth, the sum of the float `1.0f / 10` (each partial sum is exact
  in a double while k < 2^26).
  Since FloatTenth − 1/10 = 1/671088640, ⌊k·FloatTenth·size⌋ equals
  ⌊k·size/10⌋ while k·size < 2^26. The first difference is at
  k·size = 67108869: k = 9 and size = 7456541 give the source index 6710887
  and the model 6710886.
- LegacyCalibration.AgreesWithCalibration: the agreement is between the
  legacy model and the exact-tenth model of the calibration classes. In the
  source the calibration classes' double sums (see
  `HosmerLemeshowGroups.Threshold` above) break it. With 10 distinct
  predictions the calibration decile test makes 8 groups and the legacy one
  9. A prediction of exactly 0.6 goes to calibration risk group 7 but to
  legacy risk group 6.
- Calibration.NewHosmerLemeshow: a `null` list (`IllegalArgumentException`,
  AbstractHosmerLemeshow.java:116) is not representable. Only the empty
  list is modelled as the failure.
- DeLongRoc.MatrixAt: the counts are recovered as `(int)(sens·m)`. This is
  exact on reals, but in doubles (15/22)·22 = 14.999999999999998 truncates
  to 14.
- DeLongRoc.MatrixCounts: states the counts in exact arithmetic, for the
  same reason.
- Data.ObservedPredictedValue.CompareTo: predictions are reals, so NaN
  predictions are not modelled. With NaN, `>`/`<` make a NaN compare equal
  to everything, and the order stops being a preorder.
- Data.ProbabilityValue.CompareTo: the same NaN caveat.
- Roc.NewRocCurve: a `null` list (`IllegalArgumentException`) is not
  representable. Only the empty list is modelled as the failure.
- DeLongRoc.NewDeLongRocCurve: the same for a `null` array.
- ConfidenceIntervals.ConfidenceInterval.constructor: the same for a `null`
  ROC. It takes the AUC and the standard error instead of the ROC object.
- Confusion.ConfusionMatrix.F1Score: `2 * truePositives` and the sums of
  counts are Java `int` arithmetic. They would wrap for counts near 2^30;
  the model uses unbounded integers there. Only the Hanley `m·n` product is
  wrapped (`Int32`).
- Calibration.HosmerLemeshow.ComputeExpectedCalibrationError: requires
  `numberOfPredictions > 0`. Its only caller, the constructor, rejects empty
  input first.
- Array length preconditions (equal lengths of the per-group arrays, the
  rate arrays) restate how the constructors allocate them.
- Calibration.HosmerLemeshow.constructor: the two calibration subclasses are
  one class with a `groupType` field, and the constructor takes a sequence.
  The subclasses pass an array to a constructor declared over a `List`.
- LegacyCalibration.HosmerLemeshow.Compute: the legacy `computePValue` is
  the same code as the calibration one, so the model calls
  `Calibration.HosmerLemeshow.ComputePValue`.
- Inputs with NaN or infinite predictions are left out. The grouping loops'
  termination relies on ordered finite predictions.
- The chi-squared CDF and `Math.sqrt` are parameters (see above). Apache
  Commons Math is not part of this model.
- Plotting, `getSummary`/`toString`, file reading and the getters that only
  return a field are left out.
- `ROC.java`, the interface the confidence intervals take, is modelled by
  the `RocCurve` datatype's fields.
