/**
 * `DeLongROCCurve`: one ROC point and one confusion matrix per observation
 * (not per distinct prediction). For the prediction z of each observation,
 * in descending order, the sensitivity is the share of label-1 predictions
 * at or above z and the specificity the share of label-0 predictions below
 * z. Rates are Java doubles, so a class without observations makes them
 * NaN; the matrices are built with their four counts passed in a different
 * order than the constructor declares.
 */
module DeLongRoc {
  import opened Data
  import opened Confusion
  import opened Placement
  import opened JavaDouble
  import Roc

  // ---------------------------------------------------------------------
  // Sensitivity and specificity at one prediction
  // ---------------------------------------------------------------------

  /** `sens(z, …)`: #{label-1 predictions ≥ z} / m, as a double (NaN for m = 0). */
  function Sensitivity(z: real, positivePredictedValues: seq<real>): Double
  {
    Divide(CountAtLeast(positivePredictedValues, z) as real, |positivePredictedValues| as real)
  }

  /** `spec(z, …)`: #{label-0 predictions < z} / n, as a double (NaN for n = 0). */
  function Specificity(z: real, negativePredictedValues: seq<real>): Double
  {
    Divide(CountBelow(negativePredictedValues, z) as real, |negativePredictedValues| as real)
  }

  /** The x-value stored for prediction z: `1 - specificity`. */
  function FallOut(z: real, negativePredictedValues: seq<real>): Double
  {
    Subtract(Finite(1.0), Specificity(z, negativePredictedValues))
  }

  /** The `sens` loop. */
  method Sens(z: real, positivePredictedValues: seq<real>) returns (r: Double)
    ensures r == Sensitivity(z, positivePredictedValues)
  {
    var sum := 0;
    var m := |positivePredictedValues|;
    for i := 0 to m
      invariant sum == CountAtLeast(positivePredictedValues[..i], z)
    {
      assert positivePredictedValues[..i + 1] == positivePredictedValues[..i] + [positivePredictedValues[i]];
      CountsSnoc(positivePredictedValues[..i], positivePredictedValues[i], z);
      if positivePredictedValues[i] >= z {
        sum := sum + 1;
      }
    }
    assert positivePredictedValues[..m] == positivePredictedValues;
    r := Divide(sum as real, m as real);
  }

  /** The `spec` loop. */
  method Spec(z: real, negativePredictedValues: seq<real>) returns (r: Double)
    ensures r == Specificity(z, negativePredictedValues)
  {
    var sum := 0;
    var n := |negativePredictedValues|;
    for i := 0 to n
      invariant sum == CountBelow(negativePredictedValues[..i], z)
    {
      assert negativePredictedValues[..i + 1] == negativePredictedValues[..i] + [negativePredictedValues[i]];
      CountsSnoc(negativePredictedValues[..i], negativePredictedValues[i], z);
      if negativePredictedValues[i] < z {
        sum := sum + 1;
      }
    }
    assert negativePredictedValues[..n] == negativePredictedValues;
    r := Divide(sum as real, n as real);
  }

  /** With label-1 observations the sensitivity is the finite share at or above z; without, NaN. */
  lemma SensitivityShare(z: real, positivePredictedValues: seq<real>)
    ensures |positivePredictedValues| > 0 ==>
              Sensitivity(z, positivePredictedValues) == Finite(Roc.ShareAtLeast(positivePredictedValues, z))
    ensures |positivePredictedValues| == 0 ==> Sensitivity(z, positivePredictedValues).NaN?
  {
  }

  /**
   * With label-0 observations `1 - specificity` is the finite share of them
   * at or above z (the false positive rate); without, NaN.
   */
  lemma FallOutShare(z: real, negativePredictedValues: seq<real>)
    ensures |negativePredictedValues| > 0 ==>
              FallOut(z, negativePredictedValues) == Finite(Roc.ShareAtLeast(negativePredictedValues, z))
    ensures |negativePredictedValues| == 0 ==> FallOut(z, negativePredictedValues).NaN?
  {
    var n := |negativePredictedValues|;
    if n > 0 {
      var below, atLeast := CountBelow(negativePredictedValues, z), CountAtLeast(negativePredictedValues, z);
      CountsPartition(negativePredictedValues, z);
      assert below + atLeast == n;
      ShareComplement(below as real, atLeast as real, n as real);
    }
  }

  lemma ShareComplement(below: real, atLeast: real, n: real)
    requires n > 0.0 && below + atLeast == n
    ensures 1.0 - below / n == atLeast / n
  {
    assert below / n + atLeast / n == n / n;
  }

  // ---------------------------------------------------------------------
  // The matrices
  // ---------------------------------------------------------------------

  /**
   * The matrix built for prediction z, over exact reals: TP = (int)(sensitivity · P),
   * FN = P − TP, TN = (int)(specificity · N), FP = N − TN, handed to the
   * constructor (TP, TN, FP, FN, threshold) in the order (FN, FP, TN, TP, z).
   */
  function MatrixAt(z: real, sensitivity: Double, specificity: Double, numberOfPositives: int, numberOfNegatives: int): ConfusionMatrix
  {
    var truePositive := ToInt(Multiply(sensitivity, Finite(numberOfPositives as real)));
    var falseNegative := numberOfPositives - truePositive;
    var trueNegative := ToInt(Multiply(specificity, Finite(numberOfNegatives as real)));
    var falsePositive := numberOfNegatives - trueNegative;
    ConfusionMatrix(falseNegative, falsePositive, trueNegative, truePositive, z)
  }

  /**
   * In exact arithmetic `(int)(sens · m)` recovers the count, also for
   * m = 0 where the product is NaN and the cast gives 0; likewise for the
   * specificity. (In IEEE doubles the quotient and product can round just
   * below the count, and the cast then gives one less.) The matrix
   * therefore holds the true count of label-1 predictions at or
   * above z in its false-negative field, the label-1 predictions below z in
   * its true-positive field, the label-0 predictions below z in its
   * false-positive field and those at or above z in its true-negative field.
   */
  lemma MatrixCounts(z: real, pos: seq<real>, neg: seq<real>)
    requires |pos| <= IntMax && |neg| <= IntMax
    ensures var m := MatrixAt(z, Sensitivity(z, pos), Specificity(z, neg), |pos|, |neg|);
            m.falseNegatives == CountAtLeast(pos, z)
            && m.truePositives == |pos| - CountAtLeast(pos, z)
            && m.falsePositives == CountBelow(neg, z)
            && m.trueNegatives == CountAtLeast(neg, z)
            && m.threshold == z
            && m.Positives() == |pos| && m.Negatives() == |neg|
  {
    RecoverCount(CountAtLeast(pos, z), |pos|);
    RecoverCount(CountBelow(neg, z), |neg|);
    CountsPartition(neg, z);
  }

  /** `(int)((c / d) · d) == c` for a count c ≤ d within the `int` range, and for d = 0 through NaN. */
  lemma RecoverCount(c: nat, d: nat)
    requires c <= d <= IntMax
    ensures ToInt(Multiply(Divide(c as real, d as real), Finite(d as real))) == c
  {
    if d == 0 {
      assert Divide(c as real, d as real).NaN?;
    } else {
      var q := Divide(c as real, d as real);
      assert q.value * d as real == c as real;
      assert Multiply(q, Finite(d as real)) == Finite(c as real);
    }
  }

  /** The sensitivities at the predictions of `s`, in order. */
  function Sensitivities(s: seq<ObservedPredictedValue>, pos: seq<real>): (r: seq<Double>)
    ensures |r| == |s|
  {
    if |s| == 0 then []
    else Sensitivities(s[..|s| - 1], pos) + [Sensitivity(s[|s| - 1].predictedValue, pos)]
  }

  /** The values `1 - specificity` at the predictions of `s`, in order. */
  function FallOuts(s: seq<ObservedPredictedValue>, neg: seq<real>): (r: seq<Double>)
    ensures |r| == |s|
  {
    if |s| == 0 then []
    else FallOuts(s[..|s| - 1], neg) + [FallOut(s[|s| - 1].predictedValue, neg)]
  }

  /**
   * The matrices of the observations `s`, in order, for the label-1
   * predictions `pos`, the label-0 predictions `neg` and the class counts.
   */
  function Matrices(s: seq<ObservedPredictedValue>, pos: seq<real>, neg: seq<real>,
                    numberOfPositives: int, numberOfNegatives: int): (r: seq<ConfusionMatrix>)
    ensures |r| == |s|
  {
    if |s| == 0 then []
    else
      var z := s[|s| - 1].predictedValue;
      Matrices(s[..|s| - 1], pos, neg, numberOfPositives, numberOfNegatives)
        + [MatrixAt(z, Sensitivity(z, pos), Specificity(z, neg), numberOfPositives, numberOfNegatives)]
  }

  /**
   * With the class counts of the splits, every matrix of the curve counts
   * as `MatrixCounts` says: the field swap holds at every index.
   */
  lemma {:induction false} MatricesCounts(s: seq<ObservedPredictedValue>, pos: seq<real>, neg: seq<real>)
    requires |pos| <= IntMax && |neg| <= IntMax
    ensures forall i :: 0 <= i < |s| ==>
              var m, z := Matrices(s, pos, neg, |pos|, |neg|)[i], s[i].predictedValue;
              m.falseNegatives == CountAtLeast(pos, z)
              && m.truePositives == |pos| - CountAtLeast(pos, z)
              && m.falsePositives == CountBelow(neg, z)
              && m.trueNegatives == CountAtLeast(neg, z)
              && m.threshold == z
  {
    if |s| > 0 {
      var init := s[..|s| - 1];
      MatricesCounts(init, pos, neg);
      MatrixCounts(s[|s| - 1].predictedValue, pos, neg);
      var ms := Matrices(s, pos, neg, |pos|, |neg|);
      forall i | 0 <= i < |init|
        ensures ms[i] == Matrices(init, pos, neg, |pos|, |neg|)[i] && s[i] == init[i]
      {
      }
    }
  }

  /**
   * `computeConfusionMatrices`: for each observation of `data`, in order,
   * one matrix, and the sensitivity and `1 - specificity` written at the
   * same index of the two rate arrays.
   */
  method ComputeConfusionMatrices(data: seq<ObservedPredictedValue>, numberOfPositives: int, numberOfNegatives: int,
                                  truePositiveRates: array<Double>, falsePositiveRates: array<Double>)
    returns (confusionMatrices: seq<ConfusionMatrix>)
    requires truePositiveRates != falsePositiveRates
    requires truePositiveRates.Length == |data| && falsePositiveRates.Length == |data|
    modifies truePositiveRates, falsePositiveRates
    ensures confusionMatrices == Matrices(data, Positives(data), Negatives(data), numberOfPositives, numberOfNegatives)
    ensures truePositiveRates[..] == Sensitivities(data, Positives(data))
    ensures falsePositiveRates[..] == FallOuts(data, Negatives(data))
  {
    var confusionMatrixList: seq<ConfusionMatrix> := [];
    var positivePredictedValues := Positives(data);
    var negativePredictedValues := Negatives(data);
    var index := 0;
    while index < |data|
      invariant 0 <= index <= |data|
      invariant confusionMatrixList
                == Matrices(data[..index], positivePredictedValues, negativePredictedValues, numberOfPositives, numberOfNegatives)
      invariant truePositiveRates[..index] == Sensitivities(data[..index], positivePredictedValues)
      invariant falsePositiveRates[..index] == FallOuts(data[..index], negativePredictedValues)
    {
      assert data[..index + 1][..index] == data[..index];
      var z := data[index].predictedValue;
      var sensitivity := Sens(z, positivePredictedValues);
      var specificity := Spec(z, negativePredictedValues);
      confusionMatrixList := confusionMatrixList
        + [MatrixAt(z, sensitivity, specificity, numberOfPositives, numberOfNegatives)];
      truePositiveRates[index] := sensitivity;
      falsePositiveRates[index] := Subtract(Finite(1.0), specificity);
      assert truePositiveRates[..index + 1] == truePositiveRates[..index] + [sensitivity];
      assert falsePositiveRates[..index + 1] == falsePositiveRates[..index] + [Subtract(Finite(1.0), specificity)];
      index := index + 1;
    }
    assert data[..|data|] == data;
    assert truePositiveRates[..] == truePositiveRates[..|data|];
    assert falsePositiveRates[..] == falsePositiveRates[..|data|];
    confusionMatrices := confusionMatrixList;
  }

  // ---------------------------------------------------------------------
  // The area
  // ---------------------------------------------------------------------

  /**
   * The trapezoid sum in doubles over the points (xs[i], ys[i]) for every
   * index of `xs`, starting from (0, 0).
   */
  function DoubleArea(xs: seq<Double>, ys: seq<Double>): Double
    requires |xs| <= |ys|
  {
    if |xs| == 0 then Finite(0.0)
    else
      var n := |xs| - 1;
      var x1 := if n == 0 then Finite(0.0) else xs[n - 1];
      var y1 := if n == 0 then Finite(0.0) else ys[n - 1];
      Add(DoubleArea(xs[..n], ys), Multiply(Abs(Subtract(x1, xs[n])), Half(Add(y1, ys[n]))))
  }

  /** `computeAreaUnderRocCurve`: the loop that accumulates `DoubleArea`. */
  method ComputeAreaUnderRocCurve(truePositiveRates: array<Double>, falsePositiveRates: array<Double>)
    returns (areaUnderCurve: Double)
    requires falsePositiveRates.Length <= truePositiveRates.Length
    ensures areaUnderCurve == DoubleArea(falsePositiveRates[..], truePositiveRates[..])
  {
    areaUnderCurve := Finite(0.0);
    var x1, y1 := Finite(0.0), Finite(0.0);
    for i := 0 to falsePositiveRates.Length
      invariant areaUnderCurve == DoubleArea(falsePositiveRates[..i], truePositiveRates[..])
      invariant i == 0 ==> x1 == Finite(0.0) && y1 == Finite(0.0)
      invariant i > 0 ==> x1 == falsePositiveRates[i - 1] && y1 == truePositiveRates[i - 1]
    {
      DoubleAreaStep(falsePositiveRates[..], truePositiveRates[..], i + 1);
      var x2 := falsePositiveRates[i];
      var y2 := truePositiveRates[i];
      var base := Abs(Subtract(x1, x2));
      var height := Half(Add(y1, y2));
      areaUnderCurve := Add(areaUnderCurve, Multiply(base, height));
      x1 := x2;
      y1 := y2;
    }
    assert falsePositiveRates[..falsePositiveRates.Length] == falsePositiveRates[..];
  }

  /** The double area of the first i points adds the trapezoid back from point i − 1 to the one before it (to the origin for the first). */
  lemma DoubleAreaStep(xs: seq<Double>, ys: seq<Double>, i: int)
    requires 0 < i <= |xs| <= |ys|
    ensures DoubleArea(xs[..i], ys)
            == Add(DoubleArea(xs[..i - 1], ys),
                   Multiply(Abs(Subtract(if i == 1 then Finite(0.0) else xs[i - 2], xs[i - 1])),
                            Half(Add(if i == 1 then Finite(0.0) else ys[i - 2], ys[i - 1]))))
  {
    assert xs[..i][..i - 1] == xs[..i - 1];
  }

  /** A NaN at the last point makes the whole double area NaN. */
  lemma DoubleAreaLastNaN(xs: seq<Double>, ys: seq<Double>)
    requires 0 < |xs| <= |ys|
    requires xs[|xs| - 1].NaN? || ys[|xs| - 1].NaN?
    ensures DoubleArea(xs, ys).NaN?
  {
  }

  /** With finite shares at every point, the double area is the exact trapezoid area through them. */
  lemma DoubleAreaIsThresholdArea(xs: seq<Double>, ys: seq<Double>, ts: seq<real>, pos: seq<real>, neg: seq<real>)
    requires |xs| == |ts| <= |ys|
    requires forall i :: 0 <= i < |ts| ==>
               xs[i] == Finite(Roc.ShareAtLeast(neg, ts[i])) && ys[i] == Finite(Roc.ShareAtLeast(pos, ts[i]))
    ensures DoubleArea(xs, ys) == Finite(Roc.ThresholdArea(ts, pos, neg))
  {
    DoubleAreaPrefix(xs, ys, ts, pos, neg, |ts|);
    assert xs[..|ts|] == xs && ts[..|ts|] == ts;
  }

  /** The same for every prefix of the points. */
  lemma {:induction false} DoubleAreaPrefix(xs: seq<Double>, ys: seq<Double>, ts: seq<real>, pos: seq<real>, neg: seq<real>, i: int)
    requires |xs| == |ts| <= |ys| && 0 <= i <= |ts|
    requires forall i :: 0 <= i < |ts| ==>
               xs[i] == Finite(Roc.ShareAtLeast(neg, ts[i])) && ys[i] == Finite(Roc.ShareAtLeast(pos, ts[i]))
    ensures DoubleArea(xs[..i], ys) == Finite(Roc.ThresholdArea(ts[..i], pos, neg))
  {
    if i == 0 {
      assert xs[..0] == [] && ts[..0] == [];
    } else {
      DoubleAreaPrefix(xs, ys, ts, pos, neg, i - 1);
      DoubleAreaStep(xs, ys, i);
      Roc.ThresholdAreaStep(ts, pos, neg, i);
      if i == 1 {
        TrapezoidInDoubles(DoubleArea(xs[..i - 1], ys), Roc.ThresholdArea(ts[..i - 1], pos, neg),
                           0.0, 0.0, Roc.ShareAtLeast(neg, ts[i - 1]), Roc.ShareAtLeast(pos, ts[i - 1]));
      } else {
        TrapezoidInDoubles(DoubleArea(xs[..i - 1], ys), Roc.ThresholdArea(ts[..i - 1], pos, neg),
                           Roc.ShareAtLeast(neg, ts[i - 2]), Roc.ShareAtLeast(pos, ts[i - 2]),
                           Roc.ShareAtLeast(neg, ts[i - 1]), Roc.ShareAtLeast(pos, ts[i - 1]));
      }
    }
  }

  /** A finite running sum plus a trapezoid computed in doubles is the exact sum. */
  lemma TrapezoidInDoubles(sum: Double, exact: real, x1: real, y1: real, x2: real, y2: real)
    requires sum == Finite(exact)
    ensures Add(sum, Multiply(Abs(Subtract(Finite(x1), Finite(x2))), Half(Add(Finite(y1), Finite(y2)))))
            == Finite(exact + Roc.Trapezoid(x1, y1, x2, y2))
  {
  }

  // ---------------------------------------------------------------------
  // What the curve promises
  // ---------------------------------------------------------------------

  /**
   * Visiting the predictions in descending order, sensitivity and
   * `1 - specificity` never decrease.
   */
  lemma RatesMonotone(data: seq<ObservedPredictedValue>, i: int, j: int)
    requires Descending(data, Prediction)
    requires 0 <= i <= j < |data|
    ensures var pos := Positives(data);
            |pos| > 0 ==> Sensitivity(data[i].predictedValue, pos).value <= Sensitivity(data[j].predictedValue, pos).value
    ensures var neg := Negatives(data);
            |neg| > 0 ==> FallOut(data[i].predictedValue, neg).value <= FallOut(data[j].predictedValue, neg).value
  {
    var pos, neg := Positives(data), Negatives(data);
    var zi, zj := data[i].predictedValue, data[j].predictedValue;
    assert Prediction(data[i]) >= Prediction(data[j]);
    CountAtLeastAntitone(pos, zj, zi);
    CountAtLeastAntitone(neg, zj, zi);
    SensitivityShare(zi, pos);
    SensitivityShare(zj, pos);
    FallOutShare(zi, neg);
    FallOutShare(zj, neg);
    Roc.RateMonotone(CountAtLeast(pos, zi), CountAtLeast(pos, zj), |pos|);
    Roc.RateMonotone(CountAtLeast(neg, zi), CountAtLeast(neg, zj), |neg|);
  }

  /** The last point, at the lowest prediction, is (1, 1) when both classes occur. */
  lemma EndsAtOne(data: seq<ObservedPredictedValue>)
    requires Descending(data, Prediction) && |data| > 0
    ensures |Positives(data)| > 0 ==> Sensitivity(data[|data| - 1].predictedValue, Positives(data)) == Finite(1.0)
    ensures |Negatives(data)| > 0 ==> FallOut(data[|data| - 1].predictedValue, Negatives(data)) == Finite(1.0)
  {
    var z := data[|data| - 1].predictedValue;
    assert forall i :: 0 <= i < |data| ==> Prediction(data[i]) >= Prediction(data[|data| - 1]);
    SensitivityAtLowest(data, z);
    FallOutAtLowest(data, z);
  }

  /** No label-0 prediction below the threshold: specificity 0, so `1 - specificity` is 1. */
  lemma NothingBelow(n: real)
    requires n > 0.0
    ensures Subtract(Finite(1.0), Divide(0.0, n)) == Finite(1.0)
  {
    var r := Divide(0.0, n);
    assert r.value * n == 0.0;
  }

  /** At a threshold no prediction is below, every label-1 prediction counts. */
  lemma SensitivityAtLowest(data: seq<ObservedPredictedValue>, z: real)
    requires forall i :: 0 <= i < |data| ==> data[i].predictedValue >= z
    ensures |Positives(data)| > 0 ==> Sensitivity(z, Positives(data)) == Finite(1.0)
  {
    var pos := Positives(data);
    PredictionsAtLeast(data, 1, z);
    CountsAtLeast(pos, z);
    if |pos| > 0 {
      SensitivityShare(z, pos);
      WholeRate(|pos|);
    }
  }

  /** At a threshold no prediction is below, every label-0 prediction counts. */
  lemma FallOutAtLowest(data: seq<ObservedPredictedValue>, z: real)
    requires forall i :: 0 <= i < |data| ==> data[i].predictedValue >= z
    ensures |Negatives(data)| > 0 ==> FallOut(z, Negatives(data)) == Finite(1.0)
  {
    var neg := Negatives(data);
    PredictionsAtLeast(data, 0, z);
    CountsAtLeast(neg, z);
    if |neg| > 0 {
      NothingBelow(|neg| as real);
    }
  }

  /**
   * Over binary observations sorted by descending prediction, with
   * predictions in [0, 1] and both classes present, the double area over
   * the per-observation points is finite and equals the area `ROCCurve`
   * computes over its per-threshold matrices.
   */
  lemma AreaMatchesRocCurve(data: seq<ObservedPredictedValue>)
    requires Binary(data) && Probabilities(data) && Descending(data, Prediction)
    requires |Positives(data)| > 0 && |Negatives(data)| > 0
    ensures DoubleArea(FallOuts(data, Negatives(data)), Sensitivities(data, Positives(data)))
            == Finite(Roc.Area(Roc.Sweep(data, CountObserved(data, 1), CountObserved(data, 0))))
  {
    var pos, neg := Positives(data), Negatives(data);
    RocAreaOnThresholds(data);
    PointsAreShares(data, pos, neg);
    DoubleAreaIsThresholdArea(FallOuts(data, neg), Sensitivities(data, pos), Predictions(data), pos, neg);
  }

  /** `ROCCurve`'s area, for binary labels and probabilities, is the area through the points of every prediction. */
  lemma RocAreaOnThresholds(data: seq<ObservedPredictedValue>)
    requires Binary(data) && Probabilities(data) && Descending(data, Prediction)
    ensures Roc.Area(Roc.Sweep(data, CountObserved(data, 1), CountObserved(data, 0)))
            == Roc.ThresholdArea(Predictions(data), Positives(data), Negatives(data))
  {
    NotPositiveIsNegative(data);
    Roc.SweepArea(data);
  }

  /** With both classes present every stored rate is the finite share at its prediction. */
  lemma {:induction false} PointsAreShares(s: seq<ObservedPredictedValue>, pos: seq<real>, neg: seq<real>)
    requires |pos| > 0 && |neg| > 0
    ensures forall i :: 0 <= i < |s| ==>
              FallOuts(s, neg)[i] == Finite(Roc.ShareAtLeast(neg, Predictions(s)[i]))
              && Sensitivities(s, pos)[i] == Finite(Roc.ShareAtLeast(pos, Predictions(s)[i]))
  {
    if |s| > 0 {
      var init, z := s[..|s| - 1], s[|s| - 1].predictedValue;
      PointsAreShares(init, pos, neg);
      FallOutShare(z, neg);
      SensitivityShare(z, pos);
      forall i | 0 <= i < |init|
        ensures Predictions(s)[i] == Predictions(init)[i]
      {
      }
    }
  }

  /** With a single class present every point has a NaN coordinate, and so has the area. */
  lemma OneClassAreaNaN(data: seq<ObservedPredictedValue>)
    requires |data| > 0 && (|Positives(data)| == 0 || |Negatives(data)| == 0)
    ensures DoubleArea(FallOuts(data, Negatives(data)), Sensitivities(data, Positives(data))).NaN?
  {
    var z := data[|data| - 1].predictedValue;
    SensitivityShare(z, Positives(data));
    FallOutShare(z, Negatives(data));
    DoubleAreaLastNaN(FallOuts(data, Negatives(data)), Sensitivities(data, Positives(data)));
  }

  /** What the constructor's area is, for the sorted copy `data` of the input. */
  lemma SortedArea(observedPredictedValues: seq<ObservedPredictedValue>, data: seq<ObservedPredictedValue>)
    requires data == SortDescending(observedPredictedValues, Prediction)
    ensures Binary(observedPredictedValues) && Probabilities(observedPredictedValues)
            && CountObserved(data, 1) > 0 && CountObserved(data, 0) > 0 ==>
              DoubleArea(FallOuts(data, Negatives(data)), Sensitivities(data, Positives(data)))
              == Finite(Roc.Area(Roc.Sweep(data, CountObserved(data, 1), CountObserved(data, 0))))
    ensures |data| > 0 && (CountObserved(data, 1) == 0 || CountObserved(data, 0) == 0) ==>
              DoubleArea(FallOuts(data, Negatives(data)), Sensitivities(data, Positives(data))).NaN?
  {
    if Binary(observedPredictedValues) && Probabilities(observedPredictedValues)
       && CountObserved(data, 1) > 0 && CountObserved(data, 0) > 0 {
      BinaryPermutation(observedPredictedValues, data);
      ProbabilitiesPermutation(observedPredictedValues, data);
      AreaMatchesRocCurve(data);
    }
    if |data| > 0 && (CountObserved(data, 1) == 0 || CountObserved(data, 0) == 0) {
      OneClassAreaNaN(data);
    }
  }

  // ---------------------------------------------------------------------
  // The DeLong ROC curve object
  // ---------------------------------------------------------------------

  /** What a `DeLongROCCurve` holds once constructed. */
  datatype DeLongRocCurve = DeLongRocCurve(
    truePositiveRates: seq<Double>,
    falsePositiveRates: seq<Double>,
    confusionMatrices: seq<ConfusionMatrix>,
    numberOfPositives: int,
    numberOfNegatives: int,
    areaUnderRocCurve: Double)

  /** The arrays the constructor allocates and fills, and the area over them. */
  method Curve(data: seq<ObservedPredictedValue>, numberOfPositives: int, numberOfNegatives: int)
    returns (truePositiveRates: seq<Double>, falsePositiveRates: seq<Double>,
             confusionMatrices: seq<ConfusionMatrix>, areaUnderRocCurve: Double)
    ensures truePositiveRates == Sensitivities(data, Positives(data))
    ensures falsePositiveRates == FallOuts(data, Negatives(data))
    ensures confusionMatrices == Matrices(data, Positives(data), Negatives(data), numberOfPositives, numberOfNegatives)
    ensures areaUnderRocCurve == DoubleArea(falsePositiveRates, truePositiveRates)
  {
    var tpr := new Double[|data|];
    var fpr := new Double[|data|];
    confusionMatrices := ComputeConfusionMatrices(data, numberOfPositives, numberOfNegatives, tpr, fpr);
    areaUnderRocCurve := ComputeAreaUnderRocCurve(tpr, fpr);
    truePositiveRates, falsePositiveRates := tpr[..], fpr[..];
  }

  /**
   * The `DeLongROCCurve` constructor: rejects an empty sample, sorts a copy
   * by descending prediction, counts the classes, fills the two rate arrays
   * and the matrices, and integrates the points.
   */
  method NewDeLongRocCurve(observedPredictedValues: seq<ObservedPredictedValue>) returns (r: Result<DeLongRocCurve>)
    ensures r.Failure? <==> |observedPredictedValues| == 0
    ensures r.Success? ==>
              var c, data := r.value, SortDescending(observedPredictedValues, Prediction);
              c.numberOfPositives == CountObserved(observedPredictedValues, 1)
              && c.numberOfNegatives == CountObserved(observedPredictedValues, 0)
              && c.truePositiveRates == Sensitivities(data, Positives(data))
              && c.falsePositiveRates == FallOuts(data, Negatives(data))
              && c.confusionMatrices == Matrices(data, Positives(data), Negatives(data), c.numberOfPositives, c.numberOfNegatives)
              && c.areaUnderRocCurve == DoubleArea(c.falsePositiveRates, c.truePositiveRates)
    ensures r.Success? ==>
              |r.value.truePositiveRates| == |r.value.falsePositiveRates| == |r.value.confusionMatrices|
              == |observedPredictedValues|
    ensures r.Success? && Binary(observedPredictedValues) && Probabilities(observedPredictedValues)
            && r.value.numberOfPositives > 0 && r.value.numberOfNegatives > 0 ==>
              r.value.areaUnderRocCurve
              == Finite(Roc.Area(Roc.Sweep(SortDescending(observedPredictedValues, Prediction),
                                           r.value.numberOfPositives, r.value.numberOfNegatives)))
    ensures r.Success? && (r.value.numberOfPositives == 0 || r.value.numberOfNegatives == 0) ==>
              r.value.areaUnderRocCurve.NaN?
  {
    if |observedPredictedValues| == 0 {
      return Failure("Observed values and predicted values are required.");
    }
    var data := SortDescending(observedPredictedValues, Prediction);
    var numberOfPositives := CountObserved(data, 1);
    var numberOfNegatives := CountObserved(data, 0);
    CountObservedPermutation(data, observedPredictedValues, 1);
    CountObservedPermutation(data, observedPredictedValues, 0);
    var truePositiveRates, falsePositiveRates, confusionMatrices, areaUnderRocCurve :=
      Curve(data, numberOfPositives, numberOfNegatives);
    SortedArea(observedPredictedValues, data);
    r := Success(DeLongRocCurve(truePositiveRates, falsePositiveRates, confusionMatrices,
                                numberOfPositives, numberOfNegatives, areaUnderRocCurve));
  }
}
