/**
 * `ROCCurve`: the threshold sweep that turns observations sorted by
 * descending prediction into one confusion matrix per distinct prediction
 * (plus the initial all-negative matrix), and the trapezoid area under the
 * (FPR, TPR) points of those matrices.
 */
module Roc {
  import opened Data
  import opened Confusion
  import opened Placement

  // ---------------------------------------------------------------------
  // The sweep
  // ---------------------------------------------------------------------

  /** The matrix the sweep starts from: nothing predicted positive, threshold −1. */
  function Initial(numberOfPositives: int, numberOfNegatives: int): ConfusionMatrix
  {
    ConfusionMatrix(0, numberOfNegatives, 0, numberOfPositives, -1.0)
  }

  /**
   * The counts once `x` is predicted positive as well: a label-1 observation
   * moves from FN to TP, any other one from TN to FP.
   */
  function Bump(m: ConfusionMatrix, x: ObservedPredictedValue): (r: ConfusionMatrix)
    ensures r.Positives() == m.Positives() && r.Negatives() == m.Negatives()
    ensures r.threshold == m.threshold
  {
    if x.observedValue == 1 then
      m.(truePositives := m.truePositives + 1, falseNegatives := m.falseNegatives - 1)
    else
      m.(falsePositives := m.falsePositives + 1, trueNegatives := m.trueNegatives - 1)
  }

  /**
   * The matrices emitted for the observations `s` (in the order the sweep
   * visits them): the current matrix absorbs each observation whose
   * prediction equals its threshold; a new prediction closes it and opens a
   * copy at the new threshold.
   */
  function Sweep(s: seq<ObservedPredictedValue>, numberOfPositives: int, numberOfNegatives: int): (ms: seq<ConfusionMatrix>)
    ensures 1 <= |ms| <= |s| + 1
    ensures forall k :: 0 <= k < |ms| ==>
              ms[k].Positives() == numberOfPositives && ms[k].Negatives() == numberOfNegatives
  {
    if |s| == 0 then [Initial(numberOfPositives, numberOfNegatives)]
    else
      var prev := Sweep(s[..|s| - 1], numberOfPositives, numberOfNegatives);
      var x := s[|s| - 1];
      var last := prev[|prev| - 1];
      if x.predictedValue == last.threshold then prev[..|prev| - 1] + [Bump(last, x)]
      else prev + [Bump(last, x).(threshold := x.predictedValue)]
  }

  /** One more observation: the sweep of `s[..i + 1]` is one step on from the sweep of `s[..i]`. */
  lemma SweepStep(s: seq<ObservedPredictedValue>, i: int, numberOfPositives: int, numberOfNegatives: int)
    requires 0 <= i < |s|
    ensures var prev := Sweep(s[..i], numberOfPositives, numberOfNegatives);
            var last := prev[|prev| - 1];
            Sweep(s[..i + 1], numberOfPositives, numberOfNegatives)
              == if s[i].predictedValue == last.threshold then prev[..|prev| - 1] + [Bump(last, s[i])]
                 else prev + [Bump(last, s[i]).(threshold := s[i].predictedValue)]
  {
    assert s[..i + 1][..i] == s[..i];
  }

  /** `ROCCurve.computeConfusionMatrices`: the loop that emits `Sweep(data, …)`. */
  method ComputeConfusionMatrices(data: seq<ObservedPredictedValue>, numberOfPositives: int, numberOfNegatives: int)
    returns (confusionMatrices: seq<ConfusionMatrix>)
    ensures confusionMatrices == Sweep(data, numberOfPositives, numberOfNegatives)
  {
    var confusionMatrixList: seq<ConfusionMatrix> := [];
    var falsePositive := 0;
    var truePositive := 0;
    var trueNegative := numberOfNegatives;
    var falseNegative := numberOfPositives;
    var threshold := -1.0;
    for i := 0 to |data|
      invariant confusionMatrixList + [ConfusionMatrix(truePositive, trueNegative, falsePositive, falseNegative, threshold)]
                == Sweep(data[..i], numberOfPositives, numberOfNegatives)
    {
      ghost var current := ConfusionMatrix(truePositive, trueNegative, falsePositive, falseNegative, threshold);
      ghost var list := confusionMatrixList;
      SweepStep(data, i, numberOfPositives, numberOfNegatives);
      var observedPredictedValue := data[i];
      if observedPredictedValue.predictedValue != threshold {
        confusionMatrixList := confusionMatrixList
          + [ConfusionMatrix(truePositive, trueNegative, falsePositive, falseNegative, threshold)];
        threshold := observedPredictedValue.predictedValue;
      } else {
        assert (list + [current])[..|list|] == list;
      }
      if observedPredictedValue.observedValue == 1 {
        truePositive := truePositive + 1;
        falseNegative := falseNegative - 1;
      } else {
        falsePositive := falsePositive + 1;
        trueNegative := trueNegative - 1;
      }
      assert ConfusionMatrix(truePositive, trueNegative, falsePositive, falseNegative, threshold)
          == Bump(current, data[i]).(threshold := threshold);
    }
    assert data[..|data|] == data;
    confusionMatrices := confusionMatrixList
      + [ConfusionMatrix(truePositive, trueNegative, falsePositive, falseNegative, threshold)];
  }

  // ---------------------------------------------------------------------
  // The trapezoid area
  // ---------------------------------------------------------------------

  function Abs(x: real): real { if x < 0.0 then -x else x }

  /** The trapezoid between (x1, y1) and (x2, y2): |x1 − x2| · (y1 + y2)/2. */
  function Trapezoid(x1: real, y1: real, x2: real, y2: real): real
  {
    Abs(x1 - x2) * ((y1 + y2) / 2.0)
  }

  /** The trapezoid does not depend on which end is named first. */
  lemma TrapezoidSymmetric(x1: real, y1: real, x2: real, y2: real)
    ensures Trapezoid(x1, y1, x2, y2) == Trapezoid(x2, y2, x1, y1)
  {
    assert Abs(x1 - x2) == Abs(x2 - x1);
    assert (y1 + y2) / 2.0 == (y2 + y1) / 2.0;
  }

  /** A trapezoid of zero width has no area. */
  lemma TrapezoidZeroWidth(x: real, y1: real, y2: real)
    ensures Trapezoid(x, y1, x, y2) == 0.0
  {
  }

  lemma TrapezoidIs(x1: real, y1: real, x2: real, y2: real, base: real, height: real)
    requires base == Abs(x1 - x2) && height == (y1 + y2) / 2.0
    ensures base * height == Trapezoid(x1, y1, x2, y2)
  {
  }

  /** The point a matrix contributes to the ROC curve: x = FPR, y = TPR. */
  function PointX(m: ConfusionMatrix): real { m.FalsePositiveRate() }

  function PointY(m: ConfusionMatrix): real { m.TruePositiveRate() }

  /** The trapezoid sum over the points of `ms`, starting from the origin. */
  function Area(ms: seq<ConfusionMatrix>): real
  {
    if |ms| == 0 then 0.0
    else
      var m := ms[|ms| - 1];
      var x1 := if |ms| == 1 then 0.0 else PointX(ms[|ms| - 2]);
      var y1 := if |ms| == 1 then 0.0 else PointY(ms[|ms| - 2]);
      Area(ms[..|ms| - 1]) + Trapezoid(x1, y1, PointX(m), PointY(m))
  }

  /** `ROCCurve.computeAreaUnderRocCurve`: the loop that accumulates `Area`. */
  method ComputeAreaUnderRocCurve(confusionMatrices: seq<ConfusionMatrix>) returns (areaUnderCurve: real)
    ensures areaUnderCurve == Area(confusionMatrices)
  {
    areaUnderCurve := 0.0;
    var x1, y1 := 0.0, 0.0;
    for i := 0 to |confusionMatrices|
      invariant areaUnderCurve == Area(confusionMatrices[..i])
      invariant i == 0 ==> x1 == 0.0 && y1 == 0.0
      invariant i > 0 ==> x1 == PointX(confusionMatrices[i - 1]) && y1 == PointY(confusionMatrices[i - 1])
    {
      assert confusionMatrices[..i + 1][..i] == confusionMatrices[..i];
      var x2 := confusionMatrices[i].FalsePositiveRate();
      var y2 := confusionMatrices[i].TruePositiveRate();
      var base := Abs(x1 - x2);
      var height := (y1 + y2) / 2.0;
      TrapezoidIs(x1, y1, x2, y2, base, height);
      areaUnderCurve := areaUnderCurve + base * height;
      x1 := x2;
      y1 := y2;
    }
    assert confusionMatrices[..|confusionMatrices|] == confusionMatrices;
  }

  // ---------------------------------------------------------------------
  // What the sweep counts
  // ---------------------------------------------------------------------

  /** The predictions of the observations the sweep counts as negatives (label other than 1). */
  function Others(s: seq<ObservedPredictedValue>): seq<real> { PredictionsNotObserved(s, 1) }

  /**
   * The last matrix has absorbed every observation: TP counts the label-1
   * observations, FP the others, and its threshold is the last prediction
   * (−1 for no observations).
   */
  lemma {:induction false} SweepLast(s: seq<ObservedPredictedValue>, numberOfPositives: int, numberOfNegatives: int)
    ensures Final(Sweep(s, numberOfPositives, numberOfNegatives)).truePositives == CountObserved(s, 1)
    ensures Final(Sweep(s, numberOfPositives, numberOfNegatives)).falsePositives == |s| - CountObserved(s, 1)
    ensures Final(Sweep(s, numberOfPositives, numberOfNegatives)).threshold == (if |s| == 0 then -1.0 else s[|s| - 1].predictedValue)
  {
    if |s| > 0 {
      var init, x := s[..|s| - 1], s[|s| - 1];
      SweepLast(init, numberOfPositives, numberOfNegatives);
      var prev := Sweep(init, numberOfPositives, numberOfNegatives);
      var bumped := Bump(Final(prev), x);
      assert Final(Sweep(s, numberOfPositives, numberOfNegatives))
             == if x.predictedValue == Final(prev).threshold then bumped else bumped.(threshold := x.predictedValue);
    }
  }

  /** The last matrix of a sweep. */
  function Final(ms: seq<ConfusionMatrix>): ConfusionMatrix
    requires |ms| > 0
  {
    ms[|ms| - 1]
  }

  /**
   * With the class counts taken from the data (`ROCCurve.java` counts label 1
   * and label 0) and only labels 0 and 1, the last matrix predicts everything
   * positive: TP = P, FP = N, FN = TN = 0, so it is the point (1, 1) when both
   * classes occur.
   */
  lemma SweepEndsAtAllPositive(s: seq<ObservedPredictedValue>)
    requires Binary(s)
    ensures Final(Sweep(s, CountObserved(s, 1), CountObserved(s, 0))).truePositives == CountObserved(s, 1)
    ensures Final(Sweep(s, CountObserved(s, 1), CountObserved(s, 0))).falsePositives == CountObserved(s, 0)
    ensures Final(Sweep(s, CountObserved(s, 1), CountObserved(s, 0))).falseNegatives == 0
    ensures Final(Sweep(s, CountObserved(s, 1), CountObserved(s, 0))).trueNegatives == 0
    ensures CountObserved(s, 1) > 0 ==> Final(Sweep(s, CountObserved(s, 1), CountObserved(s, 0))).TruePositiveRate() == 1.0
    ensures CountObserved(s, 0) > 0 ==> Final(Sweep(s, CountObserved(s, 1), CountObserved(s, 0))).FalsePositiveRate() == 1.0
  {
    var last := Final(Sweep(s, CountObserved(s, 1), CountObserved(s, 0)));
    SweepLast(s, CountObserved(s, 1), CountObserved(s, 0));
    NotPositiveIsNegative(s);
    assert last.Positives() == CountObserved(s, 1) && last.Negatives() == CountObserved(s, 0);
    if CountObserved(s, 1) > 0 {
      FullRecall(last);
    }
    if CountObserved(s, 0) > 0 {
      FullFallOut(last);
    }
  }

  /**
   * Unless the first prediction is exactly −1, the first matrix is the
   * initial one: TP = FP = 0, TN = N, FN = P, threshold −1.
   */
  lemma {:induction false} SweepFirst(s: seq<ObservedPredictedValue>, numberOfPositives: int, numberOfNegatives: int)
    requires |s| == 0 || s[0].predictedValue != -1.0
    ensures Sweep(s, numberOfPositives, numberOfNegatives)[0] == Initial(numberOfPositives, numberOfNegatives)
    ensures |s| > 0 ==> |Sweep(s, numberOfPositives, numberOfNegatives)| >= 2
  {
    if |s| > 0 {
      var init := s[..|s| - 1];
      if |init| > 0 {
        assert init[0] == s[0];
      }
      SweepFirst(init, numberOfPositives, numberOfNegatives);
      SweepLast(init, numberOfPositives, numberOfNegatives);
    }
  }

  /** One matrix per change of prediction along the walk from threshold −1, plus the final one. */
  lemma {:induction false} SweepLength(s: seq<ObservedPredictedValue>, numberOfPositives: int, numberOfNegatives: int)
    ensures |Sweep(s, numberOfPositives, numberOfNegatives)| == Changes(Predictions(s), -1.0) + 1
  {
    if |s| > 0 {
      var init := s[..|s| - 1];
      SweepLength(init, numberOfPositives, numberOfNegatives);
      SweepLast(init, numberOfPositives, numberOfNegatives);
      var prev := Sweep(init, numberOfPositives, numberOfNegatives);
      var x := s[|s| - 1];
      var previous := if |s| == 1 then -1.0 else s[|s| - 2].predictedValue;
      ChangesStep(s, -1.0);
      assert |Sweep(s, numberOfPositives, numberOfNegatives)| == |prev| + (if x.predictedValue != previous then 1 else 0) by {
        assert previous == prev[|prev| - 1].threshold;
      }
    }
  }

  /**
   * Over observations sorted by descending prediction, none of them
   * predicted exactly −1, there is one matrix per distinct prediction plus
   * the initial one.
   */
  lemma SweepDistinct(s: seq<ObservedPredictedValue>, numberOfPositives: int, numberOfNegatives: int)
    requires Descending(s, Prediction)
    requires |s| == 0 || s[0].predictedValue != -1.0
    ensures |Sweep(s, numberOfPositives, numberOfNegatives)| == |Distinct(Predictions(s))| + 1
  {
    SweepLength(s, numberOfPositives, numberOfNegatives);
    var xs := Predictions(s);
    assert forall i :: 0 <= i < |s| ==> Prediction(s[i]) == xs[i];
    ChangesDistinct(xs, -1.0);
  }

  /** The matrices after the first sit at the thresholds `ts`, in order. */
  ghost predicate AtThresholds(ms: seq<ConfusionMatrix>, ts: seq<real>)
  {
    |ms| == |ts| + 1 && forall k :: 1 <= k < |ms| ==> ms[k].threshold == ts[k - 1]
  }

  lemma ThresholdsReplaceLast(prev: seq<ConfusionMatrix>, m: ConfusionMatrix, ts: seq<real>)
    requires AtThresholds(prev, ts) && m.threshold == prev[|prev| - 1].threshold
    ensures AtThresholds(prev[..|prev| - 1] + [m], ts)
  {
    var ms := prev[..|prev| - 1] + [m];
    forall k | 1 <= k < |ms|
      ensures ms[k].threshold == ts[k - 1]
    {
      if k < |prev| - 1 {
        assert ms[k] == prev[k];
      }
    }
  }

  lemma ThresholdsAppend(prev: seq<ConfusionMatrix>, m: ConfusionMatrix, ts: seq<real>)
    requires AtThresholds(prev, ts)
    ensures AtThresholds(prev + [m], ts + [m.threshold])
  {
    var ms := prev + [m];
    forall k | 1 <= k < |ms|
      ensures ms[k].threshold == (ts + [m.threshold])[k - 1]
    {
      if k < |prev| {
        assert ms[k] == prev[k];
      }
    }
  }

  /**
   * Unless the first prediction is exactly −1, the matrices after the first
   * sit at the predictions of the walk with repeats collapsed, in order.
   */
  lemma {:induction false} SweepThresholds(s: seq<ObservedPredictedValue>, numberOfPositives: int, numberOfNegatives: int)
    requires |s| == 0 || s[0].predictedValue != -1.0
    ensures AtThresholds(Sweep(s, numberOfPositives, numberOfNegatives), Dedup(Predictions(s)))
  {
    if |s| > 0 {
      var init, x := s[..|s| - 1], s[|s| - 1];
      if |init| > 0 {
        assert init[0] == s[0];
      }
      SweepThresholds(init, numberOfPositives, numberOfNegatives);
      SweepLast(init, numberOfPositives, numberOfNegatives);
      var prev := Sweep(init, numberOfPositives, numberOfNegatives);
      var n := |prev| - 1;
      var xs := Predictions(s);
      assert xs[..|xs| - 1] == Predictions(init);
      assert xs[|xs| - 1] == x.predictedValue;
      if x.predictedValue == prev[n].threshold {
        assert |init| > 0 && xs[|xs| - 2] == x.predictedValue;
        ThresholdsReplaceLast(prev, Bump(prev[n], x), Dedup(Predictions(init)));
      } else {
        assert |init| > 0 ==> xs[|xs| - 2] != x.predictedValue;
        ThresholdsAppend(prev, Bump(prev[n], x).(threshold := x.predictedValue), Dedup(Predictions(init)));
      }
    }
  }

  /** TP and FP never decrease along the emitted matrices, so neither do TPR and FPR. */
  lemma {:induction false} SweepMonotone(s: seq<ObservedPredictedValue>, numberOfPositives: int, numberOfNegatives: int)
    ensures var ms := Sweep(s, numberOfPositives, numberOfNegatives);
            forall j, k :: 0 <= j <= k < |ms| ==>
              ms[j].truePositives <= ms[k].truePositives && ms[j].falsePositives <= ms[k].falsePositives
    ensures var ms := Sweep(s, numberOfPositives, numberOfNegatives);
            ms[0].truePositives >= 0 && ms[0].falsePositives >= 0
  {
    if |s| > 0 {
      var prev := Sweep(s[..|s| - 1], numberOfPositives, numberOfNegatives);
      SweepMonotone(s[..|s| - 1], numberOfPositives, numberOfNegatives);
      var ms := Sweep(s, numberOfPositives, numberOfNegatives);
      var last := prev[|prev| - 1];
      assert last.truePositives <= ms[|ms| - 1].truePositives && last.falsePositives <= ms[|ms| - 1].falsePositives;
      forall j, k | 0 <= j <= k < |ms|
        ensures ms[j].truePositives <= ms[k].truePositives && ms[j].falsePositives <= ms[k].falsePositives
      {
        if k < |ms| - 1 {
          assert ms[j] == prev[j] && ms[k] == prev[k];
        } else if j < |ms| - 1 {
          assert ms[j] == prev[j];
        }
      }
    }
  }

  /** The rates of the emitted matrices never decrease either: the curve only climbs right and up. */
  lemma RatesMonotone(s: seq<ObservedPredictedValue>, numberOfPositives: int, numberOfNegatives: int, j: int, k: int)
    requires numberOfPositives >= 0 && numberOfNegatives >= 0
    requires 0 <= j <= k < |Sweep(s, numberOfPositives, numberOfNegatives)|
    ensures var ms := Sweep(s, numberOfPositives, numberOfNegatives);
            ms[j].TruePositiveRate() <= ms[k].TruePositiveRate()
            && ms[j].FalsePositiveRate() <= ms[k].FalsePositiveRate()
  {
    SweepMonotone(s, numberOfPositives, numberOfNegatives);
    var ms := Sweep(s, numberOfPositives, numberOfNegatives);
    RateMonotone(ms[j].truePositives, ms[k].truePositives, numberOfPositives);
    RateMonotone(ms[j].falsePositives, ms[k].falsePositives, numberOfNegatives);
  }

  lemma RateMonotone(a: int, b: int, d: int)
    requires a <= b && d >= 0
    ensures (if d == 0 then 0.0 else a as real / d as real) <= (if d == 0 then 0.0 else b as real / d as real)
  {
  }

  // ---------------------------------------------------------------------
  // The area is the Mann-Whitney statistic
  // ---------------------------------------------------------------------

  /** TP of the last matrix of `init`, or of the origin when there is none. */
  function TpBefore(init: seq<ConfusionMatrix>): int
  {
    if |init| == 0 then 0 else init[|init| - 1].truePositives
  }

  /** FP of the last matrix of `init`, or of the origin when there is none. */
  function FpBefore(init: seq<ConfusionMatrix>): int
  {
    if |init| == 0 then 0 else init[|init| - 1].falsePositives
  }

  /**
   * The trapezoid sum in counts rather than rates, doubled:
   * Σ_k (FP_k − FP_{k−1})·(TP_k + TP_{k−1}), starting from the origin.
   */
  function CountArea(ms: seq<ConfusionMatrix>): int
  {
    if |ms| == 0 then 0
    else
      var init, m := ms[..|ms| - 1], ms[|ms| - 1];
      CountArea(init) + (m.falsePositives - FpBefore(init)) * (m.truePositives + TpBefore(init))
  }

  /** Every prediction of the label-1 and of the other observations is at least `t`. */
  lemma {:induction false} SplitsAtLeast(s: seq<ObservedPredictedValue>, t: real)
    requires forall i :: 0 <= i < |s| ==> s[i].predictedValue >= t
    ensures forall i :: 0 <= i < |Positives(s)| ==> Positives(s)[i] >= t
    ensures forall i :: 0 <= i < |Others(s)| ==> Others(s)[i] >= t
  {
    if |s| > 0 {
      var init, x := s[..|s| - 1], s[|s| - 1];
      assert forall i :: 0 <= i < |init| ==> init[i] == s[i];
      SplitsAtLeast(init, t);
      SplitLast(s);
    }
  }

  /** Every prediction of the label-1 and of the other observations is above `t`. */
  lemma {:induction false} SplitsAbove(s: seq<ObservedPredictedValue>, t: real)
    requires forall i :: 0 <= i < |s| ==> s[i].predictedValue > t
    ensures forall i :: 0 <= i < |Positives(s)| ==> Positives(s)[i] > t
    ensures forall i :: 0 <= i < |Others(s)| ==> Others(s)[i] > t
  {
    if |s| > 0 {
      var init, x := s[..|s| - 1], s[|s| - 1];
      assert forall i :: 0 <= i < |init| ==> init[i] == s[i];
      SplitsAbove(init, t);
      SplitLast(s);
    }
  }

  /** The last observation's prediction ends the split it belongs to. */
  lemma SplitLast(s: seq<ObservedPredictedValue>)
    requires |s| > 0
    ensures var init, x := s[..|s| - 1], s[|s| - 1];
            if x.observedValue == 1 then
              Positives(s) == Positives(init) + [x.predictedValue] && Others(s) == Others(init)
            else
              Positives(s) == Positives(init) && Others(s) == Others(init) + [x.predictedValue]
  {
  }

  /**
   * In observations sorted by descending prediction, the last observation is
   * at or below all the others, and strictly below them when it opens a new
   * matrix.
   */
  lemma SortedTail(s: seq<ObservedPredictedValue>, numberOfPositives: int, numberOfNegatives: int)
    requires |s| > 0 && Descending(s, Prediction)
    ensures Descending(s[..|s| - 1], Prediction)
    ensures forall i :: 0 <= i < |s| - 1 ==> s[i].predictedValue >= s[|s| - 1].predictedValue
    ensures var prev := Sweep(s[..|s| - 1], numberOfPositives, numberOfNegatives);
            s[|s| - 1].predictedValue != prev[|prev| - 1].threshold ==>
              forall i :: 0 <= i < |s| - 1 ==> s[i].predictedValue > s[|s| - 1].predictedValue
  {
    var init := s[..|s| - 1];
    assert forall i :: 0 <= i < |init| ==> init[i] == s[i];
    assert forall i :: 0 <= i < |s| ==> Prediction(s[i]) == s[i].predictedValue;
    SweepLast(init, numberOfPositives, numberOfNegatives);
  }

  /**
   * The matrix before the last one counts exactly the observations predicted
   * strictly above the last threshold, so a run of equal predictions is never
   * split between matrices.
   */
  lemma {:induction false} SweepBefore(s: seq<ObservedPredictedValue>, numberOfPositives: int, numberOfNegatives: int)
    requires Descending(s, Prediction)
    ensures CountedBefore(Sweep(s, numberOfPositives, numberOfNegatives), Positives(s), Others(s))
  {
    if |s| > 0 {
      var init := s[..|s| - 1];
      SortedTail(s, numberOfPositives, numberOfNegatives);
      SweepBefore(init, numberOfPositives, numberOfNegatives);
      var prev := Sweep(init, numberOfPositives, numberOfNegatives);
      if s[|s| - 1].predictedValue == prev[|prev| - 1].threshold {
        SweepBeforeSame(s, numberOfPositives, numberOfNegatives);
      } else {
        SweepBeforeNew(s, numberOfPositives, numberOfNegatives);
      }
    }
  }

  /** The counts of the matrices before the last one are the label-1 and other predictions strictly above its threshold. */
  ghost predicate CountedBefore(ms: seq<ConfusionMatrix>, pos: seq<real>, oth: seq<real>)
  {
    && |ms| > 0
    && TpBefore(ms[..|ms| - 1]) == CountAbove(pos, ms[|ms| - 1].threshold)
    && FpBefore(ms[..|ms| - 1]) == CountAbove(oth, ms[|ms| - 1].threshold)
  }

  /** A pair at the current threshold joins the last matrix: nothing before it changes, and it is not above itself. */
  lemma SweepBeforeSame(s: seq<ObservedPredictedValue>, numberOfPositives: int, numberOfNegatives: int)
    requires |s| > 0
    requires CountedBefore(Sweep(s[..|s| - 1], numberOfPositives, numberOfNegatives), Positives(s[..|s| - 1]), Others(s[..|s| - 1]))
    requires s[|s| - 1].predictedValue == Final(Sweep(s[..|s| - 1], numberOfPositives, numberOfNegatives)).threshold
    ensures CountedBefore(Sweep(s, numberOfPositives, numberOfNegatives), Positives(s), Others(s))
  {
    var init, x := s[..|s| - 1], s[|s| - 1];
    var prev := Sweep(init, numberOfPositives, numberOfNegatives);
    var ms := Sweep(s, numberOfPositives, numberOfNegatives);
    SplitLast(s);
    assert ms == prev[..|prev| - 1] + [Bump(Final(prev), x)];
    assert ms[..|ms| - 1] == prev[..|prev| - 1];
    CountedBeforeSame(prev, ms, Positives(init), Others(init), Positives(s), Others(s), x.predictedValue);
  }

  /** The matrices before the last one stay, at the same threshold, while one more prediction at that threshold is split off. */
  lemma CountedBeforeSame(prev: seq<ConfusionMatrix>, ms: seq<ConfusionMatrix>,
                          pos: seq<real>, oth: seq<real>, pos': seq<real>, oth': seq<real>, v: real)
    requires CountedBefore(prev, pos, oth) && |ms| > 0
    requires ms[..|ms| - 1] == prev[..|prev| - 1] && Final(ms).threshold == v && Final(prev).threshold == v
    requires (pos' == pos + [v] && oth' == oth) || (pos' == pos && oth' == oth + [v])
    ensures CountedBefore(ms, pos', oth')
  {
    CountsSnoc(pos, v, v);
    CountsSnoc(oth, v, v);
  }

  /**
   * A pair below the current threshold opens a new matrix: the ones before
   * it are all of the earlier matrices, and every earlier pair is above it.
   */
  lemma SweepBeforeNew(s: seq<ObservedPredictedValue>, numberOfPositives: int, numberOfNegatives: int)
    requires |s| > 0 && Descending(s, Prediction)
    requires s[|s| - 1].predictedValue != Final(Sweep(s[..|s| - 1], numberOfPositives, numberOfNegatives)).threshold
    ensures CountedBefore(Sweep(s, numberOfPositives, numberOfNegatives), Positives(s), Others(s))
  {
    var init, x := s[..|s| - 1], s[|s| - 1];
    var v := x.predictedValue;
    SortedTail(s, numberOfPositives, numberOfNegatives);
    SweepLast(init, numberOfPositives, numberOfNegatives);
    var prev := Sweep(init, numberOfPositives, numberOfNegatives);
    var ms := Sweep(s, numberOfPositives, numberOfNegatives);
    SplitLast(s);
    assert ms == prev + [Bump(Final(prev), x).(threshold := v)];
    assert ms[..|ms| - 1] == prev;
    SplitsAbove(init, v);
    CountedBeforeNew(prev, ms, Positives(init), Others(init), Positives(s), Others(s), v);
  }

  /**
   * A new last matrix below every earlier prediction: the matrices before it
   * are all the earlier ones, whose last counted every earlier prediction.
   */
  lemma CountedBeforeNew(prev: seq<ConfusionMatrix>, ms: seq<ConfusionMatrix>,
                         pos: seq<real>, oth: seq<real>, pos': seq<real>, oth': seq<real>, v: real)
    requires |prev| > 0 && |ms| > 0 && ms[..|ms| - 1] == prev && Final(ms).threshold == v
    requires Final(prev).truePositives == |pos| && Final(prev).falsePositives == |oth|
    requires forall i :: 0 <= i < |pos| ==> pos[i] > v
    requires forall i :: 0 <= i < |oth| ==> oth[i] > v
    requires (pos' == pos + [v] && oth' == oth) || (pos' == pos && oth' == oth + [v])
    ensures CountedBefore(ms, pos', oth')
  {
    CountsSnoc(pos, v, v);
    CountsSnoc(oth, v, v);
    CountsAllAbove(pos, v);
    CountsAllAbove(oth, v);
  }

  /**
   * The closed form of a run of matrices over the label-1 predictions `pos`
   * and the other predictions `oth`: after the first matrix the thresholds
   * strictly decrease, and the matrix at threshold t counts as predicted
   * positive exactly the predictions at or above t.
   */
  ghost predicate ClosedForm(ms: seq<ConfusionMatrix>, pos: seq<real>, oth: seq<real>)
  {
    (forall j, k :: 1 <= j < k < |ms| ==> ms[j].threshold > ms[k].threshold)
    && (forall k :: 1 <= k < |ms| ==>
          ms[k].truePositives == CountAtLeast(pos, ms[k].threshold)
          && ms[k].falsePositives == CountAtLeast(oth, ms[k].threshold))
  }

  /** Adding `v` to the label-1 or the other predictions, as `x`'s label says. */
  ghost predicate Absorbs(x: ObservedPredictedValue, pos: seq<real>, oth: seq<real>, pos': seq<real>, oth': seq<real>)
  {
    if x.observedValue == 1 then pos' == pos + [x.predictedValue] && oth' == oth
    else pos' == pos && oth' == oth + [x.predictedValue]
  }

  /** Predictions above `v` are counted the same once `v` is added. */
  lemma AbsorbsAbove(x: ObservedPredictedValue, pos: seq<real>, oth: seq<real>, pos': seq<real>, oth': seq<real>, t: real)
    requires Absorbs(x, pos, oth, pos', oth')
    ensures CountAtLeast(pos', t) == CountAtLeast(pos, t) + (if x.observedValue == 1 && x.predictedValue >= t then 1 else 0)
    ensures CountAtLeast(oth', t) == CountAtLeast(oth, t) + (if x.observedValue != 1 && x.predictedValue >= t then 1 else 0)
  {
    CountsSnoc(pos, x.predictedValue, t);
    CountsSnoc(oth, x.predictedValue, t);
  }

  /** The closed form survives an observation that the last matrix absorbs. */
  lemma ClosedFormSameGroup(prev: seq<ConfusionMatrix>, ms: seq<ConfusionMatrix>, x: ObservedPredictedValue,
                            pos: seq<real>, oth: seq<real>, pos': seq<real>, oth': seq<real>)
    requires ClosedForm(prev, pos, oth) && Absorbs(x, pos, oth, pos', oth')
    requires |prev| > 0 && x.predictedValue == prev[|prev| - 1].threshold
    requires ms == prev[..|prev| - 1] + [Bump(prev[|prev| - 1], x)]
    ensures ClosedForm(ms, pos', oth')
  {
    var n, v := |prev| - 1, x.predictedValue;
    forall k | 1 <= k < |ms|
      ensures ms[k].threshold == prev[k].threshold
      ensures ms[k].truePositives == CountAtLeast(pos', ms[k].threshold)
      ensures ms[k].falsePositives == CountAtLeast(oth', ms[k].threshold)
    {
      AbsorbsAbove(x, pos, oth, pos', oth', ms[k].threshold);
      if k < n {
        assert ms[k] == prev[k];
      }
    }
  }

  /** The closed form survives an observation that opens a new matrix below every earlier threshold. */
  lemma ClosedFormNewGroup(prev: seq<ConfusionMatrix>, ms: seq<ConfusionMatrix>, x: ObservedPredictedValue,
                           pos: seq<real>, oth: seq<real>, pos': seq<real>, oth': seq<real>)
    requires ClosedForm(prev, pos, oth) && Absorbs(x, pos, oth, pos', oth')
    requires |prev| > 0 && (|prev| > 1 ==> prev[|prev| - 1].threshold > x.predictedValue)
    requires prev[|prev| - 1].truePositives == |pos| && prev[|prev| - 1].falsePositives == |oth|
    requires forall i :: 0 <= i < |pos| ==> pos[i] >= x.predictedValue
    requires forall i :: 0 <= i < |oth| ==> oth[i] >= x.predictedValue
    requires ms == prev + [Bump(prev[|prev| - 1], x).(threshold := x.predictedValue)]
    ensures ClosedForm(ms, pos', oth')
  {
    var n, v := |prev| - 1, x.predictedValue;
    CountsAtLeast(pos, v);
    CountsAtLeast(oth, v);
    forall k | 1 <= k < |ms|
      ensures k <= n ==> ms[k] == prev[k] && prev[k].threshold > v
      ensures ms[k].truePositives == CountAtLeast(pos', ms[k].threshold)
      ensures ms[k].falsePositives == CountAtLeast(oth', ms[k].threshold)
    {
      AbsorbsAbove(x, pos, oth, pos', oth', ms[k].threshold);
      if k < n {
        assert prev[k].threshold > prev[n].threshold;
      }
    }
  }

  /**
   * Over observations sorted by descending prediction the sweep has the
   * closed form, so a run of equal predictions is never split.
   */
  lemma {:induction false} SweepCounts(s: seq<ObservedPredictedValue>, numberOfPositives: int, numberOfNegatives: int)
    requires Descending(s, Prediction)
    ensures ClosedForm(Sweep(s, numberOfPositives, numberOfNegatives), Positives(s), Others(s))
  {
    if |s| > 0 {
      var init := s[..|s| - 1];
      SortedTail(s, numberOfPositives, numberOfNegatives);
      SweepCounts(init, numberOfPositives, numberOfNegatives);
      if s[|s| - 1].predictedValue == Final(Sweep(init, numberOfPositives, numberOfNegatives)).threshold {
        SweepCountsSame(s, numberOfPositives, numberOfNegatives);
      } else {
        SweepCountsNew(s, numberOfPositives, numberOfNegatives);
      }
    }
  }

  /** A pair at the current threshold keeps the closed form. */
  lemma SweepCountsSame(s: seq<ObservedPredictedValue>, numberOfPositives: int, numberOfNegatives: int)
    requires |s| > 0
    requires ClosedForm(Sweep(s[..|s| - 1], numberOfPositives, numberOfNegatives), Positives(s[..|s| - 1]), Others(s[..|s| - 1]))
    requires s[|s| - 1].predictedValue == Final(Sweep(s[..|s| - 1], numberOfPositives, numberOfNegatives)).threshold
    ensures ClosedForm(Sweep(s, numberOfPositives, numberOfNegatives), Positives(s), Others(s))
  {
    var init, x := s[..|s| - 1], s[|s| - 1];
    SplitLast(s);
    assert Absorbs(x, Positives(init), Others(init), Positives(s), Others(s));
    ClosedFormSameGroup(Sweep(init, numberOfPositives, numberOfNegatives), Sweep(s, numberOfPositives, numberOfNegatives), x,
      Positives(init), Others(init), Positives(s), Others(s));
  }

  /** A pair below the current threshold, over descending predictions, keeps the closed form. */
  lemma SweepCountsNew(s: seq<ObservedPredictedValue>, numberOfPositives: int, numberOfNegatives: int)
    requires |s| > 0 && Descending(s, Prediction)
    requires ClosedForm(Sweep(s[..|s| - 1], numberOfPositives, numberOfNegatives), Positives(s[..|s| - 1]), Others(s[..|s| - 1]))
    requires s[|s| - 1].predictedValue != Final(Sweep(s[..|s| - 1], numberOfPositives, numberOfNegatives)).threshold
    ensures ClosedForm(Sweep(s, numberOfPositives, numberOfNegatives), Positives(s), Others(s))
  {
    var init, x := s[..|s| - 1], s[|s| - 1];
    var v := x.predictedValue;
    SortedTail(s, numberOfPositives, numberOfNegatives);
    SweepLast(init, numberOfPositives, numberOfNegatives);
    var prev := Sweep(init, numberOfPositives, numberOfNegatives);
    SplitLast(s);
    assert Absorbs(x, Positives(init), Others(init), Positives(s), Others(s));
    if |prev| > 1 {
      assert |init| > 0;
    }
    SplitsAtLeast(init, v);
    ClosedFormNewGroup(prev, Sweep(s, numberOfPositives, numberOfNegatives), x,
      Positives(init), Others(init), Positives(s), Others(s));
  }

  /** How one matrix's count-level trapezoid grows when its TP or its FP grows by one. */
  lemma TermStep(f: int, pf: int, t: int, pt: int)
    ensures (f - pf) * (t + 1 + pt) == (f - pf) * (t + pt) + (f - pf)
    ensures (f + 1 - pf) * (t + pt) == (f - pf) * (t + pt) + (t + pt)
  {
  }

  /** An observation absorbed by the last matrix adds one column or one row of pairs to its trapezoid. */
  lemma CountAreaSameGroup(prev: seq<ConfusionMatrix>, ms: seq<ConfusionMatrix>, x: ObservedPredictedValue)
    requires |prev| > 0 && |ms| == |prev|
    requires ms[..|ms| - 1] == prev[..|prev| - 1]
    requires ms[|ms| - 1] == Bump(prev[|prev| - 1], x)
    ensures var before, last := prev[..|prev| - 1], prev[|prev| - 1];
            CountArea(ms) == CountArea(prev)
              + (if x.observedValue == 1 then last.falsePositives - FpBefore(before)
                 else last.truePositives + TpBefore(before))
  {
    var before, last := prev[..|prev| - 1], prev[|prev| - 1];
    TermStep(last.falsePositives, FpBefore(before), last.truePositives, TpBefore(before));
  }

  /** A matrix opened for a new prediction adds a trapezoid only when the observation is not label 1. */
  lemma CountAreaNewGroup(prev: seq<ConfusionMatrix>, ms: seq<ConfusionMatrix>, x: ObservedPredictedValue)
    requires |prev| > 0 && |ms| == |prev| + 1
    requires ms[..|ms| - 1] == prev
    requires ms[|ms| - 1] == Bump(prev[|prev| - 1], x).(threshold := x.predictedValue)
    ensures CountArea(ms) == CountArea(prev) + (if x.observedValue == 1 then 0 else 2 * prev[|prev| - 1].truePositives)
  {
  }

  /**
   * Mann-Whitney at count level: over observations sorted by descending
   * prediction, the doubled count-level area is twice the number of
   * (label-1, other) pairs the label-1 observation wins, ties counting half.
   */
  lemma {:induction false} SweepCountArea(s: seq<ObservedPredictedValue>, numberOfPositives: int, numberOfNegatives: int)
    requires Descending(s, Prediction)
    ensures CountArea(Sweep(s, numberOfPositives, numberOfNegatives)) as real == 2.0 * PairSum(Positives(s), Others(s))
  {
    if |s| > 0 {
      var init := s[..|s| - 1];
      SortedTail(s, numberOfPositives, numberOfNegatives);
      SweepCountArea(init, numberOfPositives, numberOfNegatives);
      var prev := Sweep(init, numberOfPositives, numberOfNegatives);
      if s[|s| - 1].predictedValue == prev[|prev| - 1].threshold {
        SweepCountAreaSame(s, numberOfPositives, numberOfNegatives);
      } else {
        SweepCountAreaNew(s, numberOfPositives, numberOfNegatives);
      }
    }
  }

  /**
   * A pair at the current threshold ties with the others at that threshold
   * and wins against none of the earlier, higher ones: it adds half a pair
   * per tie on both sides.
   */
  lemma SweepCountAreaSame(s: seq<ObservedPredictedValue>, numberOfPositives: int, numberOfNegatives: int)
    requires |s| > 0 && Descending(s, Prediction)
    requires CountArea(Sweep(s[..|s| - 1], numberOfPositives, numberOfNegatives)) as real
             == 2.0 * PairSum(Positives(s[..|s| - 1]), Others(s[..|s| - 1]))
    requires var prev := Sweep(s[..|s| - 1], numberOfPositives, numberOfNegatives);
             s[|s| - 1].predictedValue == prev[|prev| - 1].threshold
    ensures CountArea(Sweep(s, numberOfPositives, numberOfNegatives)) as real == 2.0 * PairSum(Positives(s), Others(s))
  {
    var init, x := s[..|s| - 1], s[|s| - 1];
    var v := x.predictedValue;
    var prev := Sweep(init, numberOfPositives, numberOfNegatives);
    var ms := Sweep(s, numberOfPositives, numberOfNegatives);
    var last := prev[|prev| - 1];
    var before := prev[..|prev| - 1];
    var pos, oth := Positives(init), Others(init);
    var f, pf, t, pt := last.falsePositives, FpBefore(before), last.truePositives, TpBefore(before);
    assert CountArea(ms) == CountArea(prev) + (if x.observedValue == 1 then f - pf else t + pt) by {
      assert ms == prev[..|prev| - 1] + [Bump(last, x)];
      CountAreaSameGroup(prev, ms, x);
    }
    assert |pos| == t && |oth| == f && pf == CountAbove(oth, v) && pt == CountAbove(pos, v) by {
      SweepBefore(init, numberOfPositives, numberOfNegatives);
      SweepLast(init, numberOfPositives, numberOfNegatives);
    }
    SortedTail(s, numberOfPositives, numberOfNegatives);
    PairSumAtTie(s);
  }

  /**
   * A last pair no higher than any before it: a label-1 pair wins half a
   * pair against each other at its prediction, and another loses a full
   * pair to each label-1 pair above it and half to each at it.
   */
  lemma PairSumAtTie(s: seq<ObservedPredictedValue>)
    requires |s| > 0
    requires forall i :: 0 <= i < |s| - 1 ==> s[i].predictedValue >= s[|s| - 1].predictedValue
    ensures var init, v := s[..|s| - 1], s[|s| - 1].predictedValue;
            var pos, oth := Positives(init), Others(init);
            PairSum(Positives(s), Others(s))
            == PairSum(pos, oth)
               + 0.5 * (if s[|s| - 1].observedValue == 1 then |oth| - CountAbove(oth, v) else |pos| + CountAbove(pos, v)) as real
  {
    var init, x := s[..|s| - 1], s[|s| - 1];
    var v := x.predictedValue;
    var pos, oth := Positives(init), Others(init);
    SplitLast(s);
    SplitsAtLeast(init, v);
    CountsAtLeast(pos, v);
    CountsAtLeast(oth, v);
    if x.observedValue == 1 {
      PairSumSnocRow(pos, v, oth);
      RowSumCounts(v, oth);
    } else {
      PairSumSnocColumn(pos, oth, v);
      ColumnSumCounts(pos, v);
    }
  }

  /**
   * A pair below the current threshold wins against every earlier other
   * and loses to every earlier label-1 pair: a label-1 pair adds nothing,
   * another adds a column of TP full wins.
   */
  lemma SweepCountAreaNew(s: seq<ObservedPredictedValue>, numberOfPositives: int, numberOfNegatives: int)
    requires |s| > 0 && Descending(s, Prediction)
    requires CountArea(Sweep(s[..|s| - 1], numberOfPositives, numberOfNegatives)) as real
             == 2.0 * PairSum(Positives(s[..|s| - 1]), Others(s[..|s| - 1]))
    requires var prev := Sweep(s[..|s| - 1], numberOfPositives, numberOfNegatives);
             s[|s| - 1].predictedValue != prev[|prev| - 1].threshold
    ensures CountArea(Sweep(s, numberOfPositives, numberOfNegatives)) as real == 2.0 * PairSum(Positives(s), Others(s))
  {
    var init, x := s[..|s| - 1], s[|s| - 1];
    var v := x.predictedValue;
    var prev := Sweep(init, numberOfPositives, numberOfNegatives);
    var ms := Sweep(s, numberOfPositives, numberOfNegatives);
    var last := prev[|prev| - 1];
    var pos, oth := Positives(init), Others(init);
    var t := last.truePositives;
    assert CountArea(ms) == CountArea(prev) + (if x.observedValue == 1 then 0 else 2 * t) by {
      assert ms == prev + [Bump(last, x).(threshold := v)];
      CountAreaNewGroup(prev, ms, x);
    }
    assert PairSum(Positives(s), Others(s)) == PairSum(pos, oth) + (if x.observedValue == 1 then 0.0 else t as real) by {
      SortedTail(s, numberOfPositives, numberOfNegatives);
      SweepLast(init, numberOfPositives, numberOfNegatives);
      assert |pos| == t;
      SplitLast(s);
      SplitsAbove(init, v);
      CountsAllAbove(pos, v);
      CountsAllAbove(oth, v);
      if x.observedValue == 1 {
        PairSumSnocRow(pos, v, oth);
        RowSumCounts(v, oth);
      } else {
        PairSumSnocColumn(pos, oth, v);
        ColumnSumCounts(pos, v);
      }
    }
  }

  /**
   * One trapezoid in rates is the count-level trapezoid over 2·P·N: the
   * x-values are FP/N, the y-values TP/P, and FP does not decrease.
   */
  lemma TrapezoidScaled(x1: real, y1: real, x2: real, y2: real, f1: int, f2: int, t1: int, t2: int, p: int, n: int)
    requires p > 0 && n > 0 && f1 <= f2
    requires x1 * n as real == f1 as real && x2 * n as real == f2 as real
    requires y1 * p as real == t1 as real && y2 * p as real == t2 as real
    ensures Trapezoid(x1, y1, x2, y2) == Ratio(((f2 - f1) * (t1 + t2)) as real, 2.0 * (p as real * n as real))
  {
    var dx, sy := x2 - x1, y1 + y2;
    var k := 2.0 * (p as real * n as real);
    assert dx * n as real == (f2 - f1) as real;
    assert dx >= 0.0;
    assert sy * p as real == (t1 + t2) as real;
    assert Trapezoid(x1, y1, x2, y2) == dx * (sy / 2.0);
    calc {
      Trapezoid(x1, y1, x2, y2) * k;
      (dx * n as real) * (sy * p as real);
      ((f2 - f1) * (t1 + t2)) as real;
    }
    RatioUnique(Trapezoid(x1, y1, x2, y2), ((f2 - f1) * (t1 + t2)) as real, k);
  }

  lemma PositiveProduct(a: int, b: int)
    requires a > 0 && b > 0
    ensures a as real * b as real > 0.0
  {
  }

  /** Doubling dividend and divisor leaves the quotient unchanged. */
  lemma RatioDouble(a: real, d: real)
    requires d > 0.0
    ensures Ratio(2.0 * a, 2.0 * d) == Ratio(a, d)
  {
    RatioUnique(Ratio(a, d), 2.0 * a, 2.0 * d);
  }

  /** A point's coordinates times the class sizes are its counts. */
  lemma PointScaled(m: ConfusionMatrix, p: int, n: int)
    requires p > 0 && n > 0 && m.Positives() == p && m.Negatives() == n
    ensures PointX(m) * n as real == m.falsePositives as real
    ensures PointY(m) * p as real == m.truePositives as real
  {
  }

  /** The last trapezoid of the sum is the last count-level term over 2·P·N. */
  lemma AreaStep(ms: seq<ConfusionMatrix>, p: int, n: int)
    requires p > 0 && n > 0 && |ms| > 0
    requires ms[|ms| - 1].Positives() == p && ms[|ms| - 1].Negatives() == n
    requires |ms| > 1 ==> ms[|ms| - 2].Positives() == p && ms[|ms| - 2].Negatives() == n
    requires FpBefore(ms[..|ms| - 1]) <= ms[|ms| - 1].falsePositives
    ensures var init, m := ms[..|ms| - 1], ms[|ms| - 1];
            Area(ms) == Area(init) + Ratio(((m.falsePositives - FpBefore(init)) * (m.truePositives + TpBefore(init))) as real,
                                           2.0 * (p as real * n as real))
  {
    var init, m := ms[..|ms| - 1], ms[|ms| - 1];
    var x1 := if |ms| == 1 then 0.0 else PointX(ms[|ms| - 2]);
    var y1 := if |ms| == 1 then 0.0 else PointY(ms[|ms| - 2]);
    PointScaled(m, p, n);
    if |ms| > 1 {
      assert ms[|ms| - 2] == init[|init| - 1];
      PointScaled(ms[|ms| - 2], p, n);
    }
    TrapezoidScaled(x1, y1, PointX(m), PointY(m), FpBefore(init), m.falsePositives,
                    TpBefore(init), m.truePositives, p, n);
  }

  /**
   * The trapezoid sum in rates is the count-level area over 2·P·N, for
   * matrices that all have P positives and N negatives and a non-decreasing,
   * non-negative FP.
   */
  lemma {:induction false} AreaScaled(ms: seq<ConfusionMatrix>, p: int, n: int)
    requires p > 0 && n > 0
    requires Climbing(ms, p, n)
    ensures Area(ms) == Ratio(CountArea(ms) as real, 2.0 * (p as real * n as real))
  {
    var k := 2.0 * (p as real * n as real);
    if |ms| == 0 {
      RatioUnique(0.0, 0.0, k);
    } else {
      var init, m := ms[..|ms| - 1], ms[|ms| - 1];
      AreaScaled(init, p, n);
      if |init| > 0 {
        assert init[|init| - 1] == ms[|ms| - 2];
      }
      AreaStep(ms, p, n);
      var term := (m.falsePositives - FpBefore(init)) * (m.truePositives + TpBefore(init));
      RatioStep(Area(ms), Area(init), CountArea(ms) as real, CountArea(init) as real, term as real, k);
    }
  }

  /**
   * Every matrix has P positives and N negatives, and FP never decreases
   * from the origin's 0 on: the shape of a sweep.
   */
  predicate Climbing(ms: seq<ConfusionMatrix>, p: int, n: int)
  {
    |ms| == 0
    || (Climbing(ms[..|ms| - 1], p, n)
        && ms[|ms| - 1].Positives() == p && ms[|ms| - 1].Negatives() == n
        && FpBefore(ms[..|ms| - 1]) <= ms[|ms| - 1].falsePositives)
  }

  /** Matrices with fixed class counts and FP rising from a non-negative start climb. */
  lemma {:induction false} ClimbingFromOrder(ms: seq<ConfusionMatrix>, p: int, n: int)
    requires forall k :: 0 <= k < |ms| ==> ms[k].Positives() == p && ms[k].Negatives() == n
    requires forall j, k :: 0 <= j <= k < |ms| ==> ms[j].falsePositives <= ms[k].falsePositives
    requires |ms| > 0 ==> ms[0].falsePositives >= 0
    ensures Climbing(ms, p, n)
  {
    if |ms| > 0 {
      var init := ms[..|ms| - 1];
      assert forall j :: 0 <= j < |init| ==> init[j] == ms[j];
      ClimbingFromOrder(init, p, n);
      if |init| > 0 {
        assert init[|init| - 1] == ms[|ms| - 2];
      }
    }
  }

  /** A running sum of quotients by one divisor is the quotient of the running sum. */
  lemma RatioStep(total: real, previous: real, c: real, cPrevious: real, t: real, k: real)
    requires k > 0.0 && previous == Ratio(cPrevious, k) && total == previous + Ratio(t, k) && c == cPrevious + t
    ensures total == Ratio(c, k)
  {
    RatioAdd(cPrevious, t, k);
  }

  /** When the scaled trapezoid sum counts each pair twice, the area is the pair count over P * N. */
  lemma AreaFromPairCount(ms: seq<ConfusionMatrix>, p: int, n: int, pairs: real)
    requires p > 0 && n > 0
    requires forall k :: 0 <= k < |ms| ==> ms[k].Positives() == p && ms[k].Negatives() == n
    requires forall j, k :: 0 <= j <= k < |ms| ==> ms[j].falsePositives <= ms[k].falsePositives
    requires |ms| > 0 ==> ms[0].falsePositives >= 0
    requires CountArea(ms) as real == 2.0 * pairs
    ensures Area(ms) == Ratio(pairs, p as real * n as real)
  {
    PositiveProduct(p, n);
    ClimbingFromOrder(ms, p, n);
    AreaScaled(ms, p, n);
    HalfOfDouble(Area(ms), CountArea(ms) as real, pairs, p as real * n as real);
  }

  /** The same, with the pairs drawn from xs and ys: the area is their pairwise AUC. */
  lemma AreaFromPairs(ms: seq<ConfusionMatrix>, xs: seq<real>, ys: seq<real>)
    requires |xs| > 0 && |ys| > 0
    requires forall k :: 0 <= k < |ms| ==> ms[k].Positives() == |xs| && ms[k].Negatives() == |ys|
    requires forall j, k :: 0 <= j <= k < |ms| ==> ms[j].falsePositives <= ms[k].falsePositives
    requires |ms| > 0 ==> ms[0].falsePositives >= 0
    requires CountArea(ms) as real == 2.0 * PairSum(xs, ys)
    ensures Area(ms) == PairwiseAuc(xs, ys)
  {
    AreaFromPairCount(ms, |xs|, |ys|, PairSum(xs, ys));
    PairwiseAucRatio(xs, ys);
  }

  /** If area = c / 2d and c = 2s, then area = s / d. */
  lemma HalfOfDouble(area: real, c: real, s: real, d: real)
    requires d > 0.0
    requires area == Ratio(c, 2.0 * d)
    requires c == 2.0 * s
    ensures area == Ratio(s, d)
  {
    RatioDouble(s, d);
  }

  /**
   * The area under the ROC curve is the Mann-Whitney statistic: for labels
   * 0 and 1, both present, and observations sorted by descending prediction,
   * the trapezoid sum equals the share of (positive, negative) pairs in which
   * the positive has the higher prediction, ties counting half.
   */
  lemma AreaIsPairwiseAuc(s: seq<ObservedPredictedValue>)
    requires Binary(s) && Descending(s, Prediction)
    requires CountObserved(s, 1) > 0 && CountObserved(s, 0) > 0
    ensures Area(Sweep(s, CountObserved(s, 1), CountObserved(s, 0))) == PairwiseAuc(Positives(s), Negatives(s))
  {
    var p, n := CountObserved(s, 1), CountObserved(s, 0);
    var ms := Sweep(s, p, n);
    SweepMonotone(s, p, n);
    SweepCountArea(s, p, n);
    NotPositiveIsNegative(s);
    AreaFromPairs(ms, Positives(s), Negatives(s));
  }

  /** With no positive or no negative observations every trapezoid is flat or at height 0. */
  lemma {:induction false} AreaDegenerate(ms: seq<ConfusionMatrix>)
    requires (forall k :: 0 <= k < |ms| ==> ms[k].Positives() == 0) || (forall k :: 0 <= k < |ms| ==> ms[k].Negatives() == 0)
    ensures Area(ms) == 0.0
  {
    if |ms| > 0 {
      AreaDegenerate(ms[..|ms| - 1]);
    }
  }

  /** The area under the ROC curve is a proportion, and 0 when a class is missing. */
  lemma AreaBounds(s: seq<ObservedPredictedValue>)
    requires Binary(s) && Descending(s, Prediction)
    ensures var a := Area(Sweep(s, CountObserved(s, 1), CountObserved(s, 0)));
            0.0 <= a <= 1.0 && (CountObserved(s, 1) == 0 || CountObserved(s, 0) == 0 ==> a == 0.0)
  {
    var p, n := CountObserved(s, 1), CountObserved(s, 0);
    if p > 0 && n > 0 {
      AreaIsPairwiseAuc(s);
      NotPositiveIsNegative(s);
      PairwiseAucBounds(Positives(s), Negatives(s));
    } else {
      AreaDegenerate(Sweep(s, p, n));
    }
  }

  // ---------------------------------------------------------------------
  // The area as a function of the thresholds alone
  // ---------------------------------------------------------------------

  /** The share of `xs` at or above `t` (0 for no values): a coordinate of the point at threshold t. */
  function ShareAtLeast(xs: seq<real>, t: real): (r: real)
    ensures 0.0 <= r <= 1.0
  {
    Rate(CountAtLeast(xs, t), |xs|)
  }

  /**
   * The trapezoid sum from the origin over the points that the thresholds
   * `ts` give, in order: x the share of `neg` at or above the threshold, y
   * the share of `pos`.
   */
  function ThresholdArea(ts: seq<real>, pos: seq<real>, neg: seq<real>): real
  {
    if |ts| == 0 then 0.0
    else
      var n := |ts| - 1;
      var x1 := if n == 0 then 0.0 else ShareAtLeast(neg, ts[n - 1]);
      var y1 := if n == 0 then 0.0 else ShareAtLeast(pos, ts[n - 1]);
      ThresholdArea(ts[..n], pos, neg) + Trapezoid(x1, y1, ShareAtLeast(neg, ts[n]), ShareAtLeast(pos, ts[n]))
  }

  /** The area over the first i thresholds adds the trapezoid back from threshold i − 1 to the one before it (to the origin for the first). */
  lemma ThresholdAreaStep(ts: seq<real>, pos: seq<real>, neg: seq<real>, i: int)
    requires 0 < i <= |ts|
    ensures ThresholdArea(ts[..i], pos, neg)
            == ThresholdArea(ts[..i - 1], pos, neg)
               + Trapezoid(if i == 1 then 0.0 else ShareAtLeast(neg, ts[i - 2]), if i == 1 then 0.0 else ShareAtLeast(pos, ts[i - 2]),
                           ShareAtLeast(neg, ts[i - 1]), ShareAtLeast(pos, ts[i - 1]))
  {
    assert ts[..i][..i - 1] == ts[..i - 1];
  }

  /** The x-value of the last threshold of `ts`, or of the origin. */
  function LastX(ts: seq<real>, neg: seq<real>): real
  {
    if |ts| == 0 then 0.0 else ShareAtLeast(neg, ts[|ts| - 1])
  }

  function LastY(ts: seq<real>, pos: seq<real>): real
  {
    if |ts| == 0 then 0.0 else ShareAtLeast(pos, ts[|ts| - 1])
  }

  lemma ThresholdAreaSnoc(ts: seq<real>, t: real, pos: seq<real>, neg: seq<real>)
    ensures ThresholdArea(ts + [t], pos, neg)
            == ThresholdArea(ts, pos, neg) + Trapezoid(LastX(ts, neg), LastY(ts, pos), ShareAtLeast(neg, t), ShareAtLeast(pos, t))
  {
    assert (ts + [t])[..|ts|] == ts;
  }

  /** Repeating the last threshold adds nothing. */
  lemma ThresholdAreaRepeat(ts: seq<real>, pos: seq<real>, neg: seq<real>)
    requires |ts| > 0
    ensures ThresholdArea(ts + [ts[|ts| - 1]], pos, neg) == ThresholdArea(ts, pos, neg)
  {
    var t := ts[|ts| - 1];
    ThresholdAreaSnoc(ts, t, pos, neg);
    TrapezoidZeroWidth(ShareAtLeast(neg, t), LastY(ts, pos), ShareAtLeast(pos, t));
  }

  /** Two runs of thresholds with the same area and the same last point keep it equal when extended alike. */
  lemma ThresholdAreaAlike(a: seq<real>, b: seq<real>, t: real, pos: seq<real>, neg: seq<real>)
    requires ThresholdArea(a, pos, neg) == ThresholdArea(b, pos, neg)
    requires (|a| == 0) == (|b| == 0) && (|a| > 0 ==> a[|a| - 1] == b[|b| - 1])
    ensures ThresholdArea(a + [t], pos, neg) == ThresholdArea(b + [t], pos, neg)
  {
    ThresholdAreaSnoc(a, t, pos, neg);
    ThresholdAreaSnoc(b, t, pos, neg);
  }

  /** A threshold repeated back to back adds a trapezoid of zero width: only the distinct runs matter. */
  lemma {:induction false} ThresholdAreaDedup(ts: seq<real>, pos: seq<real>, neg: seq<real>)
    ensures ThresholdArea(Dedup(ts), pos, neg) == ThresholdArea(ts, pos, neg)
  {
    if |ts| > 0 {
      var init, x := ts[..|ts| - 1], ts[|ts| - 1];
      assert ts == init + [x];
      ThresholdAreaDedup(init, pos, neg);
      if |init| > 0 && x == init[|init| - 1] {
        ThresholdAreaRepeat(init, pos, neg);
      } else {
        ThresholdAreaAlike(Dedup(init), init, x, pos, neg);
      }
    }
  }

  /** The points of `ms` are the origin followed by the points of the thresholds `ts`. */
  ghost predicate OnCurve(ms: seq<ConfusionMatrix>, ts: seq<real>, pos: seq<real>, neg: seq<real>)
  {
    |ms| == |ts| + 1
    && PointX(ms[0]) == 0.0 && PointY(ms[0]) == 0.0
    && forall k :: 1 <= k < |ms| ==>
         PointX(ms[k]) == ShareAtLeast(neg, ts[k - 1]) && PointY(ms[k]) == ShareAtLeast(pos, ts[k - 1])
  }

  lemma {:induction false} AreaOnCurve(ms: seq<ConfusionMatrix>, ts: seq<real>, pos: seq<real>, neg: seq<real>)
    requires OnCurve(ms, ts, pos, neg)
    ensures Area(ms) == ThresholdArea(ts, pos, neg)
  {
    var n := |ms| - 1;
    if n == 0 {
      assert ms[..0] == [];
    } else {
      assert OnCurve(ms[..n], ts[..n - 1], pos, neg) by {
        forall k | 1 <= k < n
          ensures ms[..n][k] == ms[k] && ts[..n - 1][k - 1] == ts[k - 1]
        {
        }
      }
      AreaOnCurve(ms[..n], ts[..n - 1], pos, neg);
    }
  }

  /** The closed form of the sweep puts its points on the curve of its thresholds. */
  lemma ClosedFormOnCurve(ms: seq<ConfusionMatrix>, ts: seq<real>, pos: seq<real>, neg: seq<real>)
    requires AtThresholds(ms, ts) && ClosedForm(ms, pos, neg)
    requires ms[0] == Initial(|pos|, |neg|)
    requires forall k :: 0 <= k < |ms| ==> ms[k].Positives() == |pos| && ms[k].Negatives() == |neg|
    ensures OnCurve(ms, ts, pos, neg)
  {
    forall k | 1 <= k < |ms|
      ensures PointX(ms[k]) == ShareAtLeast(neg, ts[k - 1]) && PointY(ms[k]) == ShareAtLeast(pos, ts[k - 1])
    {
    }
  }

  /**
   * Over observations sorted by descending prediction, none predicted −1,
   * with the class counts that the splits have, the area under the matrices
   * of the sweep is the area through the points of every prediction.
   */
  lemma SweepArea(s: seq<ObservedPredictedValue>)
    requires Descending(s, Prediction)
    requires |s| == 0 || s[0].predictedValue != -1.0
    ensures Area(Sweep(s, |Positives(s)|, |Others(s)|)) == ThresholdArea(Predictions(s), Positives(s), Others(s))
  {
    var pos, oth := Positives(s), Others(s);
    var ms := Sweep(s, |pos|, |oth|);
    var ts := Dedup(Predictions(s));
    SweepThresholds(s, |pos|, |oth|);
    SweepCounts(s, |pos|, |oth|);
    SweepFirst(s, |pos|, |oth|);
    ClosedFormOnCurve(ms, ts, pos, oth);
    AreaOnCurve(ms, ts, pos, oth);
    ThresholdAreaDedup(Predictions(s), pos, oth);
  }

  // ---------------------------------------------------------------------
  // The ROC curve object
  // ---------------------------------------------------------------------

  /** What a `ROCCurve` holds once constructed; nothing changes it afterwards. */
  datatype RocCurve = RocCurve(
    truePositiveRates: seq<real>,
    falsePositiveRates: seq<real>,
    positivePredictedValues: seq<real>,
    negativePredictedValues: seq<real>,
    confusionMatrices: seq<ConfusionMatrix>,
    numberOfPositives: int,
    numberOfNegatives: int,
    areaUnderRocCurve: real)

  /** The TPR of every matrix, in order: the y-values of the curve. */
  function TruePositiveRates(ms: seq<ConfusionMatrix>): (r: seq<real>)
    ensures |r| == |ms|
    ensures forall k :: 0 <= k < |ms| ==> r[k] == ms[k].TruePositiveRate()
  {
    seq(|ms|, k requires 0 <= k < |ms| => ms[k].TruePositiveRate())
  }

  /** The FPR of every matrix, in order: the x-values of the curve. */
  function FalsePositiveRates(ms: seq<ConfusionMatrix>): (r: seq<real>)
    ensures |r| == |ms|
    ensures forall k :: 0 <= k < |ms| ==> r[k] == ms[k].FalsePositiveRate()
  {
    seq(|ms|, k requires 0 <= k < |ms| => ms[k].FalsePositiveRate())
  }

  /** The facts the constructor promises for binary labels, about the sorted copy it sweeps. */
  lemma SortedAuc(observedPredictedValues: seq<ObservedPredictedValue>, data: seq<ObservedPredictedValue>, area: real)
    requires Binary(observedPredictedValues)
    requires data == SortDescending(observedPredictedValues, Prediction)
    requires area == Area(Sweep(data, CountObserved(data, 1), CountObserved(data, 0)))
    ensures |Positives(data)| + |Negatives(data)| == |observedPredictedValues|
    ensures 0.0 <= area <= 1.0
    ensures CountObserved(data, 1) > 0 && CountObserved(data, 0) > 0 ==>
              area == PairwiseAuc(Positives(data), Negatives(data))
  {
    BinaryPermutation(observedPredictedValues, data);
    SplitPartitions(data);
    AreaBounds(data);
    if CountObserved(data, 1) > 0 && CountObserved(data, 0) > 0 {
      AreaIsPairwiseAuc(data);
    }
  }

  /**
   * The `ROCCurve` constructor: rejects an empty sample, sorts a copy by
   * descending prediction, counts and splits the label-1 and label-0
   * observations, sweeps the matrices and integrates their points.
   */
  method NewRocCurve(observedPredictedValues: seq<ObservedPredictedValue>) returns (r: Result<RocCurve>)
    ensures r.Failure? <==> |observedPredictedValues| == 0
    ensures r.Success? ==>
              var c := r.value;
              c.numberOfPositives == CountObserved(observedPredictedValues, 1)
              && c.numberOfNegatives == CountObserved(observedPredictedValues, 0)
              && multiset(c.positivePredictedValues) == multiset(Positives(observedPredictedValues))
              && multiset(c.negativePredictedValues) == multiset(Negatives(observedPredictedValues))
              && c.confusionMatrices
                 == Sweep(SortDescending(observedPredictedValues, Prediction), c.numberOfPositives, c.numberOfNegatives)
              && c.areaUnderRocCurve == Area(c.confusionMatrices)
              && c.truePositiveRates == TruePositiveRates(c.confusionMatrices)
              && c.falsePositiveRates == FalsePositiveRates(c.confusionMatrices)
    ensures r.Success? ==>
              forall i, j :: 0 <= i < j < |r.value.positivePredictedValues| ==>
                r.value.positivePredictedValues[i] >= r.value.positivePredictedValues[j]
    ensures r.Success? ==>
              forall i, j :: 0 <= i < j < |r.value.negativePredictedValues| ==>
                r.value.negativePredictedValues[i] >= r.value.negativePredictedValues[j]
    ensures r.Success? && Binary(observedPredictedValues) ==>
              var c := r.value;
              |c.positivePredictedValues| + |c.negativePredictedValues| == |observedPredictedValues|
              && 0.0 <= c.areaUnderRocCurve <= 1.0
              && (c.numberOfPositives > 0 && c.numberOfNegatives > 0 ==>
                    c.areaUnderRocCurve == PairwiseAuc(c.positivePredictedValues, c.negativePredictedValues))
  {
    if |observedPredictedValues| == 0 {
      return Failure("A list of data containing both observed value and predicted value is required.");
    }
    var data := SortDescending(observedPredictedValues, Prediction);
    var numberOfPositives := CountObserved(data, 1);
    var numberOfNegatives := CountObserved(data, 0);
    var positivePredictedValues := Positives(data);
    var negativePredictedValues := Negatives(data);
    var confusionMatrices := ComputeConfusionMatrices(data, numberOfPositives, numberOfNegatives);
    var areaUnderRocCurve := ComputeAreaUnderRocCurve(confusionMatrices);
    var truePositiveRates := TruePositiveRates(confusionMatrices);
    var falsePositiveRates := FalsePositiveRates(confusionMatrices);
    CountObservedPermutation(data, observedPredictedValues, 1);
    CountObservedPermutation(data, observedPredictedValues, 0);
    PredictionsObservedDescending(data, 1);
    PredictionsObservedDescending(data, 0);
    if Binary(observedPredictedValues) {
      SortedAuc(observedPredictedValues, data, areaUnderRocCurve);
    }
    r := Success(RocCurve(truePositiveRates, falsePositiveRates, positivePredictedValues, negativePredictedValues,
                          confusionMatrices, numberOfPositives, numberOfNegatives, areaUnderRocCurve));
  }
}
