/**
 * `AUROC`: the legacy ROC analysis over `ProbabilityValue`s. It sorts its
 * own copy of the pairs in ascending order of prediction, walks that array
 * from the end (highest prediction first) to fill one ROC point, accuracy,
 * precision and F1 per distinct prediction plus the final point, sums the
 * trapezoids between consecutive points, and offers seven threshold curves
 * walked from either end of the array.
 */
module LegacyRoc {
  import opened Data
  import opened Confusion
  import opened JavaDouble
  import Placement
  import Roc

  // ---------------------------------------------------------------------
  // The walks over the sorted array
  // ---------------------------------------------------------------------

  /** The pairs from the last to the first: the order of a walk from the end of the array. */
  function Descent(a: seq<ProbabilityValue>): (s: seq<ObservedPredictedValue>)
    ensures |s| == |a|
    ensures forall k :: 0 <= k < |a| ==> s[k] == a[|a| - 1 - k].Widen()
  {
    seq(|a|, k requires 0 <= k < |a| => a[|a| - 1 - k].Widen())
  }

  /** The pairs from the first to the last. */
  function Ascent(a: seq<ProbabilityValue>): (s: seq<ObservedPredictedValue>)
    ensures |s| == |a|
    ensures forall k :: 0 <= k < |a| ==> s[k] == a[k].Widen()
  {
    seq(|a|, k requires 0 <= k < |a| => a[k].Widen())
  }

  /** The two walks meet the same pairs, in opposite orders. */
  lemma {:induction false} AscentDescentSameMultiset(a: seq<ProbabilityValue>)
    ensures multiset(Ascent(a)) == multiset(Descent(a))
  {
    if |a| > 0 {
      var init := a[..|a| - 1];
      AscentDescentSameMultiset(init);
      assert Ascent(a) == Ascent(init) + [a[|a| - 1].Widen()];
      assert Descent(a) == [a[|a| - 1].Widen()] + Descent(init);
    }
  }

  /** Both walks count the same number of pairs with any label. */
  lemma AscentCounts(a: seq<ProbabilityValue>, v: int)
    ensures CountObserved(Ascent(a), v) == CountObserved(Descent(a), v)
  {
    AscentDescentSameMultiset(a);
    CountObservedPermutation(Ascent(a), Descent(a), v);
  }

  /** Walking an ascending array from its end meets the predictions in descending order. */
  lemma DescentDescending(a: seq<ProbabilityValue>)
    requires Ascending(a, LegacyPrediction)
    ensures Descending(Descent(a), Prediction)
  {
    var s := Descent(a);
    forall i, j | 0 <= i < j < |s|
      ensures Prediction(s[i]) >= Prediction(s[j])
    {
      assert LegacyPrediction(a[|a| - 1 - j]) <= LegacyPrediction(a[|a| - 1 - i]);
    }
  }

  /** Which end a walk starts from: `Down` from the highest prediction, `Up` from the lowest. */
  datatype Direction = Down | Up

  /**
   * The counters once the walk passes `x`. Walking down, `x` joins the
   * predicted positives: a label-1 pair moves from FN to TP, any other from
   * TN to FP. Walking up, `x` joins the predicted negatives: a label-0 pair
   * moves from FP to TN, any other from TP to FN.
   */
  function Pass(m: ConfusionMatrix, x: ObservedPredictedValue, d: Direction): (r: ConfusionMatrix)
    ensures r.Positives() == m.Positives() && r.Negatives() == m.Negatives()
    ensures r.threshold == m.threshold
    ensures d == Down ==> r.PredictedPositives() == m.PredictedPositives() + 1
    ensures d == Up ==> r.PredictedNegatives() == m.PredictedNegatives() + 1
    ensures d == Down ==> m.truePositives <= r.truePositives && m.falsePositives <= r.falsePositives
    ensures d == Up ==> m.trueNegatives <= r.trueNegatives && m.falseNegatives <= r.falseNegatives
  {
    match d
    case Down => Roc.Bump(m, x)
    case Up =>
      if x.observedValue == 0 then
        m.(trueNegatives := m.trueNegatives + 1, falsePositives := m.falsePositives - 1)
      else
        m.(falseNegatives := m.falseNegatives + 1, truePositives := m.truePositives - 1)
  }

  /**
   * One step of a walk: the current (last) state absorbs `x` when `x` has
   * its threshold; otherwise it is closed and a copy that has absorbed `x`
   * is opened at the new threshold.
   */
  function Extend(prev: seq<ConfusionMatrix>, x: ObservedPredictedValue, d: Direction): (ms: seq<ConfusionMatrix>)
    requires |prev| > 0
    ensures |prev| <= |ms| <= |prev| + 1
    ensures ms[|ms| - 1] == Pass(prev[|prev| - 1], x, d).(threshold := x.predictedValue)
    ensures forall i :: 0 <= i < |ms| - 1 ==> ms[i] == prev[i]
  {
    var last := prev[|prev| - 1];
    if x.predictedValue == last.threshold then prev[..|prev| - 1] + [Pass(last, x, d)]
    else prev + [Pass(last, x, d).(threshold := x.predictedValue)]
  }

  /**
   * The counter states a walk over `s` records, starting from `first`: the
   * current state absorbs each pair whose prediction equals its threshold; a
   * new prediction closes it and opens a copy at the new threshold.
   */
  function Scan(s: seq<ObservedPredictedValue>, first: ConfusionMatrix, d: Direction): (ms: seq<ConfusionMatrix>)
    ensures 1 <= |ms| <= |s| + 1
    ensures forall k :: 0 <= k < |ms| ==>
              ms[k].Positives() == first.Positives() && ms[k].Negatives() == first.Negatives()
  {
    if |s| == 0 then [first]
    else Extend(Scan(s[..|s| - 1], first, d), s[|s| - 1], d)
  }

  /** The ROC sweep is the downward walk from the initial all-negative matrix. */
  lemma {:induction false} SweepIsScan(s: seq<ObservedPredictedValue>, numberOfPositives: int, numberOfNegatives: int)
    ensures Roc.Sweep(s, numberOfPositives, numberOfNegatives)
            == Scan(s, Roc.Initial(numberOfPositives, numberOfNegatives), Down)
  {
    if |s| > 0 {
      SweepIsScan(s[..|s| - 1], numberOfPositives, numberOfNegatives);
    }
  }

  /** A step does not touch the states before the current one. */
  lemma ExtendCons(first: ConfusionMatrix, tail: seq<ConfusionMatrix>, x: ObservedPredictedValue, d: Direction)
    requires |tail| > 0
    ensures Extend([first] + tail, x, d) == [first] + Extend(tail, x, d)
  {
    assert ([first] + tail)[|tail|] == tail[|tail| - 1];
    assert ([first] + tail)[..|tail|] == [first] + tail[..|tail| - 1];
  }

  /**
   * Starting below the first prediction records the starting state and then
   * the walk that starts at the first prediction.
   */
  lemma {:induction false} ScanStart(s: seq<ObservedPredictedValue>, first: ConfusionMatrix, d: Direction)
    requires |s| > 0 && s[0].predictedValue != first.threshold
    ensures Scan(s, first, d) == [first] + Scan(s, first.(threshold := s[0].predictedValue), d)
  {
    var first' := first.(threshold := s[0].predictedValue);
    var init, x := s[..|s| - 1], s[|s| - 1];
    if |init| == 0 {
      assert Pass(first', x, d) == Pass(first, x, d).(threshold := x.predictedValue);
    } else {
      assert init[0] == s[0];
      ScanStart(init, first, d);
      ExtendCons(first, Scan(init, first', d), x, d);
    }
  }

  /** The last state of a walk is the step from the last state of the walk one pair shorter. */
  lemma ScanStep(s: seq<ObservedPredictedValue>, first: ConfusionMatrix, d: Direction)
    requires |s| > 0
    ensures Roc.Final(Scan(s, first, d))
            == Pass(Roc.Final(Scan(s[..|s| - 1], first, d)), s[|s| - 1], d).(threshold := s[|s| - 1].predictedValue)
  {
  }

  /** The last state sits at the last prediction (at the start's threshold for no pairs). */
  lemma {:induction false} ScanLastThreshold(s: seq<ObservedPredictedValue>, first: ConfusionMatrix, d: Direction)
    ensures Roc.Final(Scan(s, first, d)).threshold == (if |s| == 0 then first.threshold else s[|s| - 1].predictedValue)
  {
    if |s| > 0 {
      ScanStep(s, first, d);
    }
  }

  /**
   * Walking down, the last state has absorbed every pair: TP grew by the
   * label-1 pairs and FP by the others.
   */
  lemma {:induction false} ScanLastDown(s: seq<ObservedPredictedValue>, first: ConfusionMatrix)
    ensures Roc.Final(Scan(s, first, Down)).truePositives == first.truePositives + CountObserved(s, 1)
    ensures Roc.Final(Scan(s, first, Down)).falsePositives == first.falsePositives + (|s| - CountObserved(s, 1))
  {
    if |s| > 0 {
      ScanLastDown(s[..|s| - 1], first);
      ScanStep(s, first, Down);
    }
  }

  /**
   * Walking up, the last state has absorbed every pair: TN grew by the
   * label-0 pairs and FN by the others.
   */
  lemma {:induction false} ScanLastUp(s: seq<ObservedPredictedValue>, first: ConfusionMatrix)
    ensures Roc.Final(Scan(s, first, Up)).trueNegatives == first.trueNegatives + CountObserved(s, 0)
    ensures Roc.Final(Scan(s, first, Up)).falseNegatives == first.falseNegatives + (|s| - CountObserved(s, 0))
  {
    if |s| > 0 {
      ScanLastUp(s[..|s| - 1], first);
      ScanStep(s, first, Up);
    }
  }

  /**
   * `b` is at least as far along a walk in direction `d` as `a`: TP and FP
   * have not shrunk walking down, TN and FN have not shrunk walking up.
   */
  ghost predicate NotBehind(a: ConfusionMatrix, b: ConfusionMatrix, d: Direction)
  {
    match d
    case Down => a.truePositives <= b.truePositives && a.falsePositives <= b.falsePositives
    case Up => a.trueNegatives <= b.trueNegatives && a.falseNegatives <= b.falseNegatives
  }

  /**
   * Along the walk the counters of the side the pairs move to never
   * decrease: TP and FP walking down, TN and FN walking up.
   */
  lemma {:induction false} ScanMonotone(s: seq<ObservedPredictedValue>, first: ConfusionMatrix, d: Direction)
    ensures forall i, j :: 0 <= i < j < |Scan(s, first, d)| ==> NotBehind(Scan(s, first, d)[i], Scan(s, first, d)[j], d)
  {
    if |s| > 0 {
      var init, x := s[..|s| - 1], s[|s| - 1];
      var prev := Scan(init, first, d);
      ScanMonotone(init, first, d);
      var ms := Scan(s, first, d);
      assert ms == Extend(prev, x, d);
      var last := prev[|prev| - 1];
      var next := ms[|ms| - 1];
      assert NotBehind(last, next, d);
      forall i, j | 0 <= i < j < |ms|
        ensures NotBehind(ms[i], ms[j], d)
      {
        assert ms[i] == prev[i];
        if j < |ms| - 1 {
          assert ms[j] == prev[j];
        } else if i < |prev| - 1 {
          assert NotBehind(prev[i], last, d);
        }
      }
    }
  }

  /** The thresholds of `ms`, in order, are `ts`. */
  ghost predicate Thresholds(ms: seq<ConfusionMatrix>, ts: seq<real>)
  {
    |ms| == |ts| && forall k :: 0 <= k < |ms| ==> ms[k].threshold == ts[k]
  }

  /**
   * A walk that starts at its first prediction records exactly one state per
   * run of equal predictions, at that prediction: the thresholds are the
   * predictions with repeats collapsed.
   */
  lemma {:induction false} ScanThresholds(s: seq<ObservedPredictedValue>, first: ConfusionMatrix, d: Direction)
    requires |s| > 0 && first.threshold == s[0].predictedValue
    ensures Thresholds(Scan(s, first, d), Dedup(Predictions(s)))
  {
    var init, x := s[..|s| - 1], s[|s| - 1];
    var xs := Predictions(s);
    assert xs[..|xs| - 1] == Predictions(init);
    if |init| == 0 {
      ScanStep(s, first, d);
      assert Dedup(Predictions(init)) == [];
      assert Dedup(xs) == [x.predictedValue];
    } else {
      assert init[0] == s[0];
      ScanThresholds(init, first, d);
      ScanLastThreshold(init, first, d);
      ThresholdsExtend(Scan(init, first, d), Dedup(Predictions(init)), x, d);
      DedupStep(xs);
    }
  }

  /** A step of the walk keeps the thresholds, adding the new one when it opens a state. */
  lemma ThresholdsExtend(prev: seq<ConfusionMatrix>, ts: seq<real>, x: ObservedPredictedValue, d: Direction)
    requires Thresholds(prev, ts) && |prev| > 0
    ensures Thresholds(Extend(prev, x, d),
                       if x.predictedValue == Roc.Final(prev).threshold then ts else ts + [x.predictedValue])
  {
    if x.predictedValue == Roc.Final(prev).threshold {
      ThresholdsReplaceLast(prev, ts, Extend(prev, x, d));
    } else {
      ThresholdsSnoc(prev, ts, Extend(prev, x, d), x.predictedValue);
    }
  }

  /** Replacing the last state by one at the same threshold keeps the thresholds. */
  lemma ThresholdsReplaceLast(prev: seq<ConfusionMatrix>, ts: seq<real>, ms: seq<ConfusionMatrix>)
    requires Thresholds(prev, ts) && |prev| > 0 && |ms| == |prev|
    requires forall i :: 0 <= i < |ms| - 1 ==> ms[i] == prev[i]
    requires ms[|ms| - 1].threshold == prev[|prev| - 1].threshold
    ensures Thresholds(ms, ts)
  {
    forall k | 0 <= k < |ms|
      ensures ms[k].threshold == ts[k]
    {
      if k < |ms| - 1 {
        assert ms[k] == prev[k];
      }
    }
  }

  /** Appending a state at a new threshold appends that threshold. */
  lemma ThresholdsSnoc(prev: seq<ConfusionMatrix>, ts: seq<real>, ms: seq<ConfusionMatrix>, t: real)
    requires Thresholds(prev, ts) && |ms| == |prev| + 1
    requires forall i :: 0 <= i < |ms| - 1 ==> ms[i] == prev[i]
    requires ms[|ms| - 1].threshold == t
    ensures Thresholds(ms, ts + [t])
  {
    forall k | 0 <= k < |ms|
      ensures ms[k].threshold == (ts + [t])[k]
    {
      if k < |ms| - 1 {
        assert ms[k] == prev[k];
      }
    }
  }

  // ---------------------------------------------------------------------
  // What `computeAUC` records per point
  // ---------------------------------------------------------------------

  /**
   * Accuracy as `computeAUC` divides it, without a guard: (TP + TN) over the
   * sample size, so an empty sample gives 0/0.
   */
  function AccuracyOf(m: ConfusionMatrix): Double
  {
    Divide((m.truePositives + m.trueNegatives) as real, m.Total() as real)
  }

  /** The unguarded accuracy is the matrix's accuracy, except that an empty sample gives NaN. */
  lemma AccuracyOfAgrees(m: ConfusionMatrix)
    ensures m.Total() != 0 ==> AccuracyOf(m) == Finite(m.Accuracy())
    ensures m.Total() == 0 && m.NonNegative() ==> AccuracyOf(m).NaN?
  {
    if m.Total() != 0 {
      assert AccuracyOf(m).value * m.Total() as real == m.Accuracy() * m.Total() as real;
    }
  }

  /**
   * F1 as `computeAUC` divides it, without a guard: 2TP over (TP + FN) +
   * (TP + FP), so a sample without positives gives 0/0 at the first point.
   */
  function F1Of(m: ConfusionMatrix): Double
  {
    Divide((2 * m.truePositives) as real, (m.Positives() + m.PredictedPositives()) as real)
  }

  /** The unguarded F1 is the matrix's F1, except that 0/0 gives NaN. */
  lemma F1OfAgrees(m: ConfusionMatrix)
    ensures m.Positives() + m.PredictedPositives() != 0 ==> F1Of(m) == Finite(m.F1Score())
    ensures m.Positives() + m.PredictedPositives() == 0 && m.truePositives == 0 ==> F1Of(m).NaN?
  {
    var d := m.Positives() + m.PredictedPositives();
    if d != 0 {
      assert F1Of(m).value * d as real == m.F1Score() * d as real;
    }
  }

  /**
   * The trapezoid sum as `computeAUC` accumulates it: each point is joined to
   * the point before it, and the first point to itself, so the sum starts at
   * the first point rather than at the origin.
   */
  function ChainArea(ms: seq<ConfusionMatrix>): real
  {
    if |ms| == 0 then 0.0
    else
      var m := ms[|ms| - 1];
      var p := if |ms| == 1 then m else ms[|ms| - 2];
      ChainArea(ms[..|ms| - 1]) + Roc.Trapezoid(Roc.PointX(m), Roc.PointY(m), Roc.PointX(p), Roc.PointY(p))
  }

  /** When the first point is the origin, the sum from the first point is the sum from the origin. */
  lemma {:induction false} ChainAreaFromOrigin(ms: seq<ConfusionMatrix>)
    requires |ms| > 0 && Roc.PointX(ms[0]) == 0.0 && Roc.PointY(ms[0]) == 0.0
    ensures ChainArea(ms) == Roc.Area(ms)
  {
    var n := |ms| - 1;
    if n == 0 {
      assert ms[..0] == [];
    } else {
      assert ms[..n][0] == ms[0];
      ChainAreaFromOrigin(ms[..n]);
      var m, p := ms[n], ms[n - 1];
      Roc.TrapezoidSymmetric(Roc.PointX(m), Roc.PointY(m), Roc.PointX(p), Roc.PointY(p));
    }
  }

  /** Recording one more matrix adds its trapezoid back to the previous point (to itself for the first). */
  lemma ChainAreaSnoc(ms: seq<ConfusionMatrix>, m: ConfusionMatrix)
    ensures var p := if |ms| == 0 then m else ms[|ms| - 1];
            ChainArea(ms + [m]) == ChainArea(ms) + Roc.Trapezoid(Roc.PointX(m), Roc.PointY(m), Roc.PointX(p), Roc.PointY(p))
  {
    assert (ms + [m])[..|ms|] == ms;
  }

  // ---------------------------------------------------------------------
  // Counting the points
  // ---------------------------------------------------------------------

  /**
   * `computeNumberOfRocPoints`: one point per change of prediction along the
   * walk from the end, starting from threshold −1, plus the final point.
   */
  method ComputeNumberOfRocPoints(probValues: array<ProbabilityValue>) returns (numOfPoints: int)
    ensures numOfPoints == Changes(Predictions(Descent(probValues[..])), -1.0) + 1
  {
    ghost var values := probValues[..];
    numOfPoints := 0;
    var threshold := -1.0;
    var index := probValues.Length - 1;
    while index >= 0
      invariant -1 <= index < probValues.Length
      invariant numOfPoints == ChangesBelow(values, index)
      invariant threshold == After(values, index)
    {
      var predictedValue := probValues[index].predictedValue;
      if predictedValue != threshold {
        numOfPoints := numOfPoints + 1;
        threshold := predictedValue;
      }
      index := index - 1;
    }
    ChangesBelowIsChanges(values, -1);
    assert Descent(values)[..|values|] == Descent(values);
    numOfPoints := numOfPoints + 1;
  }

  /** The prediction of the pair after `index`, or −1 past the last pair. */
  function After(values: seq<ProbabilityValue>, index: int): real
    requires -1 <= index < |values|
  {
    if index == |values| - 1 then -1.0 else values[index + 1].predictedValue
  }

  /** The changes of prediction met walking from the last pair down to the one after `index`. */
  function ChangesBelow(values: seq<ProbabilityValue>, index: int): int
    requires -1 <= index < |values|
    decreases |values| - index
  {
    if index == |values| - 1 then 0
    else ChangesBelow(values, index + 1) + (if values[index + 1].predictedValue != After(values, index + 1) then 1 else 0)
  }

  /** The changes met walking down to `index` are those of the first |values| − 1 − index pairs of the descent. */
  lemma {:induction false} ChangesBelowIsChanges(values: seq<ProbabilityValue>, index: int)
    requires -1 <= index < |values|
    ensures ChangesBelow(values, index) == Changes(Predictions(Descent(values)[..|values| - 1 - index]), -1.0)
    decreases |values| - index
  {
    if index < |values| - 1 {
      var j := |values| - 2 - index;
      var walk := Descent(values);
      assert j + 1 == |values| - 1 - index;
      assert ChangesBelow(values, index) == Changes(Predictions(walk[..j + 1]), -1.0) by {
        ChangesBelowIsChanges(values, index + 1);
        CountStep(values, index + 1, j);
      }
    }
  }

  /**
   * Passing the pair at `index`, on the walk from the end, adds one to the
   * count when its prediction differs from that of the pair after it.
   */
  lemma CountStep(values: seq<ProbabilityValue>, index: int, j: int)
    requires 0 <= index < |values| && j == |values| - 1 - index
    ensures Changes(Predictions(Descent(values)[..j + 1]), -1.0)
            == Changes(Predictions(Descent(values)[..j]), -1.0)
               + (if values[index].predictedValue != After(values, index) then 1 else 0)
  {
    var walk := Descent(values);
    ChangesAt(walk, j);
    assert walk[j] == values[index].Widen();
    assert j > 0 ==> walk[j - 1] == values[index + 1].Widen();
  }

  /** Counting the changes one more observation into a walk. */
  lemma ChangesAt(walk: seq<ObservedPredictedValue>, j: int)
    requires 0 <= j < |walk|
    ensures Changes(Predictions(walk[..j + 1]), -1.0)
            == Changes(Predictions(walk[..j]), -1.0)
               + (if walk[j].predictedValue != (if j == 0 then -1.0 else walk[j - 1].predictedValue) then 1 else 0)
  {
    ChangesStep(walk[..j + 1], -1.0);
    assert walk[..j + 1][..j] == walk[..j];
  }

  /** The count of points is the number of matrices of the ROC sweep along the walk. */
  lemma NumberOfRocPoints(a: seq<ProbabilityValue>, numberOfPositives: int, numberOfNegatives: int)
    ensures Changes(Predictions(Descent(a)), -1.0) + 1 == |Roc.Sweep(Descent(a), numberOfPositives, numberOfNegatives)|
  {
    Roc.SweepLength(Descent(a), numberOfPositives, numberOfNegatives);
  }

  /**
   * Over an ascending array whose highest prediction is not −1, the count of
   * points is the number of distinct predictions plus one.
   */
  lemma NumberOfRocPointsDistinct(a: seq<ProbabilityValue>)
    requires Ascending(a, LegacyPrediction)
    requires |a| == 0 || a[|a| - 1].predictedValue != -1.0
    ensures Changes(Predictions(Descent(a)), -1.0) + 1 == |Distinct(Predictions(Descent(a)))| + 1
  {
    DescentDescending(a);
    ChangesDistinct(Predictions(Descent(a)), -1.0);
  }

  /**
   * Row k of `points` is the (FPR, TPR) point of the k-th matrix of `ms`, and
   * `area` is the trapezoid sum over the points as `computeAUC` adds it up.
   */
  ghost predicate Drawn(ms: seq<ConfusionMatrix>, points: array2<real>, area: real)
    reads points
  {
    && points.Length0 == |ms| && points.Length1 == 2
    && (forall k :: 0 <= k < |ms| ==> points[k, 0] == Roc.PointX(ms[k]) && points[k, 1] == Roc.PointY(ms[k]))
    && area == ChainArea(ms)
  }

  /** Entry k of each array is the accuracy, precision or F1 of the k-th matrix of `ms`, as `computeAUC` divides them. */
  ghost predicate Rated(ms: seq<ConfusionMatrix>, accuracy: array<Double>, precision: array<real>, f1score: array<Double>)
    reads accuracy, precision, f1score
  {
    && accuracy.Length == |ms| && precision.Length == |ms| && f1score.Length == |ms|
    && (forall k :: 0 <= k < |ms| ==> accuracy[k] == AccuracyOf(ms[k]))
    && (forall k :: 0 <= k < |ms| ==> precision[k] == PrecisionOf(ms[k]))
    && (forall k :: 0 <= k < |ms| ==> f1score[k] == F1Of(ms[k]))
  }

  /** Arrays holding the rows of a loop state that matches `ms` hold its points, rates and area. */
  lemma RecordedFromWalk(w: WalkState, ms: seq<ConfusionMatrix>, points: array2<real>, accuracy: array<Double>,
                         precision: array<real>, f1score: array<Double>, area: real)
    requires w.currentIndex == |ms| && Rows(w, ms, |ms|)
    requires Holds(points, accuracy, precision, f1score, w.xs, w.ys, w.accuracy, w.precision, w.f1score)
    requires points.Length0 == |ms| && area == w.area
    ensures Drawn(ms, points, area) && Rated(ms, accuracy, precision, f1score)
  {
    assert ms[..|ms|] == ms;
  }

  // ---------------------------------------------------------------------
  // The AUROC object
  // ---------------------------------------------------------------------

  class Auroc {
    /** The number of label-1 pairs. */
    var numOfPositive: int
    /** The number of all other pairs. */
    var numOfNegative: int
    var numOfRocPoints: int
    var areaUnderCurve: real
    /** Row k is the k-th ROC point: column 0 its FPR, column 1 its TPR. */
    var rocPoints: array2<real>
    var accuracy: array<Double>
    var precision: array<real>
    var f1score: array<Double>
    /** The object's own copy of the pairs, sorted in place by `computeAUC`. */
    const probValues: array<ProbabilityValue>

    /**
     * What `computeAUC` leaves behind: the counts of the sorted pairs, and
     * per matrix of the ROC sweep along the walk from the end its point,
     * accuracy, precision and F1, with the trapezoid sum over the points.
     */
    ghost predicate Computed()
      reads this, probValues, rocPoints, accuracy, precision, f1score
    {
      Evaluated(probValues[..], numOfPositive, numOfNegative, numOfRocPoints,
                rocPoints, accuracy, precision, f1score, areaUnderCurve)
    }

    /** `new AUROC(list)`: copies the pairs into an array of its own and computes the curve. */
    constructor (probabilityValues: seq<ProbabilityValue>)
      ensures probValues[..] == SortAscending(probabilityValues, LegacyPrediction)
      ensures Computed()
      ensures fresh(probValues) && fresh(rocPoints) && fresh(accuracy) && fresh(precision) && fresh(f1score)
    {
      probValues := new ProbabilityValue[|probabilityValues|](i requires 0 <= i < |probabilityValues| => probabilityValues[i]);
      new;
      assert probValues[..] == probabilityValues;
      ComputeAuc();
    }

    /**
     * `computeAUC`: sorts the pairs, counts them, sizes the arrays by the
     * number of points, then walks from the end. At every new prediction it
     * records the point, accuracy, precision and F1 of the counters so far
     * and adds the trapezoid back to the previous point (to itself for the
     * first); the final point is recorded after the walk.
     */
    method ComputeAuc()
      modifies this, probValues
      ensures probValues[..] == SortAscending(old(probValues[..]), LegacyPrediction)
      ensures Computed()
      ensures fresh(rocPoints) && fresh(accuracy) && fresh(precision) && fresh(f1score)
    {
      SortArray(probValues, LegacyPrediction);
      Tally();
    }

    /** The part of `computeAUC` after the sort. */
    method Tally()
      modifies this
      ensures Computed()
      ensures fresh(rocPoints) && fresh(accuracy) && fresh(precision) && fresh(f1score)
    {
      var positives, negatives, n, points, accuracy, precision, f1score, area := Evaluate(probValues, probValues[..]);
      numOfPositive, numOfNegative, numOfRocPoints := positives, negatives, n;
      rocPoints, this.accuracy, this.precision, this.f1score, areaUnderCurve := points, accuracy, precision, f1score, area;
    }

    /**
     * `getPositiveCasesAboveThresholdPoints`: walking from the end with the
     * threshold starting at 1, one (threshold, cases so far) row per
     * threshold, before the pairs at the next prediction are counted, and the
     * final row after the walk. Every pair counts, whatever its label.
     */
    method PositiveCasesAboveThresholdPoints() returns (points: array2<real>)
      ensures fresh(points) && Tabulated(points, CasesAbove(probValues[..], numOfPositive, numOfNegative))
    {
      var list := WalkFromEnd(probValues, DownStart(numOfPositive, numOfNegative, 1.0), CaseCount);
      points := ToRows(list);
    }

    /**
     * `getPositivePrecisionRecallPoints`: walking from the highest
     * prediction, one (recall, precision) row per distinct prediction. The
     * walk reads the last entry first, so an empty array fails.
     */
    method PositivePrecisionRecallPoints() returns (r: Result<array2<real>>)
      ensures r.Success? <==> probValues.Length > 0
      ensures r.Success? ==> fresh(r.value) && Tabulated(r.value, FromEnd(probValues[..], numOfPositive, numOfNegative, RecallPrecision))
    {
      r := CurveFromEnd(probValues, numOfPositive, numOfNegative, RecallPrecision);
    }

    /** `getPPVRecallvsThresholdPoints`: as the precision-recall walk, one (threshold, recall) row per distinct prediction. */
    method PpvRecallVsThresholdPoints() returns (r: Result<array2<real>>)
      ensures r.Success? <==> probValues.Length > 0
      ensures r.Success? ==> fresh(r.value) && Tabulated(r.value, FromEnd(probValues[..], numOfPositive, numOfNegative, ThresholdRecall))
    {
      r := CurveFromEnd(probValues, numOfPositive, numOfNegative, ThresholdRecall);
    }

    /** `getPPVvsThresholdPoints`: as the precision-recall walk, one (threshold, precision) row per distinct prediction. */
    method PpvVsThresholdPoints() returns (r: Result<array2<real>>)
      ensures r.Success? <==> probValues.Length > 0
      ensures r.Success? ==> fresh(r.value) && Tabulated(r.value, FromEnd(probValues[..], numOfPositive, numOfNegative, ThresholdPrecision))
    {
      r := CurveFromEnd(probValues, numOfPositive, numOfNegative, ThresholdPrecision);
    }

    /**
     * `getNPVRecallvsThresholdPoints`: walking from the lowest prediction,
     * one (threshold, specificity) row per distinct prediction.
     */
    method NpvRecallVsThresholdPoints() returns (r: Result<array2<real>>)
      ensures r.Success? <==> probValues.Length > 0
      ensures r.Success? ==> fresh(r.value) && Tabulated(r.value, FromStart(probValues[..], numOfPositive, numOfNegative, ThresholdSpecificity))
    {
      r := CurveFromStart(probValues, numOfPositive, numOfNegative, ThresholdSpecificity);
    }

    /** `getNPVvsThresholdPoints`: walking from the lowest prediction, one (threshold, NPV) row per distinct prediction. */
    method NpvVsThresholdPoints() returns (r: Result<array2<real>>)
      ensures r.Success? <==> probValues.Length > 0
      ensures r.Success? ==> fresh(r.value) && Tabulated(r.value, FromStart(probValues[..], numOfPositive, numOfNegative, ThresholdNpv))
    {
      r := CurveFromStart(probValues, numOfPositive, numOfNegative, ThresholdNpv);
    }

    /** `getNegativePrecisionRecallPoints`: walking from the lowest prediction, one (specificity, NPV) row per distinct prediction. */
    method NegativePrecisionRecallPoints() returns (r: Result<array2<real>>)
      ensures r.Success? <==> probValues.Length > 0
      ensures r.Success? ==> fresh(r.value) && Tabulated(r.value, FromStart(probValues[..], numOfPositive, numOfNegative, SpecificityNpv))
    {
      r := CurveFromStart(probValues, numOfPositive, numOfNegative, SpecificityNpv);
    }
  }

  /**
   * What `computeAUC` leaves behind for the sorted pairs `values`: their
   * counts, and per matrix of the ROC sweep along the walk from the end its
   * point, accuracy, precision and F1, with the trapezoid sum over the points.
   */
  ghost predicate Evaluated(values: seq<ProbabilityValue>, numOfPositive: int, numOfNegative: int, numOfRocPoints: int,
                            points: array2<real>, accuracy: array<Double>, precision: array<real>, f1score: array<Double>,
                            area: real)
    reads points, accuracy, precision, f1score
  {
    && Plotted(values, numOfPositive, numOfNegative, numOfRocPoints, points, area)
    && accuracy != f1score
    && Rated(Roc.Sweep(Descent(values), numOfPositive, numOfNegative), accuracy, precision, f1score)
  }

  /**
   * The counts of the sorted pairs `values`, and per matrix of the ROC sweep
   * along the walk from the end its point, with the trapezoid sum over them.
   */
  ghost predicate Plotted(values: seq<ProbabilityValue>, numOfPositive: int, numOfNegative: int, numOfRocPoints: int,
                          points: array2<real>, area: real)
    reads points
  {
    var ms := Roc.Sweep(Descent(values), numOfPositive, numOfNegative);
    && numOfPositive == CountObserved(Descent(values), 1)
    && numOfNegative == |values| - numOfPositive
    && numOfRocPoints == |ms|
    && Drawn(ms, points, area)
  }

  /** The counting, sizing and walk of `computeAUC` over the already sorted array. */
  method Evaluate(probValues: array<ProbabilityValue>, ghost values: seq<ProbabilityValue>)
    returns (numOfPositive: int, numOfNegative: int, numOfRocPoints: int, points: array2<real>,
             accuracy: array<Double>, precision: array<real>, f1score: array<Double>, areaUnderCurve: real)
    requires values == probValues[..]
    ensures fresh(points) && fresh(accuracy) && fresh(precision) && fresh(f1score)
    ensures Evaluated(values, numOfPositive, numOfNegative, numOfRocPoints, points, accuracy, precision, f1score, areaUnderCurve)
  {
    numOfPositive := CountObserved(Descent(probValues[..]), 1);
    numOfNegative := probValues.Length - numOfPositive;
    ghost var ms := Roc.Sweep(Descent(values), numOfPositive, numOfNegative);
    numOfRocPoints := CountRocPoints(probValues, ms, numOfPositive, numOfNegative);
    WalkedIsSweep(values, numOfPositive, numOfNegative);
    points, accuracy, precision, f1score, areaUnderCurve := SweepPoints(probValues, values, numOfPositive, numOfNegative, numOfRocPoints);
    RecordedFromWalk(Walked(values, numOfPositive, numOfNegative), ms, points, accuracy, precision, f1score, areaUnderCurve);
  }

  /**
   * The sweep along the walk from the end of an ascending array whose highest
   * prediction is not −1 starts at the origin, so the sum from its first
   * point is the sum from the origin.
   */
  lemma WalkSweepOrigin(values: seq<ProbabilityValue>, numOfPositive: int, numOfNegative: int)
    requires |values| == 0 || values[|values| - 1].predictedValue != -1.0
    ensures Roc.PointX(Roc.Sweep(Descent(values), numOfPositive, numOfNegative)[0]) == 0.0
    ensures Roc.PointY(Roc.Sweep(Descent(values), numOfPositive, numOfNegative)[0]) == 0.0
    ensures ChainArea(Roc.Sweep(Descent(values), numOfPositive, numOfNegative))
            == Roc.Area(Roc.Sweep(Descent(values), numOfPositive, numOfNegative))
  {
    var s := Descent(values);
    Roc.SweepFirst(s, numOfPositive, numOfNegative);
    ChainAreaFromOrigin(Roc.Sweep(s, numOfPositive, numOfNegative));
  }

  /** Along the sweep both coordinates climb. */
  lemma SweepClimbs(s: seq<ObservedPredictedValue>, numOfPositive: int, numOfNegative: int)
    requires numOfPositive >= 0 && numOfNegative >= 0
    ensures forall j, k :: 0 <= j <= k < |Roc.Sweep(s, numOfPositive, numOfNegative)| ==>
              Roc.PointX(Roc.Sweep(s, numOfPositive, numOfNegative)[j]) <= Roc.PointX(Roc.Sweep(s, numOfPositive, numOfNegative)[k])
              && Roc.PointY(Roc.Sweep(s, numOfPositive, numOfNegative)[j]) <= Roc.PointY(Roc.Sweep(s, numOfPositive, numOfNegative)[k])
  {
    forall j, k | 0 <= j <= k < |Roc.Sweep(s, numOfPositive, numOfNegative)|
      ensures Roc.PointX(Roc.Sweep(s, numOfPositive, numOfNegative)[j]) <= Roc.PointX(Roc.Sweep(s, numOfPositive, numOfNegative)[k])
              && Roc.PointY(Roc.Sweep(s, numOfPositive, numOfNegative)[j]) <= Roc.PointY(Roc.Sweep(s, numOfPositive, numOfNegative)[k])
    {
      Roc.RatesMonotone(s, numOfPositive, numOfNegative, j, k);
    }
  }

  /** Points drawn from a climbing list of matrices climb in both columns. */
  lemma DrawnClimbs(ms: seq<ConfusionMatrix>, points: array2<real>, area: real)
    requires Drawn(ms, points, area)
    requires forall j, k :: 0 <= j <= k < |ms| ==> Roc.PointX(ms[j]) <= Roc.PointX(ms[k]) && Roc.PointY(ms[j]) <= Roc.PointY(ms[k])
    ensures forall j, k :: 0 <= j <= k < points.Length0 ==> points[j, 0] <= points[k, 0] && points[j, 1] <= points[k, 1]
  {
    forall j, k | 0 <= j <= k < points.Length0
      ensures points[j, 0] <= points[k, 0] && points[j, 1] <= points[k, 1]
    {
      assert points[j, 0] == Roc.PointX(ms[j]) && points[k, 0] == Roc.PointX(ms[k]);
    }
  }

  /**
   * With labels 0 and 1 only, in descending order of prediction, and with
   * every label other than 1 counted negative, the area under the sweep lies
   * in [0, 1].
   */
  lemma SweepAreaBounds(s: seq<ObservedPredictedValue>, numOfPositive: int, numOfNegative: int)
    requires Binary(s) && Descending(s, Prediction)
    requires numOfPositive == CountObserved(s, 1) && numOfNegative == |s| - numOfPositive
    ensures 0.0 <= Roc.Area(Roc.Sweep(s, numOfPositive, numOfNegative)) <= 1.0
  {
    NotPositiveIsNegative(s);
    assert numOfNegative == CountObserved(s, 0);
    Roc.AreaBounds(s);
  }

  /**
   * When both classes occur as well, that area is the Mann-Whitney statistic
   * of the pairs, and the last matrix is the point (1, 1).
   */
  lemma SweepAreaMannWhitney(s: seq<ObservedPredictedValue>, numOfPositive: int, numOfNegative: int)
    requires Binary(s) && Descending(s, Prediction)
    requires numOfPositive == CountObserved(s, 1) && numOfNegative == |s| - numOfPositive
    requires numOfPositive > 0 && numOfNegative > 0
    ensures var ms := Roc.Sweep(s, numOfPositive, numOfNegative);
            Roc.Area(ms) == Placement.PairwiseAuc(Positives(s), Roc.Others(s))
            && Roc.PointX(ms[|ms| - 1]) == 1.0 && Roc.PointY(ms[|ms| - 1]) == 1.0
  {
    NotPositiveIsNegative(s);
    assert numOfNegative == CountObserved(s, 0);
    Roc.AreaIsPairwiseAuc(s);
    Roc.SweepEndsAtAllPositive(s);
  }

  /**
   * The points `computeAUC` leaves behind over an ascending array whose highest
   * prediction is not −1: one point per distinct prediction plus the final
   * one, the first point the origin, and the area the trapezoid sum from the
   * origin.
   */
  lemma PlottedCurve(values: seq<ProbabilityValue>, numOfPositive: int, numOfNegative: int, numOfRocPoints: int,
                     points: array2<real>, area: real)
    requires Ascending(values, LegacyPrediction)
    requires |values| == 0 || values[|values| - 1].predictedValue != -1.0
    requires numOfPositive == CountObserved(Descent(values), 1) && numOfNegative == |values| - numOfPositive
    requires numOfRocPoints == |Roc.Sweep(Descent(values), numOfPositive, numOfNegative)|
    requires Drawn(Roc.Sweep(Descent(values), numOfPositive, numOfNegative), points, area)
    ensures numOfRocPoints == |Distinct(Predictions(Descent(values)))| + 1
    ensures points[0, 0] == 0.0 && points[0, 1] == 0.0
    ensures area == Roc.Area(Roc.Sweep(Descent(values), numOfPositive, numOfNegative))
  {
    NumberOfRocPoints(values, numOfPositive, numOfNegative);
    NumberOfRocPointsDistinct(values);
    WalkSweepOrigin(values, numOfPositive, numOfNegative);
  }

  /** Along the points `computeAUC` leaves behind, both columns climb. */
  lemma PlottedClimbs(values: seq<ProbabilityValue>, numOfPositive: int, numOfNegative: int,
                      points: array2<real>, area: real)
    requires numOfPositive == CountObserved(Descent(values), 1) && numOfNegative == |values| - numOfPositive
    requires Drawn(Roc.Sweep(Descent(values), numOfPositive, numOfNegative), points, area)
    ensures forall j, k :: 0 <= j <= k < points.Length0 ==> points[j, 0] <= points[k, 0] && points[j, 1] <= points[k, 1]
  {
    var s := Descent(values);
    SweepClimbs(s, numOfPositive, numOfNegative);
    DrawnClimbs(Roc.Sweep(s, numOfPositive, numOfNegative), points, area);
  }

  /**
   * Whatever the labels, the area `computeAUC` accumulates lies in [0, 1]:
   * every label other than 1 is counted negative.
   */
  lemma PlottedAreaBounds(values: seq<ProbabilityValue>, numOfPositive: int, numOfNegative: int, area: real)
    requires Ascending(values, LegacyPrediction)
    requires |values| == 0 || values[|values| - 1].predictedValue != -1.0
    requires numOfPositive == CountObserved(Descent(values), 1) && numOfNegative == |values| - numOfPositive
    requires area == ChainArea(Roc.Sweep(Descent(values), numOfPositive, numOfNegative))
    ensures 0.0 <= area <= 1.0
  {
    WalkSweepOrigin(values, numOfPositive, numOfNegative);
    DescentAreaBounds(values, numOfPositive, numOfNegative);
  }

  /** The area under the sweep along the walk lies in [0, 1], whatever the labels. */
  lemma DescentAreaBounds(values: seq<ProbabilityValue>, numOfPositive: int, numOfNegative: int)
    requires Ascending(values, LegacyPrediction)
    requires numOfPositive == CountObserved(Descent(values), 1) && numOfNegative == |values| - numOfPositive
    ensures 0.0 <= Roc.Area(Roc.Sweep(Descent(values), numOfPositive, numOfNegative)) <= 1.0
  {
    var s := Descent(values);
    var t := Binarized(s);
    DescentDescending(values);
    assert Descending(t, Prediction) by {
      forall i, j | 0 <= i < j < |t|
        ensures Prediction(t[i]) >= Prediction(t[j])
      {
        assert Prediction(s[i]) >= Prediction(s[j]);
      }
    }
    SweepBinarized(s, numOfPositive, numOfNegative);
    CountBinarized(s);
    SweepAreaBounds(t, numOfPositive, numOfNegative);
  }

  /** The pairs with every label other than 1 relabelled 0: all the legacy counting tells apart. */
  function Binarized(s: seq<ObservedPredictedValue>): (t: seq<ObservedPredictedValue>)
    ensures |t| == |s| && Binary(t)
    ensures forall k :: 0 <= k < |s| ==>
              t[k].predictedValue == s[k].predictedValue && (t[k].observedValue == 1 <==> s[k].observedValue == 1)
  {
    seq(|s|, k requires 0 <= k < |s| => s[k].(observedValue := if s[k].observedValue == 1 then 1 else 0))
  }

  /** The sweep only asks whether a label is 1. */
  lemma {:induction false} SweepBinarized(s: seq<ObservedPredictedValue>, numOfPositive: int, numOfNegative: int)
    ensures Roc.Sweep(Binarized(s), numOfPositive, numOfNegative) == Roc.Sweep(s, numOfPositive, numOfNegative)
  {
    if |s| > 0 {
      var t, init := Binarized(s), s[..|s| - 1];
      assert t[..|s| - 1] == Binarized(init);
      SweepBinarized(init, numOfPositive, numOfNegative);
      var prev := Roc.Sweep(init, numOfPositive, numOfNegative);
      BumpBinarized(prev[|prev| - 1], t[|s| - 1], s[|s| - 1]);
    }
  }

  /** Two pairs that agree on the prediction and on whether the label is 1 move the same counter. */
  lemma BumpBinarized(m: ConfusionMatrix, x: ObservedPredictedValue, y: ObservedPredictedValue)
    requires x.predictedValue == y.predictedValue && (x.observedValue == 1 <==> y.observedValue == 1)
    ensures Roc.Bump(m, x) == Roc.Bump(m, y)
  {
  }

  /** Relabelling keeps the count of label-1 pairs. */
  lemma {:induction false} CountBinarized(s: seq<ObservedPredictedValue>)
    ensures CountObserved(Binarized(s), 1) == CountObserved(s, 1)
  {
    if |s| > 0 {
      assert Binarized(s)[..|s| - 1] == Binarized(s[..|s| - 1]);
      CountBinarized(s[..|s| - 1]);
    }
  }

  /**
   * When both classes occur as well, the area `computeAUC` accumulates is the
   * Mann-Whitney statistic of the pairs, and the final point is (1, 1).
   */
  lemma PlottedMannWhitney(values: seq<ProbabilityValue>, numOfPositive: int, numOfNegative: int, numOfRocPoints: int,
                           points: array2<real>, area: real)
    requires Ascending(values, LegacyPrediction) && Binary(Descent(values))
    requires |values| == 0 || values[|values| - 1].predictedValue != -1.0
    requires numOfPositive == CountObserved(Descent(values), 1) && numOfNegative == |values| - numOfPositive
    requires numOfPositive > 0 && numOfNegative > 0
    requires numOfRocPoints == |Roc.Sweep(Descent(values), numOfPositive, numOfNegative)|
    requires Drawn(Roc.Sweep(Descent(values), numOfPositive, numOfNegative), points, area)
    ensures area == Placement.PairwiseAuc(Positives(Descent(values)), Roc.Others(Descent(values)))
    ensures points[numOfRocPoints - 1, 0] == 1.0 && points[numOfRocPoints - 1, 1] == 1.0
  {
    WalkSweepOrigin(values, numOfPositive, numOfNegative);
    DescentDescending(values);
    SweepAreaMannWhitney(Descent(values), numOfPositive, numOfNegative);
  }

  /** The number of points `computeAUC` allocates: one per matrix of the sweep. */
  method CountRocPoints(probValues: array<ProbabilityValue>, ghost ms: seq<ConfusionMatrix>,
                        numOfPositive: int, numOfNegative: int) returns (n: int)
    requires ms == Roc.Sweep(Descent(probValues[..]), numOfPositive, numOfNegative)
    ensures n == |ms|
  {
    n := ComputeNumberOfRocPoints(probValues);
    NumberOfRocPoints(probValues[..], numOfPositive, numOfNegative);
  }

  /**
   * The matrices of the walk over `values[i..]` from the end of the array
   * down to index `i`: the sweep as the loop of `computeAUC` builds it.
   */
  function SweepFrom(values: seq<ProbabilityValue>, i: int, numOfPositive: int, numOfNegative: int): (ms: seq<ConfusionMatrix>)
    requires 0 <= i <= |values|
    ensures 1 <= |ms| <= |values| - i + 1
    decreases |values| - i
  {
    if i == |values| then [Roc.Initial(numOfPositive, numOfNegative)]
    else
      var prev := SweepFrom(values, i + 1, numOfPositive, numOfNegative);
      var x := values[i].Widen();
      var last := prev[|prev| - 1];
      if x.predictedValue == last.threshold then prev[..|prev| - 1] + [Roc.Bump(last, x)]
      else prev + [Roc.Bump(last, x).(threshold := x.predictedValue)]
  }

  /** The walk from the end down to `i` is the ROC sweep of the pairs from `i` on, taken in descending order. */
  lemma {:induction false} SweepFromIsSweep(values: seq<ProbabilityValue>, i: int, numOfPositive: int, numOfNegative: int)
    requires 0 <= i <= |values|
    ensures SweepFrom(values, i, numOfPositive, numOfNegative) == Roc.Sweep(Descent(values[i..]), numOfPositive, numOfNegative)
    decreases |values| - i
  {
    if i < |values| {
      SweepFromIsSweep(values, i + 1, numOfPositive, numOfNegative);
      var s := Descent(values[i..]);
      var t := Descent(values[i + 1..]);
      assert s[..|s| - 1] == t by {
        forall k | 0 <= k < |t|
          ensures s[k] == t[k]
        {
          assert values[i..][|values[i..]| - 1 - k] == values[i + 1..][|values[i + 1..]| - 1 - k];
        }
      }
      assert s[|s| - 1] == values[i].Widen();
      SweepIsExtend(s, numOfPositive, numOfNegative);
      SweepFromStep(values, i, numOfPositive, numOfNegative);
    }
  }

  /** One more observation extends the ROC sweep by a downward step. */
  lemma SweepIsExtend(s: seq<ObservedPredictedValue>, numOfPositive: int, numOfNegative: int)
    requires |s| > 0
    ensures Roc.Sweep(s, numOfPositive, numOfNegative)
            == Extend(Roc.Sweep(s[..|s| - 1], numOfPositive, numOfNegative), s[|s| - 1], Down)
  {
    var n := |s| - 1;
    Roc.SweepStep(s, n, numOfPositive, numOfNegative);
    assert s[..n + 1] == s;
    var prev := Roc.Sweep(s[..n], numOfPositive, numOfNegative);
    assert Pass(prev[|prev| - 1], s[n], Down) == Roc.Bump(prev[|prev| - 1], s[n]);
  }

  // ---------------------------------------------------------------------
  // The loop of `computeAUC`, one pair at a time
  // ---------------------------------------------------------------------

  /**
   * The local state of the loop of `computeAUC`: its counters, the threshold
   * it last recorded at, the two indices, what it has written to the four
   * arrays so far (the two columns of the points apart) and the area.
   */
  datatype WalkState = WalkState(
    truePositive: int, trueNegative: int, falsePositive: int, falseNegative: int,
    threshold: real, currentIndex: int, previousIndex: int,
    xs: seq<real>, ys: seq<real>, accuracy: seq<Double>, precision: seq<real>, f1score: seq<Double>,
    area: real)

  /** `currentIndex` rows are written and `previousIndex` is the last of them (0 before the first). */
  ghost predicate WalkShape(w: WalkState)
  {
    && |w.xs| == w.currentIndex && |w.ys| == w.currentIndex
    && |w.accuracy| == w.currentIndex && |w.precision| == w.currentIndex && |w.f1score| == w.currentIndex
    && w.previousIndex == (if w.currentIndex == 0 then 0 else w.currentIndex - 1)
  }

  /**
   * Recording a point from the counters, as `computeAUC` does at a new
   * prediction and once more after the loop: the guarded rates for the point
   * and the precision, unguarded divisions for accuracy and F1, and the
   * trapezoid between the new point and the previous one (itself, for the
   * first point).
   */
  function Record(w: WalkState, numOfPositive: int, numOfNegative: int): (r: WalkState)
    requires WalkShape(w)
    ensures WalkShape(r) && r.currentIndex == w.currentIndex + 1
  {
    var size := numOfPositive + numOfNegative;
    var x := Rate(w.falsePositive, numOfNegative);
    var y := Rate(w.truePositive, numOfPositive);
    var tpPlusFp := w.truePositive + w.falsePositive;
    var xs := w.xs + [x];
    var ys := w.ys + [y];
    w.(xs := xs, ys := ys,
       accuracy := w.accuracy + [Divide((w.truePositive + w.trueNegative) as real, size as real)],
       precision := w.precision + [Rate(w.truePositive, tpPlusFp)],
       f1score := w.f1score + [Divide((2 * w.truePositive) as real, (numOfPositive + tpPlusFp) as real)],
       area := w.area + Roc.Trapezoid(x, y, xs[w.previousIndex], ys[w.previousIndex]),
       previousIndex := w.currentIndex,
       currentIndex := w.currentIndex + 1)
  }

  /** One pass of the loop over `v`: record a point at a new prediction, then count `v`. */
  function WalkStep(w: WalkState, v: ProbabilityValue, numOfPositive: int, numOfNegative: int): (r: WalkState)
    requires WalkShape(w)
    ensures WalkShape(r)
    ensures r.currentIndex == (if v.predictedValue != w.threshold then w.currentIndex + 1 else w.currentIndex)
  {
    var w' := if v.predictedValue != w.threshold
              then Record(w, numOfPositive, numOfNegative).(threshold := v.predictedValue)
              else w;
    if v.observedValue == 1 then w'.(truePositive := w'.truePositive + 1, falseNegative := w'.falseNegative - 1)
    else w'.(falsePositive := w'.falsePositive + 1, trueNegative := w'.trueNegative - 1)
  }

  /** The state before the loop: nothing counted as predicted positive, nothing written, threshold −1. */
  function WalkStart(numOfPositive: int, numOfNegative: int): (w: WalkState)
    ensures WalkShape(w)
  {
    WalkState(0, numOfNegative, 0, numOfPositive, -1.0, 0, 0, [], [], [], [], [], 0.0)
  }

  /** The state of the loop once it has passed the pairs from the end of the array down to index `i`. */
  function WalkFrom(values: seq<ProbabilityValue>, i: int, numOfPositive: int, numOfNegative: int): (w: WalkState)
    requires 0 <= i <= |values|
    ensures WalkShape(w)
    decreases |values| - i
  {
    if i == |values| then WalkStart(numOfPositive, numOfNegative)
    else WalkStep(WalkFrom(values, i + 1, numOfPositive, numOfNegative), values[i], numOfPositive, numOfNegative)
  }

  /** The state `computeAUC` ends in: the loop over the whole array and the final point. */
  function Walked(values: seq<ProbabilityValue>, numOfPositive: int, numOfNegative: int): (w: WalkState)
    ensures WalkShape(w)
  {
    Record(WalkFrom(values, 0, numOfPositive, numOfNegative), numOfPositive, numOfNegative)
  }

  lemma WalkedIsLastRecord(values: seq<ProbabilityValue>, numOfPositive: int, numOfNegative: int)
    ensures Walked(values, numOfPositive, numOfNegative)
            == Record(WalkFrom(values, 0, numOfPositive, numOfNegative), numOfPositive, numOfNegative)
  {
  }

  /** Precision as `computeAUC` records it: the guarded TP / (TP + FP). */
  function PrecisionOf(m: ConfusionMatrix): real
  {
    m.PositivePredictiveValue()
  }

  /** Entries `0 .. n-1` of the column `c` are `f` of `ms[0 .. n-1]`. */
  ghost predicate Column<T>(c: seq<T>, ms: seq<ConfusionMatrix>, n: int, f: ConfusionMatrix -> T)
  {
    0 <= n <= |c| && n <= |ms| && forall k :: 0 <= k < n ==> c[k] == f(ms[k])
  }

  /** Appending `f` of the next matrix extends a column by one row. */
  lemma ColumnSnoc<T>(c: seq<T>, ms: seq<ConfusionMatrix>, n: int, f: ConfusionMatrix -> T, v: T)
    requires Column(c, ms, n, f) && |c| == n && n < |ms| && v == f(ms[n])
    ensures Column(c + [v], ms, n + 1, f)
  {
    forall k | 0 <= k < n + 1
      ensures (c + [v])[k] == f(ms[k])
    {
      if k < n {
        assert (c + [v])[k] == c[k];
      }
    }
  }

  /** A column agreed on stays agreed when the matrices only change past it. */
  lemma ColumnPrefix<T>(c: seq<T>, ms: seq<ConfusionMatrix>, ms': seq<ConfusionMatrix>, n: int, f: ConfusionMatrix -> T)
    requires Column(c, ms, n, f) && n <= |ms'| && ms'[..n] == ms[..n]
    ensures Column(c, ms', n, f)
  {
    forall k | 0 <= k < n
      ensures c[k] == f(ms'[k])
    {
      assert ms'[..n][k] == ms[..n][k];
    }
  }

  /** The rows `0 .. n-1` of `w` are the point, accuracy, precision and F1 of `ms[0 .. n-1]`, and its area their chain sum. */
  ghost predicate Rows(w: WalkState, ms: seq<ConfusionMatrix>, n: int)
  {
    && Column(w.xs, ms, n, Roc.PointX) && Column(w.ys, ms, n, Roc.PointY)
    && Column(w.accuracy, ms, n, AccuracyOf) && Column(w.precision, ms, n, PrecisionOf)
    && Column(w.f1score, ms, n, F1Of)
    && w.area == ChainArea(ms[..n])
  }

  /**
   * The loop state matches the sweep `ms`: one matrix per recorded row plus
   * the open one, which holds the counters at the last recorded threshold.
   */
  ghost predicate Agree(w: WalkState, ms: seq<ConfusionMatrix>, numOfPositive: int, numOfNegative: int)
  {
    && WalkShape(w) && |ms| == w.currentIndex + 1
    && ms[|ms| - 1] == ConfusionMatrix(w.truePositive, w.trueNegative, w.falsePositive, w.falseNegative, w.threshold)
    && ms[|ms| - 1].Positives() == numOfPositive && ms[|ms| - 1].Negatives() == numOfNegative
    && Rows(w, ms, w.currentIndex)
  }

  /** Recording from counters that form `m` appends the point, scores and trapezoid of `m`. */
  lemma RecordOf(w: WalkState, m: ConfusionMatrix, numOfPositive: int, numOfNegative: int)
    requires WalkShape(w)
    requires m == ConfusionMatrix(w.truePositive, w.trueNegative, w.falsePositive, w.falseNegative, w.threshold)
    requires m.Positives() == numOfPositive && m.Negatives() == numOfNegative
    ensures Record(w, numOfPositive, numOfNegative).xs == w.xs + [Roc.PointX(m)]
    ensures Record(w, numOfPositive, numOfNegative).ys == w.ys + [Roc.PointY(m)]
    ensures Record(w, numOfPositive, numOfNegative).accuracy == w.accuracy + [AccuracyOf(m)]
    ensures Record(w, numOfPositive, numOfNegative).precision == w.precision + [PrecisionOf(m)]
    ensures Record(w, numOfPositive, numOfNegative).f1score == w.f1score + [F1Of(m)]
  {
  }

  /** Recording from the counters of the open matrix appends its point, scores and trapezoid. */
  lemma RecordRow(w: WalkState, ms: seq<ConfusionMatrix>, numOfPositive: int, numOfNegative: int)
    requires Agree(w, ms, numOfPositive, numOfNegative)
    ensures Rows(Record(w, numOfPositive, numOfNegative), ms, |ms|)
  {
    var r := Record(w, numOfPositive, numOfNegative);
    var n := w.currentIndex;
    var m := ms[n];
    RecordOf(w, m, numOfPositive, numOfNegative);
    ColumnSnoc(w.xs, ms, n, Roc.PointX, Roc.PointX(m));
    ColumnSnoc(w.ys, ms, n, Roc.PointY, Roc.PointY(m));
    ColumnSnoc(w.accuracy, ms, n, AccuracyOf, AccuracyOf(m));
    ColumnSnoc(w.precision, ms, n, PrecisionOf, PrecisionOf(m));
    ColumnSnoc(w.f1score, ms, n, F1Of, F1Of(m));
    RecordArea(w, ms, numOfPositive, numOfNegative);
  }

  /** Recording adds the trapezoid of the open matrix to the chain sum. */
  lemma RecordArea(w: WalkState, ms: seq<ConfusionMatrix>, numOfPositive: int, numOfNegative: int)
    requires Agree(w, ms, numOfPositive, numOfNegative)
    ensures Record(w, numOfPositive, numOfNegative).area == ChainArea(ms[..|ms|])
  {
    var n := w.currentIndex;
    var m := ms[n];
    RecordOf(w, m, numOfPositive, numOfNegative);
    var p := if n == 0 then m else ms[n - 1];
    assert ms[..n + 1] == ms[..n] + [m];
    ChainAreaSnoc(ms[..n], m);
    if n > 0 {
      assert ms[..n][n - 1] == ms[n - 1];
      assert w.xs[n - 1] == Roc.PointX(p) && w.ys[n - 1] == Roc.PointY(p);
    }
    var r := Record(w, numOfPositive, numOfNegative);
    assert r.xs[w.previousIndex] == Roc.PointX(p) && r.ys[w.previousIndex] == Roc.PointY(p);
  }

  /** Rows already agreed on stay agreed when the sweep only changes past them. */
  lemma RowsPrefix(w: WalkState, ms: seq<ConfusionMatrix>, ms': seq<ConfusionMatrix>, n: int)
    requires Rows(w, ms, n) && n <= |ms'| && ms'[..n] == ms[..n]
    ensures Rows(w, ms', n)
  {
    ColumnPrefix(w.xs, ms, ms', n, Roc.PointX);
    ColumnPrefix(w.ys, ms, ms', n, Roc.PointY);
    ColumnPrefix(w.accuracy, ms, ms', n, AccuracyOf);
    ColumnPrefix(w.precision, ms, ms', n, PrecisionOf);
    ColumnPrefix(w.f1score, ms, ms', n, F1Of);
  }

  /** One pass of the loop keeps the state matched with one step of the sweep. */
  lemma AgreeStep(w: WalkState, ms: seq<ConfusionMatrix>, v: ProbabilityValue, numOfPositive: int, numOfNegative: int)
    requires Agree(w, ms, numOfPositive, numOfNegative)
    ensures Agree(WalkStep(w, v, numOfPositive, numOfNegative), Extend(ms, v.Widen(), Down), numOfPositive, numOfNegative)
  {
    var x := v.Widen();
    var ms' := Extend(ms, x, Down);
    var n := w.currentIndex;
    var r := WalkStep(w, v, numOfPositive, numOfNegative);
    if v.predictedValue != w.threshold {
      var rec := Record(w, numOfPositive, numOfNegative);
      RecordRow(w, ms, numOfPositive, numOfNegative);
      assert ms' == ms + [Roc.Bump(ms[n], x).(threshold := x.predictedValue)];
      assert ms'[..n + 1] == ms[..n + 1];
      RowsPrefix(rec, ms, ms', n + 1);
      assert r.xs == rec.xs && r.ys == rec.ys && r.area == rec.area;
      assert r.accuracy == rec.accuracy && r.precision == rec.precision && r.f1score == rec.f1score;
    } else {
      assert ms' == ms[..n] + [Roc.Bump(ms[n], x)];
      assert ms'[..n] == ms[..n];
      RowsPrefix(w, ms, ms', n);
      assert r.xs == w.xs && r.ys == w.ys && r.area == w.area;
      assert r.accuracy == w.accuracy && r.precision == w.precision && r.f1score == w.f1score;
    }
  }

  /** The walk's matrices, stepped pair by pair, are `Extend` steps. */
  lemma SweepFromStep(values: seq<ProbabilityValue>, i: int, numOfPositive: int, numOfNegative: int)
    requires 0 <= i < |values|
    ensures SweepFrom(values, i, numOfPositive, numOfNegative)
            == Extend(SweepFrom(values, i + 1, numOfPositive, numOfNegative), values[i].Widen(), Down)
  {
  }

  /** The loop state after the pairs down to `i` matches the sweep of those pairs. */
  lemma {:induction false} WalkAgrees(values: seq<ProbabilityValue>, i: int, numOfPositive: int, numOfNegative: int)
    requires 0 <= i <= |values|
    ensures Agree(WalkFrom(values, i, numOfPositive, numOfNegative), SweepFrom(values, i, numOfPositive, numOfNegative),
                  numOfPositive, numOfNegative)
    decreases |values| - i
  {
    if i < |values| {
      WalkAgrees(values, i + 1, numOfPositive, numOfNegative);
      SweepFromStep(values, i, numOfPositive, numOfNegative);
      AgreeStep(WalkFrom(values, i + 1, numOfPositive, numOfNegative), SweepFrom(values, i + 1, numOfPositive, numOfNegative),
                values[i], numOfPositive, numOfNegative);
    } else {
      assert SweepFrom(values, i, numOfPositive, numOfNegative)[..0] == [];
    }
  }

  /**
   * What `computeAUC` leaves in its locals is, row by row, the point,
   * accuracy, precision and F1 of each matrix of the ROC sweep along the
   * walk from the end, and the chain sum of the trapezoids between them.
   */
  lemma WalkedIsSweep(values: seq<ProbabilityValue>, numOfPositive: int, numOfNegative: int)
    ensures Walked(values, numOfPositive, numOfNegative).currentIndex == |Roc.Sweep(Descent(values), numOfPositive, numOfNegative)|
    ensures Rows(Walked(values, numOfPositive, numOfNegative), Roc.Sweep(Descent(values), numOfPositive, numOfNegative),
                 |Roc.Sweep(Descent(values), numOfPositive, numOfNegative)|)
  {
    WalkAgrees(values, 0, numOfPositive, numOfNegative);
    RecordRow(WalkFrom(values, 0, numOfPositive, numOfNegative), SweepFrom(values, 0, numOfPositive, numOfNegative),
              numOfPositive, numOfNegative);
    SweepFromIsSweep(values, 0, numOfPositive, numOfNegative);
    assert values[0..] == values;
  }

  /**
   * `states[i]` is the loop state once the pairs from the end down to index
   * `i` are passed: each is one step from the next, and none has written
   * more rows than the last.
   */
  ghost predicate Walks(values: seq<ProbabilityValue>, states: seq<WalkState>, numOfPositive: int, numOfNegative: int)
  {
    && |states| == |values| + 1
    && states[|values|] == WalkStart(numOfPositive, numOfNegative)
    && (forall i {:trigger values[i]} :: 0 <= i < |values| ==>
          WalkShape(states[i + 1]) && states[i] == WalkStep(states[i + 1], values[i], numOfPositive, numOfNegative))
    && (forall i :: 0 <= i <= |values| ==> states[i].currentIndex <= states[0].currentIndex)
  }

  /** All the loop states, one per index. */
  ghost function WalkStates(values: seq<ProbabilityValue>, numOfPositive: int, numOfNegative: int): (states: seq<WalkState>)
    ensures Walks(values, states, numOfPositive, numOfNegative)
    ensures states[0] == WalkFrom(values, 0, numOfPositive, numOfNegative)
  {
    var states := seq(|values| + 1, i requires 0 <= i <= |values| => WalkFrom(values, i, numOfPositive, numOfNegative));
    forall i | 0 <= i <= |values|
      ensures states[i].currentIndex <= states[0].currentIndex
    {
      WalkGrows(values, i, numOfPositive, numOfNegative);
    }
    states
  }

  /** The loop state keeps its rows while passing more pairs: the count of rows only grows. */
  lemma WalkGrows(values: seq<ProbabilityValue>, i: int, numOfPositive: int, numOfNegative: int)
    requires 0 <= i <= |values|
    ensures WalkFrom(values, i, numOfPositive, numOfNegative).currentIndex
            <= WalkFrom(values, 0, numOfPositive, numOfNegative).currentIndex
  {
    WalkAgrees(values, i, numOfPositive, numOfNegative);
    WalkAgrees(values, 0, numOfPositive, numOfNegative);
    SweepFromBehind(values, 0, i, numOfPositive, numOfNegative);
  }

  /** The walk's matrices only grow in number: down to `i` there are at least as many as down to `j` ≥ i. */
  lemma {:induction false} SweepFromBehind(values: seq<ProbabilityValue>, i: int, j: int, numOfPositive: int, numOfNegative: int)
    requires 0 <= i <= j <= |values|
    ensures |SweepFrom(values, j, numOfPositive, numOfNegative)| <= |SweepFrom(values, i, numOfPositive, numOfNegative)|
    decreases j - i
  {
    if i < j {
      SweepFromBehind(values, i + 1, j, numOfPositive, numOfNegative);
      SweepFromStep(values, i, numOfPositive, numOfNegative);
    }
  }

  /** The arrays hold the rows written so far, column by column, in their first entries. */
  ghost predicate Holds(points: array2<real>, accuracy: array<Double>, precision: array<real>, f1score: array<Double>,
                        xs: seq<real>, ys: seq<real>, accuracies: seq<Double>, precisions: seq<real>, f1scores: seq<Double>)
    reads points, accuracy, precision, f1score
  {
    && points.Length1 == 2 && |xs| <= points.Length0
    && |ys| == |xs| && |accuracies| == |xs| && |precisions| == |xs| && |f1scores| == |xs|
    && accuracy.Length == points.Length0 && precision.Length == points.Length0 && f1score.Length == points.Length0
    && (forall k :: 0 <= k < |xs| ==> points[k, 0] == xs[k] && points[k, 1] == ys[k])
    && (forall k :: 0 <= k < |xs| ==> accuracy[k] == accuracies[k])
    && (forall k :: 0 <= k < |xs| ==> precision[k] == precisions[k])
    && (forall k :: 0 <= k < |xs| ==> f1score[k] == f1scores[k])
  }

  /**
   * The block `computeAUC` runs at every new prediction and once more after
   * its loop: write the point, accuracy, precision and F1 of the counters
   * at `currentIndex` and add the trapezoid back to `previousIndex`.
   */
  method RecordPoint(points: array2<real>, accuracy: array<Double>, precision: array<real>, f1score: array<Double>,
                     ghost w: WalkState, numOfPositive: int, numOfNegative: int,
                     truePositive: int, trueNegative: int, falsePositive: int,
                     currentIndex: int, previousIndex: int, areaUnderCurve: real)
    returns (area: real)
    requires WalkShape(w) && w.currentIndex == currentIndex && w.previousIndex == previousIndex
    requires w.truePositive == truePositive && w.trueNegative == trueNegative && w.falsePositive == falsePositive
    requires w.area == areaUnderCurve
    requires Holds(points, accuracy, precision, f1score, w.xs, w.ys, w.accuracy, w.precision, w.f1score)
    requires currentIndex < points.Length0 && accuracy != f1score
    modifies points, accuracy, precision, f1score
    ensures var r := Record(w, numOfPositive, numOfNegative);
            Holds(points, accuracy, precision, f1score, r.xs, r.ys, r.accuracy, r.precision, r.f1score)
            && area == r.area
  {
    var size := numOfPositive + numOfNegative;
    var x := Rate(falsePositive, numOfNegative);
    var y := Rate(truePositive, numOfPositive);
    points[currentIndex, 0] := x;
    points[currentIndex, 1] := y;

    var tpPlusFp := truePositive + falsePositive;
    accuracy[currentIndex] := Divide((truePositive + trueNegative) as real, size as real);
    precision[currentIndex] := Rate(truePositive, tpPlusFp);
    f1score[currentIndex] := Divide((2 * truePositive) as real, (numOfPositive + tpPlusFp) as real);

    area := areaUnderCurve + Roc.Trapezoid(points[currentIndex, 0], points[currentIndex, 1],
                                           points[previousIndex, 0], points[previousIndex, 1]);
    ghost var r := Record(w, numOfPositive, numOfNegative);
    assert r.xs == w.xs + [x] && r.ys == w.ys + [y];
    assert r.accuracy == w.accuracy + [accuracy[currentIndex]];
    assert r.precision == w.precision + [precision[currentIndex]];
    assert r.f1score == w.f1score + [f1score[currentIndex]];
  }

  /**
   * The loop of `computeAUC` over the sorted array, writing into arrays of
   * `numOfRocPoints` rows, and the final point after it: what it leaves
   * behind is `Walked`.
   */
  method SweepPoints(probValues: array<ProbabilityValue>, ghost values: seq<ProbabilityValue>,
                     numOfPositive: int, numOfNegative: int, numOfRocPoints: int)
    returns (points: array2<real>, accuracy: array<Double>, precision: array<real>, f1score: array<Double>, areaUnderCurve: real)
    requires values == probValues[..]
    requires numOfRocPoints == Walked(values, numOfPositive, numOfNegative).currentIndex
    ensures fresh(points) && fresh(accuracy) && fresh(precision) && fresh(f1score)
    ensures points.Length0 == numOfRocPoints && accuracy != f1score
    ensures var w := Walked(values, numOfPositive, numOfNegative);
            Holds(points, accuracy, precision, f1score, w.xs, w.ys, w.accuracy, w.precision, w.f1score)
            && areaUnderCurve == w.area
  {
    points := new real[numOfRocPoints, 2];
    accuracy := new Double[numOfRocPoints];
    precision := new real[numOfRocPoints];
    f1score := new Double[numOfRocPoints];

    var truePositive, trueNegative, falsePositive, currentIndex, previousIndex;
    ghost var w;
    truePositive, trueNegative, falsePositive, currentIndex, previousIndex, areaUnderCurve, w :=
      WalkDown(probValues, points, accuracy, precision, f1score, numOfPositive, numOfNegative,
               WalkStates(values, numOfPositive, numOfNegative));
    WalkedIsLastRecord(values, numOfPositive, numOfNegative);
    areaUnderCurve := RecordPoint(points, accuracy, precision, f1score, w, numOfPositive, numOfNegative,
                                  truePositive, trueNegative, falsePositive, currentIndex, previousIndex, areaUnderCurve);
  }

  /**
   * The loop of `computeAUC`: from the end of the array down, record a point
   * at every new prediction, then count the pair. It leaves the state
   * `WalkFrom(values, 0)`, whose rows the arrays hold.
   */
  method WalkDown(probValues: array<ProbabilityValue>, points: array2<real>, accuracy: array<Double>,
                  precision: array<real>, f1score: array<Double>, numOfPositive: int, numOfNegative: int,
                  ghost states: seq<WalkState>)
    returns (truePositive: int, trueNegative: int, falsePositive: int, currentIndex: int, previousIndex: int,
             areaUnderCurve: real, ghost w: WalkState)
    requires Walks(probValues[..], states, numOfPositive, numOfNegative)
    requires points.Length0 == states[0].currentIndex + 1
    requires Holds(points, accuracy, precision, f1score, [], [], [], [], [])
    requires accuracy != f1score
    modifies points, accuracy, precision, f1score
    ensures w == states[0] && currentIndex < points.Length0
    ensures w.truePositive == truePositive && w.trueNegative == trueNegative && w.falsePositive == falsePositive
    ensures w.currentIndex == currentIndex && w.previousIndex == previousIndex && w.area == areaUnderCurve
    ensures Holds(points, accuracy, precision, f1score, w.xs, w.ys, w.accuracy, w.precision, w.f1score)
  {
    ghost var values := probValues[..];
    areaUnderCurve := 0.0;
    falsePositive := 0;
    truePositive := 0;
    trueNegative := numOfNegative;
    var falseNegative := numOfPositive;

    currentIndex := 0;
    previousIndex := 0;
    var threshold := -1.0;
    var index := probValues.Length - 1;
    w := states[index + 1];
    while index >= 0
      invariant -1 <= index < probValues.Length
      invariant probValues[..] == values
      invariant 0 <= currentIndex < points.Length0
      invariant w == states[index + 1]
      invariant w.truePositive == truePositive && w.trueNegative == trueNegative
      invariant w.falsePositive == falsePositive && w.falseNegative == falseNegative
      invariant w.threshold == threshold && w.currentIndex == currentIndex && w.previousIndex == previousIndex
      invariant w.area == areaUnderCurve
      invariant Holds(points, accuracy, precision, f1score, w.xs, w.ys, w.accuracy, w.precision, w.f1score)
      modifies points, accuracy, precision, f1score
    {
      var value := probValues[index];
      assert value == values[index];
      ghost var w' := w;
      if value.predictedValue != threshold {
        areaUnderCurve := RecordPoint(points, accuracy, precision, f1score, w, numOfPositive, numOfNegative,
                                      truePositive, trueNegative, falsePositive, currentIndex, previousIndex, areaUnderCurve);
        previousIndex := currentIndex;
        currentIndex := currentIndex + 1;
        threshold := value.predictedValue;
        w' := Record(w, numOfPositive, numOfNegative).(threshold := threshold);
      }
      if value.observedValue == 1 {
        truePositive := truePositive + 1;
        falseNegative := falseNegative - 1;
        w' := w'.(truePositive := truePositive, falseNegative := falseNegative);
      } else {
        falsePositive := falsePositive + 1;
        trueNegative := trueNegative - 1;
        w' := w'.(falsePositive := falsePositive, trueNegative := trueNegative);
      }
      assert w' == WalkStep(w, value, numOfPositive, numOfNegative);
      w := w';
      index := index - 1;
    }
  }

  // ---------------------------------------------------------------------
  // The threshold curves
  // ---------------------------------------------------------------------

  /** A row of a threshold curve: the x and y of one point. */
  type Row = (real, real)

  /** (threshold, pairs predicted positive so far). */
  function CaseCount(m: ConfusionMatrix): Row { (m.threshold, m.PredictedPositives() as real) }

  /** (recall, precision). */
  function RecallPrecision(m: ConfusionMatrix): Row { (m.TruePositiveRate(), m.PositivePredictiveValue()) }

  /** (threshold, recall). */
  function ThresholdRecall(m: ConfusionMatrix): Row { (m.threshold, m.TruePositiveRate()) }

  /** (threshold, precision). */
  function ThresholdPrecision(m: ConfusionMatrix): Row { (m.threshold, m.PositivePredictiveValue()) }

  /** (threshold, specificity). */
  function ThresholdSpecificity(m: ConfusionMatrix): Row { (m.threshold, m.TrueNegativeRate()) }

  /** (threshold, NPV). */
  function ThresholdNpv(m: ConfusionMatrix): Row { (m.threshold, m.NegativePredictiveValue()) }

  /** (specificity, NPV). */
  function SpecificityNpv(m: ConfusionMatrix): Row { (m.TrueNegativeRate(), m.NegativePredictiveValue()) }

  /** The row `f` draws for each state of a walk, in the order of the walk. */
  function CurvePoints(ms: seq<ConfusionMatrix>, f: ConfusionMatrix -> Row): (rows: seq<Row>)
    ensures |rows| == |ms|
    ensures forall k :: 0 <= k < |ms| ==> rows[k] == f(ms[k])
  {
    if |ms| == 0 then [] else CurvePoints(ms[..|ms| - 1], f) + [f(ms[|ms| - 1])]
  }

  /**
   * The counters a walk from the end of the array starts with: nothing
   * predicted positive yet, at the threshold `t`.
   */
  function DownStart(numOfPositive: int, numOfNegative: int, t: real): ConfusionMatrix
  {
    ConfusionMatrix(0, numOfNegative, 0, numOfPositive, t)
  }

  /**
   * The counters a walk from the start of the array starts with: nothing
   * predicted negative yet, at the threshold `t`.
   */
  function UpStart(numOfPositive: int, numOfNegative: int, t: real): ConfusionMatrix
  {
    ConfusionMatrix(numOfPositive, 0, numOfNegative, 0, t)
  }

  /** The rows of the curve `f` walked from the highest prediction. */
  function FromEnd(values: seq<ProbabilityValue>, numOfPositive: int, numOfNegative: int, f: ConfusionMatrix -> Row): seq<Row>
    requires |values| > 0
  {
    CurvePoints(Scan(Descent(values), DownStart(numOfPositive, numOfNegative, values[|values| - 1].predictedValue), Down), f)
  }

  /** The rows of the curve `f` walked from the lowest prediction. */
  function FromStart(values: seq<ProbabilityValue>, numOfPositive: int, numOfNegative: int, f: ConfusionMatrix -> Row): seq<Row>
    requires |values| > 0
  {
    CurvePoints(Scan(Ascent(values), UpStart(numOfPositive, numOfNegative, values[0].predictedValue), Up), f)
  }

  /** The rows of the positive-cases curve: walked from the end, the threshold starting at 1. */
  function CasesAbove(values: seq<ProbabilityValue>, numOfPositive: int, numOfNegative: int): seq<Row>
  {
    CurvePoints(Scan(Descent(values), DownStart(numOfPositive, numOfNegative, 1.0), Down), CaseCount)
  }

  /** Row k of `points` is `rows[k]`. */
  ghost predicate Tabulated(points: array2<real>, rows: seq<Row>)
    reads points
  {
    && points.Length0 == |rows| && points.Length1 == 2
    && forall k :: 0 <= k < |rows| ==> points[k, 0] == rows[k].0 && points[k, 1] == rows[k].1
  }

  /** The copy of a curve's list into a fresh `double[size][2]`. */
  method ToRows(rows: seq<Row>) returns (points: array2<real>)
    ensures fresh(points) && Tabulated(points, rows)
  {
    points := new real[|rows|, 2];
    for k := 0 to |rows|
      invariant forall j :: 0 <= j < k ==> points[j, 0] == rows[j].0 && points[j, 1] == rows[j].1
    {
      points[k, 0] := rows[k].0;
      points[k, 1] := rows[k].1;
    }
  }

  /**
   * One more pair in a walk whose states so far are `done` and then the
   * current `current`: a new prediction closes `current` (the closed states
   * become `closed`) and opens the next state at it; an equal one is
   * absorbed by `current`. Either way the last state is `next`, the
   * current one having absorbed the pair, at the pair's prediction.
   */
  lemma ScanOneMore(s: seq<ObservedPredictedValue>, i: int, first: ConfusionMatrix, d: Direction,
                    done: seq<ConfusionMatrix>, current: ConfusionMatrix,
                    closed: seq<ConfusionMatrix>, next: ConfusionMatrix)
    requires 0 <= i < |s| && Scan(s[..i], first, d) == done + [current]
    requires closed == if s[i].predictedValue != current.threshold then done + [current] else done
    requires next == Pass(current, s[i], d).(threshold := s[i].predictedValue)
    ensures Scan(s[..i + 1], first, d) == closed + [next]
  {
    assert s[..i + 1][..i] == s[..i];
    assert (done + [current])[..|done|] == done;
  }

  /** Walking down, a label-1 pair moves from FN to TP and any other from TN to FP. */
  lemma PassDown(current: ConfusionMatrix, x: ObservedPredictedValue, t: real)
    ensures Pass(current, x, Down).(threshold := t)
            == if x.observedValue == 1
               then ConfusionMatrix(current.truePositives + 1, current.trueNegatives,
                                    current.falsePositives, current.falseNegatives - 1, t)
               else ConfusionMatrix(current.truePositives, current.trueNegatives - 1,
                                    current.falsePositives + 1, current.falseNegatives, t)
  {
  }

  /** Walking up, a label-0 pair moves from FP to TN and any other from TP to FN. */
  lemma PassUp(current: ConfusionMatrix, x: ObservedPredictedValue, t: real)
    ensures Pass(current, x, Up).(threshold := t)
            == if x.observedValue == 0
               then ConfusionMatrix(current.truePositives, current.trueNegatives + 1,
                                    current.falsePositives - 1, current.falseNegatives, t)
               else ConfusionMatrix(current.truePositives - 1, current.trueNegatives,
                                    current.falsePositives, current.falseNegatives + 1, t)
  {
  }

  /** Drawing one more state draws one more row. */
  lemma CurvePointsSnoc(ms: seq<ConfusionMatrix>, m: ConfusionMatrix, f: ConfusionMatrix -> Row)
    ensures CurvePoints(ms + [m], f) == CurvePoints(ms, f) + [f(m)]
  {
    assert (ms + [m])[..|ms|] == ms;
  }

  /**
   * The rows a walk still draws from position `i` of `s` on, its current
   * state being `current`: a new prediction first draws the current state's
   * row, and the final state's row closes the list.
   */
  function RowsFrom(s: seq<ObservedPredictedValue>, i: nat, current: ConfusionMatrix, d: Direction,
                    f: ConfusionMatrix -> Row): seq<Row>
    requires i <= |s|
    decreases |s| - i
  {
    if i == |s| then [f(current)]
    else
      var next := Pass(current, s[i], d).(threshold := s[i].predictedValue);
      if s[i].predictedValue != current.threshold then [f(current)] + RowsFrom(s, i + 1, next, d, f)
      else RowsFrom(s, i + 1, next, d, f)
  }

  /** One more pair moves the current row, when a new prediction closes it, to the rows already drawn. */
  lemma RowsFromStep(s: seq<ObservedPredictedValue>, i: nat, current: ConfusionMatrix, d: Direction,
                     f: ConfusionMatrix -> Row, list: seq<Row>)
    requires i < |s|
    ensures list + RowsFrom(s, i, current, d, f)
            == (if s[i].predictedValue != current.threshold then list + [f(current)] else list)
               + RowsFrom(s, i + 1, Pass(current, s[i], d).(threshold := s[i].predictedValue), d, f)
  {
    var rest := RowsFrom(s, i + 1, Pass(current, s[i], d).(threshold := s[i].predictedValue), d, f);
    if s[i].predictedValue != current.threshold {
      assert list + ([f(current)] + rest) == (list + [f(current)]) + rest;
    }
  }

  /**
   * The rows already drawn for the closed states of a walk, followed by the
   * rows the walk still draws, are the rows of all the states of the walk.
   */
  lemma {:induction false} RowsFromScan(s: seq<ObservedPredictedValue>, i: nat, first: ConfusionMatrix, d: Direction,
                                        done: seq<ConfusionMatrix>, current: ConfusionMatrix, f: ConfusionMatrix -> Row)
    requires i <= |s| && Scan(s[..i], first, d) == done + [current]
    ensures CurvePoints(done, f) + RowsFrom(s, i, current, d, f) == CurvePoints(Scan(s, first, d), f)
    decreases |s| - i
  {
    CurvePointsSnoc(done, current, f);
    if i == |s| {
      assert s[..i] == s;
    } else {
      var next := Pass(current, s[i], d).(threshold := s[i].predictedValue);
      var closed := if s[i].predictedValue != current.threshold then done + [current] else done;
      ScanOneMore(s, i, first, d, done, current, closed, next);
      RowsFromScan(s, i + 1, first, d, closed, next, f);
      RowsFromStep(s, i, current, d, f, CurvePoints(done, f));
    }
  }

  /**
   * The loop of the curves walked from the end: at every new prediction the
   * row of the counters so far joins the list, then the pair is counted;
   * the row of the final counters joins it after the loop.
   */
  method WalkFromEnd(probValues: array<ProbabilityValue>, first: ConfusionMatrix, f: ConfusionMatrix -> Row)
    returns (list: seq<Row>)
    ensures list == CurvePoints(Scan(Descent(probValues[..]), first, Down), f)
  {
    ghost var s := Descent(probValues[..]);
    var truePositive, trueNegative, falsePositive, falseNegative :=
      first.truePositives, first.trueNegatives, first.falsePositives, first.falseNegatives;
    var threshold := first.threshold;
    list := [];
    var index := probValues.Length - 1;
    ghost var i := 0;
    while index >= 0
      invariant -1 <= index < probValues.Length && i == probValues.Length - 1 - index
      invariant list + RowsFrom(s, i, ConfusionMatrix(truePositive, trueNegative, falsePositive, falseNegative, threshold), Down, f)
                == RowsFrom(s, 0, first, Down, f)
    {
      var value := probValues[index];
      assert s[i] == value.Widen();
      var current := ConfusionMatrix(truePositive, trueNegative, falsePositive, falseNegative, threshold);
      RowsFromStep(s, i, current, Down, f, list);
      PassDown(current, s[i], value.predictedValue);
      if value.predictedValue != threshold {
        list := list + [f(current)];
        threshold := value.predictedValue;
      }
      if value.observedValue == 1 {
        truePositive := truePositive + 1;
        falseNegative := falseNegative - 1;
      } else {
        falsePositive := falsePositive + 1;
        trueNegative := trueNegative - 1;
      }
      assert ConfusionMatrix(truePositive, trueNegative, falsePositive, falseNegative, threshold)
             == Pass(current, s[i], Down).(threshold := s[i].predictedValue);
      index := index - 1;
      i := i + 1;
    }
    list := list + [f(ConfusionMatrix(truePositive, trueNegative, falsePositive, falseNegative, threshold))];
    assert s[..0] == [];
    RowsFromScan(s, 0, first, Down, [], first, f);
  }

  /**
   * The loop of the curves walked from the start: at every new prediction
   * the row of the counters so far joins the list, then the pair is moved
   * to the predicted negatives; the final row joins it after the loop.
   */
  method WalkFromStart(probValues: array<ProbabilityValue>, first: ConfusionMatrix, f: ConfusionMatrix -> Row)
    returns (list: seq<Row>)
    ensures list == CurvePoints(Scan(Ascent(probValues[..]), first, Up), f)
  {
    ghost var s := Ascent(probValues[..]);
    var truePositive, trueNegative, falsePositive, falseNegative :=
      first.truePositives, first.trueNegatives, first.falsePositives, first.falseNegatives;
    var threshold := first.threshold;
    list := [];
    var index := 0;
    while index < probValues.Length
      invariant 0 <= index <= probValues.Length
      invariant list + RowsFrom(s, index, ConfusionMatrix(truePositive, trueNegative, falsePositive, falseNegative, threshold), Up, f)
                == RowsFrom(s, 0, first, Up, f)
    {
      var value := probValues[index];
      assert s[index] == value.Widen();
      var current := ConfusionMatrix(truePositive, trueNegative, falsePositive, falseNegative, threshold);
      RowsFromStep(s, index, current, Up, f, list);
      PassUp(current, s[index], value.predictedValue);
      if value.predictedValue != threshold {
        list := list + [f(current)];
        threshold := value.predictedValue;
      }
      if value.observedValue == 0 {
        trueNegative := trueNegative + 1;
        falsePositive := falsePositive - 1;
      } else {
        falseNegative := falseNegative + 1;
        truePositive := truePositive - 1;
      }
      assert ConfusionMatrix(truePositive, trueNegative, falsePositive, falseNegative, threshold)
             == Pass(current, s[index], Up).(threshold := s[index].predictedValue);
      index := index + 1;
    }
    list := list + [f(ConfusionMatrix(truePositive, trueNegative, falsePositive, falseNegative, threshold))];
    assert s[..0] == [];
    RowsFromScan(s, 0, first, Up, [], first, f);
  }

  /**
   * A curve walked from the end of the array, starting at its highest
   * prediction; reading that entry fails on an empty array.
   */
  method CurveFromEnd(probValues: array<ProbabilityValue>, numOfPositive: int, numOfNegative: int, f: ConfusionMatrix -> Row)
    returns (r: Result<array2<real>>)
    ensures r.Success? <==> probValues.Length > 0
    ensures r.Success? ==> fresh(r.value) && Tabulated(r.value, FromEnd(probValues[..], numOfPositive, numOfNegative, f))
  {
    if probValues.Length == 0 {
      return Failure("array index out of bounds");
    }
    var threshold := probValues[probValues.Length - 1].predictedValue;
    var list := WalkFromEnd(probValues, DownStart(numOfPositive, numOfNegative, threshold), f);
    var points := ToRows(list);
    return Success(points);
  }

  /**
   * A curve walked from the start of the array, starting at its lowest
   * prediction; reading that entry fails on an empty array.
   */
  method CurveFromStart(probValues: array<ProbabilityValue>, numOfPositive: int, numOfNegative: int, f: ConfusionMatrix -> Row)
    returns (r: Result<array2<real>>)
    ensures r.Success? <==> probValues.Length > 0
    ensures r.Success? ==> fresh(r.value) && Tabulated(r.value, FromStart(probValues[..], numOfPositive, numOfNegative, f))
  {
    if probValues.Length == 0 {
      return Failure("array index out of bounds");
    }
    var threshold := probValues[0].predictedValue;
    var list := WalkFromStart(probValues, UpStart(numOfPositive, numOfNegative, threshold), f);
    var points := ToRows(list);
    return Success(points);
  }

  /**
   * The positive-cases curve counts the pairs at or above each threshold:
   * the count never decreases along the curve, and its last row counts
   * every pair.
   */
  lemma CasesAboveCounts(values: seq<ProbabilityValue>, numOfPositive: int, numOfNegative: int)
    ensures var rows := CasesAbove(values, numOfPositive, numOfNegative);
            && |rows| > 0
            && (forall j, k :: 0 <= j <= k < |rows| ==> rows[j].1 <= rows[k].1)
            && rows[|rows| - 1].1 == |values| as real
  {
    var s := Descent(values);
    var first := DownStart(numOfPositive, numOfNegative, 1.0);
    var ms := Scan(s, first, Down);
    ScanMonotone(s, first, Down);
    ScanLastDown(s, first);
    var rows := CasesAbove(values, numOfPositive, numOfNegative);
    forall j, k | 0 <= j <= k < |rows|
      ensures rows[j].1 <= rows[k].1
    {
      if j < k {
        assert NotBehind(ms[j], ms[k], Down);
      }
    }
  }

  /**
   * Walked from the highest prediction, recall never decreases along the
   * recall-precision curve, and when there is a positive its last row has
   * recall 1.
   */
  lemma RecallPrecisionCurve(values: seq<ProbabilityValue>, numOfPositive: int, numOfNegative: int)
    requires |values| > 0
    requires numOfPositive == CountObserved(Descent(values), 1)
    ensures var rows := FromEnd(values, numOfPositive, numOfNegative, RecallPrecision);
            && (forall j, k :: 0 <= j <= k < |rows| ==> rows[j].0 <= rows[k].0)
            && (numOfPositive > 0 ==> rows[|rows| - 1].0 == 1.0)
  {
    var s := Descent(values);
    var first := DownStart(numOfPositive, numOfNegative, values[|values| - 1].predictedValue);
    var ms := Scan(s, first, Down);
    ScanMonotone(s, first, Down);
    ScanLastDown(s, first);
    var rows := FromEnd(values, numOfPositive, numOfNegative, RecallPrecision);
    forall j, k | 0 <= j <= k < |rows|
      ensures rows[j].0 <= rows[k].0
    {
      if j < k {
        assert NotBehind(ms[j], ms[k], Down);
        RecallNotBehind(ms[j], ms[k]);
      }
    }
    if numOfPositive > 0 {
      FullRecall(Roc.Final(ms));
    }
  }

  /** Counting more true positives out of the same positives never lowers recall. */
  lemma RecallNotBehind(a: ConfusionMatrix, b: ConfusionMatrix)
    requires NotBehind(a, b, Down) && a.Positives() == b.Positives() >= 0
    ensures a.TruePositiveRate() <= b.TruePositiveRate()
  {
    Roc.RateMonotone(a.truePositives, b.truePositives, a.Positives());
  }
}
