// The older Hosmer–Lemeshow goodness-of-fit test over legacy pairs: the same
// two groupings and p-value as the calibration classes, with each group's
// plot point kept in a two-column array and no calibration errors. Its loops
// are proved against the same grouping functions.

module LegacyCalibration {
  import opened Data
  import opened JavaDouble
  import opened HosmerLemeshowGroups
  import opened HosmerLemeshowStatistics
  import Calibration

  /**
   * The cut the `switch` of `compute` picks: the decile cut for
   * DECILE_GROUPS and, as its `default`, the risk cut reached by adding the
   * float 1/10.
   */
  function LegacyCut(groupType: GroupType): (cut: Cut)
    ensures cut.DecileCut? <==> groupType.DecileGroups?
    ensures !cut.RiskCut?
  {
    match groupType
    case DecileGroups => DecileCut
    case RiskGroups => FloatRiskCut
  }

  /** The legacy pairs as current pairs, the form the grouping functions take. */
  function Widened(s: seq<ProbabilityValue>): (r: seq<ObservedPredictedValue>)
    ensures |r| == |s|
    ensures forall i :: 0 <= i < |s| ==> r[i] == s[i].Widen()
  {
    seq(|s|, i requires 0 <= i < |s| => s[i].Widen())
  }

  /** Sorting the legacy pairs by prediction sorts their widened forms by prediction. */
  lemma WidenedAscending(s: seq<ProbabilityValue>)
    requires Ascending(s, LegacyPrediction)
    ensures Ascending(Widened(s), Prediction)
  {
    var r := Widened(s);
    forall i, j | 0 <= i < j < |r|
      ensures Prediction(r[i]) <= Prediction(r[j])
    {
      assert LegacyPrediction(s[i]) <= LegacyPrediction(s[j]);
    }
  }

  /** `data` lists the widened forms of the pairs in `a`, in order. */
  ghost predicate PairsIn(data: seq<ObservedPredictedValue>, a: array<ProbabilityValue>)
    reads a
  {
    && |data| == a.Length
    && forall i :: 0 <= i < |data| ==> data[i].predictedValue == a[i].predictedValue && data[i].observedValue == a[i].observedValue as int
  }

  /**
   * The goodness-of-fit test of a list of legacy pairs: the pairs, sorted in
   * place, and the per-group arrays and p-value computed from them when the
   * object is built.
   */
  class HosmerLemeshow {
    const probValues: array<ProbabilityValue>
    const groupType: GroupType
    var hlPoints: array2<real>
    var groups: array<int>
    var numDataPerGroup: array<int>
    var observedPerGroup: array<int>
    var predictedPerGroup: array<real>
    var hlChi2PerGroup: array<Double>
    var ciRangesPerGroup: array<Double>
    var degreeOfFreedom: int
    var pValue: Double

    /** The pairs the array holds, widened. */
    ghost function Data(): (data: seq<ObservedPredictedValue>)
      reads probValues
      ensures data == Widened(probValues[..])
    {
      Widened(probValues[..])
    }

    /**
     * What a built test holds: the pairs sorted by prediction, and the
     * arrays and p-value summarizing them.
     */
    ghost predicate Valid(sqrt: Double -> Double, cdf: (int, Double) -> Double)
      reads this, probValues, hlPoints, groups, numDataPerGroup, observedPerGroup, predictedPerGroup
      reads hlChi2PerGroup, ciRangesPerGroup
    {
      && Ascending(probValues[..], LegacyPrediction)
      && Ascending(Data(), Prediction)
      && Summarizes(Data(), sqrt, cdf)
    }

    /**
     * The arrays and p-value summarize the sorted pairs `data`: one entry
     * per group in every per-group array, entry m recording group m, the
     * degrees of freedom the number of groups less two, and the p-value that
     * of the recorded chi-squared terms.
     */
    ghost predicate Summarizes(data: seq<ObservedPredictedValue>, sqrt: Double -> Double, cdf: (int, Double) -> Double)
      reads this, hlPoints, groups, numDataPerGroup, observedPerGroup, predictedPerGroup
      reads hlChi2PerGroup, ciRangesPerGroup
    {
      && Grouped(data, sqrt)
      && pValue == PValue(degreeOfFreedom, hlChi2PerGroup[..], cdf)
    }

    /**
     * The per-group arrays summarize the sorted pairs `data`: one entry per
     * group in every array, entry m recording group m, and the degrees of
     * freedom the number of groups less two.
     */
    ghost predicate Grouped(data: seq<ObservedPredictedValue>, sqrt: Double -> Double)
      reads this, hlPoints, groups, numDataPerGroup, observedPerGroup, predictedPerGroup
      reads hlChi2PerGroup, ciRangesPerGroup
    {
      && LastIsLargest(data)
      && GroupArrays(|GroupsFrom(LegacyCut(groupType), data, 0, 1)|)
      && RecordedUpTo(GroupsFrom(LegacyCut(groupType), data, 0, 1), sqrt)
      && degreeOfFreedom == groups.Length - 2
    }

    /** The per-group arrays are distinct from each other, and all have one entry per group. */
    ghost predicate GroupArrays(count: int)
      reads this
    {
      && groups != numDataPerGroup && groups != observedPerGroup && numDataPerGroup != observedPerGroup
      && hlChi2PerGroup != ciRangesPerGroup
      && groups.Length == count && numDataPerGroup.Length == count && observedPerGroup.Length == count
      && predictedPerGroup.Length == count && hlChi2PerGroup.Length == count && ciRangesPerGroup.Length == count
      && hlPoints.Length0 == count && hlPoints.Length1 == 2
    }

    /** Entry `m` of every per-group array, and row `m` of the plot points, record group `g`. */
    ghost predicate RecordedAt(m: int, g: Group, sqrt: Double -> Double)
      reads this, hlPoints, groups, numDataPerGroup, observedPerGroup, predictedPerGroup
      reads hlChi2PerGroup, ciRangesPerGroup
    {
      && 0 <= m < groups.Length && m < numDataPerGroup.Length && m < observedPerGroup.Length
      && m < predictedPerGroup.Length && m < hlChi2PerGroup.Length && m < ciRangesPerGroup.Length
      && m < hlPoints.Length0 && hlPoints.Length1 == 2
      && hlPoints[m, 0] == ExpectedValue(g)
      && hlPoints[m, 1] == ObservedValue(g)
      && ciRangesPerGroup[m] == MarginOfError(g, sqrt)
      && groups[m] == g.number
      && numDataPerGroup[m] == g.size
      && observedPerGroup[m] == g.positives
      && predictedPerGroup[m] == g.predictedSum
      && hlChi2PerGroup[m] == Chi2(g)
    }

    /** The first |recorded| entries record the groups of `recorded`, in order. */
    ghost predicate RecordedUpTo(recorded: seq<Group>, sqrt: Double -> Double)
      reads this, hlPoints, groups, numDataPerGroup, observedPerGroup, predictedPerGroup
      reads hlChi2PerGroup, ciRangesPerGroup
    {
      forall m :: 0 <= m < |recorded| ==> RecordedAt(m, recorded[m], sqrt)
    }

    /**
     * The constructor: copies the list to the pair array and computes the
     * test. A list with no pairs gives no groups, −2 degrees of freedom and
     * the p-value sentinel −1.
     */
    constructor (probabilityValues: seq<ProbabilityValue>, groupType: GroupType, sqrt: Double -> Double, cdf: (int, Double) -> Double)
      ensures this.groupType == groupType
      ensures probValues[..] == SortAscending(probabilityValues, LegacyPrediction)
      ensures Valid(sqrt, cdf)
    {
      probValues := new ProbabilityValue[|probabilityValues|](i requires 0 <= i < |probabilityValues| => probabilityValues[i]);
      this.groupType := groupType;
      new;
      assert probValues[..] == probabilityValues;
      Compute(sqrt, cdf);
    }

    /**
     * `compute`: sorts the pairs in ascending order of prediction, groups
     * them by deciles or (the default) by risk, and computes the p-value.
     */
    method Compute(sqrt: Double -> Double, cdf: (int, Double) -> Double)
      modifies this, probValues
      ensures probValues[..] == SortAscending(old(probValues[..]), LegacyPrediction)
      ensures Valid(sqrt, cdf)
    {
      SortArray(probValues, LegacyPrediction);
      Summarize(sqrt, cdf);
    }

    /** The rest of `compute` once the pairs are sorted: the grouping, then the p-value. */
    method Summarize(sqrt: Double -> Double, cdf: (int, Double) -> Double)
      requires Ascending(probValues[..], LegacyPrediction)
      modifies this
      ensures Valid(sqrt, cdf)
    {
      ghost var values := probValues[..];
      ghost var data := Data();
      WidenedAscending(values);
      AscendingLastIsLargest(data);

      GroupPairs(data, sqrt);
      SetPValue(data, sqrt, cdf);
      assert probValues[..] == values;
    }

    /** The last line of `compute`: the p-value of the recorded chi-squared terms. */
    method SetPValue(ghost data: seq<ObservedPredictedValue>, sqrt: Double -> Double, cdf: (int, Double) -> Double)
      requires Grouped(data, sqrt)
      modifies this`pValue
      ensures Summarizes(data, sqrt, cdf)
    {
      pValue := Calibration.HosmerLemeshow.ComputePValue(degreeOfFreedom, hlChi2PerGroup, cdf);
      assert Grouped(data, sqrt);
    }

    /** The `switch` of `compute`: groups the sorted pairs as `groupType` says. */
    method GroupPairs(ghost data: seq<ObservedPredictedValue>, sqrt: Double -> Double)
      requires PairsIn(data, probValues) && LastIsLargest(data)
      modifies this
      ensures Grouped(data, sqrt)
    {
      match groupType
      case DecileGroups =>
        ComputeUsingDecileGroup(data, sqrt);
      case RiskGroups =>
        ComputeUsingRiskGroup(data, sqrt);
    }

    /**
     * `computeUsingDecileGroup`: sizes the per-group arrays by the number of
     * non-empty decile groups, fills them, and sets the degrees of freedom.
     */
    method ComputeUsingDecileGroup(ghost data: seq<ObservedPredictedValue>, sqrt: Double -> Double)
      requires PairsIn(data, probValues) && LastIsLargest(data)
      modifies this
      ensures GroupArrays(|GroupsFrom(DecileCut, data, 0, 1)|)
      ensures RecordedUpTo(GroupsFrom(DecileCut, data, 0, 1), sqrt)
      ensures degreeOfFreedom == groups.Length - 2
      ensures fresh(hlPoints) && fresh(groups) && fresh(numDataPerGroup) && fresh(observedPerGroup)
      ensures fresh(predictedPerGroup) && fresh(hlChi2PerGroup) && fresh(ciRangesPerGroup)
    {
      var totalGroup := DecileGroupCount(probValues, data);
      AllocateGroupArrays(totalGroup);
      DecilePlotPoints(data, sqrt);
      degreeOfFreedom := groups.Length - 2;
    }

    /**
     * `computeUsingRiskGroup`: sizes the per-group arrays by the number of
     * non-empty risk groups, fills them, and sets the degrees of freedom.
     */
    method ComputeUsingRiskGroup(ghost data: seq<ObservedPredictedValue>, sqrt: Double -> Double)
      requires PairsIn(data, probValues) && LastIsLargest(data)
      modifies this
      ensures GroupArrays(|GroupsFrom(FloatRiskCut, data, 0, 1)|)
      ensures RecordedUpTo(GroupsFrom(FloatRiskCut, data, 0, 1), sqrt)
      ensures degreeOfFreedom == groups.Length - 2
      ensures fresh(hlPoints) && fresh(groups) && fresh(numDataPerGroup) && fresh(observedPerGroup)
      ensures fresh(predictedPerGroup) && fresh(hlChi2PerGroup) && fresh(ciRangesPerGroup)
    {
      var totalGroup := RiskGroupCount(probValues, data);
      AllocateGroupArrays(totalGroup);
      RiskPlotPoints(data, sqrt);
      degreeOfFreedom := groups.Length - 2;
    }

    /** The allocations both groupings start with: fresh per-group arrays of `totalGroup` entries. */
    method AllocateGroupArrays(totalGroup: int)
      requires totalGroup >= 0
      modifies this
      ensures GroupArrays(totalGroup)
      ensures fresh(hlPoints) && fresh(groups) && fresh(numDataPerGroup) && fresh(observedPerGroup)
      ensures fresh(predictedPerGroup) && fresh(hlChi2PerGroup) && fresh(ciRangesPerGroup)
      ensures degreeOfFreedom == old(degreeOfFreedom) && pValue == old(pValue)
    {
      hlPoints := new real[totalGroup, 2];
      groups := new int[totalGroup];
      numDataPerGroup := new int[totalGroup];
      observedPerGroup := new int[totalGroup];
      predictedPerGroup := new real[totalGroup];
      hlChi2PerGroup := new Double[totalGroup];
      ciRangesPerGroup := new Double[totalGroup];
    }

    /**
     * The body both groupings run for a non-empty group: its plot point,
     * confidence range, counts and chi-squared term, written to entry
     * `groupIndex`; no other entry changes.
     */
    method RecordGroup(ghost recorded: seq<Group>, groupIndex: int, groupNumber: int, total: int, numOfPositive: int, predictionSum: real, sqrt: Double -> Double)
      requires GroupArrays(groups.Length) && 0 <= groupIndex < groups.Length
      requires total >= 1 && numOfPositive >= 0
      requires groupIndex == |recorded| && RecordedUpTo(recorded, sqrt)
      modifies hlPoints, groups, numDataPerGroup, observedPerGroup, predictedPerGroup, hlChi2PerGroup, ciRangesPerGroup
      ensures RecordedUpTo(recorded + [Group(groupNumber, total, numOfPositive, predictionSum)], sqrt)
    {
      var g := Group(groupNumber, total, numOfPositive, predictionSum);
      var xValue := predictionSum / total as real;
      var yValue := numOfPositive as real / total as real;
      var ciRange := MarginOfError(g, sqrt);
      var diff := numOfPositive as real - predictionSum;
      var chi2 := Divide(diff * diff, predictionSum * (1.0 - predictionSum / total as real));
      Chi2Is(groupNumber, total, numOfPositive, predictionSum, diff, chi2);
      assert xValue == ExpectedValue(g) && yValue == ObservedValue(g) && chi2 == Chi2(g);
      WriteGroup(recorded, groupIndex, g, xValue, yValue, ciRange, chi2, sqrt);
    }

    /** The writes of `RecordGroup`: entry `groupIndex` of every array gets group `g`'s values. */
    method WriteGroup(ghost recorded: seq<Group>, groupIndex: int, g: Group, xValue: real, yValue: real,
                      ciRange: Double, chi2: Double, sqrt: Double -> Double)
      requires GroupArrays(groups.Length) && 0 <= groupIndex < groups.Length
      requires groupIndex == |recorded| && RecordedUpTo(recorded, sqrt)
      requires xValue == ExpectedValue(g) && yValue == ObservedValue(g)
      requires ciRange == MarginOfError(g, sqrt) && chi2 == Chi2(g)
      modifies hlPoints, groups, numDataPerGroup, observedPerGroup, predictedPerGroup, hlChi2PerGroup, ciRangesPerGroup
      ensures RecordedUpTo(recorded + [g], sqrt)
    {
      hlPoints[groupIndex, 0] := xValue;
      hlPoints[groupIndex, 1] := yValue;
      ciRangesPerGroup[groupIndex] := ciRange;
      groups[groupIndex] := g.number;
      numDataPerGroup[groupIndex] := g.size;
      observedPerGroup[groupIndex] := g.positives;
      predictedPerGroup[groupIndex] := g.predictedSum;
      hlChi2PerGroup[groupIndex] := chi2;
      assert RecordedAt(groupIndex, g, sqrt);
      forall m | 0 <= m < groupIndex
        ensures RecordedAt(m, recorded[m], sqrt)
      {
        assert old(RecordedAt(m, recorded[m], sqrt));
      }
    }

    /**
     * The inner loop of both groupings: from `start`, takes pairs while the
     * cut-off admits their prediction, counting them, their positives and
     * their prediction sum; returns the index it stopped at.
     */
    method TakeRun(cut: Cut, ghost data: seq<ObservedPredictedValue>, start: int, threshold: real)
      returns (index: int, total: int, numOfPositive: int, predictionSum: real)
      requires PairsIn(data, probValues) && 0 <= start < |data|
      ensures index == RunEnd(cut, data, start, threshold)
      ensures total == index - start
      ensures numOfPositive == PositivesBetween(data, start, index)
      ensures predictionSum == PredictionsBetween(data, start, index)
    {
      var size := probValues.Length;
      index := start;
      var value := probValues[index].predictedValue;
      predictionSum := 0.0;
      total := 0;
      numOfPositive := 0;
      while Admits(cut, value, threshold)
        invariant start <= index < size && value == data[index].predictedValue
        invariant RunEnd(cut, data, index, threshold) == RunEnd(cut, data, start, threshold)
        invariant total == index - start
        invariant numOfPositive == PositivesBetween(data, start, index)
        invariant predictionSum == PredictionsBetween(data, start, index)
        decreases size - index
      {
        RunEndStep(cut, data, index, threshold);
        total := total + 1;
        predictionSum := predictionSum + probValues[index].predictedValue;
        if probValues[index].observedValue == 1 {
          numOfPositive := numOfPositive + 1;
        }
        index := index + 1;
        if index < size {
          value := probValues[index].predictedValue;
        } else {
          break;
        }
      }
      RunEndStop(cut, data, index, threshold);
    }

    /**
     * The inner loop of both counting loops: from `start`, skips the pairs
     * the cut-off admits and counts them.
     */
    static method SkipRun(probValues: array<ProbabilityValue>, ghost data: seq<ObservedPredictedValue>, cut: Cut, start: int, threshold: real)
      returns (index: int, numOfData: int)
      requires PairsIn(data, probValues) && 0 <= start < |data|
      ensures index == RunEnd(cut, data, start, threshold)
      ensures numOfData == index - start
    {
      var size := probValues.Length;
      index := start;
      var value := probValues[index].predictedValue;
      numOfData := 0;
      while Admits(cut, value, threshold)
        invariant start <= index < size && value == data[index].predictedValue
        invariant RunEnd(cut, data, index, threshold) == RunEnd(cut, data, start, threshold)
        invariant numOfData == index - start
        decreases size - index
      {
        RunEndStep(cut, data, index, threshold);
        numOfData := numOfData + 1;
        index := index + 1;
        if index < size {
          value := probValues[index].predictedValue;
        } else {
          break;
        }
      }
      RunEndStop(cut, data, index, threshold);
    }

    /**
     * The decile cut-off of the legacy loops: the prediction at index
     * ⌊percent · size⌋, the first prediction when that index is 0, and the
     * last once it passes the end.
     */
    static method DecileCutOff(probValues: array<ProbabilityValue>, ghost data: seq<ObservedPredictedValue>, ghost groupNumber: int, percent: real)
      returns (threshold: real)
      requires PairsIn(data, probValues) && |data| > 0
      requires groupNumber >= 1 && percent == Tenths(groupNumber)
      ensures threshold == Threshold(DecileCut, data, groupNumber)
    {
      var size := probValues.Length;
      var intUpperIndex := (percent * size as real).Floor;
      UpperIndexOf(percent, groupNumber, size);
      DecileThresholdAt(data, groupNumber, intUpperIndex);
      if intUpperIndex == 0 {
        threshold := probValues[0].predictedValue;
      } else if intUpperIndex >= size {
        threshold := probValues[size - 1].predictedValue;
      } else {
        threshold := probValues[intUpperIndex].predictedValue;
      }
    }

    /**
     * `computeActualHlSummaryPointsInDecialGroup`: the number of decile
     * groups that take at least one pair.
     */
    static method DecileGroupCount(probValues: array<ProbabilityValue>, ghost data: seq<ObservedPredictedValue>)
      returns (actualHlPoints: int)
      requires PairsIn(data, probValues) && LastIsLargest(data)
      ensures actualHlPoints == |GroupsFrom(DecileCut, data, 0, 1)|
    {
      ghost var all := |GroupsFrom(DecileCut, data, 0, 1)|;
      ghost var groupNumber := 1;
      actualHlPoints := 0;

      var percent := 0.1;
      var size := probValues.Length;
      var index := 0;
      while index < size
        invariant 0 <= index <= size && groupNumber >= 1
        invariant percent == Tenths(groupNumber)
        invariant CountedBefore(DecileCut, data, index, groupNumber, actualHlPoints, all)
        decreases size - index, LastGroupBound(DecileCut, data) - groupNumber
      {
        var threshold := DecileCutOff(probValues, data, groupNumber, percent);

        ghost var start := index;
        var numOfData;
        index, numOfData := SkipRun(probValues, data, DecileCut, index, threshold);
        NextCount(DecileCut, data, start, groupNumber, index, actualHlPoints, all);
        if numOfData != 0 {
          actualHlPoints := actualHlPoints + 1;
        }

        TenthsStep(groupNumber);
        groupNumber := groupNumber + 1;
        percent := percent + 0.1;
      }
      CountedAll(DecileCut, data, groupNumber, actualHlPoints, all);
    }

    /**
     * `computeActualHlSummaryPointsInRiskGroup`: the number of intervals
     * [ (k−1)·FloatTenth, k·FloatTenth ) that hold at least one pair, the
     * cut-offs being the sums of the float 1/10.
     */
    static method RiskGroupCount(probValues: array<ProbabilityValue>, ghost data: seq<ObservedPredictedValue>)
      returns (actualHlPoints: int)
      requires PairsIn(data, probValues) && LastIsLargest(data)
      ensures actualHlPoints == |GroupsFrom(FloatRiskCut, data, 0, 1)|
    {
      ghost var all := |GroupsFrom(FloatRiskCut, data, 0, 1)|;
      ghost var groupNumber := 1;
      actualHlPoints := 0;

      var threshold := FloatTenth;
      var size := probValues.Length;
      var index := 0;
      while index < size
        invariant 0 <= index <= size && groupNumber >= 1
        invariant threshold == groupNumber as real * FloatTenth
        invariant CountedBefore(FloatRiskCut, data, index, groupNumber, actualHlPoints, all)
        decreases size - index, LastGroupBound(FloatRiskCut, data) - groupNumber
      {
        ghost var start := index;
        var numOfData;
        index, numOfData := SkipRun(probValues, data, FloatRiskCut, index, threshold);
        NextCount(FloatRiskCut, data, start, groupNumber, index, actualHlPoints, all);
        var hasValue := numOfData != 0;
        if hasValue {
          actualHlPoints := actualHlPoints + 1;
        }

        threshold := threshold + FloatTenth;
        groupNumber := groupNumber + 1;
      }
      CountedAll(FloatRiskCut, data, groupNumber, actualHlPoints, all);
    }

    /**
     * One round of both grouping loops once the cut-off is known: takes the
     * run of pairs the cut-off admits and, when it is not empty, records it
     * as group `groupNumber` in entry `groupIndex`.
     */
    method GroupStep(cut: Cut, ghost data: seq<ObservedPredictedValue>, ghost all: seq<Group>, ghost recorded: seq<Group>,
                     start: int, groupIndex: int, groupNumber: int, threshold: real, sqrt: Double -> Double)
      returns (index: int, nextGroupIndex: int, ghost nowRecorded: seq<Group>)
      requires PairsIn(data, probValues) && GroupArrays(|all|) && 0 <= start < |data| && groupNumber >= 1
      requires threshold == Threshold(cut, data, groupNumber)
      requires groupIndex == |recorded| && RecordedBefore(cut, data, start, groupNumber, recorded, all)
      requires RecordedUpTo(recorded, sqrt)
      modifies hlPoints, groups, numDataPerGroup, observedPerGroup, predictedPerGroup, hlChi2PerGroup, ciRangesPerGroup
      ensures start <= index <= |data|
      ensures index == start ==> groupNumber < LastGroupBound(cut, data)
      ensures nextGroupIndex == |nowRecorded| && RecordedBefore(cut, data, index, groupNumber + 1, nowRecorded, all)
      ensures RecordedUpTo(nowRecorded, sqrt)
      ensures PairsIn(data, probValues) && GroupArrays(|all|)
    {
      var total, numOfPositive, predictionSum;
      index, total, numOfPositive, predictionSum := TakeRun(cut, data, start, threshold);

      NextGroup(cut, data, start, groupNumber, index, recorded, all);
      nowRecorded := recorded;
      nextGroupIndex := groupIndex;
      if total != 0 {
        RecordGroup(recorded, groupIndex, groupNumber, total, numOfPositive, predictionSum, sqrt);
        nowRecorded := recorded + [Group(groupNumber, total, numOfPositive, predictionSum)];
        nextGroupIndex := groupIndex + 1;
      }
    }

    /** One round of the decile loop: the cut-off at `percent`, then the group it closes. */
    method DecileStep(ghost data: seq<ObservedPredictedValue>, ghost all: seq<Group>, ghost recorded: seq<Group>,
                      start: int, groupIndex: int, groupNumber: int, percent: real, sqrt: Double -> Double)
      returns (index: int, nextGroupIndex: int, ghost nowRecorded: seq<Group>)
      requires PairsIn(data, probValues) && GroupArrays(|all|) && 0 <= start < |data| && groupNumber >= 1
      requires percent == Tenths(groupNumber)
      requires groupIndex == |recorded| && RecordedBefore(DecileCut, data, start, groupNumber, recorded, all)
      requires RecordedUpTo(recorded, sqrt)
      modifies hlPoints, groups, numDataPerGroup, observedPerGroup, predictedPerGroup, hlChi2PerGroup, ciRangesPerGroup
      ensures start <= index <= |data|
      ensures index == start ==> groupNumber < LastGroupBound(DecileCut, data)
      ensures nextGroupIndex == |nowRecorded| && RecordedBefore(DecileCut, data, index, groupNumber + 1, nowRecorded, all)
      ensures RecordedUpTo(nowRecorded, sqrt)
      ensures PairsIn(data, probValues) && GroupArrays(|all|)
    {
      var threshold := DecileCutOff(probValues, data, groupNumber, percent);
      index, nextGroupIndex, nowRecorded := GroupStep(DecileCut, data, all, recorded, start, groupIndex, groupNumber, threshold, sqrt);
    }

    /** The loop of `computeUsingDecileGroup`: records every non-empty decile group in the next free entry. */
    method DecilePlotPoints(ghost data: seq<ObservedPredictedValue>, sqrt: Double -> Double)
      requires PairsIn(data, probValues) && LastIsLargest(data)
      requires GroupArrays(|GroupsFrom(DecileCut, data, 0, 1)|)
      modifies hlPoints, groups, numDataPerGroup, observedPerGroup, predictedPerGroup, hlChi2PerGroup, ciRangesPerGroup
      ensures RecordedUpTo(GroupsFrom(DecileCut, data, 0, 1), sqrt)
    {
      ghost var all := GroupsFrom(DecileCut, data, 0, 1);
      ghost var recorded: seq<Group> := [];
      var groupIndex := 0;
      var groupNumber := 1;

      var percent := 0.1;
      var size := probValues.Length;
      var index := 0;
      while index < size
        invariant 0 <= index <= size && groupNumber >= 1
        invariant percent == Tenths(groupNumber)
        invariant PairsIn(data, probValues) && GroupArrays(|all|)
        invariant groupIndex == |recorded| && RecordedBefore(DecileCut, data, index, groupNumber, recorded, all)
        invariant RecordedUpTo(recorded, sqrt)
        decreases size - index, LastGroupBound(DecileCut, data) - groupNumber
      {
        index, groupIndex, recorded := DecileStep(data, all, recorded, index, groupIndex, groupNumber, percent, sqrt);

        TenthsStep(groupNumber);
        groupNumber := groupNumber + 1;
        percent := percent + 0.1;
      }
      RecordedAll(DecileCut, data, groupNumber, recorded, all);
    }

    /** The loop of `computeUsingRiskGroup`: records every non-empty risk group in the next free entry. */
    method RiskPlotPoints(ghost data: seq<ObservedPredictedValue>, sqrt: Double -> Double)
      requires PairsIn(data, probValues) && LastIsLargest(data)
      requires GroupArrays(|GroupsFrom(FloatRiskCut, data, 0, 1)|)
      modifies hlPoints, groups, numDataPerGroup, observedPerGroup, predictedPerGroup, hlChi2PerGroup, ciRangesPerGroup
      ensures RecordedUpTo(GroupsFrom(FloatRiskCut, data, 0, 1), sqrt)
    {
      ghost var all := GroupsFrom(FloatRiskCut, data, 0, 1);
      ghost var recorded: seq<Group> := [];
      var groupIndex := 0;
      var groupNumber := 1;

      var threshold := FloatTenth;
      var size := probValues.Length;
      var index := 0;
      while index < size
        invariant 0 <= index <= size && groupNumber >= 1
        invariant threshold == groupNumber as real * FloatTenth
        invariant PairsIn(data, probValues) && GroupArrays(|all|)
        invariant groupIndex == |recorded| && RecordedBefore(FloatRiskCut, data, index, groupNumber, recorded, all)
        invariant RecordedUpTo(recorded, sqrt)
        decreases size - index, LastGroupBound(FloatRiskCut, data) - groupNumber
      {
        index, groupIndex, recorded := GroupStep(FloatRiskCut, data, all, recorded, index, groupIndex, groupNumber, threshold, sqrt);

        threshold := threshold + FloatTenth;
        groupNumber := groupNumber + 1;
      }
      RecordedAll(FloatRiskCut, data, groupNumber, recorded, all);
    }
  
    // -------------------------------------------------------------------
    // What a built test guarantees
    // -------------------------------------------------------------------

    /**
     * Entry m of the per-group arrays records group m of the grouping of the
     * sorted pairs: the arrays list the groups' numbers, sizes, positives and
     * prediction sums, and row m of the plot points, the confidence range and
     * the chi-squared term are group m's.
     */
    lemma RecordsGroups(sqrt: Double -> Double, cdf: (int, Double) -> Double)
      requires Valid(sqrt, cdf)
      ensures var gs := Groups(LegacyCut(groupType), Data());
              && groups[..] == GroupNumbers(gs)
              && numDataPerGroup[..] == GroupSizes(gs)
              && observedPerGroup[..] == GroupPositives(gs)
              && predictedPerGroup[..] == GroupPredictedSums(gs)
              && |gs| == hlChi2PerGroup.Length == ciRangesPerGroup.Length == hlPoints.Length0
              && hlPoints.Length1 == 2
              && (forall m :: 0 <= m < |gs| ==>
                    && hlPoints[m, 0] == ExpectedValue(gs[m])
                    && hlPoints[m, 1] == ObservedValue(gs[m])
                    && ciRangesPerGroup[m] == MarginOfError(gs[m], sqrt)
                    && hlChi2PerGroup[m] == Chi2(gs[m]))
    {
      var gs := Groups(LegacyCut(groupType), Data());
      forall m | 0 <= m < |gs|
        ensures RecordedAt(m, gs[m], sqrt)
      {
      }
      assert groups[..] == GroupNumbers(gs);
      assert numDataPerGroup[..] == GroupSizes(gs);
      assert observedPerGroup[..] == GroupPositives(gs);
      assert predictedPerGroup[..] == GroupPredictedSums(gs);
    }

    /**
     * Every pair is counted in exactly one group: the group sizes add up to
     * the number of pairs and the positive counts to the number of pairs
     * observed positive.
     */
    lemma GroupsCoverPairs(sqrt: Double -> Double, cdf: (int, Double) -> Double)
      requires Valid(sqrt, cdf)
      ensures SumOf(numDataPerGroup[..]) == probValues.Length
      ensures SumOf(observedPerGroup[..]) == CountObserved(Data(), 1)
    {
      RecordsGroups(sqrt, cdf);
      GroupsCoverData(LegacyCut(groupType), Data());
    }

    /**
     * The recorded group numbers start at 1 and strictly increase; decile
     * groups are numbered within 1..10, so there are at most ten of them.
     */
    lemma GroupNumbersRecorded(sqrt: Double -> Double, cdf: (int, Double) -> Double)
      requires Valid(sqrt, cdf)
      ensures forall m :: 0 <= m < groups.Length ==> 1 <= groups[m]
      ensures forall m, n :: 0 <= m < n < groups.Length ==> groups[m] < groups[n]
      ensures groupType == DecileGroups ==> groups.Length <= NumOfInterval && forall m :: 0 <= m < groups.Length ==> groups[m] <= NumOfInterval
    {
      RecordsGroups(sqrt, cdf);
      GroupNumbersIncrease(LegacyCut(groupType), Data());
      if groupType == DecileGroups {
        DecileGroupsAtMostTen(Data());
      }
    }

    /**
     * Each group's observed fraction, the second column of its plot point,
     * lies in [0, 1].
     */
    lemma ObservedFractions(sqrt: Double -> Double, cdf: (int, Double) -> Double)
      requires Valid(sqrt, cdf)
      ensures forall m :: 0 <= m < groups.Length ==> 0 <= observedPerGroup[m] <= numDataPerGroup[m]
      ensures forall m :: 0 <= m < groups.Length ==> 0.0 <= hlPoints[m, 1] <= 1.0
    {
      RecordsGroups(sqrt, cdf);
      GroupPositivesAtMostSize(LegacyCut(groupType), Data());
    }

    /**
     * When every prediction is a probability, each group's expected value is
     * one too, and its confidence range is a finite, non-negative number.
     */
    lemma ExpectedFractions(sqrt: Double -> Double, cdf: (int, Double) -> Double)
      requires Valid(sqrt, cdf) && SquareRootFunction(sqrt) && PredictionsInUnit(Data())
      ensures forall m :: 0 <= m < groups.Length ==> 0.0 <= hlPoints[m, 0] <= 1.0
      ensures forall m :: 0 <= m < groups.Length ==>
        ciRangesPerGroup[m].Finite? && ciRangesPerGroup[m].value >= 0.0
    {
      RecordsGroups(sqrt, cdf);
      var gs := Groups(LegacyCut(groupType), Data());
      GroupPredictionsAtMostSize(LegacyCut(groupType), Data());
      forall m | 0 <= m < |gs|
        ensures MarginOfError(gs[m], sqrt).Finite? && MarginOfError(gs[m], sqrt).value >= 0.0
      {
        MarginOfErrorDefined(gs[m], sqrt);
      }
    }

    /**
     * Unlike the calibration classes, the legacy test accepts a list with no
     * pairs: it then has no groups, −2 degrees of freedom and the p-value
     * sentinel −1.
     */
    lemma EmptyInput(sqrt: Double -> Double, cdf: (int, Double) -> Double)
      requires Valid(sqrt, cdf) && probValues.Length == 0
      ensures groups.Length == 0 && hlPoints.Length0 == 0
      ensures degreeOfFreedom == -2
      ensures pValue == Finite(-1.0)
    {
      assert Data() == [];
    }

    /** No chi-squared term is −∞: each is a quotient with a square for its numerator. */
    lemma Chi2TermsNotNegativeInfinity(sqrt: Double -> Double, cdf: (int, Double) -> Double)
      requires Valid(sqrt, cdf)
      ensures forall m :: 0 <= m < hlChi2PerGroup.Length ==> !hlChi2PerGroup[m].NegativeInfinity?
    {
      RecordsGroups(sqrt, cdf);
      var gs := Groups(LegacyCut(groupType), Data());
      forall m | 0 <= m < hlChi2PerGroup.Length
        ensures !hlChi2PerGroup[m].NegativeInfinity?
      {
        Chi2NeverNegativeInfinity(gs[m]);
      }
    }

    /**
     * The p-value is the sentinel −1 exactly when there are at most two
     * groups, or some chi-squared term is +∞ and none is NaN; with more than
     * two groups and finite terms it is a probability, and a NaN term makes
     * it NaN.
     */
    lemma PValueSentinel(sqrt: Double -> Double, cdf: (int, Double) -> Double)
      requires Valid(sqrt, cdf) && ChiSquaredCdf(cdf)
      ensures pValue == Finite(-1.0) <==>
                groups.Length <= 2
                || ((exists m :: 0 <= m < hlChi2PerGroup.Length && hlChi2PerGroup[m].PositiveInfinity?)
                    && forall m :: 0 <= m < hlChi2PerGroup.Length ==> !hlChi2PerGroup[m].NaN?)
      ensures groups.Length > 2 && (forall m :: 0 <= m < hlChi2PerGroup.Length ==> hlChi2PerGroup[m].Finite?) ==>
                pValue.Finite? && 0.0 <= pValue.value <= 1.0
      ensures groups.Length > 2 && (exists m :: 0 <= m < hlChi2PerGroup.Length && hlChi2PerGroup[m].NaN?) ==>
                pValue.NaN?
    {
      Chi2TermsNotNegativeInfinity(sqrt, cdf);
      var chi2s := hlChi2PerGroup[..];
      PValueCases(degreeOfFreedom, chi2s, cdf);
      if exists m :: 0 <= m < hlChi2PerGroup.Length && hlChi2PerGroup[m].PositiveInfinity? {
        var m :| 0 <= m < hlChi2PerGroup.Length && hlChi2PerGroup[m].PositiveInfinity?;
        assert chi2s[m].PositiveInfinity?;
      }
      if exists m :: 0 <= m < hlChi2PerGroup.Length && hlChi2PerGroup[m].NaN? {
        var m :| 0 <= m < hlChi2PerGroup.Length && hlChi2PerGroup[m].NaN?;
        assert chi2s[m].NaN?;
      }
    }
  }

  /**
   * The legacy test and the calibration classes, whose cut-offs this model
   * takes at exact tenths, agree: built over the same sorted pairs with the
   * same grouping, they record the same groups and the same p-value. For
   * risk groups this needs no prediction in a gap [k/10, k·FloatTenth),
   * where the legacy float step parts from exact tenths
   * (`RiskGroupsOfGapExample` and `FloatRiskGroupsOfGapExample` show the
   * groups it then makes). The calibration classes' own double sums of 0.10
   * are not exact tenths, so the two Java classes can differ where this
   * model's do not.
   */
  lemma AgreesWithCalibration(legacy: HosmerLemeshow, current: Calibration.HosmerLemeshow,
                              sqrt: Double -> Double, cdf: (int, Double) -> Double)
    requires legacy.Valid(sqrt, cdf) && current.Valid(sqrt, cdf)
    requires legacy.groupType == current.groupType && legacy.Data() == current.Data()
    requires legacy.groupType == RiskGroups ==> NoneInRiskGaps(legacy.Data())
    ensures legacy.groups[..] == current.groups[..]
    ensures legacy.numDataPerGroup[..] == current.numberOfDataPerGroup[..]
    ensures legacy.observedPerGroup[..] == current.positiveObservedSumPerGroup[..]
    ensures legacy.hlChi2PerGroup[..] == current.hlChi2PerGroup[..]
    ensures legacy.pValue == current.pValue
  {
    legacy.RecordsGroups(sqrt, cdf);
    current.RecordsGroups(sqrt, cdf);
    if legacy.groupType == RiskGroups {
      AscendingLastIsLargest(legacy.Data());
      RiskCutsAgree(legacy.Data(), 0, 1);
    }
  }
}
