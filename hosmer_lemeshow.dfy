// The calibration classes: `AbstractHosmerLemeshow` with its two groupings,
// `HosmerLemeshowDecileGroup` and `HosmerLemeshowRiskGroup`. The subclass is
// the `groupType` field; each grouping's two loops are methods of their own.

module Calibration {
  import opened Data
  import opened JavaDouble
  import opened HosmerLemeshowGroups
  import opened HosmerLemeshowStatistics

  /** `a` holds the predictions of `data`, in order. */
  ghost predicate PredictionsIn(data: seq<ObservedPredictedValue>, a: array<real>)
    reads a
  {
    |data| == a.Length && forall i :: 0 <= i < |data| ==> data[i].predictedValue == a[i]
  }

  /**
   * A Hosmer–Lemeshow calibration of a list of (observed, predicted) pairs:
   * the pairs sorted by prediction, the per-group arrays the grouping fills,
   * and the statistics computed from them. Everything is set while the object
   * is built and not changed after.
   */
  class HosmerLemeshow {
    const groupType: GroupType
    const numberOfPredictions: int
    const observedValues: array<int>
    const predictedValues: array<real>
    const groups: array<int>
    const numberOfDataPerGroup: array<int>
    const positiveObservedSumPerGroup: array<int>
    const predictedSumPerGroup: array<real>
    const hlChi2PerGroup: array<Double>
    const marginOfErrorPerGroup: array<Double>
    const hlObservedValues: array<real>
    const hlExpectedValues: array<real>
    var degreesOfFreedom: int
    var pValue: Double
    var expectedCalibrationError: real
    var maxCalibrationError: real
    var averageCalibrationError: real

    /**
     * What a built calibration holds: the input arrays hold the pairs sorted
     * by prediction, and the arrays and statistics summarize them.
     */
    ghost predicate Valid(sqrt: Double -> Double, cdf: (int, Double) -> Double)
      reads this, observedValues, predictedValues
      reads groups, numberOfDataPerGroup, positiveObservedSumPerGroup, predictedSumPerGroup
      reads hlChi2PerGroup, marginOfErrorPerGroup, hlObservedValues, hlExpectedValues
    {
      && observedValues.Length == predictedValues.Length
      && Ascending(Data(), Prediction)
      && Summarizes(Data(), sqrt, cdf)
    }

    /**
     * The arrays and statistics summarize the sorted pairs `data`: there is
     * one entry per group in every per-group array and entry m records group
     * m, the degrees of freedom are the number of groups less two, and the
     * p-value and the three calibration errors are those of the recorded
     * arrays.
     */
    ghost predicate Summarizes(data: seq<ObservedPredictedValue>, sqrt: Double -> Double, cdf: (int, Double) -> Double)
      reads this
      reads groups, numberOfDataPerGroup, positiveObservedSumPerGroup, predictedSumPerGroup
      reads hlChi2PerGroup, marginOfErrorPerGroup, hlObservedValues, hlExpectedValues
    {
      && LastIsLargest(data)
      && numberOfPredictions == |data| > 0
      && GroupArrays(|GroupsFrom(CutOf(groupType), data, 0, 1)|)
      && RecordedUpTo(GroupsFrom(CutOf(groupType), data, 0, 1), sqrt)
      && Statistics(cdf)
    }

    /**
     * The degrees of freedom are the number of groups less two, and the
     * p-value and the three calibration errors are those of the recorded
     * arrays.
     */
    ghost predicate Statistics(cdf: (int, Double) -> Double)
      reads this, groups, numberOfDataPerGroup, hlChi2PerGroup, hlObservedValues, hlExpectedValues
    {
      && hlExpectedValues.Length == hlObservedValues.Length == numberOfDataPerGroup.Length
      && degreesOfFreedom == groups.Length - 2
      && pValue == PValue(degreesOfFreedom, hlChi2PerGroup[..], cdf)
      && numberOfPredictions > 0
      && expectedCalibrationError == ExpectedCalibrationError(Gaps(hlExpectedValues[..], hlObservedValues[..]), numberOfDataPerGroup[..], numberOfPredictions)
      && maxCalibrationError == MaxCalibrationError(Gaps(hlExpectedValues[..], hlObservedValues[..]))
      && averageCalibrationError == AverageCalibrationError(Gaps(hlExpectedValues[..], hlObservedValues[..]), numberOfDataPerGroup.Length)
    }

    /**
     * The constructor of `AbstractHosmerLemeshow` with the grouping of the
     * subclass: sorts the pairs, splits them into the observed and predicted
     * arrays, counts the groups, sizes the per-group arrays by that count,
     * fills them, and computes the degrees of freedom, the p-value and the
     * calibration errors.
     */
    constructor (observedPredictedValues: seq<ObservedPredictedValue>, groupType: GroupType, sqrt: Double -> Double, cdf: (int, Double) -> Double)
      requires |observedPredictedValues| > 0
      ensures this.groupType == groupType
      ensures Valid(sqrt, cdf)
      ensures Data() == SortAscending(observedPredictedValues, Prediction)
    {
      var observed, predicted, sorted := SortedPairs(observedPredictedValues);
      AscendingLastIsLargest(sorted);
      var totalNumOfGroups := ComputeTotalNumberOfGroups(groupType, predicted, sorted);

      this.groupType := groupType;
      numberOfPredictions := |observedPredictedValues|;
      observedValues := observed;
      predictedValues := predicted;
      groups := new int[totalNumOfGroups];
      numberOfDataPerGroup := new int[totalNumOfGroups];
      positiveObservedSumPerGroup := new int[totalNumOfGroups];
      predictedSumPerGroup := new real[totalNumOfGroups];
      hlChi2PerGroup := new Double[totalNumOfGroups];
      marginOfErrorPerGroup := new Double[totalNumOfGroups];
      hlObservedValues := new real[totalNumOfGroups];
      hlExpectedValues := new real[totalNumOfGroups];
      new;

      assert Holds(sorted);
      ComputePlotPoints(sorted, sqrt);
      ComputeStatistics(cdf);
      HoldsSorted(sorted, sqrt, cdf);
    }

    /** Once the arrays summarize the sorted pairs the input arrays hold, the calibration is valid. */
    lemma HoldsSorted(sorted: seq<ObservedPredictedValue>, sqrt: Double -> Double, cdf: (int, Double) -> Double)
      requires Holds(sorted) && Ascending(sorted, Prediction)
      requires LastIsLargest(sorted) && numberOfPredictions == |sorted| > 0
      requires GroupArrays(|GroupsFrom(CutOf(groupType), sorted, 0, 1)|)
      requires RecordedUpTo(GroupsFrom(CutOf(groupType), sorted, 0, 1), sqrt)
      requires Statistics(cdf)
      ensures Valid(sqrt, cdf) && Data() == sorted
    {
      assert Data() == sorted;
    }

    /**
     * The start of the constructor: copies the pairs to an array, sorts it
     * in ascending order of prediction and splits it into a fresh array of
     * observed values and one of predicted values.
     */
    static method SortedPairs(observedPredictedValues: seq<ObservedPredictedValue>)
      returns (observed: array<int>, predicted: array<real>, ghost sorted: seq<ObservedPredictedValue>)
      ensures sorted == SortAscending(observedPredictedValues, Prediction)
      ensures fresh(observed) && fresh(predicted)
      ensures observed.Length == |sorted| && PredictionsIn(sorted, predicted)
      ensures forall m :: 0 <= m < |sorted| ==> observed[m] == sorted[m].observedValue
    {
      var data := new ObservedPredictedValue[|observedPredictedValues|](i requires 0 <= i < |observedPredictedValues| => observedPredictedValues[i]);
      assert data[..] == observedPredictedValues;
      SortArray(data, Prediction);
      sorted := data[..];

      var n := data.Length;
      observed := new int[n];
      predicted := new real[n];
      for i := 0 to n
        modifies observed, predicted
        invariant forall m :: 0 <= m < i ==> observed[m] == sorted[m].observedValue && predicted[m] == sorted[m].predictedValue
      {
        var obsPredVal := data[i];
        observed[i] := obsPredVal.observedValue;
        predicted[i] := obsPredVal.predictedValue;
      }
    }

    /** `computeTotalNumberOfGroups`, dispatched on the grouping: the number of groups the grouping records. */
    static method ComputeTotalNumberOfGroups(groupType: GroupType, predictedValues: array<real>, ghost data: seq<ObservedPredictedValue>)
      returns (totalGroup: int)
      requires PredictionsIn(data, predictedValues) && LastIsLargest(data)
      ensures totalGroup == |GroupsFrom(CutOf(groupType), data, 0, 1)|
    {
      match groupType
      case DecileGroups =>
        totalGroup := DecileTotalNumberOfGroups(predictedValues, data);
      case RiskGroups =>
        totalGroup := RiskTotalNumberOfGroups(predictedValues, data);
    }

    /** `computePlotPoints`, dispatched on the grouping: entry m of every per-group array records group m. */
    method ComputePlotPoints(ghost data: seq<ObservedPredictedValue>, sqrt: Double -> Double)
      requires Holds(data) && LastIsLargest(data)
      requires GroupArrays(|GroupsFrom(CutOf(groupType), data, 0, 1)|)
      modifies groups, numberOfDataPerGroup, positiveObservedSumPerGroup, predictedSumPerGroup
      modifies hlChi2PerGroup, marginOfErrorPerGroup, hlObservedValues, hlExpectedValues
      ensures RecordedUpTo(GroupsFrom(CutOf(groupType), data, 0, 1), sqrt)
    {
      match groupType
      case DecileGroups =>
        DecilePlotPoints(data, sqrt);
      case RiskGroups =>
        RiskPlotPoints(data, sqrt);
    }

    /**
     * The end of the constructor: the degrees of freedom, the p-value and the
     * three calibration errors of the filled arrays.
     */
    method ComputeStatistics(cdf: (int, Double) -> Double)
      requires GroupArrays(groups.Length) && numberOfPredictions > 0
      modifies this
      ensures Statistics(cdf)
    {
      degreesOfFreedom := groups.Length - 2;

      pValue := ComputePValue(degreesOfFreedom, hlChi2PerGroup, cdf);

      // calibration metrics
      expectedCalibrationError := ComputeExpectedCalibrationError(hlExpectedValues, hlObservedValues, numberOfDataPerGroup, numberOfPredictions);
      maxCalibrationError := ComputeMaxCalibrationError(hlExpectedValues, hlObservedValues, numberOfDataPerGroup);
      averageCalibrationError := ComputeAverageCalibrationError(hlExpectedValues, hlObservedValues, numberOfDataPerGroup);
    }

    /** The sorted pairs the two input arrays hold. */
    ghost function Data(): (data: seq<ObservedPredictedValue>)
      reads observedValues, predictedValues
      requires observedValues.Length == predictedValues.Length
      ensures |data| == predictedValues.Length
      ensures forall i :: 0 <= i < |data| ==> data[i].observedValue == observedValues[i] && data[i].predictedValue == predictedValues[i]
    {
      seq(predictedValues.Length, i requires 0 <= i < predictedValues.Length reads observedValues, predictedValues =>
        ObservedPredictedValue(observedValues[i], predictedValues[i]))
    }

    /** `data` lists the pairs the two input arrays hold. */
    ghost predicate Holds(data: seq<ObservedPredictedValue>)
      reads observedValues, predictedValues
    {
      && |data| == observedValues.Length == predictedValues.Length
      && forall i :: 0 <= i < |data| ==> data[i].observedValue == observedValues[i] && data[i].predictedValue == predictedValues[i]
    }

    /** The per-group arrays are distinct from each other and from the inputs, and all have one entry per group. */
    ghost predicate GroupArrays(count: int)
    {
      && groups != numberOfDataPerGroup && groups != positiveObservedSumPerGroup
      && numberOfDataPerGroup != positiveObservedSumPerGroup
      && observedValues != groups && observedValues != numberOfDataPerGroup && observedValues != positiveObservedSumPerGroup
      && predictedSumPerGroup != hlObservedValues && predictedSumPerGroup != hlExpectedValues
      && hlObservedValues != hlExpectedValues
      && predictedValues != predictedSumPerGroup && predictedValues != hlObservedValues && predictedValues != hlExpectedValues
      && hlChi2PerGroup != marginOfErrorPerGroup
      && groups.Length == count && numberOfDataPerGroup.Length == count && positiveObservedSumPerGroup.Length == count
      && predictedSumPerGroup.Length == count && hlChi2PerGroup.Length == count && marginOfErrorPerGroup.Length == count
      && hlObservedValues.Length == count && hlExpectedValues.Length == count
    }

    /** Entry `m` of every per-group array records group `g`. */
    ghost predicate RecordedAt(m: int, g: Group, sqrt: Double -> Double)
      reads groups, numberOfDataPerGroup, positiveObservedSumPerGroup, predictedSumPerGroup
      reads hlChi2PerGroup, marginOfErrorPerGroup, hlObservedValues, hlExpectedValues
    {
      && 0 <= m < groups.Length && m < numberOfDataPerGroup.Length && m < positiveObservedSumPerGroup.Length
      && m < predictedSumPerGroup.Length && m < hlChi2PerGroup.Length && m < marginOfErrorPerGroup.Length
      && m < hlObservedValues.Length && m < hlExpectedValues.Length
      && groups[m] == g.number
      && numberOfDataPerGroup[m] == g.size
      && positiveObservedSumPerGroup[m] == g.positives
      && predictedSumPerGroup[m] == g.predictedSum
      && hlExpectedValues[m] == ExpectedValue(g)
      && hlObservedValues[m] == ObservedValue(g)
      && marginOfErrorPerGroup[m] == MarginOfError(g, sqrt)
      && hlChi2PerGroup[m] == Chi2(g)
    }

    /** The first |recorded| entries of the per-group arrays record the groups of `recorded`, in order. */
    ghost predicate RecordedUpTo(recorded: seq<Group>, sqrt: Double -> Double)
      reads groups, numberOfDataPerGroup, positiveObservedSumPerGroup, predictedSumPerGroup
      reads hlChi2PerGroup, marginOfErrorPerGroup, hlObservedValues, hlExpectedValues
    {
      forall m :: 0 <= m < |recorded| ==> RecordedAt(m, recorded[m], sqrt)
    }

    /**
     * The body both groupings run for a non-empty group: its plot point,
     * margin of error and chi-squared term, and its counts, written to entry
     * `groupIndex` of the arrays; no other entry changes.
     */
    method RecordGroup(ghost recorded: seq<Group>, groupIndex: int, groupNumber: int, numOfData: int, numOfPosObserVal: int, predictedValueSum: real, sqrt: Double -> Double)
      requires GroupArrays(groups.Length) && 0 <= groupIndex < groups.Length
      requires numOfData >= 1 && numOfPosObserVal >= 0
      requires groupIndex == |recorded| && RecordedUpTo(recorded, sqrt)
      modifies groups, numberOfDataPerGroup, positiveObservedSumPerGroup, predictedSumPerGroup
      modifies hlChi2PerGroup, marginOfErrorPerGroup, hlObservedValues, hlExpectedValues
      ensures RecordedUpTo(recorded + [Group(groupNumber, numOfData, numOfPosObserVal, predictedValueSum)], sqrt)
    {
      var g := Group(groupNumber, numOfData, numOfPosObserVal, predictedValueSum);
      var xValue := predictedValueSum / numOfData as real;
      var yValue := numOfPosObserVal as real / numOfData as real;
      var margin := MarginOfError(g, sqrt);
      var diff := numOfPosObserVal as real - predictedValueSum;
      var chi2 := Divide(diff * diff, predictedValueSum * (1.0 - predictedValueSum / numOfData as real));
      Chi2Is(groupNumber, numOfData, numOfPosObserVal, predictedValueSum, diff, chi2);
      assert xValue == ExpectedValue(g) && yValue == ObservedValue(g) && chi2 == Chi2(g);
      WriteGroup(recorded, groupIndex, g, xValue, yValue, margin, chi2, sqrt);
    }

    /** The writes of `RecordGroup`: entry `groupIndex` of every array gets group `g`'s values. */
    method WriteGroup(ghost recorded: seq<Group>, groupIndex: int, g: Group, xValue: real, yValue: real,
                      margin: Double, chi2: Double, sqrt: Double -> Double)
      requires GroupArrays(groups.Length) && 0 <= groupIndex < groups.Length
      requires groupIndex == |recorded| && RecordedUpTo(recorded, sqrt)
      requires xValue == ExpectedValue(g) && yValue == ObservedValue(g)
      requires margin == MarginOfError(g, sqrt) && chi2 == Chi2(g)
      modifies groups, numberOfDataPerGroup, positiveObservedSumPerGroup, predictedSumPerGroup
      modifies hlChi2PerGroup, marginOfErrorPerGroup, hlObservedValues, hlExpectedValues
      ensures RecordedUpTo(recorded + [g], sqrt)
    {
      hlExpectedValues[groupIndex] := xValue;
      hlObservedValues[groupIndex] := yValue;
      groups[groupIndex] := g.number;
      numberOfDataPerGroup[groupIndex] := g.size;
      positiveObservedSumPerGroup[groupIndex] := g.positives;
      predictedSumPerGroup[groupIndex] := g.predictedSum;
      marginOfErrorPerGroup[groupIndex] := margin;
      hlChi2PerGroup[groupIndex] := chi2;
      assert RecordedAt(groupIndex, g, sqrt);
      forall m | 0 <= m < groupIndex
        ensures RecordedAt(m, recorded[m], sqrt)
      {
        assert old(RecordedAt(m, recorded[m], sqrt));
      }
    }

    /**
     * The inner loop of both groupings: from `start`, takes predictions while
     * the cut-off admits them (at or below it for deciles, below it for risk
     * groups), counting them, their positives and their sum; returns the index
     * it stopped at.
     */
    method TakeRun(cut: Cut, ghost data: seq<ObservedPredictedValue>, start: int, threshold: real)
      returns (index: int, numOfData: int, numOfPosObserVal: int, predictedValueSum: real)
      requires Holds(data) && 0 <= start < |data|
      ensures index == RunEnd(cut, data, start, threshold)
      ensures numOfData == index - start
      ensures numOfPosObserVal == PositivesBetween(data, start, index)
      ensures predictedValueSum == PredictionsBetween(data, start, index)
    {
      var size := predictedValues.Length;
      predictedValueSum := 0.0;
      numOfData := 0;
      numOfPosObserVal := 0;
      index := start;
      var value := predictedValues[index];
      while Admits(cut, value, threshold)
        invariant start <= index < size && value == data[index].predictedValue
        invariant RunEnd(cut, data, index, threshold) == RunEnd(cut, data, start, threshold)
        invariant numOfData == index - start
        invariant numOfPosObserVal == PositivesBetween(data, start, index)
        invariant predictedValueSum == PredictionsBetween(data, start, index)
        decreases size - index
      {
        RunEndStep(cut, data, index, threshold);
        numOfData := numOfData + 1;
        predictedValueSum := predictedValueSum + predictedValues[index];
        if observedValues[index] == 1 {
          numOfPosObserVal := numOfPosObserVal + 1;
        }
        index := index + 1;
        if index < size {
          value := predictedValues[index];
        } else {
          break;
        }
      }
      RunEndStop(cut, data, index, threshold);
    }

    /**
     * The decile cut-off both decile loops compute: the prediction at index
     * ⌊percent · size⌋, or the last prediction once that index passes the end.
     */
    static method DecileCutOff(predictedValues: array<real>, ghost data: seq<ObservedPredictedValue>, ghost groupNumber: int, percent: real)
      returns (threshold: real)
      requires PredictionsIn(data, predictedValues) && |data| > 0
      requires groupNumber >= 1 && percent == Tenths(groupNumber)
      ensures threshold == Threshold(DecileCut, data, groupNumber)
    {
      var size := predictedValues.Length;
      var intUpperIndex := (percent * size as real).Floor;
      UpperIndexOf(percent, groupNumber, size);
      DecileThresholdAt(data, groupNumber, intUpperIndex);
      if intUpperIndex >= size {
        threshold := predictedValues[size - 1];
      } else {
        threshold := predictedValues[intUpperIndex];
      }
    }

    /**
     * The inner loop of both counting loops: from `start`, skips the
     * predictions the cut-off admits and reports whether there was any.
     */
    static method SkipRun(predictedValues: array<real>, ghost data: seq<ObservedPredictedValue>, cut: Cut, start: int, threshold: real)
      returns (index: int, hasDataInInterval: bool)
      requires PredictionsIn(data, predictedValues) && 0 <= start < |data|
      ensures index == RunEnd(cut, data, start, threshold)
      ensures hasDataInInterval <==> index > start
    {
      var size := predictedValues.Length;
      hasDataInInterval := false;
      index := start;
      var value := predictedValues[index];
      while Admits(cut, value, threshold)
        invariant start <= index < size && value == data[index].predictedValue
        invariant RunEnd(cut, data, index, threshold) == RunEnd(cut, data, start, threshold)
        invariant hasDataInInterval <==> index > start
        decreases size - index
      {
        RunEndStep(cut, data, index, threshold);
        hasDataInInterval := true;
        index := index + 1;
        if index < size {
          value := predictedValues[index];
        } else {
          break;
        }
      }
      RunEndStop(cut, data, index, threshold);
    }

    /**
     * `computeTotalNumberOfGroups` of the decile grouping: the number of
     * decile groups that take at least one prediction, which is the number of
     * groups the grouping records.
     */
    static method DecileTotalNumberOfGroups(predictedValues: array<real>, ghost data: seq<ObservedPredictedValue>)
      returns (totalGroup: int)
      requires PredictionsIn(data, predictedValues) && LastIsLargest(data)
      ensures totalGroup == |GroupsFrom(DecileCut, data, 0, 1)|
    {
      ghost var total := |GroupsFrom(DecileCut, data, 0, 1)|;
      ghost var groupNumber := 1;
      totalGroup := 0;

      var percent := 0.1;
      var size := predictedValues.Length;
      var index := 0;
      while index < size
        invariant 0 <= index <= size && groupNumber >= 1
        invariant percent == Tenths(groupNumber)
        invariant CountedBefore(DecileCut, data, index, groupNumber, totalGroup, total)
        decreases size - index, LastGroupBound(DecileCut, data) - groupNumber
      {
        var threshold := DecileCutOff(predictedValues, data, groupNumber, percent);

        ghost var start := index;
        var hasDataInInterval;
        index, hasDataInInterval := SkipRun(predictedValues, data, DecileCut, index, threshold);
        NextCount(DecileCut, data, start, groupNumber, index, totalGroup, total);
        if hasDataInInterval {
          totalGroup := totalGroup + 1;
        }

        TenthsStep(groupNumber);
        groupNumber := groupNumber + 1;
        percent := percent + 0.1;
      }
      CountedAll(DecileCut, data, groupNumber, totalGroup, total);
    }

    /**
     * `computeTotalNumberOfGroups` of the risk grouping: the number of
     * intervals [ (k−1)/10, k/10 ) that hold at least one prediction, which is
     * the number of groups the grouping records.
     */
    static method RiskTotalNumberOfGroups(predictedValues: array<real>, ghost data: seq<ObservedPredictedValue>)
      returns (totalGroup: int)
      requires PredictionsIn(data, predictedValues) && LastIsLargest(data)
      ensures totalGroup == |GroupsFrom(RiskCut, data, 0, 1)|
    {
      ghost var total := |GroupsFrom(RiskCut, data, 0, 1)|;
      ghost var groupNumber := 1;
      totalGroup := 0;

      var increment := 1.0 / NumOfInterval as real;
      var threshold := increment;
      var size := predictedValues.Length;
      var index := 0;
      while index < size
        invariant 0 <= index <= size && groupNumber >= 1
        invariant threshold == Tenths(groupNumber)
        invariant CountedBefore(RiskCut, data, index, groupNumber, totalGroup, total)
        decreases size - index, LastGroupBound(RiskCut, data) - groupNumber
      {
        RiskThresholdAt(data, groupNumber);
        ghost var start := index;
        var hasDataInInterval;
        index, hasDataInInterval := SkipRun(predictedValues, data, RiskCut, index, threshold);
        NextCount(RiskCut, data, start, groupNumber, index, totalGroup, total);
        if hasDataInInterval {
          totalGroup := totalGroup + 1;
        }

        TenthsStep(groupNumber);
        groupNumber := groupNumber + 1;
        threshold := threshold + increment;
      }
      CountedAll(RiskCut, data, groupNumber, totalGroup, total);
    }

    /**
     * One round of both grouping loops once the cut-off is known: takes the
     * run of predictions the cut-off admits and, when it is not empty, records
     * it as group `groupNumber` in entry `groupIndex`.
     */
    method GroupStep(cut: Cut, ghost data: seq<ObservedPredictedValue>, ghost all: seq<Group>, ghost recorded: seq<Group>,
                     start: int, groupIndex: int, groupNumber: int, threshold: real, sqrt: Double -> Double)
      returns (index: int, nextGroupIndex: int, ghost nowRecorded: seq<Group>)
      requires Holds(data) && GroupArrays(|all|) && 0 <= start < |data| && groupNumber >= 1
      requires threshold == Threshold(cut, data, groupNumber)
      requires groupIndex == |recorded| && RecordedBefore(cut, data, start, groupNumber, recorded, all)
      requires RecordedUpTo(recorded, sqrt)
      modifies groups, numberOfDataPerGroup, positiveObservedSumPerGroup, predictedSumPerGroup
      modifies hlChi2PerGroup, marginOfErrorPerGroup, hlObservedValues, hlExpectedValues
      ensures start <= index <= |data|
      ensures index == start ==> groupNumber < LastGroupBound(cut, data)
      ensures nextGroupIndex == |nowRecorded| && RecordedBefore(cut, data, index, groupNumber + 1, nowRecorded, all)
      ensures RecordedUpTo(nowRecorded, sqrt)
      ensures Holds(data) && GroupArrays(|all|)
    {
      var numOfData, numOfPosObserVal, predictedValueSum;
      index, numOfData, numOfPosObserVal, predictedValueSum := TakeRun(cut, data, start, threshold);

      NextGroup(cut, data, start, groupNumber, index, recorded, all);
      nowRecorded := recorded;
      nextGroupIndex := groupIndex;
      if numOfData != 0 {
        RecordGroup(recorded, groupIndex, groupNumber, numOfData, numOfPosObserVal, predictedValueSum, sqrt);
        nowRecorded := recorded + [Group(groupNumber, numOfData, numOfPosObserVal, predictedValueSum)];
        nextGroupIndex := groupIndex + 1;
      }
    }

    /** One round of the decile loop: the cut-off at `percent`, then the group it closes. */
    method DecileStep(ghost data: seq<ObservedPredictedValue>, ghost all: seq<Group>, ghost recorded: seq<Group>,
                      start: int, groupIndex: int, groupNumber: int, percent: real, sqrt: Double -> Double)
      returns (index: int, nextGroupIndex: int, ghost nowRecorded: seq<Group>)
      requires Holds(data) && PredictionsIn(data, predictedValues) && GroupArrays(|all|)
      requires 0 <= start < |data| && groupNumber >= 1 && percent == Tenths(groupNumber)
      requires groupIndex == |recorded| && RecordedBefore(DecileCut, data, start, groupNumber, recorded, all)
      requires RecordedUpTo(recorded, sqrt)
      modifies groups, numberOfDataPerGroup, positiveObservedSumPerGroup, predictedSumPerGroup
      modifies hlChi2PerGroup, marginOfErrorPerGroup, hlObservedValues, hlExpectedValues
      ensures start <= index <= |data|
      ensures index == start ==> groupNumber < LastGroupBound(DecileCut, data)
      ensures nextGroupIndex == |nowRecorded| && RecordedBefore(DecileCut, data, index, groupNumber + 1, nowRecorded, all)
      ensures RecordedUpTo(nowRecorded, sqrt)
      ensures Holds(data) && PredictionsIn(data, predictedValues) && GroupArrays(|all|)
    {
      var threshold := DecileCutOff(predictedValues, data, groupNumber, percent);
      index, nextGroupIndex, nowRecorded := GroupStep(DecileCut, data, all, recorded, start, groupIndex, groupNumber, threshold, sqrt);
    }

    /**
     * `computePlotPoints` of the decile grouping: walks the sorted predictions
     * once, cutting group k at the prediction with index ⌊k/10 · n⌋, and
     * records every non-empty group in the next free entry of the arrays.
     */
    method DecilePlotPoints(ghost data: seq<ObservedPredictedValue>, sqrt: Double -> Double)
      requires Holds(data) && LastIsLargest(data)
      requires GroupArrays(|GroupsFrom(DecileCut, data, 0, 1)|)
      modifies groups, numberOfDataPerGroup, positiveObservedSumPerGroup, predictedSumPerGroup
      modifies hlChi2PerGroup, marginOfErrorPerGroup, hlObservedValues, hlExpectedValues
      ensures RecordedUpTo(GroupsFrom(DecileCut, data, 0, 1), sqrt)
    {
      assert PredictionsIn(data, predictedValues);
      ghost var all := GroupsFrom(DecileCut, data, 0, 1);
      ghost var recorded: seq<Group> := [];
      var groupIndex := 0;
      var groupNumber := 1;

      var percent := 0.1;
      var size := predictedValues.Length;
      var index := 0;
      while index < size
        invariant 0 <= index <= size && groupNumber >= 1
        invariant percent == Tenths(groupNumber)
        invariant PredictionsIn(data, predictedValues)
        invariant groupIndex == |recorded| && RecordedBefore(DecileCut, data, index, groupNumber, recorded, all)
        invariant RecordedUpTo(recorded, sqrt)
        invariant Holds(data)
        decreases size - index, LastGroupBound(DecileCut, data) - groupNumber
      {
        index, groupIndex, recorded := DecileStep(data, all, recorded, index, groupIndex, groupNumber, percent, sqrt);

        TenthsStep(groupNumber);
        groupNumber := groupNumber + 1;
        percent := percent + 0.1;
      }
      RecordedAll(DecileCut, data, groupNumber, recorded, all);
    }

    /**
     * `computePlotPoints` of the risk grouping: walks the sorted predictions
     * once, group k taking those below k/10, and records every non-empty group
     * in the next free entry of the arrays.
     */
    method RiskPlotPoints(ghost data: seq<ObservedPredictedValue>, sqrt: Double -> Double)
      requires Holds(data) && LastIsLargest(data)
      requires GroupArrays(|GroupsFrom(RiskCut, data, 0, 1)|)
      modifies groups, numberOfDataPerGroup, positiveObservedSumPerGroup, predictedSumPerGroup
      modifies hlChi2PerGroup, marginOfErrorPerGroup, hlObservedValues, hlExpectedValues
      ensures RecordedUpTo(GroupsFrom(RiskCut, data, 0, 1), sqrt)
    {
      ghost var all := GroupsFrom(RiskCut, data, 0, 1);
      ghost var recorded: seq<Group> := [];
      var groupIndex := 0;
      var groupNumber := 1;

      var thresholdIncrement := 1.0 / NumOfInterval as real;
      var threshold := thresholdIncrement;
      var size := predictedValues.Length;
      var index := 0;
      while index < size
        invariant 0 <= index <= size && groupNumber >= 1
        invariant threshold == Tenths(groupNumber)
        invariant groupIndex == |recorded| && RecordedBefore(RiskCut, data, index, groupNumber, recorded, all)
        invariant RecordedUpTo(recorded, sqrt)
        invariant Holds(data)
        decreases size - index, LastGroupBound(RiskCut, data) - groupNumber
      {
        RiskThresholdAt(data, groupNumber);
        index, groupIndex, recorded := GroupStep(RiskCut, data, all, recorded, index, groupIndex, groupNumber, threshold, sqrt);

        TenthsStep(groupNumber);
        groupNumber := groupNumber + 1;
        threshold := threshold + thresholdIncrement;
      }
      RecordedAll(RiskCut, data, groupNumber, recorded, all);
    }

    /**
     * `computePValue`: the sentinel −1 unless there are degrees of freedom;
     * then the chi-squared terms are added from 0 in order and, unless the
     * total is infinite, the p-value is 1 − F(total).
     */
    static method ComputePValue(degreesOfFreedom: int, hlChi2PerGroup: array<Double>, cdf: (int, Double) -> Double)
      returns (pvalue: Double)
      ensures pvalue == PValue(degreesOfFreedom, hlChi2PerGroup[..], cdf)
    {
      pvalue := Finite(-1.0);

      if degreesOfFreedom > 0 {
        var hlTotal := Finite(0.0);
        for i := 0 to hlChi2PerGroup.Length
          invariant hlTotal == ChiSquareTotal(hlChi2PerGroup[..i])
        {
          assert hlChi2PerGroup[..i + 1][..i] == hlChi2PerGroup[..i];
          hlTotal := Add(hlTotal, hlChi2PerGroup[i]);
        }
        assert hlChi2PerGroup[..hlChi2PerGroup.Length] == hlChi2PerGroup[..];

        if !hlTotal.IsInfinite() {
          pvalue := Subtract(Finite(1.0), cdf(degreesOfFreedom, hlTotal));
        }
      }
    }

    /**
     * `computeExpectedCalibrationError`: each group's gap |y − x| weighted by
     * the fraction of the predictions in the group, summed in order.
     */
    static method ComputeExpectedCalibrationError(hlExpectedValues: array<real>, hlObservedValues: array<real>, numberOfDataPerGroup: array<int>, numberOfPredictions: int)
      returns (ece: real)
      requires hlExpectedValues.Length == hlObservedValues.Length == numberOfDataPerGroup.Length
      requires numberOfPredictions > 0
      ensures ece == ExpectedCalibrationError(Gaps(hlExpectedValues[..], hlObservedValues[..]), numberOfDataPerGroup[..], numberOfPredictions)
    {
      ghost var ds := Gaps(hlExpectedValues[..], hlObservedValues[..]);
      ghost var ns := numberOfDataPerGroup[..];
      ece := 0.0;

      for i := 0 to numberOfDataPerGroup.Length
        invariant ece == ExpectedCalibrationError(ds[..i], ns[..i], numberOfPredictions)
      {
        var yValue := hlObservedValues[i];
        var xValue := hlExpectedValues[i];
        var iProb := numberOfDataPerGroup[i] as real / numberOfPredictions as real;

        assert ds[..i + 1][..i] == ds[..i] && ns[..i + 1][..i] == ns[..i];
        ece := ece + iProb * Gap(xValue, yValue);
      }
      assert ds[..numberOfDataPerGroup.Length] == ds && ns[..numberOfDataPerGroup.Length] == ns;
    }

    /** `computeMaxCalibrationError`: the largest gap |y − x| over the groups, 0 when there are none. */
    static method ComputeMaxCalibrationError(hlExpectedValues: array<real>, hlObservedValues: array<real>, numberOfDataPerGroup: array<int>)
      returns (mce: real)
      requires hlExpectedValues.Length == hlObservedValues.Length == numberOfDataPerGroup.Length
      ensures mce == MaxCalibrationError(Gaps(hlExpectedValues[..], hlObservedValues[..]))
    {
      ghost var ds := Gaps(hlExpectedValues[..], hlObservedValues[..]);
      mce := 0.0;

      for i := 0 to numberOfDataPerGroup.Length
        invariant mce == MaxCalibrationError(ds[..i])
      {
        var yValue := hlObservedValues[i];
        var xValue := hlExpectedValues[i];

        var diffScoreAccuracy := Gap(xValue, yValue);
        assert ds[..i + 1][..i] == ds[..i];
        if mce < diffScoreAccuracy {
          mce := diffScoreAccuracy;
        }
      }
      assert ds[..numberOfDataPerGroup.Length] == ds;
    }

    /** `computeAverageCalibrationError`: each gap |y − x| divided by the number of groups, summed in order. */
    static method ComputeAverageCalibrationError(hlExpectedValues: array<real>, hlObservedValues: array<real>, numberOfDataPerGroup: array<int>)
      returns (ace: real)
      requires hlExpectedValues.Length == hlObservedValues.Length == numberOfDataPerGroup.Length
      ensures ace == AverageCalibrationError(Gaps(hlExpectedValues[..], hlObservedValues[..]), numberOfDataPerGroup.Length)
    {
      ghost var ds := Gaps(hlExpectedValues[..], hlObservedValues[..]);
      ace := 0.0;

      var numOfNonemptyBins := numberOfDataPerGroup.Length;
      for i := 0 to numberOfDataPerGroup.Length
        invariant ace == AverageCalibrationError(ds[..i], numOfNonemptyBins)
      {
        var yValue := hlObservedValues[i];
        var xValue := hlExpectedValues[i];

        assert ds[..i + 1][..i] == ds[..i];
        ace := ace + Gap(xValue, yValue) / numOfNonemptyBins as real;
      }
      assert ds[..numberOfDataPerGroup.Length] == ds;
    }

    // -------------------------------------------------------------------
    // What a built calibration guarantees
    // -------------------------------------------------------------------

    /**
     * Entry m of the per-group arrays records group m of the grouping of the
     * sorted pairs: the arrays list the groups' numbers, sizes, positives and
     * prediction sums, and each group's plot point, margin of error and
     * chi-squared term.
     */
    lemma RecordsGroups(sqrt: Double -> Double, cdf: (int, Double) -> Double)
      requires Valid(sqrt, cdf)
      ensures var gs := Groups(CutOf(groupType), Data());
              && groups[..] == GroupNumbers(gs)
              && numberOfDataPerGroup[..] == GroupSizes(gs)
              && positiveObservedSumPerGroup[..] == GroupPositives(gs)
              && predictedSumPerGroup[..] == GroupPredictedSums(gs)
              && |gs| == hlChi2PerGroup.Length == marginOfErrorPerGroup.Length == hlExpectedValues.Length == hlObservedValues.Length
              && (forall m :: 0 <= m < |gs| ==>
                    && hlExpectedValues[m] == ExpectedValue(gs[m])
                    && hlObservedValues[m] == ObservedValue(gs[m])
                    && marginOfErrorPerGroup[m] == MarginOfError(gs[m], sqrt)
                    && hlChi2PerGroup[m] == Chi2(gs[m]))
    {
      var gs := Groups(CutOf(groupType), Data());
      forall m | 0 <= m < |gs|
        ensures RecordedAt(m, gs[m], sqrt)
      {
      }
      assert groups[..] == GroupNumbers(gs);
      assert numberOfDataPerGroup[..] == GroupSizes(gs);
      assert positiveObservedSumPerGroup[..] == GroupPositives(gs);
      assert predictedSumPerGroup[..] == GroupPredictedSums(gs);
    }

    /**
     * Every prediction is counted in exactly one group: the group sizes add
     * up to the number of predictions and the positive counts to the number
     * of pairs observed positive.
     */
    lemma GroupsCoverPredictions(sqrt: Double -> Double, cdf: (int, Double) -> Double)
      requires Valid(sqrt, cdf)
      ensures SumOf(numberOfDataPerGroup[..]) == numberOfPredictions
      ensures SumOf(positiveObservedSumPerGroup[..]) == CountObserved(Data(), 1)
    {
      RecordsGroups(sqrt, cdf);
      GroupsCoverData(CutOf(groupType), Data());
    }

    /**
     * The recorded group numbers start at 1 and strictly increase, skipping
     * the numbers of empty groups; decile groups are numbered within 1..10,
     * so there are at most ten of them.
     */
    lemma GroupNumbersRecorded(sqrt: Double -> Double, cdf: (int, Double) -> Double)
      requires Valid(sqrt, cdf)
      ensures forall m :: 0 <= m < groups.Length ==> 1 <= groups[m]
      ensures forall m, n :: 0 <= m < n < groups.Length ==> groups[m] < groups[n]
      ensures groupType == DecileGroups ==> groups.Length <= NumOfInterval && forall m :: 0 <= m < groups.Length ==> groups[m] <= NumOfInterval
    {
      RecordsGroups(sqrt, cdf);
      GroupNumbersIncrease(CutOf(groupType), Data());
      if groupType == DecileGroups {
        DecileGroupsAtMostTen(Data());
      }
    }

    /**
     * Each group counts at most as many positives as it has members, so its
     * observed fraction, the y-coordinate of its plot point, lies in [0, 1].
     */
    lemma ObservedFractions(sqrt: Double -> Double, cdf: (int, Double) -> Double)
      requires Valid(sqrt, cdf)
      ensures forall m :: 0 <= m < groups.Length ==> 0 <= positiveObservedSumPerGroup[m] <= numberOfDataPerGroup[m]
      ensures forall m :: 0 <= m < groups.Length ==> 0.0 <= hlObservedValues[m] <= 1.0
    {
      RecordsGroups(sqrt, cdf);
      GroupPositivesAtMostSize(CutOf(groupType), Data());
    }

    /**
     * When every prediction is a probability, each group's expected value is
     * one too, and its margin of error is a finite, non-negative number.
     */
    lemma ExpectedFractions(sqrt: Double -> Double, cdf: (int, Double) -> Double)
      requires Valid(sqrt, cdf) && SquareRootFunction(sqrt) && PredictionsInUnit(Data())
      ensures forall m :: 0 <= m < groups.Length ==> 0.0 <= hlExpectedValues[m] <= 1.0
      ensures forall m :: 0 <= m < groups.Length ==>
        marginOfErrorPerGroup[m].Finite? && marginOfErrorPerGroup[m].value >= 0.0
    {
      RecordsGroups(sqrt, cdf);
      var gs := Groups(CutOf(groupType), Data());
      GroupPredictionsAtMostSize(CutOf(groupType), Data());
      forall m | 0 <= m < |gs|
        ensures MarginOfError(gs[m], sqrt).Finite? && MarginOfError(gs[m], sqrt).value >= 0.0
      {
        MarginOfErrorDefined(gs[m], sqrt);
      }
    }

    /**
     * The expected calibration error, a weighted mean of the gaps, and the
     * average calibration error, their plain mean, both lie between 0 and the
     * maximum calibration error.
     */
    lemma CalibrationErrorsOrdered(sqrt: Double -> Double, cdf: (int, Double) -> Double)
      requires Valid(sqrt, cdf)
      ensures 0.0 <= expectedCalibrationError <= maxCalibrationError
      ensures 0.0 <= averageCalibrationError <= maxCalibrationError
    {
      GroupsCoverPredictions(sqrt, cdf);
      RecordsGroups(sqrt, cdf);
      var ds := Gaps(hlExpectedValues[..], hlObservedValues[..]);
      ExpectedAtMostMax(ds, numberOfDataPerGroup[..], numberOfPredictions);
      AverageAtMostMax(ds);
    }

    /** No recorded chi-squared term is −∞: each is finite, NaN or +∞. */
    lemma Chi2TermsNotNegativeInfinity(sqrt: Double -> Double, cdf: (int, Double) -> Double)
      requires Valid(sqrt, cdf)
      ensures forall m :: 0 <= m < hlChi2PerGroup.Length ==> !hlChi2PerGroup[m].NegativeInfinity?
    {
      RecordsGroups(sqrt, cdf);
      var gs := Groups(CutOf(groupType), Data());
      forall m | 0 <= m < hlChi2PerGroup.Length
        ensures !hlChi2PerGroup[m].NegativeInfinity?
      {
        Chi2NeverNegativeInfinity(gs[m]);
      }
    }

    /**
     * With a chi-squared distribution function (no term is −∞, as
     * `Chi2TermsNotNegativeInfinity` shows), the p-value is the sentinel −1
     * exactly when there are at most two groups, or some chi-squared term is
     * +∞ and none is NaN; with more than two groups and finite terms it is a
     * probability, and a NaN term makes it NaN.
     */
    lemma PValueSentinel(sqrt: Double -> Double, cdf: (int, Double) -> Double)
      requires Valid(sqrt, cdf) && ChiSquaredCdf(cdf)
      ensures pValue == Finite(-1.0) <==>
                groups.Length <= 2
                || ((exists m :: 0 <= m < hlChi2PerGroup.Length && hlChi2PerGroup[m].PositiveInfinity?)
                    && forall m :: 0 <= m < hlChi2PerGroup.Length ==> !hlChi2PerGroup[m].NaN?)
      ensures groups.Length > 2 && (forall m :: 0 <= m < hlChi2PerGroup.Length ==> hlChi2PerGroup[m].Finite?) ==>
                pValue.Finite? && 0.0 <= pValue.value <= 1.0
      ensures groups.Length > 2 && (exists m :: 0 <= m < hlChi2PerGroup.Length && hlChi2PerGroup[m].NaN?) ==>
                pValue.NaN?
    {
      Chi2TermsNotNegativeInfinity(sqrt, cdf);
      var chi2s := hlChi2PerGroup[..];
      PValueCases(degreesOfFreedom, chi2s, cdf);
      if exists m :: 0 <= m < hlChi2PerGroup.Length && hlChi2PerGroup[m].PositiveInfinity? {
        var m :| 0 <= m < hlChi2PerGroup.Length && hlChi2PerGroup[m].PositiveInfinity?;
        assert chi2s[m].PositiveInfinity?;
      }
      if exists m :: 0 <= m < hlChi2PerGroup.Length && hlChi2PerGroup[m].NaN? {
        var m :| 0 <= m < hlChi2PerGroup.Length && hlChi2PerGroup[m].NaN?;
        assert chi2s[m].NaN?;
      }
    }
  }

  /**
   * Building a calibration from a list of pairs: the constructor rejects an
   * empty list (`IllegalArgumentException`), otherwise the result holds the
   * pairs sorted by prediction and is valid.
   */
  method NewHosmerLemeshow(observedPredictedValues: seq<ObservedPredictedValue>, groupType: GroupType, sqrt: Double -> Double, cdf: (int, Double) -> Double)
    returns (r: Result<HosmerLemeshow>)
    ensures r.Failure? <==> |observedPredictedValues| == 0
    ensures r.Success? ==> r.value.groupType == groupType && r.value.Valid(sqrt, cdf)
    ensures r.Success? ==> r.value.Data() == SortAscending(observedPredictedValues, Prediction)
  {
    if |observedPredictedValues| == 0 {
      return Failure("A list of data containing both observed value and predicted value is required.");
    }
    var calibration := new HosmerLemeshow(observedPredictedValues, groupType, sqrt, cdf);
    return Success(calibration);
  }
}
