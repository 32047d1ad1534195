// The Hosmer–Lemeshow grouping shared by the calibration classes and by the
// older goodness-of-fit test: how the ascending predictions are cut into
// groups, what each group records, the chi-squared p-value and the three
// calibration errors. The loops of both variants are proved against the
// functions here.

module HosmerLemeshowGroups {
  import opened Data
  import opened JavaDouble

  /** The two groupings a test is built with: by deciles of the data or by tenths of the probability scale. */
  datatype GroupType = DecileGroups | RiskGroups

  /**
   * How a grouping cuts the sorted predictions: at the prediction of each
   * decile index, at the tenths k/10 of the calibration classes' risk
   * grouping, or at the multiples k·`FloatTenth` the older test's risk
   * grouping reaches by adding the float 1/10.
   */
  datatype Cut = DecileCut | RiskCut | FloatRiskCut

  /** The cut of the calibration classes' grouping. */
  function CutOf(groupType: GroupType): (cut: Cut)
    ensures cut.DecileCut? <==> groupType.DecileGroups?
    ensures !cut.FloatRiskCut?
  {
    match groupType
    case DecileGroups => DecileCut
    case RiskGroups => RiskCut
  }

  /**
   * `1.0f / NUM_OF_INTERVAL`: the float nearest 1/10, 13421773 / 2^27, as it
   * is widened to a double. Its multiples k·FloatTenth have at most 53
   * significant bits for k below 2^26, so the double sums the older test's
   * risk loop forms are these multiples exactly.
   */
  const FloatTenth: real := 0.100000001490116119384765625

  /** `NUM_OF_INTERVAL`: the predictions are meant to fall into ten intervals. */
  const NumOfInterval: int := 10

  /** `CRITICAL_VALUE`: the 97.5% normal quantile that scales each group's margin of error. */
  const CriticalValue: real := 1.96

  // ---------------------------------------------------------------------
  // Cutting the sorted predictions
  // ---------------------------------------------------------------------

  /**
   * The cut-off of group `k` (numbered from 1). Decile groups take the
   * prediction at index ⌊k/10 · n⌋, or the last one once that index passes
   * the end; risk groups take k/10, or k·`FloatTenth` in the older test.
   */
  function Threshold(cut: Cut, data: seq<ObservedPredictedValue>, k: int): (t: real)
    requires |data| > 0 && k >= 1
    ensures cut.DecileCut? && k >= NumOfInterval ==> t == data[|data| - 1].predictedValue
    ensures cut.RiskCut? ==> t * NumOfInterval as real == k as real
    ensures cut.FloatRiskCut? ==> t == k as real * FloatTenth
  {
    match cut
    case DecileCut =>
      var upper := UpperIndex(k, |data|);
      if upper >= |data| then data[|data| - 1].predictedValue else data[upper].predictedValue
    case RiskCut => k as real / NumOfInterval as real
    case FloatRiskCut => k as real * FloatTenth
  }

  /** k/10, the `percent` of the decile grouping and the cut-off of the risk grouping after k groups. */
  function Tenths(k: int): (p: real)
    ensures p * NumOfInterval as real == k as real
  {
    k as real / NumOfInterval as real
  }

  /** The next tenth: adding 1/10 to k/10 gives (k + 1)/10. */
  lemma TenthsStep(k: int)
    ensures Tenths(k) + 1.0 / NumOfInterval as real == Tenths(k + 1)
    ensures Tenths(k) + 0.1 == Tenths(k + 1)
  {
  }

  /** The risk cut-off of group k is k/10. */
  lemma RiskThresholdAt(data: seq<ObservedPredictedValue>, k: int)
    requires |data| > 0 && k >= 1
    ensures Threshold(RiskCut, data, k) == Tenths(k)
  {
  }

  /** `(int) (percent * size)` with `percent` = k/10: reaches `size` from the tenth group on. */
  function UpperIndex(k: int, size: nat): (u: int)
    requires k >= 1
    ensures u >= 0
    ensures k >= NumOfInterval ==> u >= size
  {
    var product := Tenths(k) * size as real;
    ProductBounds(Tenths(k), size as real);
    product.Floor
  }

  /** The decile cut-off is the prediction at the upper index, or the last one once that index passes the end. */
  lemma DecileThresholdAt(data: seq<ObservedPredictedValue>, k: int, upper: int)
    requires |data| > 0 && k >= 1 && upper == UpperIndex(k, |data|)
    ensures 0 <= upper
    ensures upper >= |data| ==> Threshold(DecileCut, data, k) == data[|data| - 1].predictedValue
    ensures upper < |data| ==> Threshold(DecileCut, data, k) == data[upper].predictedValue
  {
  }

  /** The decile loop's `percent`, kept as k/10, gives `UpperIndex`. */
  lemma UpperIndexOf(percent: real, k: int, size: nat)
    requires k >= 1 && percent == Tenths(k)
    ensures (percent * size as real).Floor == UpperIndex(k, size)
  {
  }

  lemma ProductBounds(a: real, b: real)
    requires a >= 0.0 && b >= 0.0
    ensures a * b >= 0.0
    ensures a >= 1.0 ==> a * b >= b
  {
    NonNegativeProduct(a, b);
    if a >= 1.0 {
      ScaleAtLeast(a, b);
    }
  }

  lemma NonNegativeProduct(a: real, b: real)
    requires a >= 0.0 && b >= 0.0
    ensures a * b >= 0.0
  {
  }

  lemma ScaleAtLeast(a: real, b: real)
    requires a >= 1.0 && b >= 0.0
    ensures a * b >= b
  {
    assert a * b - b == (a - 1.0) * b;
    NonNegativeProduct(a - 1.0, b);
  }

  /** Whether the group with cut-off `threshold` takes a prediction: at or below it for decile groups, strictly below for risk groups. */
  predicate Admits(cut: Cut, value: real, threshold: real)
  {
    match cut
    case DecileCut => value <= threshold
    case RiskCut => value < threshold
    case FloatRiskCut => value < threshold
  }

  /** The last prediction is the largest; the ascending sort guarantees it, and it is all the grouping loops need to end. */
  ghost predicate LastIsLargest(data: seq<ObservedPredictedValue>)
  {
    forall m :: 0 <= m < |data| ==> data[m].predictedValue <= data[|data| - 1].predictedValue
  }

  lemma AscendingLastIsLargest(data: seq<ObservedPredictedValue>)
    requires Ascending(data, Prediction)
    ensures LastIsLargest(data)
  {
    forall m | 0 <= m < |data| - 1
      ensures data[m].predictedValue <= data[|data| - 1].predictedValue
    {
      assert Prediction(data[m]) <= Prediction(data[|data| - 1]);
    }
  }

  /** The end of the run of predictions from index `i` on that the cut-off admits. */
  function RunEnd(cut: Cut, data: seq<ObservedPredictedValue>, i: nat, threshold: real): (j: nat)
    requires i <= |data|
    ensures i <= j <= |data|
    decreases |data| - i
  {
    if i == |data| || !Admits(cut, data[i].predictedValue, threshold) then i
    else RunEnd(cut, data, i + 1, threshold)
  }

  /** The cut-off admits every prediction of the run and not the one right after it. */
  lemma {:induction false} RunEndAdmits(cut: Cut, data: seq<ObservedPredictedValue>, i: nat, threshold: real)
    requires i <= |data|
    ensures var j := RunEnd(cut, data, i, threshold);
            && (forall m :: i <= m < j ==> Admits(cut, data[m].predictedValue, threshold))
            && (j < |data| ==> !Admits(cut, data[j].predictedValue, threshold))
    decreases |data| - i
  {
    if i < |data| && Admits(cut, data[i].predictedValue, threshold) {
      RunEndAdmits(cut, data, i + 1, threshold);
    }
  }

  /**
   * A group number below which every empty group lies while predictions
   * remain: 10 for decile groups, one more than the largest prediction
   * divided by the risk step for risk groups. It bounds the outer loops.
   */
  function LastGroupBound(cut: Cut, data: seq<ObservedPredictedValue>): int
  {
    if |data| == 0 then 0
    else
      match cut
      case DecileCut => NumOfInterval
      case RiskCut => (NumOfInterval as real * data[|data| - 1].predictedValue).Floor + 1
      case FloatRiskCut => (data[|data| - 1].predictedValue / FloatTenth).Floor + 1
  }

  /** While predictions remain, a group that takes none of them has a number below `LastGroupBound`. */
  lemma EmptyGroupBelowBound(cut: Cut, data: seq<ObservedPredictedValue>, i: nat, k: int)
    requires LastIsLargest(data)
    requires i < |data| && k >= 1
    requires RunEnd(cut, data, i, Threshold(cut, data, k)) == i
    ensures k < LastGroupBound(cut, data)
  {
    RunEndAdmits(cut, data, i, Threshold(cut, data, k));
    var last := |data| - 1;
    assert data[i].predictedValue <= data[last].predictedValue;
    match cut
    case DecileCut =>
    case RiskCut =>
      assert k as real <= NumOfInterval as real * data[last].predictedValue;
    case FloatRiskCut =>
      assert k as real * FloatTenth <= data[last].predictedValue;
  }

  /** A recorded group has at least one member. */
  type GroupSize = n: int | n >= 1 witness 1

  /** What one non-empty group records: its number, its size, how many of it are positive and the sum of its predictions. */
  datatype Group = Group(number: int, size: GroupSize, positives: nat, predictedSum: real)

  /** How many of data[i..j] are positive (observed class 1). */
  function PositivesBetween(data: seq<ObservedPredictedValue>, i: nat, j: nat): (n: nat)
    requires i <= j <= |data|
    ensures n <= j - i
    decreases j - i
  {
    if i == j then 0 else PositivesBetween(data, i, j - 1) + (if data[j - 1].observedValue == 1 then 1 else 0)
  }

  /**
   * The grouping loops' invariant: the groups recorded so far, followed by
   * the groups numbered from k that start at index i, are all the groups.
   */
  ghost predicate RecordedBefore(cut: Cut, data: seq<ObservedPredictedValue>, i: nat, k: int, recorded: seq<Group>, all: seq<Group>)
  {
    LastIsLargest(data) && i <= |data| && k >= 1 && recorded + GroupsFrom(cut, data, i, k) == all
  }

  /**
   * One step of the grouping loops: group k takes the run data[i..j]; when it
   * is empty the next group starts at the same place, otherwise it is
   * recorded and the groups after it start at j.
   */
  lemma NextGroup(cut: Cut, data: seq<ObservedPredictedValue>, i: nat, k: int, j: nat, recorded: seq<Group>, all: seq<Group>)
    requires RecordedBefore(cut, data, i, k, recorded, all) && i < |data|
    requires j == RunEnd(cut, data, i, Threshold(cut, data, k))
    ensures j == i ==> k < LastGroupBound(cut, data) && RecordedBefore(cut, data, i, k + 1, recorded, all)
    ensures j > i ==> RecordedBefore(cut, data, j, k + 1, recorded + [Group(k, j - i, PositivesBetween(data, i, j), PredictionsBetween(data, i, j))], all)
  {
    GroupsFromStep(cut, data, i, k);
    if j > i {
      var g := Group(k, j - i, PositivesBetween(data, i, j), PredictionsBetween(data, i, j));
      var rest := GroupsFrom(cut, data, j, k + 1);
      assert recorded + ([g] + rest) == (recorded + [g]) + rest;
    }
  }

  /** Once the data is used up, the recorded groups are all the groups. */
  lemma RecordedAll(cut: Cut, data: seq<ObservedPredictedValue>, k: int, recorded: seq<Group>, all: seq<Group>)
    requires RecordedBefore(cut, data, |data|, k, recorded, all)
    ensures recorded == all
  {
    assert recorded + [] == recorded;
  }

  /**
   * The counting loops' invariant: the groups counted so far plus the
   * groups numbered from k that start at index i make `total`.
   */
  ghost predicate CountedBefore(cut: Cut, data: seq<ObservedPredictedValue>, i: nat, k: int, count: int, total: int)
  {
    LastIsLargest(data) && i <= |data| && k >= 1 && count + |GroupsFrom(cut, data, i, k)| == total
  }

  /** One step of the counting loops: a group that takes a non-empty run is counted, an empty one is not. */
  lemma NextCount(cut: Cut, data: seq<ObservedPredictedValue>, i: nat, k: int, j: nat, count: int, total: int)
    requires CountedBefore(cut, data, i, k, count, total) && i < |data|
    requires j == RunEnd(cut, data, i, Threshold(cut, data, k))
    ensures j == i ==> k < LastGroupBound(cut, data) && CountedBefore(cut, data, i, k + 1, count, total)
    ensures j > i ==> CountedBefore(cut, data, j, k + 1, count + 1, total)
  {
    GroupsFromStep(cut, data, i, k);
  }

  /** Once the data is used up, the count is the number of groups. */
  lemma CountedAll(cut: Cut, data: seq<ObservedPredictedValue>, k: int, count: int, total: int)
    requires CountedBefore(cut, data, |data|, k, count, total)
    ensures count == total
  {
  }

  /** The loops' step: a run admitting `data[i]` ends where the run from i + 1 ends. */
  lemma RunEndStep(cut: Cut, data: seq<ObservedPredictedValue>, i: nat, threshold: real)
    requires i < |data| && Admits(cut, data[i].predictedValue, threshold)
    ensures RunEnd(cut, data, i, threshold) == RunEnd(cut, data, i + 1, threshold)
  {
  }

  /** The loops' exit: a run stops at the end of the data or at a prediction its cut-off does not admit. */
  lemma RunEndStop(cut: Cut, data: seq<ObservedPredictedValue>, i: nat, threshold: real)
    requires i <= |data|
    requires i < |data| ==> !Admits(cut, data[i].predictedValue, threshold)
    ensures RunEnd(cut, data, i, threshold) == i
  {
  }

  /** The sum of the predictions of data[i..j], added from index i on as the loops add them. */
  function PredictionsBetween(data: seq<ObservedPredictedValue>, i: nat, j: nat): real
    requires i <= j <= |data|
    decreases j - i
  {
    if i == j then 0.0 else PredictionsBetween(data, i, j - 1) + data[j - 1].predictedValue
  }

  /**
   * The non-empty groups from index `i` on, numbering from `k`: group k takes
   * the run of remaining predictions its cut-off admits; a group that takes
   * nothing is not recorded but still uses up its number.
   */
  function GroupsFrom(cut: Cut, data: seq<ObservedPredictedValue>, i: nat, k: int): seq<Group>
    requires LastIsLargest(data)
    requires i <= |data| && k >= 1
    decreases |data| - i, LastGroupBound(cut, data) - k
  {
    if i == |data| then []
    else
      var j := RunEnd(cut, data, i, Threshold(cut, data, k));
      if j == i then
        EmptyGroupBelowBound(cut, data, i, k);
        GroupsFrom(cut, data, i, k + 1)
      else
        [Group(k, j - i, PositivesBetween(data, i, j), PredictionsBetween(data, i, j))] + GroupsFrom(cut, data, j, k + 1)
  }

  /** The groups of the ascending data, numbered from 1. */
  function Groups(cut: Cut, data: seq<ObservedPredictedValue>): seq<Group>
    requires Ascending(data, Prediction)
  {
    AscendingLastIsLargest(data);
    GroupsFrom(cut, data, 0, 1)
  }

  /** One step of `GroupsFrom`, as the loops take it. */
  lemma GroupsFromStep(cut: Cut, data: seq<ObservedPredictedValue>, i: nat, k: int)
    requires LastIsLargest(data)
    requires i < |data| && k >= 1
    ensures var j := RunEnd(cut, data, i, Threshold(cut, data, k));
            && (j == i ==> k < LastGroupBound(cut, data)
                           && GroupsFrom(cut, data, i, k) == GroupsFrom(cut, data, i, k + 1))
            && (j > i ==> GroupsFrom(cut, data, i, k)
                          == [Group(k, j - i, PositivesBetween(data, i, j), PredictionsBetween(data, i, j))]
                             + GroupsFrom(cut, data, j, k + 1))
  {
    if RunEnd(cut, data, i, Threshold(cut, data, k)) == i {
      EmptyGroupBelowBound(cut, data, i, k);
    }
  }

  // ---------------------------------------------------------------------
  // What the groups cover
  // ---------------------------------------------------------------------

  /** The sum of the integers, added from the first. */
  function SumOf(xs: seq<int>): int
  {
    if |xs| == 0 then 0 else SumOf(xs[..|xs| - 1]) + xs[|xs| - 1]
  }

  lemma {:induction false} SumOfCons(x: int, xs: seq<int>)
    ensures SumOf([x] + xs) == x + SumOf(xs)
    decreases |xs|
  {
    if |xs| > 0 {
      SumOfCons(x, xs[..|xs| - 1]);
      assert ([x] + xs)[..|xs|] == [x] + xs[..|xs| - 1];
    }
  }

  /** `groups`: the number of every group. */
  function GroupNumbers(gs: seq<Group>): (r: seq<int>)
    ensures |r| == |gs| && forall m :: 0 <= m < |gs| ==> r[m] == gs[m].number
  {
    seq(|gs|, m requires 0 <= m < |gs| => gs[m].number)
  }

  /** `numberOfDataPerGroup`: the size of every group. */
  function GroupSizes(gs: seq<Group>): (r: seq<int>)
    ensures |r| == |gs| && forall m :: 0 <= m < |gs| ==> r[m] == gs[m].size
  {
    seq(|gs|, m requires 0 <= m < |gs| => gs[m].size as int)
  }

  /** `positiveObservedSumPerGroup`: the positive count of every group. */
  function GroupPositives(gs: seq<Group>): (r: seq<int>)
    ensures |r| == |gs| && forall m :: 0 <= m < |gs| ==> r[m] == gs[m].positives
  {
    seq(|gs|, m requires 0 <= m < |gs| => gs[m].positives as int)
  }

  /** `predictedSumPerGroup`: the prediction sum of every group. */
  function GroupPredictedSums(gs: seq<Group>): (r: seq<real>)
    ensures |r| == |gs| && forall m :: 0 <= m < |gs| ==> r[m] == gs[m].predictedSum
  {
    seq(|gs|, m requires 0 <= m < |gs| => gs[m].predictedSum)
  }

  /** The total size of the groups, from the first. */
  function TotalSize(gs: seq<Group>): int
  {
    if |gs| == 0 then 0 else gs[0].size + TotalSize(gs[1..])
  }

  /** The total positive count of the groups, from the first. */
  function TotalPositives(gs: seq<Group>): int
  {
    if |gs| == 0 then 0 else gs[0].positives + TotalPositives(gs[1..])
  }

  lemma {:induction false} SumOfSizes(gs: seq<Group>)
    ensures SumOf(GroupSizes(gs)) == TotalSize(gs)
    ensures SumOf(GroupPositives(gs)) == TotalPositives(gs)
    decreases |gs|
  {
    if |gs| > 0 {
      SumOfSizes(gs[1..]);
      assert GroupSizes(gs) == [gs[0].size as int] + GroupSizes(gs[1..]);
      assert GroupPositives(gs) == [gs[0].positives as int] + GroupPositives(gs[1..]);
      SumOfCons(gs[0].size, GroupSizes(gs[1..]));
      SumOfCons(gs[0].positives, GroupPositives(gs[1..]));
    }
  }

  lemma {:induction false} PositivesSplit(data: seq<ObservedPredictedValue>, i: nat, j: nat, l: nat)
    requires i <= j <= l <= |data|
    ensures PositivesBetween(data, i, l) == PositivesBetween(data, i, j) + PositivesBetween(data, j, l)
    decreases l - j
  {
    if l > j {
      PositivesSplit(data, i, j, l - 1);
    }
  }

  lemma {:induction false} PositivesBetweenCount(data: seq<ObservedPredictedValue>, j: nat)
    requires j <= |data|
    ensures PositivesBetween(data, 0, j) == CountObserved(data[..j], 1)
  {
    if j > 0 {
      PositivesBetweenCount(data, j - 1);
      assert data[..j][..j - 1] == data[..j - 1];
    }
  }

  lemma {:induction false} GroupsFromTotals(cut: Cut, data: seq<ObservedPredictedValue>, i: nat, k: int)
    requires LastIsLargest(data)
    requires i <= |data| && k >= 1
    ensures TotalSize(GroupsFrom(cut, data, i, k)) == |data| - i
    ensures TotalPositives(GroupsFrom(cut, data, i, k)) == PositivesBetween(data, i, |data|)
    decreases |data| - i, LastGroupBound(cut, data) - k
  {
    if i < |data| {
      GroupsFromStep(cut, data, i, k);
      var j := RunEnd(cut, data, i, Threshold(cut, data, k));
      if j == i {
        GroupsFromTotals(cut, data, i, k + 1);
      } else {
        var rest := GroupsFrom(cut, data, j, k + 1);
        GroupsFromTotals(cut, data, j, k + 1);
        assert GroupsFrom(cut, data, i, k)[1..] == rest;
        PositivesSplit(data, i, j, |data|);
      }
    }
  }

  /** Every prediction lands in exactly one group: the sizes add up to the number of predictions and the positive counts to the number of positives. */
  lemma GroupsCoverData(cut: Cut, data: seq<ObservedPredictedValue>)
    requires Ascending(data, Prediction)
    ensures SumOf(GroupSizes(Groups(cut, data))) == |data|
    ensures SumOf(GroupPositives(Groups(cut, data))) == CountObserved(data, 1)
  {
    AscendingLastIsLargest(data);
    GroupsFromTotals(cut, data, 0, 1);
    SumOfSizes(Groups(cut, data));
    PositivesBetweenCount(data, |data|);
    assert data[..|data|] == data;
  }

  /** Where group `m` starts: the total size of the groups before it. */
  function Offset(gs: seq<Group>, m: nat): nat
    requires m <= |gs|
  {
    if m == 0 then 0 else Offset(gs, m - 1) + gs[m - 1].size
  }

  lemma {:induction false} OffsetCons(g: Group, gs: seq<Group>, m: nat)
    requires m <= |gs|
    ensures Offset([g] + gs, m + 1) == g.size + Offset(gs, m)
  {
    if m > 0 {
      OffsetCons(g, gs, m - 1);
    }
  }

  /**
   * Group `g` is the run of `size` predictions from `start`: it records
   * their positives and their prediction sum, and the prediction right
   * after the run is strictly greater than the run's last one.
   */
  ghost predicate Covers(data: seq<ObservedPredictedValue>, start: nat, g: Group)
  {
    && start + g.size <= |data|
    && g.positives == PositivesBetween(data, start, start + g.size)
    && g.predictedSum == PredictionsBetween(data, start, start + g.size)
    && (start + g.size < |data| ==> data[start + g.size - 1].predictedValue < data[start + g.size].predictedValue)
  }

  /** `gs` cuts data[i..] into consecutive runs, one per group, in order. */
  ghost predicate CutsFrom(data: seq<ObservedPredictedValue>, i: nat, gs: seq<Group>)
    decreases |gs|
  {
    if |gs| == 0 then i == |data|
    else Covers(data, i, gs[0]) && CutsFrom(data, i + gs[0].size, gs[1..])
  }

  lemma {:induction false} GroupsFromCut(cut: Cut, data: seq<ObservedPredictedValue>, i: nat, k: int)
    requires LastIsLargest(data)
    requires i <= |data| && k >= 1
    ensures CutsFrom(data, i, GroupsFrom(cut, data, i, k))
    decreases |data| - i, LastGroupBound(cut, data) - k
  {
    if i < |data| {
      GroupsFromStep(cut, data, i, k);
      var t := Threshold(cut, data, k);
      var j := RunEnd(cut, data, i, t);
      if j == i {
        GroupsFromCut(cut, data, i, k + 1);
      } else {
        var gs := GroupsFrom(cut, data, i, k);
        GroupsFromCut(cut, data, j, k + 1);
        assert gs[1..] == GroupsFrom(cut, data, j, k + 1);
        RunEndAdmits(cut, data, i, t);
        if j < |data| {
          assert Admits(cut, data[j - 1].predictedValue, t);
        }
      }
    }
  }

  /** Runs cut one after the other end where the data ends. */
  lemma {:induction false} CutsEnd(data: seq<ObservedPredictedValue>, i: nat, gs: seq<Group>)
    requires CutsFrom(data, i, gs)
    ensures i + Offset(gs, |gs|) == |data|
    decreases |gs|
  {
    if |gs| > 0 {
      var rest := gs[1..];
      CutsEnd(data, i + gs[0].size, rest);
      assert gs == [gs[0]] + rest;
      OffsetCons(gs[0], rest, |rest|);
    }
  }

  /** Run `m` starts where the sizes of the runs before it add up to. */
  lemma {:induction false} CutAt(data: seq<ObservedPredictedValue>, i: nat, gs: seq<Group>, m: nat)
    requires CutsFrom(data, i, gs) && m < |gs|
    ensures Covers(data, i + Offset(gs, m), gs[m])
    decreases m
  {
    if m > 0 {
      var rest := gs[1..];
      CutAt(data, i + gs[0].size, rest, m - 1);
      assert gs == [gs[0]] + rest;
      OffsetCons(gs[0], rest, m - 1);
    }
  }

  /** Where run `m` begins, the prediction is strictly greater than the one before it. */
  lemma CutIncreasesAt(data: seq<ObservedPredictedValue>, i: nat, gs: seq<Group>, m: nat)
    requires CutsFrom(data, i, gs) && 0 < m < |gs|
    ensures 0 < i + Offset(gs, m) < |data|
    ensures data[i + Offset(gs, m) - 1].predictedValue < data[i + Offset(gs, m)].predictedValue
  {
    CutAt(data, i, gs, m - 1);
    CutAt(data, i, gs, m);
  }

  /**
   * `gs` cuts `data` into consecutive runs that together hold every
   * prediction once, and never splits equal predictions: where one run ends
   * and the next begins the prediction strictly increases.
   */
  ghost predicate PartitionsData(data: seq<ObservedPredictedValue>, gs: seq<Group>)
  {
    && Offset(gs, |gs|) == |data|
    && (forall m :: 0 <= m < |gs| ==> Covers(data, Offset(gs, m), gs[m]))
    && (forall m :: 0 < m < |gs| ==> 0 < Offset(gs, m) < |data| && data[Offset(gs, m) - 1].predictedValue < data[Offset(gs, m)].predictedValue)
  }

  lemma CutsPartition(data: seq<ObservedPredictedValue>, gs: seq<Group>)
    requires CutsFrom(data, 0, gs)
    ensures PartitionsData(data, gs)
  {
    CutsEnd(data, 0, gs);
    forall m | 0 <= m < |gs|
      ensures Covers(data, Offset(gs, m), gs[m])
    {
      CutAt(data, 0, gs, m);
    }
    forall m | 0 < m < |gs|
      ensures 0 < Offset(gs, m) < |data| && data[Offset(gs, m) - 1].predictedValue < data[Offset(gs, m)].predictedValue
    {
      CutIncreasesAt(data, 0, gs, m);
    }
  }

  /** The groups partition the ascending data without splitting a tie. */
  lemma GroupsPartitionData(cut: Cut, data: seq<ObservedPredictedValue>)
    requires Ascending(data, Prediction)
    ensures PartitionsData(data, Groups(cut, data))
  {
    AscendingLastIsLargest(data);
    GroupsFromCut(cut, data, 0, 1);
    CutsPartition(data, Groups(cut, data));
  }

  /** Each group counts at most as many positives as it has members. */
  lemma GroupPositivesAtMostSize(cut: Cut, data: seq<ObservedPredictedValue>)
    requires Ascending(data, Prediction)
    ensures forall m :: 0 <= m < |Groups(cut, data)| ==> Groups(cut, data)[m].positives <= Groups(cut, data)[m].size
  {
    AscendingLastIsLargest(data);
    var gs := Groups(cut, data);
    GroupsFromCut(cut, data, 0, 1);
    forall m | 0 <= m < |gs|
      ensures gs[m].positives <= gs[m].size
    {
      CutAt(data, 0, gs, m);
    }
  }

  /** Every prediction is a probability, in [0, 1]. */
  ghost predicate PredictionsInUnit(data: seq<ObservedPredictedValue>)
  {
    forall t :: 0 <= t < |data| ==> 0.0 <= data[t].predictedValue <= 1.0
  }

  /** A sum of j − i probabilities lies between 0 and j − i. */
  lemma {:induction false} PredictionsBetweenBounds(data: seq<ObservedPredictedValue>, i: nat, j: nat)
    requires i <= j <= |data| && PredictionsInUnit(data)
    ensures 0.0 <= PredictionsBetween(data, i, j) <= (j - i) as real
    decreases j - i
  {
    if i < j {
      PredictionsBetweenBounds(data, i, j - 1);
    }
  }

  /** Over probabilities, each group's prediction sum lies between 0 and its size. */
  lemma GroupPredictionsAtMostSize(cut: Cut, data: seq<ObservedPredictedValue>)
    requires Ascending(data, Prediction) && PredictionsInUnit(data)
    ensures forall m :: 0 <= m < |Groups(cut, data)| ==> 0.0 <= Groups(cut, data)[m].predictedSum <= Groups(cut, data)[m].size as real
  {
    AscendingLastIsLargest(data);
    var gs := Groups(cut, data);
    GroupsFromCut(cut, data, 0, 1);
    forall m | 0 <= m < |gs|
      ensures 0.0 <= gs[m].predictedSum <= gs[m].size as real
    {
      CutAt(data, 0, gs, m);
      var start := Offset(gs, m);
      PredictionsBetweenBounds(data, start, start + gs[m].size);
    }
  }

  // ---------------------------------------------------------------------
  // Group numbers
  // ---------------------------------------------------------------------

  /** The numbers of `gs` are at least `k` and strictly increase. */
  ghost predicate NumberedFrom(gs: seq<Group>, k: int)
  {
    && (forall m :: 0 <= m < |gs| ==> k <= gs[m].number)
    && (forall m, n :: 0 <= m < n < |gs| ==> gs[m].number < gs[n].number)
  }

  lemma {:induction false} GroupsFromNumbered(cut: Cut, data: seq<ObservedPredictedValue>, i: nat, k: int)
    requires LastIsLargest(data)
    requires i <= |data| && k >= 1
    ensures NumberedFrom(GroupsFrom(cut, data, i, k), k)
    decreases |data| - i, LastGroupBound(cut, data) - k
  {
    if i < |data| {
      GroupsFromStep(cut, data, i, k);
      var j := RunEnd(cut, data, i, Threshold(cut, data, k));
      if j == i {
        GroupsFromNumbered(cut, data, i, k + 1);
      } else {
        var gs := GroupsFrom(cut, data, i, k);
        var rest := GroupsFrom(cut, data, j, k + 1);
        GroupsFromNumbered(cut, data, j, k + 1);
        forall m, n | 0 <= m < n < |gs|
          ensures gs[m].number < gs[n].number
        {
          assert gs[n] == rest[n - 1];
          if m > 0 {
            assert gs[m] == rest[m - 1];
          }
        }
      }
    }
  }

  /** The recorded group numbers start at 1 and strictly increase; numbers of empty groups are skipped. */
  lemma GroupNumbersIncrease(cut: Cut, data: seq<ObservedPredictedValue>)
    requires Ascending(data, Prediction)
    ensures var gs := Groups(cut, data);
            && (forall m :: 0 <= m < |gs| ==> 1 <= gs[m].number)
            && (forall m, n :: 0 <= m < n < |gs| ==> gs[m].number < gs[n].number)
  {
    AscendingLastIsLargest(data);
    GroupsFromNumbered(cut, data, 0, 1);
  }

  lemma {:induction false} DecileNumbersFrom(data: seq<ObservedPredictedValue>, i: nat, k: int)
    requires LastIsLargest(data)
    requires i <= |data| && 1 <= k <= NumOfInterval
    ensures forall m :: 0 <= m < |GroupsFrom(DecileCut, data, i, k)| ==> GroupsFrom(DecileCut, data, i, k)[m].number <= NumOfInterval
    decreases |data| - i, LastGroupBound(DecileCut, data) - k
  {
    if i < |data| {
      GroupsFromStep(DecileCut, data, i, k);
      var t := Threshold(DecileCut, data, k);
      var j := RunEnd(DecileCut, data, i, t);
      if j == i {
        DecileNumbersFrom(data, i, k + 1);
      } else if k < NumOfInterval {
        DecileNumbersFrom(data, j, k + 1);
        var gs := GroupsFrom(DecileCut, data, i, k);
        forall m | 0 < m < |gs|
          ensures gs[m].number <= NumOfInterval
        {
          assert gs[m] == GroupsFrom(DecileCut, data, j, k + 1)[m - 1];
        }
      } else {
        RunEndAdmits(DecileCut, data, i, t);
        if j < |data| {
          assert false;
        }
        assert GroupsFrom(DecileCut, data, j, k + 1) == [];
      }
    }
  }

  /** The numbers in `gs` strictly increase within [lo, hi], so there are at most hi − lo + 1 of them. */
  lemma {:induction false} IncreasingWithin(gs: seq<Group>, lo: int, hi: int)
    requires forall m :: 0 <= m < |gs| ==> lo <= gs[m].number <= hi
    requires forall m, n :: 0 <= m < n < |gs| ==> gs[m].number < gs[n].number
    ensures |gs| <= if hi >= lo then hi - lo + 1 else 0
    decreases |gs|
  {
    if |gs| > 0 {
      forall m | 0 <= m < |gs[1..]|
        ensures gs[0].number + 1 <= gs[1..][m].number
      {
        assert gs[1..][m] == gs[m + 1];
      }
      IncreasingWithin(gs[1..], gs[0].number + 1, hi);
    }
  }

  /** Decile groups are numbered within 1..10, so there are at most ten of them. */
  lemma DecileGroupsAtMostTen(data: seq<ObservedPredictedValue>)
    requires Ascending(data, Prediction)
    ensures forall m :: 0 <= m < |Groups(DecileCut, data)| ==> 1 <= Groups(DecileCut, data)[m].number <= NumOfInterval
    ensures |Groups(DecileCut, data)| <= NumOfInterval
  {
    AscendingLastIsLargest(data);
    var gs := Groups(DecileCut, data);
    DecileNumbersFrom(data, 0, 1);
    GroupsFromNumbered(DecileCut, data, 0, 1);
    IncreasingWithin(gs, 1, NumOfInterval);
  }

  /** The risk group of a prediction `v`: ⌊10·v⌋ + 1, and group 1 for everything below 1/10. */
  function RiskGroupNumber(v: real): (k: int)
    ensures k >= 1
    ensures (k - 1) as real <= NumOfInterval as real * v || k == 1
    ensures NumOfInterval as real * v < k as real
    ensures v <= 1.0 ==> k <= NumOfInterval + 1
  {
    var scaled := NumOfInterval as real * v;
    if scaled < 1.0 then 1 else scaled.Floor + 1
  }

  /** Every prediction of `g`, the run from `start`, has `g`'s number as its risk group number. */
  ghost predicate RiskRun(data: seq<ObservedPredictedValue>, start: nat, g: Group)
  {
    forall x :: start <= x < start + g.size && x < |data| ==> g.number == RiskGroupNumber(data[x].predictedValue)
  }

  /** Each group of `gs`, cut one after the other from `i`, is a risk run. */
  ghost predicate RiskNumbered(data: seq<ObservedPredictedValue>, i: nat, gs: seq<Group>)
    decreases |gs|
  {
    |gs| > 0 ==> RiskRun(data, i, gs[0]) && RiskNumbered(data, i + gs[0].size, gs[1..])
  }

  /** A prediction v with k − 1 <= 10·v < k (or just 10·v < 1 for k = 1) has risk group number k. */
  lemma RiskNumberOf(v: real, k: int)
    requires k >= 1 && NumOfInterval as real * v < k as real
    requires k >= 2 ==> NumOfInterval as real * v >= (k - 1) as real
    ensures RiskGroupNumber(v) == k
  {
  }

  /** The run risk group k takes from `i` has risk group number k throughout, and the prediction after it belongs to a later group. */
  lemma RiskRunFrom(data: seq<ObservedPredictedValue>, i: nat, k: int)
    requires Ascending(data, Prediction)
    requires i < |data| && k >= 1
    requires k >= 2 ==> NumOfInterval as real * data[i].predictedValue >= (k - 1) as real
    ensures var j := RunEnd(RiskCut, data, i, Threshold(RiskCut, data, k));
            && (forall x :: i <= x < j ==> k == RiskGroupNumber(data[x].predictedValue))
            && (j < |data| ==> NumOfInterval as real * data[j].predictedValue >= k as real)
  {
    var t := Threshold(RiskCut, data, k);
    var j := RunEnd(RiskCut, data, i, t);
    RunEndAdmits(RiskCut, data, i, t);
    forall x | i <= x < j
      ensures k == RiskGroupNumber(data[x].predictedValue)
    {
      assert Admits(RiskCut, data[x].predictedValue, t);
      if k >= 2 && x > i {
        assert Prediction(data[i]) <= Prediction(data[x]);
      }
      RiskNumberOf(data[x].predictedValue, k);
    }
  }

  lemma {:induction false} RiskNumbersFrom(data: seq<ObservedPredictedValue>, i: nat, k: int)
    requires Ascending(data, Prediction) && LastIsLargest(data)
    requires i <= |data| && k >= 1
    requires k >= 2 && i < |data| ==> NumOfInterval as real * data[i].predictedValue >= (k - 1) as real
    ensures RiskNumbered(data, i, GroupsFrom(RiskCut, data, i, k))
    decreases |data| - i, LastGroupBound(RiskCut, data) - k
  {
    if i < |data| {
      GroupsFromStep(RiskCut, data, i, k);
      var j := RunEnd(RiskCut, data, i, Threshold(RiskCut, data, k));
      RiskRunFrom(data, i, k);
      if j == i {
        EmptyGroupBelowBound(RiskCut, data, i, k);
        RiskNumbersFrom(data, i, k + 1);
      } else {
        var gs := GroupsFrom(RiskCut, data, i, k);
        RiskNumbersFrom(data, j, k + 1);
        assert gs[1..] == GroupsFrom(RiskCut, data, j, k + 1);
        assert RiskRun(data, i, gs[0]);
      }
    }
  }

  /** Risk runs cut one after the other start where the sizes before them add up to. */
  lemma {:induction false} RiskNumberedAtOffsets(data: seq<ObservedPredictedValue>, i: nat, gs: seq<Group>)
    requires RiskNumbered(data, i, gs)
    ensures forall m :: 0 <= m < |gs| ==> RiskRun(data, i + Offset(gs, m), gs[m])
    decreases |gs|
  {
    if |gs| > 0 {
      var rest := gs[1..];
      RiskNumberedAtOffsets(data, i + gs[0].size, rest);
      assert gs == [gs[0]] + rest;
      forall m | 0 < m < |gs|
        ensures RiskRun(data, i + Offset(gs, m), gs[m])
      {
        OffsetCons(gs[0], rest, m - 1);
        assert gs[m] == rest[m - 1];
      }
    }
  }

  /**
   * A risk group holds exactly the predictions v with ⌊10·v⌋ + 1 equal to its
   * number (those below 1/10 in group 1), so a prediction of exactly 1.0
   * forms group 11.
   */
  lemma RiskGroupsByTenths(data: seq<ObservedPredictedValue>)
    requires Ascending(data, Prediction)
    ensures var gs := Groups(RiskCut, data);
            forall m, x :: 0 <= m < |gs| && Offset(gs, m) <= x < Offset(gs, m) + gs[m].size && x < |data| ==>
              gs[m].number == RiskGroupNumber(data[x].predictedValue)
  {
    AscendingLastIsLargest(data);
    RiskNumbersFrom(data, 0, 1);
    var gs := Groups(RiskCut, data);
    RiskNumberedAtOffsets(data, 0, gs);
    forall m, x | 0 <= m < |gs| && Offset(gs, m) <= x < Offset(gs, m) + gs[m].size && x < |data|
      ensures gs[m].number == RiskGroupNumber(data[x].predictedValue)
    {
      assert RiskRun(data, Offset(gs, m), gs[m]);
    }
  }

  // ---------------------------------------------------------------------
  // The two risk cuts
  // ---------------------------------------------------------------------

  /**
   * No prediction lies at or above a tenth k/10 but below the float step's
   * k·FloatTenth, the only place the two risk cuts can part.
   */
  ghost predicate NoneInRiskGaps(data: seq<ObservedPredictedValue>)
  {
    forall m, k :: 0 <= m < |data| && k >= 1 ==> !(Tenths(k) <= data[m].predictedValue < k as real * FloatTenth)
  }

  /** Outside the gaps, the two risk cut-offs of group k admit the same predictions. */
  lemma RiskAdmitsAgree(data: seq<ObservedPredictedValue>, m: nat, k: int)
    requires NoneInRiskGaps(data) && m < |data| && k >= 1
    ensures Admits(RiskCut, data[m].predictedValue, Threshold(RiskCut, data, k))
            == Admits(FloatRiskCut, data[m].predictedValue, Threshold(FloatRiskCut, data, k))
  {
    assert Threshold(RiskCut, data, k) == Tenths(k);
    assert Tenths(k) < k as real * FloatTenth;
    assert !(Tenths(k) <= data[m].predictedValue < k as real * FloatTenth);
  }

  /** Outside the gaps, a run ends at the same place under both risk cuts. */
  lemma {:induction false} RiskRunEndsAgree(data: seq<ObservedPredictedValue>, i: nat, k: int)
    requires NoneInRiskGaps(data) && i <= |data| && |data| > 0 && k >= 1
    ensures RunEnd(RiskCut, data, i, Threshold(RiskCut, data, k))
            == RunEnd(FloatRiskCut, data, i, Threshold(FloatRiskCut, data, k))
    decreases |data| - i
  {
    if i < |data| {
      RiskAdmitsAgree(data, i, k);
      if Admits(RiskCut, data[i].predictedValue, Threshold(RiskCut, data, k)) {
        RiskRunEndsAgree(data, i + 1, k);
      }
    }
  }

  /**
   * Outside the gaps, the older test's risk grouping and the calibration
   * classes' one give the same groups.
   */
  lemma {:induction false} RiskCutsAgree(data: seq<ObservedPredictedValue>, i: nat, k: int)
    requires LastIsLargest(data) && NoneInRiskGaps(data) && i <= |data| && k >= 1
    ensures GroupsFrom(RiskCut, data, i, k) == GroupsFrom(FloatRiskCut, data, i, k)
    decreases |data| - i, LastGroupBound(RiskCut, data) - k
  {
    if i < |data| {
      GroupsFromStep(RiskCut, data, i, k);
      GroupsFromStep(FloatRiskCut, data, i, k);
      RiskRunEndsAgree(data, i, k);
      var j := RunEnd(RiskCut, data, i, Threshold(RiskCut, data, k));
      if j == i {
        RiskCutsAgree(data, i, k + 1);
      } else {
        RiskCutsAgree(data, j, k + 1);
      }
    }
  }

  /** Three predictions, one of them on a tenth: 0.5, 0.55 and 0.75. */
  function GapExample(): (data: seq<ObservedPredictedValue>)
    ensures LastIsLargest(data)
  {
    [ObservedPredictedValue(1, 0.5), ObservedPredictedValue(0, 0.55), ObservedPredictedValue(1, 0.75)]
  }

  /** A group number whose cut-off admits nothing more is skipped. */
  lemma SkipEmptyGroup(cut: Cut, data: seq<ObservedPredictedValue>, i: nat, k: int)
    requires LastIsLargest(data) && i < |data| && k >= 1
    requires !Admits(cut, data[i].predictedValue, Threshold(cut, data, k))
    ensures GroupsFrom(cut, data, i, k) == GroupsFrom(cut, data, i, k + 1)
  {
    GroupsFromStep(cut, data, i, k);
  }

  /** A group number whose cut-off admits exactly the one prediction at `i` takes it alone. */
  lemma SingletonGroup(cut: Cut, data: seq<ObservedPredictedValue>, i: nat, k: int)
    requires LastIsLargest(data) && i < |data| && k >= 1
    requires Admits(cut, data[i].predictedValue, Threshold(cut, data, k))
    requires i + 1 < |data| ==> !Admits(cut, data[i + 1].predictedValue, Threshold(cut, data, k))
    ensures GroupsFrom(cut, data, i, k)
            == [Group(k, 1, if data[i].observedValue == 1 then 1 else 0, data[i].predictedValue)]
               + GroupsFrom(cut, data, i + 1, k + 1)
  {
    GroupsFromStep(cut, data, i, k);
    assert RunEnd(cut, data, i, Threshold(cut, data, k)) == i + 1;
  }

  /** Over `GapExample` the float step puts 0.5 on its own in group 5 and makes three groups. */
  lemma FloatRiskGroupsOfGapExample(data: seq<ObservedPredictedValue>)
    requires data == GapExample()
    ensures Groups(FloatRiskCut, data) == [Group(5, 1, 1, 0.5), Group(6, 1, 0, 0.55), Group(8, 1, 1, 0.75)]
  {
    var c := FloatRiskCut;
    assert LastIsLargest(data) && |data| == 3;
    var g5, g6, g8 := Group(5, 1, 1, 0.5), Group(6, 1, 0, 0.55), Group(8, 1, 1, 0.75);
    var tail := GroupsFrom(c, data, 3, 9);
    assert tail == [];
    assert GroupsFrom(c, data, 2, 7) == [g8] + tail by {
      SkipEmptyGroup(c, data, 2, 7);
      SingletonGroup(c, data, 2, 8);
    }
    assert GroupsFrom(c, data, 1, 6) == [g6] + GroupsFrom(c, data, 2, 7) by {
      SingletonGroup(c, data, 1, 6);
    }
    assert GroupsFrom(c, data, 0, 5) == [g5] + GroupsFrom(c, data, 1, 6) by {
      SingletonGroup(c, data, 0, 5);
    }
    assert GroupsFrom(c, data, 0, 1) == GroupsFrom(c, data, 0, 5) by {
      SkipEmptyGroup(c, data, 0, 1);
      SkipEmptyGroup(c, data, 0, 2);
      SkipEmptyGroup(c, data, 0, 3);
      SkipEmptyGroup(c, data, 0, 4);
    }
  }

  /** Over `GapExample` exact tenths put 0.5 in group 6 with 0.55 and make two groups. */
  lemma RiskGroupsOfGapExample(data: seq<ObservedPredictedValue>)
    requires data == GapExample()
    ensures Groups(RiskCut, data) == [Group(6, 2, 1, 1.05), Group(8, 1, 1, 0.75)]
  {
    var c := RiskCut;
    assert LastIsLargest(data) && |data| == 3;
    var g6, g8 := Group(6, 2, 1, 1.05), Group(8, 1, 1, 0.75);
    var tail := GroupsFrom(c, data, 3, 9);
    assert tail == [];
    assert GroupsFrom(c, data, 2, 7) == [g8] + tail by {
      SkipEmptyGroup(c, data, 2, 7);
      SingletonGroup(c, data, 2, 8);
    }
    assert GroupsFrom(c, data, 0, 6) == [g6] + GroupsFrom(c, data, 2, 7) by {
      GroupsFromStep(c, data, 0, 6);
      assert RunEnd(c, data, 0, Threshold(c, data, 6)) == 2;
    }
    assert GroupsFrom(c, data, 0, 1) == GroupsFrom(c, data, 0, 6) by {
      SkipEmptyGroup(c, data, 0, 1);
      SkipEmptyGroup(c, data, 0, 2);
      SkipEmptyGroup(c, data, 0, 3);
      SkipEmptyGroup(c, data, 0, 4);
      SkipEmptyGroup(c, data, 0, 5);
    }
  }
}
