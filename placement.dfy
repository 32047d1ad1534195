/**
 * The DeLong, DeLong and Clarke-Pearson (1988) placement values shared by
 * `DeLongConfidenceInterval` and the legacy `DeLongAUC`: the pairwise
 * indicator, the placement of one prediction among the other class, the two
 * variance components and the variance of the AUC estimate. In both Java
 * classes the positive predictions are called "abnormal" (X) and the
 * negative ones "normal" (Y).
 */
module Placement {

  /** 1 when the positive X outranks the negative Y, 1/2 on a tie, 0 otherwise. */
  function Indicator(x: real, y: real): (r: real)
    ensures r == 1.0 <==> y < x
    ensures r == 0.5 <==> y == x
    ensures r == 0.0 <==> y > x
  {
    if y < x then 1.0 else if y == x then 0.5 else 0.0
  }

  /** Exchanging the roles of the two predictions turns the indicator into its complement. */
  lemma IndicatorComplement(x: real, y: real)
    ensures Indicator(x, y) + Indicator(y, x) == 1.0
  {
  }

  /** Σ_j Indicator(x, ys[j]): how many of `ys` the prediction `x` outranks, ties counting half. */
  function RowSum(x: real, ys: seq<real>): (r: real)
    ensures 0.0 <= r
  {
    if |ys| == 0 then 0.0 else RowSum(x, ys[..|ys| - 1]) + Indicator(x, ys[|ys| - 1])
  }

  /** Σ_i Indicator(xs[i], y): how many of `xs` outrank `y`, ties counting half. */
  function ColumnSum(xs: seq<real>, y: real): (r: real)
    ensures 0.0 <= r
  {
    if |xs| == 0 then 0.0 else ColumnSum(xs[..|xs| - 1], y) + Indicator(xs[|xs| - 1], y)
  }

  /** Σ_i Σ_j Indicator(xs[i], ys[j]) over every positive/negative pair, summed row by row. */
  function PairSum(xs: seq<real>, ys: seq<real>): (r: real)
    ensures 0.0 <= r
  {
    if |xs| == 0 then 0.0 else PairSum(xs[..|xs| - 1], ys) + RowSum(xs[|xs| - 1], ys)
  }

  /** The same pair sum, summed column by column. */
  function ColumnTotal(xs: seq<real>, ys: seq<real>): real
  {
    if |ys| == 0 then 0.0 else ColumnTotal(xs, ys[..|ys| - 1]) + ColumnSum(xs, ys[|ys| - 1])
  }

  /** The pairwise AUC (Mann-Whitney statistic): the share of pairs the positive wins, ties half. */
  function PairwiseAuc(xs: seq<real>, ys: seq<real>): (r: real)
    requires |xs| > 0 && |ys| > 0
    ensures r * (|xs| as real * |ys| as real) == PairSum(xs, ys)
    ensures 0.0 <= r
  {
    Ratio(PairSum(xs, ys), |xs| as real * |ys| as real)
  }

  /** The pairwise AUC is the pair sum over the number of pairs. */
  lemma PairwiseAucRatio(xs: seq<real>, ys: seq<real>)
    requires |xs| > 0 && |ys| > 0
    ensures PairwiseAuc(xs, ys) == Ratio(PairSum(xs, ys), |xs| as real * |ys| as real)
  {
  }

  lemma {:induction false} ColumnSumSnoc(xs: seq<real>, x: real, ys: seq<real>)
    ensures ColumnTotal(xs + [x], ys) == ColumnTotal(xs, ys) + RowSum(x, ys)
  {
    if |ys| > 0 {
      var init, y := ys[..|ys| - 1], ys[|ys| - 1];
      ColumnSumSnoc(xs, x, init);
      assert (xs + [x])[..|xs + [x]| - 1] == xs;
    }
  }

  /** Summing the indicator by rows or by columns gives the same total. */
  lemma {:induction false} PairSumByColumns(xs: seq<real>, ys: seq<real>)
    ensures PairSum(xs, ys) == ColumnTotal(xs, ys)
  {
    if |xs| == 0 {
      ColumnTotalEmpty(ys);
    } else {
      var init, x := xs[..|xs| - 1], xs[|xs| - 1];
      PairSumByColumns(init, ys);
      ColumnSumSnoc(init, x, ys);
      assert init + [x] == xs;
    }
  }

  lemma {:induction false} ColumnTotalEmpty(ys: seq<real>)
    ensures ColumnTotal([], ys) == 0.0
  {
    if |ys| > 0 {
      ColumnTotalEmpty(ys[..|ys| - 1]);
    }
  }

  // ---------------------------------------------------------------------
  // The indicator sums as counts
  // ---------------------------------------------------------------------

  /** How many of `xs` lie strictly above `t`. */
  function CountAbove(xs: seq<real>, t: real): (n: nat)
    ensures n <= |xs|
  {
    if |xs| == 0 then 0 else CountAbove(xs[..|xs| - 1], t) + (if xs[|xs| - 1] > t then 1 else 0)
  }

  /** How many of `xs` equal `t`. */
  function CountEqual(xs: seq<real>, t: real): (n: nat)
    ensures n <= |xs|
  {
    if |xs| == 0 then 0 else CountEqual(xs[..|xs| - 1], t) + (if xs[|xs| - 1] == t then 1 else 0)
  }

  /** How many of `xs` lie strictly below `t`. */
  function CountBelow(xs: seq<real>, t: real): (n: nat)
    ensures n <= |xs|
  {
    if |xs| == 0 then 0 else CountBelow(xs[..|xs| - 1], t) + (if xs[|xs| - 1] < t then 1 else 0)
  }

  /** How many of `xs` lie at or above `t`. */
  function CountAtLeast(xs: seq<real>, t: real): (n: nat)
    ensures n <= |xs|
  {
    CountsPartition(xs, t);
    CountAbove(xs, t) + CountEqual(xs, t)
  }

  lemma CountsSnoc(xs: seq<real>, v: real, t: real)
    ensures CountAbove(xs + [v], t) == CountAbove(xs, t) + (if v > t then 1 else 0)
    ensures CountEqual(xs + [v], t) == CountEqual(xs, t) + (if v == t then 1 else 0)
    ensures CountBelow(xs + [v], t) == CountBelow(xs, t) + (if v < t then 1 else 0)
    ensures CountAtLeast(xs + [v], t) == CountAtLeast(xs, t) + (if v >= t then 1 else 0)
  {
    assert (xs + [v])[..|xs|] == xs;
  }

  /** Every value is above, equal to or below `t`. */
  lemma {:induction false} CountsPartition(xs: seq<real>, t: real)
    ensures CountAbove(xs, t) + CountEqual(xs, t) + CountBelow(xs, t) == |xs|
  {
    if |xs| > 0 {
      CountsPartition(xs[..|xs| - 1], t);
    }
  }

  /** A higher threshold never counts more values at or above it. */
  lemma {:induction false} CountAtLeastAntitone(xs: seq<real>, lo: real, hi: real)
    requires lo <= hi
    ensures CountAtLeast(xs, hi) <= CountAtLeast(xs, lo)
  {
    if |xs| > 0 {
      var init := xs[..|xs| - 1];
      assert xs == init + [xs[|xs| - 1]];
      CountAtLeastAntitone(init, lo, hi);
      CountsSnoc(init, xs[|xs| - 1], lo);
      CountsSnoc(init, xs[|xs| - 1], hi);
    }
  }

  /** When no value lies below `t`, the values above and at `t` make up all of `xs`. */
  lemma {:induction false} CountsAtLeast(xs: seq<real>, t: real)
    requires forall i :: 0 <= i < |xs| ==> xs[i] >= t
    ensures CountBelow(xs, t) == 0
    ensures CountAbove(xs, t) + CountEqual(xs, t) == |xs|
  {
    if |xs| > 0 {
      CountsAtLeast(xs[..|xs| - 1], t);
    }
  }

  /** When every value lies above `t`, all of them are counted above. */
  lemma {:induction false} CountsAllAbove(xs: seq<real>, t: real)
    requires forall i :: 0 <= i < |xs| ==> xs[i] > t
    ensures CountAbove(xs, t) == |xs|
    ensures CountEqual(xs, t) == 0 && CountBelow(xs, t) == 0
  {
    if |xs| > 0 {
      CountsAllAbove(xs[..|xs| - 1], t);
    }
  }

  /** The positive `x` wins against every lower negative and ties half against the equal ones. */
  lemma {:induction false} RowSumCounts(x: real, ys: seq<real>)
    ensures RowSum(x, ys) == CountBelow(ys, x) as real + 0.5 * CountEqual(ys, x) as real
  {
    if |ys| > 0 {
      RowSumCounts(x, ys[..|ys| - 1]);
    }
  }

  /** The negative `y` loses against every higher positive and ties half against the equal ones. */
  lemma {:induction false} ColumnSumCounts(xs: seq<real>, y: real)
    ensures ColumnSum(xs, y) == CountAbove(xs, y) as real + 0.5 * CountEqual(xs, y) as real
  {
    if |xs| > 0 {
      ColumnSumCounts(xs[..|xs| - 1], y);
    }
  }

  /** One more positive adds its row of pairs. */
  lemma PairSumSnocRow(xs: seq<real>, x: real, ys: seq<real>)
    ensures PairSum(xs + [x], ys) == PairSum(xs, ys) + RowSum(x, ys)
  {
    assert (xs + [x])[..|xs|] == xs;
  }

  /** One more negative adds its column of pairs. */
  lemma PairSumSnocColumn(xs: seq<real>, ys: seq<real>, y: real)
    ensures PairSum(xs, ys + [y]) == PairSum(xs, ys) + ColumnSum(xs, y)
  {
    PairSumByColumns(xs, ys + [y]);
    PairSumByColumns(xs, ys);
    assert (ys + [y])[..|ys|] == ys;
  }

  lemma {:induction false} RowSumAtMost(x: real, ys: seq<real>)
    ensures RowSum(x, ys) <= |ys| as real
  {
    if |ys| > 0 {
      RowSumAtMost(x, ys[..|ys| - 1]);
    }
  }

  lemma {:induction false} ColumnSumAtMost(xs: seq<real>, y: real)
    ensures ColumnSum(xs, y) <= |xs| as real
  {
    if |xs| > 0 {
      ColumnSumAtMost(xs[..|xs| - 1], y);
    }
  }

  /** At most every pair is won: Σ pairs Indicator ≤ m·n. */
  lemma {:induction false} PairSumAtMost(xs: seq<real>, ys: seq<real>)
    ensures PairSum(xs, ys) <= |xs| as real * |ys| as real
  {
    if |xs| > 0 {
      var init := xs[..|xs| - 1];
      PairSumAtMost(init, ys);
      RowSumAtMost(xs[|xs| - 1], ys);
      SumStep(|xs| as real, |init| as real, 1.0, |ys| as real, |init| as real * |ys| as real, |ys| as real,
              |init| as real * |ys| as real + |ys| as real);
    }
  }

  /** The pairwise AUC is a proportion. */
  lemma PairwiseAucBounds(xs: seq<real>, ys: seq<real>)
    requires |xs| > 0 && |ys| > 0
    ensures 0.0 <= PairwiseAuc(xs, ys) <= 1.0
  {
    PairSumAtMost(xs, ys);
    Proportion(PairSum(xs, ys), |xs| as real * |ys| as real);
  }

  /** The placement values are proportions. */
  lemma PlacementBounds(x: real, ys: seq<real>, xs: seq<real>, y: real)
    requires |ys| > 0 && |xs| > 0
    ensures 0.0 <= VAbnorm(x, ys) <= 1.0
    ensures 0.0 <= VNorm(y, xs) <= 1.0
  {
    RowSumAtMost(x, ys);
    ColumnSumAtMost(xs, y);
    Proportion(RowSum(x, ys), |ys| as real);
    Proportion(ColumnSum(xs, y), |xs| as real);
  }

  lemma Proportion(part: real, whole: real)
    requires 0.0 <= part <= whole && whole > 0.0
    ensures 0.0 <= part / whole <= 1.0
  {
  }

  /**
   * vNorm(Yj): the share of positives that outrank the negative `y`. Java
   * divides by the number of positives, so an empty positive class gives NaN.
   */
  function VNorm(y: real, abNorm: seq<real>): real
    requires |abNorm| > 0
  {
    Ratio(ColumnSum(abNorm, y), |abNorm| as real)
  }

  /** vAbnorm(Xi): the share of negatives that the positive `x` outranks. */
  function VAbnorm(x: real, norm: seq<real>): real
    requires |norm| > 0
  {
    Ratio(RowSum(x, norm), |norm| as real)
  }

  /** Σ_j vNorm(norm[j]). */
  function SumVNorm(norm: seq<real>, abNorm: seq<real>): real
    requires |abNorm| > 0
  {
    if |norm| == 0 then 0.0 else SumVNorm(norm[..|norm| - 1], abNorm) + VNorm(norm[|norm| - 1], abNorm)
  }

  /** Σ_i vAbnorm(abNorm[i]). */
  function SumVAbnorm(abNorm: seq<real>, norm: seq<real>): real
    requires |norm| > 0
  {
    if |abNorm| == 0 then 0.0 else SumVAbnorm(abNorm[..|abNorm| - 1], norm) + VAbnorm(abNorm[|abNorm| - 1], norm)
  }

  lemma {:induction false} SumVAbnormIsPairSum(abNorm: seq<real>, norm: seq<real>)
    requires |norm| > 0
    ensures SumVAbnorm(abNorm, norm) == Ratio(PairSum(abNorm, norm), |norm| as real)
  {
    if |abNorm| > 0 {
      var init, x := abNorm[..|abNorm| - 1], abNorm[|abNorm| - 1];
      SumVAbnormIsPairSum(init, norm);
      RatioAdd(PairSum(init, norm), RowSum(x, norm), |norm| as real);
    } else {
      RatioUnique(0.0, 0.0, |norm| as real);
    }
  }

  lemma {:induction false} SumVNormIsColumnTotal(norm: seq<real>, abNorm: seq<real>)
    requires |abNorm| > 0
    ensures SumVNorm(norm, abNorm) == Ratio(ColumnTotal(abNorm, norm), |abNorm| as real)
  {
    if |norm| > 0 {
      var init, y := norm[..|norm| - 1], norm[|norm| - 1];
      SumVNormIsColumnTotal(init, abNorm);
      RatioAdd(ColumnTotal(abNorm, init), ColumnSum(abNorm, y), |abNorm| as real);
    } else {
      RatioUnique(0.0, 0.0, |abNorm| as real);
    }
  }

  /** p / d for a positive divisor: the one number that d times gives p. */
  function Ratio(p: real, d: real): (r: real)
    requires d > 0.0
    ensures r * d == p
    ensures 0.0 <= p ==> 0.0 <= r
  {
    p / d
  }

  /** The quotient is the only number that the divisor times gives the dividend. */
  lemma RatioUnique(r: real, q: real, d: real)
    requires d > 0.0 && r * d == q
    ensures r == Ratio(q, d)
  {
    assert (r - Ratio(q, d)) * d == 0.0;
  }

  /** Division by a positive number distributes over a sum. */
  lemma RatioAdd(a: real, b: real, d: real)
    requires d > 0.0
    ensures Ratio(a + b, d) == Ratio(a, d) + Ratio(b, d)
  {
    RatioUnique(Ratio(a, d) + Ratio(b, d), a + b, d);
  }

  /** A sum of two scaled terms, scaled. */
  lemma SumStep(s: real, a: real, b: real, c: real, p: real, q: real, t: real)
    requires s == a + b && a * c == p && b * c == q && t == p + q
    ensures s * c == t
  {
  }

  /**
   * The placements of both classes centre on the pairwise AUC: the
   * positives' placements vAbnorm add up to Σ pairs Indicator / n and the
   * negatives' placements vNorm to Σ pairs Indicator / m, so the mean over
   * either class is Σ pairs Indicator / (m·n), the pairwise AUC.
   */
  lemma PlacementMeans(abNorm: seq<real>, norm: seq<real>)
    requires |abNorm| > 0 && |norm| > 0
    ensures SumVAbnorm(abNorm, norm) == Ratio(PairSum(abNorm, norm), |norm| as real)
    ensures SumVNorm(norm, abNorm) == Ratio(PairSum(abNorm, norm), |abNorm| as real)
  {
    SumVAbnormIsPairSum(abNorm, norm);
    SumVNormIsColumnTotal(norm, abNorm);
    PairSumByColumns(abNorm, norm);
  }

  /** Σ_j (vNorm(norm[j]) − auc)². */
  function SquaredNormDeviations(norm: seq<real>, abNorm: seq<real>, auc: real): (r: real)
    requires |abNorm| > 0
    ensures r >= 0.0
  {
    if |norm| == 0 then 0.0
    else
      var d := VNorm(norm[|norm| - 1], abNorm) - auc;
      SquaredNormDeviations(norm[..|norm| - 1], abNorm, auc) + d * d
  }

  /** Σ_i (vAbnorm(abNorm[i]) − auc)². */
  function SquaredAbnormDeviations(abNorm: seq<real>, norm: seq<real>, auc: real): (r: real)
    requires |norm| > 0
    ensures r >= 0.0
  {
    if |abNorm| == 0 then 0.0
    else
      var d := VAbnorm(abNorm[|abNorm| - 1], norm) - auc;
      SquaredAbnormDeviations(abNorm[..|abNorm| - 1], norm, auc) + d * d
  }

  /**
   * sNorm: the sample variance of the negatives' placements about `auc`.
   * Java divides by (n − 1), so it needs at least two negatives.
   */
  function SNorm(norm: seq<real>, abNorm: seq<real>, auc: real): (r: real)
    requires |norm| >= 2 && |abNorm| > 0
    ensures r >= 0.0
    ensures r * (|norm| - 1) as real == SquaredNormDeviations(norm, abNorm, auc)
  {
    SquaredNormDeviations(norm, abNorm, auc) / (|norm| - 1) as real
  }

  /** sAbnorm: the sample variance of the positives' placements about `auc`; needs two positives. */
  function SAbnorm(norm: seq<real>, abNorm: seq<real>, auc: real): (r: real)
    requires |abNorm| >= 2 && |norm| > 0
    ensures r >= 0.0
    ensures r * (|abNorm| - 1) as real == SquaredAbnormDeviations(abNorm, norm, auc)
  {
    SquaredAbnormDeviations(abNorm, norm, auc) / (|abNorm| - 1) as real
  }

  /**
   * The quantity under the square root of the DeLong standard error,
   * sNorm/n + sAbnorm/m; it is never negative, so the root is defined.
   */
  function DeLongVariance(norm: seq<real>, abNorm: seq<real>, auc: real): (r: real)
    requires |norm| >= 2 && |abNorm| >= 2
    ensures r >= 0.0
  {
    var fromNegatives := SNorm(norm, abNorm, auc) / |norm| as real;
    var fromPositives := SAbnorm(norm, abNorm, auc) / |abNorm| as real;
    assert fromNegatives >= 0.0 && fromPositives >= 0.0;
    fromNegatives + fromPositives
  }

  /** When every placement equals `auc` (perfect agreement) the variance is 0. */
  lemma {:induction false} ZeroDeviationZeroVariance(norm: seq<real>, abNorm: seq<real>, auc: real)
    requires |norm| >= 2 && |abNorm| >= 2
    requires forall j :: 0 <= j < |norm| ==> VNorm(norm[j], abNorm) == auc
    requires forall i :: 0 <= i < |abNorm| ==> VAbnorm(abNorm[i], norm) == auc
    ensures DeLongVariance(norm, abNorm, auc) == 0.0
  {
    NoNormDeviation(norm, abNorm, auc);
    NoAbnormDeviation(abNorm, norm, auc);
  }

  lemma {:induction false} NoNormDeviation(norm: seq<real>, abNorm: seq<real>, auc: real)
    requires |abNorm| > 0
    requires forall j :: 0 <= j < |norm| ==> VNorm(norm[j], abNorm) == auc
    ensures SquaredNormDeviations(norm, abNorm, auc) == 0.0
  {
    if |norm| > 0 {
      NoNormDeviation(norm[..|norm| - 1], abNorm, auc);
    }
  }

  lemma {:induction false} NoAbnormDeviation(abNorm: seq<real>, norm: seq<real>, auc: real)
    requires |norm| > 0
    requires forall i :: 0 <= i < |abNorm| ==> VAbnorm(abNorm[i], norm) == auc
    ensures SquaredAbnormDeviations(abNorm, norm, auc) == 0.0
  {
    if |abNorm| > 0 {
      NoAbnormDeviation(abNorm[..|abNorm| - 1], norm, auc);
    }
  }
}
