// What the Hosmer–Lemeshow classes compute from the groups: each group's
// plot point, margin of error and chi-squared term, the p-value of their
// total, and the three calibration errors of the plot points.

module HosmerLemeshowStatistics {
  import opened JavaDouble
  import opened HosmerLemeshowGroups

  // ---------------------------------------------------------------------
  // One group
  // ---------------------------------------------------------------------

  /** `xValue`: the mean prediction of the group, the x-coordinate of its plot point. */
  function ExpectedValue(g: Group): (x: real)
    ensures x * g.size as real == g.predictedSum
    ensures 0.0 <= g.predictedSum <= g.size as real ==> 0.0 <= x <= 1.0
  {
    MeanInUnit(g.predictedSum, g.size as real);
    g.predictedSum / g.size as real
  }

  /** A sum of at most n probabilities, over n, is a probability. */
  lemma MeanInUnit(sum: real, n: real)
    requires n > 0.0
    ensures 0.0 <= sum <= n ==> 0.0 <= sum / n <= 1.0
  {
  }

  /** `yValue`: the fraction of the group observed positive, the y-coordinate of its plot point. */
  function ObservedValue(g: Group): (y: real)
    ensures y * g.size as real == g.positives as real
    ensures g.positives <= g.size ==> 0.0 <= y <= 1.0
  {
    g.positives as real / g.size as real
  }

  /**
   * The group's term of the Hosmer–Lemeshow statistic, (O − E)² / (E·(1 − E/n))
   * with O the positives, E the prediction sum and n the size, as a double:
   * it is finite exactly when E is neither 0 nor n, and otherwise NaN when
   * O = E and +∞ when not.
   */
  function Chi2(g: Group): (c: Double)
    ensures c.Finite? <==> g.predictedSum != 0.0 && g.predictedSum != g.size as real
    ensures 0.0 < g.predictedSum < g.size as real ==> c.Finite? && c.value >= 0.0
    ensures !c.Finite? ==> (c.NaN? <==> g.positives as real == g.predictedSum)
    ensures !c.Finite? ==> c.NaN? || c == PositiveInfinity
  {
    var diff := g.positives as real - g.predictedSum;
    var n := g.size as real;
    TermFacts(diff, g.predictedSum, n);
    Divide(diff * diff, g.predictedSum * (1.0 - g.predictedSum / n))
  }

  /** The chi-squared term as `computeUsing…Group` writes it, from the difference O − E it has at hand. */
  lemma Chi2Is(number: int, size: GroupSize, positives: nat, predictedSum: real, diff: real, chi2: Double)
    requires diff == positives as real - predictedSum
    requires chi2 == Divide(diff * diff, predictedSum * (1.0 - predictedSum / size as real))
    ensures chi2 == Chi2(Group(number, size, positives, predictedSum))
  {
  }

  lemma TermFacts(diff: real, e: real, n: real)
    requires n > 0.0
    ensures e * (1.0 - e / n) == 0.0 <==> e == 0.0 || e == n
    ensures diff * diff >= 0.0
    ensures diff * diff == 0.0 <==> diff == 0.0
    ensures 0.0 < e < n ==> e * (1.0 - e / n) > 0.0 && diff * diff / (e * (1.0 - e / n)) >= 0.0
  {
    DenominatorZero(e, n);
    SquareNonNegative(diff);
    if 0.0 < e < n {
      DenominatorPositive(e, n);
      QuotientNonNegative(diff * diff, e * (1.0 - e / n));
    }
    if diff * diff == 0.0 {
      ZeroSquare(diff);
    }
  }

  lemma DenominatorZero(e: real, n: real)
    requires n > 0.0
    ensures e * (1.0 - e / n) == 0.0 <==> e == 0.0 || e == n
  {
    if e * (1.0 - e / n) == 0.0 {
      ProductZero(e, 1.0 - e / n);
    }
  }

  lemma ProductZero(a: real, b: real)
    requires a * b == 0.0
    ensures a == 0.0 || b == 0.0
  {
  }

  lemma DenominatorPositive(e: real, n: real)
    requires 0.0 < e < n
    ensures e * (1.0 - e / n) > 0.0
  {
    FractionBelowOne(e, n);
    PositiveProduct(e, 1.0 - e / n);
  }

  lemma FractionBelowOne(e: real, n: real)
    requires 0.0 < e < n
    ensures e / n < 1.0
  {
    var q := e / n;
    assert q * n == e;
    if q >= 1.0 {
      ScaleUp(q, n);
    }
  }

  lemma ScaleUp(q: real, n: real)
    requires q >= 1.0 && n > 0.0
    ensures q * n >= n
  {
    assert q * n - n == (q - 1.0) * n;
    NonNegativeScale(q - 1.0, n);
  }

  lemma NonNegativeScale(a: real, b: real)
    requires a >= 0.0 && b > 0.0
    ensures a * b >= 0.0
  {
  }

  lemma PositiveProduct(a: real, b: real)
    requires a > 0.0 && b > 0.0
    ensures a * b > 0.0
  {
  }

  lemma SquareNonNegative(d: real)
    ensures d * d >= 0.0
  {
  }

  lemma ZeroSquare(d: real)
    requires d * d == 0.0
    ensures d == 0.0
  {
    ProductZero(d, d);
  }

  lemma QuotientNonNegative(a: real, b: real)
    requires a >= 0.0 && b > 0.0
    ensures a / b >= 0.0
  {
  }

  /** `sqrt` behaves as `Math.sqrt` on every double. */
  ghost predicate SquareRootFunction(sqrt: Double -> Double)
  {
    forall x :: SquareRoot(sqrt(x), x)
  }

  /** The half-width 1.96·√(x(1 − x)/n) of the 95% interval around the group's mean prediction x. */
  function MarginOfError(g: Group, sqrt: Double -> Double): Double
  {
    var x := ExpectedValue(g);
    Multiply(Finite(CriticalValue), sqrt(Finite(x * (1.0 - x) / g.size as real)))
  }

  /**
   * The margin of error is a non-negative number exactly when the mean
   * prediction lies in [0, 1]; outside it the root of a negative is NaN.
   */
  lemma MarginOfErrorDefined(g: Group, sqrt: Double -> Double)
    requires SquareRootFunction(sqrt)
    ensures var x := ExpectedValue(g);
            0.0 <= x <= 1.0 <==> MarginOfError(g, sqrt).Finite?
    ensures MarginOfError(g, sqrt).Finite? ==> MarginOfError(g, sqrt).value >= 0.0
    ensures !MarginOfError(g, sqrt).Finite? ==> MarginOfError(g, sqrt).NaN?
  {
    var x := ExpectedValue(g);
    var v := x * (1.0 - x) / g.size as real;
    assert SquareRoot(sqrt(Finite(v)), Finite(v));
    VarianceSign(x, g.size as real);
  }

  lemma VarianceSign(x: real, n: real)
    requires n > 0.0
    ensures 0.0 <= x <= 1.0 <==> x * (1.0 - x) / n >= 0.0
  {
    if 0.0 <= x <= 1.0 {
      assert x * (1.0 - x) >= 0.0;
    } else if x < 0.0 {
      assert x * (1.0 - x) < 0.0;
    } else {
      assert x * (1.0 - x) < 0.0;
    }
  }

  // ---------------------------------------------------------------------
  // The p-value
  // ---------------------------------------------------------------------

  /** The sum of the chi-squared terms, added as doubles from 0 in order. */
  function ChiSquareTotal(chi2s: seq<Double>): (t: Double)
    ensures t.Finite? <==> forall m :: 0 <= m < |chi2s| ==> chi2s[m].Finite?
    ensures (exists m :: 0 <= m < |chi2s| && chi2s[m].NaN?) ==> t.NaN?
  {
    if |chi2s| == 0 then Finite(0.0)
    else
      var before := ChiSquareTotal(chi2s[..|chi2s| - 1]);
      assert forall m :: 0 <= m < |chi2s| - 1 ==> chi2s[..|chi2s| - 1][m] == chi2s[m];
      Add(before, chi2s[|chi2s| - 1])
  }

  /**
   * `cdf(d, x)` behaves as `ChiSquaredDistribution(d).cumulativeProbability(x)`
   * for d > 0: a probability for every finite x, NaN for NaN.
   */
  ghost predicate ChiSquaredCdf(cdf: (int, Double) -> Double)
  {
    && (forall d, x :: d > 0 ==> cdf(d, Finite(x)).Finite? && 0.0 <= cdf(d, Finite(x)).value <= 1.0)
    && (forall d :: d > 0 ==> cdf(d, NaN).NaN?)
  }

  /**
   * `computePValue`: 1 − F(total) for the chi-squared distribution F with the
   * given degrees of freedom, and the sentinel −1 when there are no degrees
   * of freedom or the total is infinite.
   */
  function PValue(degreesOfFreedom: int, chi2s: seq<Double>, cdf: (int, Double) -> Double): Double
  {
    if degreesOfFreedom > 0 && !ChiSquareTotal(chi2s).IsInfinite() then
      Subtract(Finite(1.0), cdf(degreesOfFreedom, ChiSquareTotal(chi2s)))
    else Finite(-1.0)
  }

  /**
   * The p-value is the sentinel −1 exactly when there are no degrees of
   * freedom or some term is infinite and none is NaN; with finite terms it
   * is a probability, and a NaN term makes it NaN.
   */
  lemma PValueCases(degreesOfFreedom: int, chi2s: seq<Double>, cdf: (int, Double) -> Double)
    requires ChiSquaredCdf(cdf)
    requires forall m :: 0 <= m < |chi2s| ==> !chi2s[m].NegativeInfinity?
    ensures PValue(degreesOfFreedom, chi2s, cdf) == Finite(-1.0) <==>
              degreesOfFreedom <= 0
              || ((exists m :: 0 <= m < |chi2s| && chi2s[m].PositiveInfinity?)
                  && forall m :: 0 <= m < |chi2s| ==> !chi2s[m].NaN?)
    ensures degreesOfFreedom > 0 && (forall m :: 0 <= m < |chi2s| ==> chi2s[m].Finite?) ==>
              PValue(degreesOfFreedom, chi2s, cdf).Finite?
              && 0.0 <= PValue(degreesOfFreedom, chi2s, cdf).value <= 1.0
    ensures degreesOfFreedom > 0 && (exists m :: 0 <= m < |chi2s| && chi2s[m].NaN?) ==>
              PValue(degreesOfFreedom, chi2s, cdf).NaN?
  {
    TotalInfinite(chi2s);
  }

  /** With no −∞ term, the total is infinite exactly when some term is +∞ and none is NaN, and then it is +∞. */
  lemma {:induction false} TotalInfinite(chi2s: seq<Double>)
    requires forall m :: 0 <= m < |chi2s| ==> !chi2s[m].NegativeInfinity?
    ensures ChiSquareTotal(chi2s).IsInfinite() <==>
              (exists m :: 0 <= m < |chi2s| && chi2s[m].PositiveInfinity?)
              && forall m :: 0 <= m < |chi2s| ==> !chi2s[m].NaN?
    ensures !ChiSquareTotal(chi2s).NegativeInfinity?
  {
    if |chi2s| > 0 {
      var front := chi2s[..|chi2s| - 1];
      var last := chi2s[|chi2s| - 1];
      assert forall m :: 0 <= m < |front| ==> front[m] == chi2s[m];
      TotalInfinite(front);
      if last.PositiveInfinity? && !ChiSquareTotal(front).NaN? {
        assert ChiSquareTotal(chi2s) == PositiveInfinity;
      }
      if (exists m :: 0 <= m < |chi2s| && chi2s[m].PositiveInfinity?) && forall m :: 0 <= m < |chi2s| ==> !chi2s[m].NaN? {
        if !last.PositiveInfinity? {
          var m :| 0 <= m < |chi2s| && chi2s[m].PositiveInfinity?;
          assert front[m].PositiveInfinity?;
        }
      }
    }
  }

  /** Every group's chi-squared term is finite, NaN or +∞, never −∞. */
  lemma Chi2NeverNegativeInfinity(g: Group)
    ensures !Chi2(g).NegativeInfinity?
  {
  }

  // ---------------------------------------------------------------------
  // Calibration errors
  // ---------------------------------------------------------------------

  /** `Math.abs(yValue - xValue)`: how far a group's observed fraction is from its mean prediction. */
  function Gap(x: real, y: real): (d: real)
    ensures d >= 0.0
    ensures d == y - x || d == x - y
  {
    if y - x < 0.0 then x - y else y - x
  }

  /** The gap of every group, in group order. */
  function Gaps(xs: seq<real>, ys: seq<real>): (ds: seq<real>)
    requires |xs| == |ys|
    ensures |ds| == |xs|
    ensures forall m :: 0 <= m < |xs| ==> ds[m] == Gap(xs[m], ys[m])
    ensures forall m :: 0 <= m < |xs| ==> ds[m] >= 0.0
  {
    seq(|xs|, m requires 0 <= m < |xs| => Gap(xs[m], ys[m]))
  }

  /**
   * The expected calibration error of the gaps `ds`: each weighted by the
   * fraction `ns[i] / n` of the predictions in its group, summed in order.
   */
  function ExpectedCalibrationError(ds: seq<real>, ns: seq<int>, n: int): real
    requires |ds| == |ns| && n > 0
  {
    if |ns| == 0 then 0.0
    else
      var i := |ns| - 1;
      ExpectedCalibrationError(ds[..i], ns[..i], n) + (ns[i] as real / n as real) * ds[i]
  }

  /**
   * The maximum calibration error: the largest gap, or 0 when there are no
   * groups; it is at least every gap and, unless it is 0, one of them.
   */
  function MaxCalibrationError(ds: seq<real>): (mce: real)
    ensures mce >= 0.0
    ensures forall m :: 0 <= m < |ds| ==> ds[m] <= mce
    ensures mce == 0.0 || exists m :: 0 <= m < |ds| && mce == ds[m]
  {
    if |ds| == 0 then 0.0
    else
      var i := |ds| - 1;
      var before := MaxCalibrationError(ds[..i]);
      assert forall m :: 0 <= m < i ==> ds[..i][m] == ds[m];
      if before < ds[i] then ds[i] else before
  }

  /** The average calibration error: each gap divided by the number of groups `bins`, summed in order. */
  function AverageCalibrationError(ds: seq<real>, bins: int): real
    requires |ds| > 0 ==> bins > 0
  {
    if |ds| == 0 then 0.0
    else
      var i := |ds| - 1;
      AverageCalibrationError(ds[..i], bins) + ds[i] / bins as real
  }

  /** A non-negative weight keeps the order of what it scales. */
  lemma WeightedAtMost(w: real, d: real, bound: real)
    requires w >= 0.0 && 0.0 <= d <= bound
    ensures 0.0 <= w * d <= w * bound
  {
    assert w * bound - w * d == w * (bound - d);
  }

  /** One more weighted term keeps a running sum under its share of the bound. */
  lemma StepBound(e: real, before: real, w: real, d: real, a: real, c: real, total: real, n: real, bound: real)
    requires n > 0.0 && c >= 0.0 && w == c / n && 0.0 <= d <= bound && total == a + c
    requires 0.0 <= before <= a / n * bound && e == before + w * d
    ensures 0.0 <= e <= total / n * bound
  {
    WeightedAtMost(w, d, bound);
    assert a / n * bound + c / n * bound == (a + c) / n * bound;
  }

  lemma {:induction false} ExpectedBound(ds: seq<real>, ns: seq<int>, n: int, bound: real)
    requires |ds| == |ns| && n > 0
    requires forall m :: 0 <= m < |ns| ==> ns[m] >= 0 && 0.0 <= ds[m] <= bound
    ensures 0.0 <= ExpectedCalibrationError(ds, ns, n) <= SumOf(ns) as real / n as real * bound
  {
    if |ns| > 0 {
      var i := |ns| - 1;
      var ds', ns' := ds[..i], ns[..i];
      var before := ExpectedCalibrationError(ds', ns', n);
      var w := ns[i] as real / n as real;
      assert ExpectedCalibrationError(ds, ns, n) == before + w * ds[i];
      assert SumOf(ns) == SumOf(ns') + ns[i];
      assert forall m :: 0 <= m < i ==> ds'[m] == ds[m] && ns'[m] == ns[m];
      ExpectedBound(ds', ns', n, bound);
      StepBound(ExpectedCalibrationError(ds, ns, n), before, w, ds[i], SumOf(ns') as real, ns[i] as real, SumOf(ns) as real, n as real, bound);
    }
  }

  lemma UnitScale(a: real, bound: real)
    requires a > 0.0
    ensures a / a * bound == bound
  {
  }

  /**
   * When the group sizes add up to the number of predictions, the expected
   * calibration error is a weighted mean of the gaps: it lies between 0 and
   * the maximum calibration error.
   */
  lemma ExpectedAtMostMax(ds: seq<real>, ns: seq<int>, n: int)
    requires |ds| == |ns| && n > 0
    requires forall m :: 0 <= m < |ns| ==> ns[m] >= 0 && ds[m] >= 0.0
    requires SumOf(ns) == n
    ensures 0.0 <= ExpectedCalibrationError(ds, ns, n) <= MaxCalibrationError(ds)
  {
    var bound := MaxCalibrationError(ds);
    ExpectedBound(ds, ns, n, bound);
    UnitScale(n as real, bound);
  }

  lemma {:induction false} AverageBound(ds: seq<real>, bins: int, bound: real)
    requires bins > 0
    requires forall m :: 0 <= m < |ds| ==> 0.0 <= ds[m] <= bound
    ensures 0.0 <= AverageCalibrationError(ds, bins) <= |ds| as real / bins as real * bound
  {
    if |ds| > 0 {
      var i := |ds| - 1;
      var ds' := ds[..i];
      var before := AverageCalibrationError(ds', bins);
      var w := 1.0 / bins as real;
      assert ds[i] / bins as real == w * ds[i];
      assert AverageCalibrationError(ds, bins) == before + w * ds[i];
      assert forall m :: 0 <= m < i ==> ds'[m] == ds[m];
      AverageBound(ds', bins, bound);
      StepBound(AverageCalibrationError(ds, bins), before, w, ds[i], i as real, 1.0, |ds| as real, bins as real, bound);
    }
  }

  /** Averaged over as many bins as there are groups, the calibration error lies between 0 and the maximum one. */
  lemma AverageAtMostMax(ds: seq<real>)
    requires forall m :: 0 <= m < |ds| ==> ds[m] >= 0.0
    ensures 0.0 <= AverageCalibrationError(ds, |ds|) <= MaxCalibrationError(ds)
  {
    if |ds| > 0 {
      var bound := MaxCalibrationError(ds);
      AverageBound(ds, |ds|, bound);
      UnitScale(|ds| as real, bound);
    }
  }
}
