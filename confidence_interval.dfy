/**
 * The 95% confidence interval around the area under a ROC curve, with the
 * two standard-error estimators the library offers: the parametric formula
 * of Hanley and McNeil (1982) and the placement-value estimator of DeLong,
 * DeLong and Clarke-Pearson (1988). Each exists twice: over a `ROCCurve`
 * (`HanleyConfidenceInterval`, `DeLongConfidenceInterval`, sharing the
 * constructor of `AbstractConfidenceInterval`) and over a legacy `AUROC`
 * (`HanleyAUC`, `DeLongAUC`). Both versions of an estimator use the one
 * variance function below. `Math.sqrt` is not computed: the caller passes in
 * the root, and `SquareRoot` states how it relates to the variance.
 */
module ConfidenceIntervals {
  import opened Data
  import opened JavaDouble
  import opened Placement
  import Roc
  import LegacyRoc

  /** The critical value of the standard normal distribution for a 95% interval. */
  const CriticalValue: real := 1.96

  // ---------------------------------------------------------------------
  // The interval around the AUC
  // ---------------------------------------------------------------------

  /** The lower bound, AUC − 1.96·SE, in double arithmetic. */
  function Lower(auc: real, standardError: Double): (r: Double)
    ensures standardError.Finite? <==> r.Finite?
    ensures standardError.NaN? <==> r.NaN?
    ensures standardError == PositiveInfinity ==> r == NegativeInfinity
  {
    Subtract(Finite(auc), Multiply(Finite(CriticalValue), standardError))
  }

  /**
   * The upper bound, AUC + 1.96·SE. With a finite standard error the two
   * bounds average to the AUC, lie 2·1.96·SE apart, and are ordered exactly
   * when the standard error is not negative.
   */
  function Upper(auc: real, standardError: Double): (r: Double)
    ensures standardError.Finite? <==> r.Finite?
    ensures standardError.NaN? <==> r.NaN?
    ensures standardError == PositiveInfinity ==> r == PositiveInfinity
    ensures standardError.Finite? ==> r.value + Lower(auc, standardError).value == 2.0 * auc
    ensures standardError.Finite? ==>
              r.value - Lower(auc, standardError).value == 2.0 * CriticalValue * standardError.value
    ensures standardError.Finite? ==> (Lower(auc, standardError).value <= r.value <==> standardError.value >= 0.0)
  {
    Add(Finite(auc), Multiply(Finite(CriticalValue), standardError))
  }

  /**
   * What an `AbstractConfidenceInterval` holds: the standard error its
   * subclass computed and the bounds placed symmetrically around the AUC.
   */
  class ConfidenceInterval {
    var standardError: Double
    var lowerConfidenceInterval: Double
    var upperConfidenceInterval: Double

    /** The shared constructor, given the AUC of the ROC and the standard error the subclass computed. */
    constructor (areaUnderCurve: real, stdError: Double)
      ensures standardError == stdError
      ensures lowerConfidenceInterval == Lower(areaUnderCurve, stdError)
      ensures upperConfidenceInterval == Upper(areaUnderCurve, stdError)
    {
      var marginOfError := Multiply(Finite(CriticalValue), stdError);
      lowerConfidenceInterval := Subtract(Finite(areaUnderCurve), marginOfError);
      upperConfidenceInterval := Add(Finite(areaUnderCurve), marginOfError);
      standardError := stdError;
    }
  }

  // ---------------------------------------------------------------------
  // Hanley and McNeil
  // ---------------------------------------------------------------------

  /**
   * Q1 = A / (2 − A) in doubles: for an AUC in [0, 1] a finite number never
   * below A², and a division by zero at A = 2.
   */
  function HanleyQ1(auc: real): (q: Double)
    ensures 0.0 <= auc <= 1.0 ==> q.Finite? && q.value * (2.0 - auc) == auc && q.value >= auc * auc
    ensures auc == 2.0 ==> q == PositiveInfinity
  {
    var q := Divide(auc, 2.0 - auc);
    if 0.0 <= auc <= 1.0 then
      Q1AtLeastSquare(auc, q.value);
      q
    else
      q
  }

  /**
   * Q2 = 2A² / (1 + A) in doubles: for an AUC in [0, 1] a finite number never
   * below A², and a division by zero at A = −1.
   */
  function HanleyQ2(auc: real): (q: Double)
    ensures 0.0 <= auc <= 1.0 ==> q.Finite? && q.value * (1.0 + auc) == 2.0 * auc * auc && q.value >= auc * auc
    ensures auc == -1.0 ==> q == PositiveInfinity
  {
    var q := Divide(2.0 * auc * auc, 1.0 + auc);
    if 0.0 <= auc <= 1.0 then
      Q2AtLeastSquare(auc, q.value);
      q
    else
      q
  }

  lemma Q1AtLeastSquare(auc: real, q: real)
    requires 0.0 <= auc <= 1.0 && q * (2.0 - auc) == auc
    ensures q >= auc * auc
  {
    var square := (1.0 - auc) * (1.0 - auc);
    assert (q - auc * auc) * (2.0 - auc) == auc * square;
    NonNegativeProduct(auc, square);
    NonNegativeFactor(q - auc * auc, 2.0 - auc, auc * square);
  }

  lemma Q2AtLeastSquare(auc: real, q: real)
    requires 0.0 <= auc <= 1.0 && q * (1.0 + auc) == 2.0 * auc * auc
    ensures q >= auc * auc
  {
    assert (q - auc * auc) * (1.0 + auc) == auc * auc * (1.0 - auc);
    NonNegativeProduct(auc * auc, 1.0 - auc);
    NonNegativeFactor(q - auc * auc, 1.0 + auc, auc * auc * (1.0 - auc));
  }

  /** A product of two non-negative numbers is not negative. */
  lemma NonNegativeProduct(a: real, b: real)
    requires a >= 0.0 && b >= 0.0
    ensures a * b >= 0.0
  {
  }

  /** A factor whose product with a positive number is not negative is not negative itself. */
  lemma NonNegativeFactor(x: real, d: real, p: real)
    requires x * d == p && p >= 0.0 && d > 0.0
    ensures x >= 0.0
  {
    assert x == p / d;
  }

  /**
   * The numerator of the Hanley-McNeil variance,
   * A(1 − A) + (m − 1)(Q1 − A²) + (n − 1)(Q2 − A²), in doubles.
   */
  function HanleyNumerator(numOfPositive: int, numOfNegative: int, auc: real): Double
  {
    var aucSq := auc * auc;
    Add(Add(Finite(auc * (1.0 - auc)),
            Multiply(Finite((numOfPositive - 1) as real), Subtract(HanleyQ1(auc), Finite(aucSq)))),
        Multiply(Finite((numOfNegative - 1) as real), Subtract(HanleyQ2(auc), Finite(aucSq))))
  }

  /** Over finite quotients the numerator is the exact sum. */
  lemma FiniteNumerator(a: real, x: real, y: real, square: real, q1: real, q2: real)
    ensures Add(Add(Finite(a), Multiply(Finite(x), Subtract(Finite(q1), Finite(square)))),
                Multiply(Finite(y), Subtract(Finite(q2), Finite(square))))
            == Finite(a + x * (q1 - square) + y * (q2 - square))
  {
  }

  lemma ZeroTerms(x: real, y: real, square: real)
    ensures 0.0 + x * (square - square) + y * (square - square) == 0.0
  {
  }

  /** For an AUC in [0, 1] with both classes present the numerator is a finite number, not negative. */
  lemma HanleyNumeratorNonNegative(numOfPositive: int, numOfNegative: int, auc: real)
    requires 0.0 <= auc <= 1.0 && numOfPositive >= 1 && numOfNegative >= 1
    ensures HanleyNumerator(numOfPositive, numOfNegative, auc).Finite?
    ensures HanleyNumerator(numOfPositive, numOfNegative, auc).value >= 0.0
  {
    var q1, q2 := HanleyQ1(auc).value, HanleyQ2(auc).value;
    FiniteNumerator(auc * (1.0 - auc), (numOfPositive - 1) as real, (numOfNegative - 1) as real, auc * auc, q1, q2);
    HanleyTermsNonNegative(numOfPositive, numOfNegative, auc, q1, q2);
  }

  /** At A = 0 and at A = 1 both Q1 and Q2 equal A², and the numerator is 0. */
  lemma HanleyNumeratorAtEnds(numOfPositive: int, numOfNegative: int, auc: real)
    requires auc == 0.0 || auc == 1.0
    ensures HanleyNumerator(numOfPositive, numOfNegative, auc) == Finite(0.0)
  {
    var x, y := (numOfPositive - 1) as real, (numOfNegative - 1) as real;
    var square := auc * auc;
    assert square == auc && auc * (1.0 - auc) == 0.0 by {
      if auc == 0.0 { } else { }
    }
    assert HanleyQ1(auc) == Finite(square) && HanleyQ2(auc) == Finite(square) by {
      if auc == 0.0 { } else { }
    }
    FiniteNumerator(auc * (1.0 - auc), x, y, square, square, square);
    ZeroTerms(x, y, square);
  }

  lemma HanleyTermsNonNegative(numOfPositive: int, numOfNegative: int, auc: real, q1: real, q2: real)
    requires 0.0 <= auc <= 1.0 && numOfPositive >= 1 && numOfNegative >= 1
    requires q1 >= auc * auc && q2 >= auc * auc
    ensures auc * (1.0 - auc) + (numOfPositive - 1) as real * (q1 - auc * auc)
            + (numOfNegative - 1) as real * (q2 - auc * auc) >= 0.0
  {
    NonNegativeProduct(auc, 1.0 - auc);
    NonNegativeProduct((numOfPositive - 1) as real, q1 - auc * auc);
    NonNegativeProduct((numOfNegative - 1) as real, q2 - auc * auc);
  }

  /**
   * The Hanley-McNeil variance of the AUC: the numerator divided, as a
   * double, by the `int` product m·n, which wraps beyond the `int` range.
   * For an AUC in [0, 1] with both classes present and m·n inside the range
   * it is finite and non-negative; when the wrapped product is 0 (a class is
   * empty, or m·n is a multiple of 2^32) it is NaN or an infinity; when the
   * product wraps negative it is finite and not positive.
   */
  function HanleyVariance(numOfPositive: int, numOfNegative: int, auc: real): (r: Double)
    ensures 0.0 <= auc <= 1.0 && numOfPositive >= 1 && numOfNegative >= 1 && numOfPositive * numOfNegative <= IntMax
            ==> r.Finite? && r.value >= 0.0
    ensures Int32(numOfPositive * numOfNegative) == 0 ==> !r.Finite?
    ensures 0.0 <= auc <= 1.0 && numOfPositive >= 1 && numOfNegative >= 1 && Int32(numOfPositive * numOfNegative) < 0
            ==> r.Finite? && r.value <= 0.0
  {
    var numerator := HanleyNumerator(numOfPositive, numOfNegative, auc);
    var denominator := Int32(numOfPositive * numOfNegative) as real;
    if 0.0 <= auc <= 1.0 && numOfPositive >= 1 && numOfNegative >= 1 && denominator != 0.0 then
      HanleyNumeratorNonNegative(numOfPositive, numOfNegative, auc);
      if numOfPositive * numOfNegative <= IntMax then
        PositiveProduct(numOfPositive, numOfNegative);
        assert denominator >= 1.0;
        QuotientSign(numerator.value, denominator);
        DivideBy(numerator, denominator)
      else
        QuotientSign(numerator.value, denominator);
        DivideBy(numerator, denominator)
    else
      DivideBy(numerator, denominator)
  }

  lemma PositiveProduct(m: int, n: int)
    requires m >= 1 && n >= 1
    ensures m * n >= 1
  {
  }

  /** A non-negative numerator keeps the sign of a non-zero denominator. */
  lemma QuotientSign(numerator: real, denominator: real)
    requires numerator >= 0.0 && denominator != 0.0
    ensures denominator > 0.0 ==> Divide(numerator, denominator).value >= 0.0
    ensures denominator < 0.0 ==> Divide(numerator, denominator).value <= 0.0
  {
    var q := Divide(numerator, denominator).value;
    if denominator > 0.0 {
      NonNegativeFactor(q, denominator, numerator);
    } else {
      NonNegativeFactor(-q, -denominator, numerator);
    }
  }

  /** With 65536 predictions in each class the `int` product m·n wraps to 0, so the variance is not finite. */
  lemma HanleyVarianceWraps(auc: real)
    ensures !HanleyVariance(65536, 65536, auc).Finite?
  {
    assert 65536 * 65536 == 0x1_0000_0000;
  }

  /** At a useless (A = 0) or a perfect (A = 1) classifier the Hanley-McNeil variance is 0. */
  lemma HanleyVarianceAtEnds(numOfPositive: int, numOfNegative: int, auc: real)
    requires auc == 0.0 || auc == 1.0
    requires Int32(numOfPositive * numOfNegative) != 0
    ensures HanleyVariance(numOfPositive, numOfNegative, auc) == Finite(0.0)
  {
    var d := Int32(numOfPositive * numOfNegative) as real;
    HanleyNumeratorAtEnds(numOfPositive, numOfNegative, auc);
    assert HanleyVariance(numOfPositive, numOfNegative, auc) == DivideBy(Finite(0.0), d);
    assert 0.0 / d == 0.0;
  }

  /**
   * `new HanleyConfidenceInterval(roc)`: the interval around the curve's AUC
   * whose standard error is the root of the Hanley-McNeil variance of the
   * curve's class counts and AUC; nothing else of the curve is used.
   */
  method NewHanleyConfidenceInterval(roc: Roc.RocCurve, root: Double) returns (ci: ConfidenceInterval)
    requires SquareRoot(root, HanleyVariance(roc.numberOfPositives, roc.numberOfNegatives, roc.areaUnderRocCurve))
    ensures ci.standardError == root
    ensures ci.lowerConfidenceInterval == Lower(roc.areaUnderRocCurve, root)
    ensures ci.upperConfidenceInterval == Upper(roc.areaUnderRocCurve, root)
  {
    ci := new ConfidenceInterval(roc.areaUnderRocCurve, root);
  }

  /**
   * For an AUC in [0, 1] with both classes present and m·n inside the `int`
   * range, the Hanley-McNeil standard error is a finite non-negative number,
   * so the interval is finite, ordered and centred on the AUC; when the
   * wrapped product is 0 it is NaN or +∞, and when it wraps negative it is
   * NaN or 0.
   */
  lemma HanleyIntervalDefined(numOfPositive: int, numOfNegative: int, auc: real, root: Double)
    requires SquareRoot(root, HanleyVariance(numOfPositive, numOfNegative, auc))
    ensures 0.0 <= auc <= 1.0 && numOfPositive >= 1 && numOfNegative >= 1 && numOfPositive * numOfNegative <= IntMax ==>
              root.Finite? && root.value >= 0.0
              && Lower(auc, root).value <= Upper(auc, root).value
              && Lower(auc, root).value + Upper(auc, root).value == 2.0 * auc
    ensures Int32(numOfPositive * numOfNegative) == 0 ==> root.NaN? || root == PositiveInfinity
    ensures 0.0 <= auc <= 1.0 && numOfPositive >= 1 && numOfNegative >= 1 && Int32(numOfPositive * numOfNegative) < 0 ==>
              root.NaN? || root == Finite(0.0)
  {
    IntervalFromVariance(HanleyVariance(numOfPositive, numOfNegative, auc), root, auc);
  }

  /**
   * The interval from the root of a variance: finite, ordered and centred on
   * the AUC for a finite non-negative variance, NaN or +∞ for a variance
   * that is not finite, NaN or 0 for one that is not positive.
   */
  lemma IntervalFromVariance(variance: Double, root: Double, auc: real)
    requires SquareRoot(root, variance)
    ensures variance.Finite? && variance.value >= 0.0 ==>
              root.Finite? && root.value >= 0.0
              && Lower(auc, root).value <= Upper(auc, root).value
              && Lower(auc, root).value + Upper(auc, root).value == 2.0 * auc
    ensures !variance.Finite? ==> root.NaN? || root == PositiveInfinity
    ensures variance.Finite? && variance.value <= 0.0 ==> root.NaN? || root == Finite(0.0)
  {
    if variance.Finite? && variance.value == 0.0 {
      ZeroFactor(root.value, root.value);
    }
  }

  /** A product of two non-negative numbers is 0 only when a factor is. */
  lemma ZeroFactor(a: real, b: real)
    requires a >= 0.0 && b >= 0.0 && a * b == 0.0
    ensures a == 0.0 || b == 0.0
  {
  }

  // ---------------------------------------------------------------------
  // DeLong, DeLong and Clarke-Pearson
  // ---------------------------------------------------------------------

  /**
   * sNorm as Java divides it: with no positives every placement is 0/0 and
   * the sum is NaN (an empty sum over no negatives stays 0), and with one
   * negative the divisor n − 1 is 0.
   */
  function SNormOf(norm: seq<real>, abNorm: seq<real>, auc: real): (r: Double)
    ensures |norm| >= 2 && |abNorm| > 0 ==> r == Finite(SNorm(norm, abNorm, auc))
  {
    if |abNorm| == 0 then (if |norm| == 0 then Finite(0.0) else NaN)
    else Divide(SquaredNormDeviations(norm, abNorm, auc), (|norm| - 1) as real)
  }

  /** sAbnorm as Java divides it, the same with the classes exchanged. */
  function SAbnormOf(norm: seq<real>, abNorm: seq<real>, auc: real): (r: Double)
    ensures |abNorm| >= 2 && |norm| > 0 ==> r == Finite(SAbnorm(norm, abNorm, auc))
  {
    if |norm| == 0 then (if |abNorm| == 0 then Finite(0.0) else NaN)
    else Divide(SquaredAbnormDeviations(abNorm, norm, auc), (|abNorm| - 1) as real)
  }

  /**
   * The quantity under the root of the DeLong standard error,
   * sNorm/n + sAbnorm/m in doubles: finite exactly when each class has at
   * least two predictions, and then the non-negative placement variance;
   * otherwise NaN or +∞.
   */
  function DeLongVarianceOf(norm: seq<real>, abNorm: seq<real>, auc: real): (r: Double)
    ensures r.Finite? <==> |norm| >= 2 && |abNorm| >= 2
    ensures r.Finite? ==> r.value == DeLongVariance(norm, abNorm, auc) && r.value >= 0.0
    ensures !r.Finite? ==> r.NaN? || r == PositiveInfinity
  {
    var r := Add(DivideBy(SNormOf(norm, abNorm, auc), |norm| as real),
                 DivideBy(SAbnormOf(norm, abNorm, auc), |abNorm| as real));
    NormTerm(norm, abNorm, auc);
    AbnormTerm(norm, abNorm, auc);
    r
  }

  /** How the negatives' term sNorm/n of the DeLong variance behaves for every pair of class sizes. */
  lemma NormTerm(norm: seq<real>, abNorm: seq<real>, auc: real)
    ensures var t := DivideBy(SNormOf(norm, abNorm, auc), |norm| as real);
            (|norm| >= 2 && |abNorm| > 0 ==> t == Finite(SNorm(norm, abNorm, auc) / |norm| as real))
            && (!(|norm| >= 2 && |abNorm| > 0) ==> t.NaN? || t == PositiveInfinity)
  {
    if |abNorm| > 0 && |norm| == 0 {
      assert SquaredNormDeviations(norm, abNorm, auc) == 0.0;
    }
  }

  /** How the positives' term sAbnorm/m of the DeLong variance behaves for every pair of class sizes. */
  lemma AbnormTerm(norm: seq<real>, abNorm: seq<real>, auc: real)
    ensures var t := DivideBy(SAbnormOf(norm, abNorm, auc), |abNorm| as real);
            (|abNorm| >= 2 && |norm| > 0 ==> t == Finite(SAbnorm(norm, abNorm, auc) / |abNorm| as real))
            && (!(|abNorm| >= 2 && |norm| > 0) ==> t.NaN? || t == PositiveInfinity)
  {
    if |norm| > 0 && |abNorm| == 0 {
      assert SquaredAbnormDeviations(abNorm, norm, auc) == 0.0;
    }
  }

  /**
   * `new DeLongConfidenceInterval(roc)`: the interval around the curve's AUC
   * whose standard error is the root of the DeLong variance of the curve's
   * negative (normal) and positive (abnormal) predictions about that AUC.
   */
  method NewDeLongConfidenceInterval(roc: Roc.RocCurve, root: Double) returns (ci: ConfidenceInterval)
    requires SquareRoot(root, DeLongVarianceOf(roc.negativePredictedValues, roc.positivePredictedValues,
                                               roc.areaUnderRocCurve))
    ensures ci.standardError == root
    ensures ci.lowerConfidenceInterval == Lower(roc.areaUnderRocCurve, root)
    ensures ci.upperConfidenceInterval == Upper(roc.areaUnderRocCurve, root)
  {
    ci := new ConfidenceInterval(roc.areaUnderRocCurve, root);
  }

  /**
   * With at least two predictions in each class the DeLong standard error
   * is a finite non-negative number and the interval is ordered and centred
   * on the AUC; with fewer it is NaN or +∞.
   */
  lemma DeLongIntervalDefined(norm: seq<real>, abNorm: seq<real>, auc: real, root: Double)
    requires SquareRoot(root, DeLongVarianceOf(norm, abNorm, auc))
    ensures |norm| >= 2 && |abNorm| >= 2 ==>
              root.Finite? && root.value >= 0.0
              && Lower(auc, root).value <= Upper(auc, root).value
              && Lower(auc, root).value + Upper(auc, root).value == 2.0 * auc
    ensures !(|norm| >= 2 && |abNorm| >= 2) ==> root.NaN? || root == PositiveInfinity
  {
  }

  // ---------------------------------------------------------------------
  // The legacy estimators over an AUROC
  // ---------------------------------------------------------------------

  /**
   * The loop of `DeLongAUC.computeStandardError` that splits the pairs:
   * label-1 predictions go to `abNormData` and all others to `normData`, in
   * array order. The arrays are sized by the counts the `AUROC` holds.
   */
  method Partition(probValues: array<ProbabilityValue>, numOfPositive: int, numOfNegative: int)
    returns (abNormData: array<real>, normData: array<real>)
    requires numOfPositive == CountObserved(LegacyRoc.Ascent(probValues[..]), 1)
    requires numOfNegative == probValues.Length - numOfPositive
    ensures abNormData[..] == PredictionsObserved(LegacyRoc.Ascent(probValues[..]), 1)
    ensures normData[..] == PredictionsNotObserved(LegacyRoc.Ascent(probValues[..]), 1)
  {
    ghost var s := LegacyRoc.Ascent(probValues[..]);
    abNormData := new real[numOfPositive];
    normData := new real[numOfNegative];
    var posIndex, negIndex := 0, 0;
    for i := 0 to probValues.Length
      invariant posIndex == CountObserved(s[..i], 1) && negIndex == i - posIndex
      invariant posIndex <= numOfPositive && negIndex <= numOfNegative
      invariant abNormData[..posIndex] == PredictionsObserved(s[..i], 1)
      invariant normData[..negIndex] == PredictionsNotObserved(s[..i], 1)
    {
      var v := probValues[i];
      assert s[i] == v.Widen();
      PartitionFits(s, i + 1);
      if v.observedValue == 1 {
        PartitionPositive(s, i);
        abNormData[posIndex] := v.predictedValue;
        assert abNormData[..posIndex + 1] == abNormData[..posIndex] + [v.predictedValue];
        posIndex := posIndex + 1;
      } else {
        PartitionNegative(s, i);
        normData[negIndex] := v.predictedValue;
        assert normData[..negIndex + 1] == normData[..negIndex] + [v.predictedValue];
        negIndex := negIndex + 1;
      }
    }
    assert s[..probValues.Length] == s;
    assert abNormData[..] == abNormData[..posIndex];
    assert normData[..] == normData[..negIndex];
  }

  /** One more positive pair of the prefix joins the positives' side of the split. */
  lemma PartitionPositive(s: seq<ObservedPredictedValue>, i: int)
    requires 0 <= i < |s| && s[i].observedValue == 1
    ensures CountObserved(s[..i + 1], 1) == CountObserved(s[..i], 1) + 1
    ensures PredictionsObserved(s[..i + 1], 1) == PredictionsObserved(s[..i], 1) + [s[i].predictedValue]
    ensures PredictionsNotObserved(s[..i + 1], 1) == PredictionsNotObserved(s[..i], 1)
  {
    assert s[..i + 1][..i] == s[..i];
  }

  /** One more negative pair of the prefix joins the negatives' side of the split. */
  lemma PartitionNegative(s: seq<ObservedPredictedValue>, i: int)
    requires 0 <= i < |s| && s[i].observedValue != 1
    ensures CountObserved(s[..i + 1], 1) == CountObserved(s[..i], 1)
    ensures PredictionsObserved(s[..i + 1], 1) == PredictionsObserved(s[..i], 1)
    ensures PredictionsNotObserved(s[..i + 1], 1) == PredictionsNotObserved(s[..i], 1) + [s[i].predictedValue]
  {
    assert s[..i + 1][..i] == s[..i];
  }

  /** The split of a prefix fits into the arrays sized by the counts of the whole. */
  lemma PartitionFits(s: seq<ObservedPredictedValue>, i: int)
    requires 0 <= i <= |s|
    ensures CountObserved(s[..i], 1) <= CountObserved(s, 1)
    ensures i - CountObserved(s[..i], 1) <= |s| - CountObserved(s, 1)
  {
    assert s == s[..i] + s[i..];
    SplitAppend(s[..i], s[i..], 1);
  }

  /** What a `HanleyAUC` holds: the standard error and the array {lower, upper}. */
  class HanleyAuc {
    const standardError: Double
    const confidenceInterval: array<Double>

    /**
     * `new HanleyAUC(auroc)`: the Hanley-McNeil formula, shared with
     * `HanleyConfidenceInterval`, over the counts and the AUC of the `AUROC`.
     */
    constructor (auroc: LegacyRoc.Auroc, root: Double)
      requires SquareRoot(root, HanleyVariance(auroc.numOfPositive, auroc.numOfNegative, auroc.areaUnderCurve))
      ensures standardError == root
      ensures confidenceInterval[..] == [Lower(auroc.areaUnderCurve, root), Upper(auroc.areaUnderCurve, root)]
      ensures fresh(confidenceInterval)
    {
      var ci := Interval(auroc.areaUnderCurve, root);
      standardError, confidenceInterval := root, ci;
    }
  }

  /** `getConfidenceInterval` of both legacy classes: a fresh array {AUC − 1.96·SE, AUC + 1.96·SE}. */
  method Interval(areaUnderCurve: real, standardError: Double) returns (ci: array<Double>)
    ensures fresh(ci)
    ensures ci[..] == [Lower(areaUnderCurve, standardError), Upper(areaUnderCurve, standardError)]
  {
    ci := new Double[2];
    var marginOfError := Multiply(Finite(CriticalValue), standardError);
    ci[0] := Subtract(Finite(areaUnderCurve), marginOfError);
    ci[1] := Add(Finite(areaUnderCurve), marginOfError);
  }

  /**
   * A computed `AUROC` meets what `new DeLongAUC` needs of its counts: the
   * walk from the end and the split in array order count the same label-1
   * pairs.
   */
  lemma DeLongAucCounts(auroc: LegacyRoc.Auroc)
    requires auroc.Computed()
    ensures auroc.numOfPositive == CountObserved(LegacyRoc.Ascent(auroc.probValues[..]), 1)
    ensures auroc.numOfNegative == auroc.probValues.Length - auroc.numOfPositive
  {
    LegacyRoc.AscentCounts(auroc.probValues[..], 1);
  }

  /** What a `DeLongAUC` holds: the standard error and the array {lower, upper}. */
  class DeLongAuc {
    const standardError: Double
    const confidenceInterval: array<Double>
    /** The split `computeStandardError` builds; kept here so the contract can name it. */
    const abNormData: array<real>
    const normData: array<real>

    /**
     * `new DeLongAUC(auroc)`: splits the `AUROC`'s pairs by label and takes
     * the DeLong variance, shared with `DeLongConfidenceInterval`, about the
     * AUROC's AUC.
     */
    constructor (auroc: LegacyRoc.Auroc, root: Double)
      requires auroc.numOfPositive == CountObserved(LegacyRoc.Ascent(auroc.probValues[..]), 1)
      requires auroc.numOfNegative == auroc.probValues.Length - auroc.numOfPositive
      requires SquareRoot(root, DeLongVarianceOf(PredictionsNotObserved(LegacyRoc.Ascent(auroc.probValues[..]), 1),
                                                 PredictionsObserved(LegacyRoc.Ascent(auroc.probValues[..]), 1),
                                                 auroc.areaUnderCurve))
      ensures abNormData[..] == PredictionsObserved(LegacyRoc.Ascent(auroc.probValues[..]), 1)
      ensures normData[..] == PredictionsNotObserved(LegacyRoc.Ascent(auroc.probValues[..]), 1)
      ensures standardError == root
      ensures confidenceInterval[..] == [Lower(auroc.areaUnderCurve, root), Upper(auroc.areaUnderCurve, root)]
      ensures fresh(confidenceInterval)
    {
      var positives, negatives := Partition(auroc.probValues, auroc.numOfPositive, auroc.numOfNegative);
      var ci := Interval(auroc.areaUnderCurve, root);
      abNormData, normData := positives, negatives;
      standardError, confidenceInterval := root, ci;
    }
  }
}
