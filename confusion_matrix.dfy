/**
 * A confusion matrix: the four counts of a binary classifier at one
 * threshold, and the ten rates derived from them. Every rate divides by a
 * count that may be zero and returns 0 in that case.
 */
module Confusion {

  /**
   * numerator / denominator, and 0 when the denominator is 0 (the guard every
   * rate of the matrix applies).
   */
  function Rate(numerator: int, denominator: int): (r: real)
    ensures denominator == 0 ==> r == 0.0
    ensures denominator != 0 ==> r * denominator as real == numerator as real
    ensures 0 <= numerator <= denominator ==> 0.0 <= r <= 1.0
  {
    if denominator == 0 then 0.0 else numerator as real / denominator as real
  }

  /** Counts at a threshold; the counts are Java `int`s. */
  datatype ConfusionMatrix = ConfusionMatrix(
    truePositives: int,
    trueNegatives: int,
    falsePositives: int,
    falseNegatives: int,
    threshold: real)
  {
    ghost predicate NonNegative()
    {
      truePositives >= 0 && trueNegatives >= 0 && falsePositives >= 0 && falseNegatives >= 0
    }

    /** Actual positives, TP + FN. */
    function Positives(): int { truePositives + falseNegatives }

    /** Actual negatives, TN + FP. */
    function Negatives(): int { trueNegatives + falsePositives }

    /** Predicted positives, TP + FP. */
    function PredictedPositives(): int { truePositives + falsePositives }

    /** Predicted negatives, TN + FN. */
    function PredictedNegatives(): int { trueNegatives + falseNegatives }

    function Total(): int { Positives() + Negatives() }

    /** (TP + TN) / total: how often the classifier is right. */
    function Accuracy(): (r: real)
      ensures Total() == 0 ==> r == 0.0
      ensures Total() != 0 ==> r * Total() as real == (truePositives + trueNegatives) as real
      ensures NonNegative() ==> 0.0 <= r <= 1.0
    {
      Rate(truePositives + trueNegatives, Total())
    }

    /** 2TP / ((TP + FN) + (TP + FP)): the harmonic mean of recall and precision. */
    function F1Score(): (r: real)
      ensures Positives() + PredictedPositives() == 0 ==> r == 0.0
      ensures var d := Positives() + PredictedPositives();
              d != 0 ==> r * d as real == (2 * truePositives) as real
      ensures NonNegative() ==> 0.0 <= r <= 1.0
    {
      Rate(2 * truePositives, Positives() + PredictedPositives())
    }

    /** FP / (TP + FP). */
    function FalseDiscoveryRate(): (r: real)
      ensures PredictedPositives() == 0 ==> r == 0.0
      ensures PredictedPositives() != 0 ==> r * PredictedPositives() as real == falsePositives as real
      ensures NonNegative() ==> 0.0 <= r <= 1.0
    {
      Rate(falsePositives, PredictedPositives())
    }

    /** TP / (TP + FN): sensitivity, recall, the y-value of an ROC point. */
    function TruePositiveRate(): (r: real)
      ensures Positives() == 0 ==> r == 0.0
      ensures Positives() != 0 ==> r * Positives() as real == truePositives as real
      ensures NonNegative() ==> 0.0 <= r <= 1.0
    {
      Rate(truePositives, Positives())
    }

    /** TN / (TN + FP): specificity. */
    function TrueNegativeRate(): (r: real)
      ensures Negatives() == 0 ==> r == 0.0
      ensures Negatives() != 0 ==> r * Negatives() as real == trueNegatives as real
      ensures NonNegative() ==> 0.0 <= r <= 1.0
    {
      Rate(trueNegatives, Negatives())
    }

    /** FP / (TN + FP): the x-value of an ROC point. */
    function FalsePositiveRate(): (r: real)
      ensures Negatives() == 0 ==> r == 0.0
      ensures Negatives() != 0 ==> r * Negatives() as real == falsePositives as real
      ensures NonNegative() ==> 0.0 <= r <= 1.0
    {
      Rate(falsePositives, Negatives())
    }

    /** TN / (TN + FN). */
    function NegativePredictiveValue(): (r: real)
      ensures PredictedNegatives() == 0 ==> r == 0.0
      ensures PredictedNegatives() != 0 ==> r * PredictedNegatives() as real == trueNegatives as real
      ensures NonNegative() ==> 0.0 <= r <= 1.0
    {
      Rate(trueNegatives, PredictedNegatives())
    }

    /** TP / (TP + FP): precision. */
    function PositivePredictiveValue(): (r: real)
      ensures PredictedPositives() == 0 ==> r == 0.0
      ensures PredictedPositives() != 0 ==> r * PredictedPositives() as real == truePositives as real
      ensures NonNegative() ==> 0.0 <= r <= 1.0
    {
      Rate(truePositives, PredictedPositives())
    }

    /** (FP + FN) / total: how often the classifier is wrong. */
    function MisclassificationRate(): (r: real)
      ensures Total() == 0 ==> r == 0.0
      ensures Total() != 0 ==> r * Total() as real == (falsePositives + falseNegatives) as real
      ensures NonNegative() ==> 0.0 <= r <= 1.0
    {
      Rate(falsePositives + falseNegatives, Total())
    }

    /** (TP + FN) / total: how often the positive class occurs. */
    function Prevalence(): (r: real)
      ensures Total() == 0 ==> r == 0.0
      ensures Total() != 0 ==> r * Total() as real == Positives() as real
      ensures NonNegative() ==> 0.0 <= r <= 1.0
    {
      Rate(Positives(), Total())
    }
  }

  /** Specificity and the false positive rate are complementary, or both 0 with no negatives. */
  lemma SpecificityComplement(m: ConfusionMatrix)
    ensures m.Negatives() != 0 ==> m.TrueNegativeRate() + m.FalsePositiveRate() == 1.0
    ensures m.Negatives() == 0 ==> m.TrueNegativeRate() == 0.0 && m.FalsePositiveRate() == 0.0
  {
    if m.Negatives() != 0 {
      Complement(m.TrueNegativeRate(), m.FalsePositiveRate(), m.trueNegatives as real, m.falsePositives as real,
                 m.Negatives() as real);
    }
  }

  /** Precision and the false discovery rate are complementary, or both 0 with no predicted positives. */
  lemma PrecisionComplement(m: ConfusionMatrix)
    ensures m.PredictedPositives() != 0 ==> m.PositivePredictiveValue() + m.FalseDiscoveryRate() == 1.0
    ensures m.PredictedPositives() == 0 ==> m.PositivePredictiveValue() == 0.0 && m.FalseDiscoveryRate() == 0.0
  {
    if m.PredictedPositives() != 0 {
      Complement(m.PositivePredictiveValue(), m.FalseDiscoveryRate(), m.truePositives as real, m.falsePositives as real,
                 m.PredictedPositives() as real);
    }
  }

  /** Accuracy and the misclassification rate are complementary, or both 0 for an empty matrix. */
  lemma AccuracyComplement(m: ConfusionMatrix)
    ensures m.Total() != 0 ==> m.Accuracy() + m.MisclassificationRate() == 1.0
    ensures m.Total() == 0 ==> m.Accuracy() == 0.0 && m.MisclassificationRate() == 0.0
  {
    if m.Total() != 0 {
      Complement(m.Accuracy(), m.MisclassificationRate(), (m.truePositives + m.trueNegatives) as real,
                 (m.falsePositives + m.falseNegatives) as real, m.Total() as real);
    }
  }

  /** Two shares of the same non-zero whole whose parts add up to it sum to 1. */
  lemma Complement(a: real, b: real, x: real, y: real, d: real)
    requires d != 0.0 && a * d == x && b * d == y && x + y == d
    ensures a + b == 1.0
  {
    assert (a + b) * d == x + y;
    assert (a + b - 1.0) * d == 0.0;
  }

  /** With no false negatives every positive is found: TPR = 1. */
  lemma FullRecall(m: ConfusionMatrix)
    requires m.falseNegatives == 0 && m.truePositives > 0
    ensures m.TruePositiveRate() == 1.0
  {
    WholeRate(m.truePositives);
  }

  /** With no true negatives every negative is a false alarm: FPR = 1. */
  lemma FullFallOut(m: ConfusionMatrix)
    requires m.trueNegatives == 0 && m.falsePositives > 0
    ensures m.FalsePositiveRate() == 1.0
  {
    WholeRate(m.falsePositives);
  }

  lemma WholeRate(n: int)
    requires n > 0
    ensures Rate(n, n) == 1.0
  {
    var r := Rate(n, n);
    assert r * n as real == n as real;
  }

  /** F1 is 2TP / (2TP + FP + FN), the harmonic mean of precision and recall when both are positive. */
  lemma F1HarmonicMean(m: ConfusionMatrix)
    requires m.NonNegative()
    ensures var d := 2 * m.truePositives + m.falsePositives + m.falseNegatives;
            (d == 0 ==> m.F1Score() == 0.0)
            && (d != 0 ==> m.F1Score() == (2 * m.truePositives) as real / d as real)
    ensures var p, r := m.PositivePredictiveValue(), m.TruePositiveRate();
            m.truePositives > 0 ==> m.F1Score() * (p + r) == 2.0 * p * r
  {
    if m.truePositives > 0 {
      var tp, a, b := m.truePositives as real, m.PredictedPositives() as real, m.Positives() as real;
      HarmonicMean(m.F1Score(), m.PositivePredictiveValue(), m.TruePositiveRate(), tp, a, b);
    }
  }

  /** If f·(a + b) = 2t, p·a = t and r·b = t for positive a and b, then f·(p + r) = 2·p·r. */
  lemma HarmonicMean(f: real, p: real, r: real, t: real, a: real, b: real)
    requires a > 0.0 && b > 0.0
    requires f * (a + b) == 2.0 * t && p * a == t && r * b == t
    ensures f * (p + r) == 2.0 * p * r
  {
    assert f * (p + r) * (a * b) == f * (p * a * b + r * b * a);
    assert f * (p * a * b + r * b * a) == f * (t * b + t * a);
    assert f * (t * b + t * a) == t * (f * (a + b));
    assert 2.0 * p * r * (a * b) == 2.0 * (p * a) * (r * b);
    assert f * (p + r) * (a * b) == 2.0 * p * r * (a * b);
  }
}
