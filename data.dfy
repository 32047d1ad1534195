/**
 * The classifier output every estimator consumes: pairs of an observed class
 * (1 for a positive case, 0 for a negative one) and a predicted probability,
 * their ordering by predicted value, sorting, and the split of a sample into
 * the predictions of the positive and of the negative cases.
 */
module Data {

  /** The outcome of a constructor that rejects its argument with an exception. */
  datatype Result<T> = Success(value: T) | Failure(error: string)

  /** Java's signed 8-bit `byte`. */
  newtype Byte = b: int | -128 <= b < 128

  /** One observation: the observed class and the classifier's prediction. */
  datatype ObservedPredictedValue = ObservedPredictedValue(observedValue: int, predictedValue: real)
  {
    /** Orders observations by predicted value only; the observed class plays no part. */
    function CompareTo(other: ObservedPredictedValue): (r: int)
      ensures r == 1 <==> predictedValue > other.predictedValue
      ensures r == -1 <==> predictedValue < other.predictedValue
      ensures r == 0 <==> predictedValue == other.predictedValue
    {
      if predictedValue > other.predictedValue then 1
      else if predictedValue < other.predictedValue then -1
      else 0
    }
  }

  /** The legacy pair type, whose observed class is a byte. */
  datatype ProbabilityValue = ProbabilityValue(observedValue: Byte, predictedValue: real)
  {
    /** Orders legacy pairs by predicted value only. */
    function CompareTo(other: ProbabilityValue): (r: int)
      ensures r == 1 <==> predictedValue > other.predictedValue
      ensures r == -1 <==> predictedValue < other.predictedValue
      ensures r == 0 <==> predictedValue == other.predictedValue
    {
      var other := other.predictedValue;
      if predictedValue > other then 1
      else if predictedValue < other then -1
      else 0
    }

    /** The same observation as a current-style pair (a byte widens to an int). */
    function Widen(): (r: ObservedPredictedValue)
      ensures r.observedValue == observedValue as int
      ensures r.predictedValue == predictedValue
    {
      ObservedPredictedValue(observedValue as int, predictedValue)
    }
  }

  /** Swapping the operands negates the comparison. */
  lemma CompareToAntisymmetric(a: ObservedPredictedValue, b: ObservedPredictedValue)
    ensures a.CompareTo(b) == -b.CompareTo(a)
  {
  }

  /** Pairs with equal predictions compare as equal, whatever their observed classes. */
  lemma CompareToIgnoresObserved(a: ObservedPredictedValue, b: ObservedPredictedValue)
    requires a.predictedValue == b.predictedValue
    ensures a.CompareTo(b) == 0 && b.CompareTo(a) == 0
  {
  }

  /** `CompareTo` is a transitive total preorder, so it is a valid sort order. */
  lemma CompareToTotalPreorder(a: ObservedPredictedValue, b: ObservedPredictedValue, c: ObservedPredictedValue)
    ensures a.CompareTo(b) <= 0 || b.CompareTo(a) <= 0
    ensures a.CompareTo(b) <= 0 && b.CompareTo(c) <= 0 ==> a.CompareTo(c) <= 0
  {
  }

  /** The legacy ordering is antisymmetric and transitive as well. */
  lemma ProbabilityCompareToPreorder(a: ProbabilityValue, b: ProbabilityValue, c: ProbabilityValue)
    ensures a.CompareTo(b) == -b.CompareTo(a)
    ensures a.CompareTo(b) <= 0 && b.CompareTo(c) <= 0 ==> a.CompareTo(c) <= 0
    ensures a.predictedValue == b.predictedValue ==> a.CompareTo(b) == 0
  {
  }

  // ---------------------------------------------------------------------
  // Sorting (`Arrays.sort`, with and without `Collections.reverseOrder()`)
  // ---------------------------------------------------------------------

  /** Non-decreasing in the key. */
  ghost predicate Ascending<T>(s: seq<T>, key: T -> real)
  {
    forall i, j :: 0 <= i < j < |s| ==> key(s[i]) <= key(s[j])
  }

  /** Non-increasing in the key. */
  ghost predicate Descending<T>(s: seq<T>, key: T -> real)
  {
    forall i, j :: 0 <= i < j < |s| ==> key(s[i]) >= key(s[j])
  }

  function InsertAscending<T(==)>(x: T, s: seq<T>, key: T -> real): (r: seq<T>)
    requires Ascending(s, key)
    ensures Ascending(r, key)
    ensures multiset(r) == multiset(s) + multiset{x}
    ensures |r| == |s| + 1
    ensures r[0] == x || (|s| > 0 && r[0] == s[0])
  {
    if |s| == 0 then [x]
    else if key(x) <= key(s[0]) then [x] + s
    else
      var rest := InsertAscending(x, s[1..], key);
      assert s == [s[0]] + s[1..];
      [s[0]] + rest
  }

  /** An ascending permutation of `s`. */
  function SortAscending<T(==)>(s: seq<T>, key: T -> real): (r: seq<T>)
    ensures Ascending(r, key)
    ensures multiset(r) == multiset(s)
    ensures |r| == |s|
  {
    if |s| == 0 then []
    else
      assert s == [s[0]] + s[1..];
      InsertAscending(s[0], SortAscending(s[1..], key), key)
  }

  /**
   * `Arrays.sort` on an array of pairs, whose natural order compares the
   * predictions: the array ends up holding its old contents in ascending
   * order of `key`.
   */
  method SortArray<T(==)>(a: array<T>, key: T -> real)
    modifies a
    ensures a[..] == SortAscending(old(a[..]), key)
  {
    var sorted := SortAscending(a[..], key);
    for i := 0 to a.Length
      invariant a[..i] == sorted[..i]
    {
      a[i] := sorted[i];
    }
    assert a[..] == a[..a.Length];
  }

  function InsertDescending<T(==)>(x: T, s: seq<T>, key: T -> real): (r: seq<T>)
    requires Descending(s, key)
    ensures Descending(r, key)
    ensures multiset(r) == multiset(s) + multiset{x}
    ensures |r| == |s| + 1
    ensures r[0] == x || (|s| > 0 && r[0] == s[0])
  {
    if |s| == 0 then [x]
    else if key(x) >= key(s[0]) then [x] + s
    else
      var rest := InsertDescending(x, s[1..], key);
      assert s == [s[0]] + s[1..];
      [s[0]] + rest
  }

  /** A descending permutation of `s`. */
  function SortDescending<T(==)>(s: seq<T>, key: T -> real): (r: seq<T>)
    ensures Descending(r, key)
    ensures multiset(r) == multiset(s)
    ensures |r| == |s|
  {
    if |s| == 0 then []
    else
      assert s == [s[0]] + s[1..];
      InsertDescending(s[0], SortDescending(s[1..], key), key)
  }

  function Prediction(v: ObservedPredictedValue): real { v.predictedValue }

  function LegacyPrediction(v: ProbabilityValue): real { v.predictedValue }

  // ---------------------------------------------------------------------
  // Class counts and the positive/negative split
  // ---------------------------------------------------------------------

  /** Every observed class is 0 or 1. */
  ghost predicate Binary(s: seq<ObservedPredictedValue>)
  {
    forall i :: 0 <= i < |s| ==> s[i].observedValue == 0 || s[i].observedValue == 1
  }

  /** Every prediction is a probability, in [0, 1]. */
  ghost predicate Probabilities(s: seq<ObservedPredictedValue>)
  {
    forall i :: 0 <= i < |s| ==> 0.0 <= s[i].predictedValue <= 1.0
  }

  /** The number of observations whose observed class is `v`. */
  function CountObserved(s: seq<ObservedPredictedValue>, v: int): (n: nat)
    ensures n <= |s|
  {
    if |s| == 0 then 0
    else CountObserved(s[..|s| - 1], v) + (if s[|s| - 1].observedValue == v then 1 else 0)
  }

  /**
   * The predictions of the observations whose observed class is `v`, in the
   * order they occur in `s`.
   */
  function PredictionsObserved(s: seq<ObservedPredictedValue>, v: int): (r: seq<real>)
    ensures |r| == CountObserved(s, v)
  {
    if |s| == 0 then []
    else
      PredictionsObserved(s[..|s| - 1], v)
        + (if s[|s| - 1].observedValue == v then [s[|s| - 1].predictedValue] else [])
  }

  /**
   * The predictions of the observations whose observed class is not `v`, in
   * the order they occur in `s`.
   */
  function PredictionsNotObserved(s: seq<ObservedPredictedValue>, v: int): (r: seq<real>)
    ensures |r| == |s| - CountObserved(s, v)
  {
    if |s| == 0 then []
    else
      PredictionsNotObserved(s[..|s| - 1], v)
        + (if s[|s| - 1].observedValue != v then [s[|s| - 1].predictedValue] else [])
  }

  /** With binary observed classes, "not positive" and "negative" select the same predictions. */
  lemma {:induction false} NotPositiveIsNegative(s: seq<ObservedPredictedValue>)
    requires Binary(s)
    ensures PredictionsNotObserved(s, 1) == PredictionsObserved(s, 0)
    ensures CountObserved(s, 0) == |s| - CountObserved(s, 1)
  {
    if |s| > 0 {
      NotPositiveIsNegative(s[..|s| - 1]);
    }
  }

  function Positives(s: seq<ObservedPredictedValue>): seq<real> { PredictionsObserved(s, 1) }

  function Negatives(s: seq<ObservedPredictedValue>): seq<real> { PredictionsObserved(s, 0) }

  /** The predictions of `s`, in order. */
  function Predictions(s: seq<ObservedPredictedValue>): (r: seq<real>)
    ensures |r| == |s|
    ensures forall i :: 0 <= i < |s| ==> r[i] == s[i].predictedValue
  {
    if |s| == 0 then [] else Predictions(s[..|s| - 1]) + [s[|s| - 1].predictedValue]
  }

  /**
   * The split keeps exactly the predictions of class `v`: every kept value is
   * the prediction of some observation of that class, and the split is a
   * sub-multiset of all predictions.
   */
  lemma {:induction false} PredictionsObservedSound(s: seq<ObservedPredictedValue>, v: int)
    ensures multiset(PredictionsObserved(s, v)) <= multiset(Predictions(s))
    ensures forall x :: x in PredictionsObserved(s, v) ==>
              exists i :: 0 <= i < |s| && s[i].observedValue == v && s[i].predictedValue == x
  {
    if |s| > 0 {
      var init := s[..|s| - 1];
      PredictionsObservedSound(init, v);
      forall x | x in PredictionsObserved(s, v)
        ensures exists i :: 0 <= i < |s| && s[i].observedValue == v && s[i].predictedValue == x
      {
        if x in PredictionsObserved(init, v) {
          var i :| 0 <= i < |init| && init[i].observedValue == v && init[i].predictedValue == x;
          assert s[i] == init[i];
        } else {
          assert s[|s| - 1].observedValue == v && s[|s| - 1].predictedValue == x;
        }
      }
    }
  }

  /**
   * With binary observed classes, the positives and negatives together are
   * all observations: the counts add up and the two splits are a permutation
   * of the predictions.
   */
  lemma {:induction false} SplitPartitions(s: seq<ObservedPredictedValue>)
    requires Binary(s)
    ensures CountObserved(s, 1) + CountObserved(s, 0) == |s|
    ensures multiset(Positives(s)) + multiset(Negatives(s)) == multiset(Predictions(s))
  {
    if |s| > 0 {
      SplitPartitions(s[..|s| - 1]);
    }
  }

  /** Counting and splitting distribute over concatenation. */
  lemma {:induction false} SplitAppend(a: seq<ObservedPredictedValue>, b: seq<ObservedPredictedValue>, v: int)
    ensures CountObserved(a + b, v) == CountObserved(a, v) + CountObserved(b, v)
    ensures PredictionsObserved(a + b, v) == PredictionsObserved(a, v) + PredictionsObserved(b, v)
    decreases |b|
  {
    if |b| == 0 {
      assert a + b == a;
    } else {
      SplitAppend(a, b[..|b| - 1], v);
      assert (a + b)[..|a + b| - 1] == a + b[..|b| - 1];
    }
  }

  /** Removing the observation at `j` removes exactly its own contribution. */
  lemma RemoveAt(t: seq<ObservedPredictedValue>, j: nat, v: int)
    requires j < |t|
    ensures CountObserved(t, v)
         == CountObserved(t[..j] + t[j + 1..], v) + (if t[j].observedValue == v then 1 else 0)
    ensures multiset(PredictionsObserved(t, v))
         == multiset(PredictionsObserved(t[..j] + t[j + 1..], v))
            + (if t[j].observedValue == v then multiset{t[j].predictedValue} else multiset{})
  {
    var x := t[j];
    assert t == t[..j] + [x] + t[j + 1..];
    SplitAppend(t[..j], [x], v);
    SplitAppend(t[..j] + [x], t[j + 1..], v);
    SplitAppend(t[..j], t[j + 1..], v);
    assert [x][..0] == [];
  }

  /** Counts and splits depend only on the multiset of observations, so sorting keeps them. */
  lemma {:induction false} CountObservedPermutation(s: seq<ObservedPredictedValue>, t: seq<ObservedPredictedValue>, v: int)
    requires multiset(s) == multiset(t)
    ensures CountObserved(s, v) == CountObserved(t, v)
    ensures multiset(PredictionsObserved(s, v)) == multiset(PredictionsObserved(t, v))
    decreases |s|
  {
    if |s| > 0 {
      var x := s[|s| - 1];
      var init := s[..|s| - 1];
      assert s == init + [x];
      assert x in multiset(t);
      var j :| 0 <= j < |t| && t[j] == x;
      var t' := t[..j] + t[j + 1..];
      RemoveMatch(s, t, j);
      CountObservedPermutation(init, t', v);
      RemoveAt(t, j, v);
      SplitAppend(init, [x], v);
    }
  }

  /** Taking the last element of `s` and a matching element of `t` out of equal multisets leaves equal multisets. */
  lemma RemoveMatch(s: seq<ObservedPredictedValue>, t: seq<ObservedPredictedValue>, j: int)
    requires multiset(s) == multiset(t) && |s| > 0 && 0 <= j < |t| && t[j] == s[|s| - 1]
    ensures multiset(s[..|s| - 1]) == multiset(t[..j] + t[j + 1..])
  {
    var x := s[|s| - 1];
    assert s == s[..|s| - 1] + [x];
    assert t == t[..j] + [x] + t[j + 1..];
    assert multiset(t) == multiset(t[..j] + t[j + 1..]) + multiset{x};
    assert multiset(s) == multiset(s[..|s| - 1]) + multiset{x};
    calc {
      multiset(s[..|s| - 1]);
      multiset(s[..|s| - 1]) + multiset{x} - multiset{x};
      multiset(t[..j] + t[j + 1..]) + multiset{x} - multiset{x};
      multiset(t[..j] + t[j + 1..]);
    }
  }

  // ---------------------------------------------------------------------
  // Distinct predictions
  // ---------------------------------------------------------------------

  /** The values that occur in `xs`. */
  ghost function Distinct(xs: seq<real>): set<real>
  {
    set i | 0 <= i < |xs| :: xs[i]
  }

  /**
   * How often a walk over `xs` meets a value different from the one before
   * it, the walk starting from `start`: the count of new thresholds.
   */
  function Changes(xs: seq<real>, start: real): (n: nat)
    ensures n <= |xs|
  {
    if |xs| == 0 then 0
    else
      var previous := if |xs| == 1 then start else xs[|xs| - 2];
      Changes(xs[..|xs| - 1], start) + (if xs[|xs| - 1] != previous then 1 else 0)
  }

  /** One more observation adds one change when its prediction differs from the one before it (from `start` for the first). */
  lemma ChangesStep(s: seq<ObservedPredictedValue>, start: real)
    requires |s| > 0
    ensures Changes(Predictions(s), start)
            == Changes(Predictions(s[..|s| - 1]), start)
               + (if s[|s| - 1].predictedValue != (if |s| == 1 then start else s[|s| - 2].predictedValue) then 1 else 0)
  {
    var xs := Predictions(s);
    assert xs[..|xs| - 1] == Predictions(s[..|s| - 1]);
  }

  /** `xs` with every run of equal neighbours collapsed to one value. */
  function Dedup(xs: seq<real>): (r: seq<real>)
    ensures |r| <= |xs|
    ensures |xs| > 0 ==> |r| > 0 && r[|r| - 1] == xs[|xs| - 1]
  {
    if |xs| == 0 then []
    else
      var init, x := xs[..|xs| - 1], xs[|xs| - 1];
      if |init| > 0 && x == init[|init| - 1] then Dedup(init) else Dedup(init) + [x]
  }

  /** One more value is dropped when it repeats its neighbour and kept otherwise. */
  lemma DedupStep(xs: seq<real>)
    requires |xs| > 1
    ensures Dedup(xs) == if xs[|xs| - 1] == xs[|xs| - 2] then Dedup(xs[..|xs| - 1]) else Dedup(xs[..|xs| - 1]) + [xs[|xs| - 1]]
  {
  }

  /**
   * Over values in descending order that do not begin with `start`, the walk
   * meets each distinct value exactly once.
   */
  lemma {:induction false} ChangesDistinct(xs: seq<real>, start: real)
    requires forall i, j :: 0 <= i < j < |xs| ==> xs[i] >= xs[j]
    requires |xs| == 0 || xs[0] != start
    ensures Changes(xs, start) == |Distinct(xs)|
  {
    if |xs| == 0 {
      assert Distinct(xs) == {};
    } else {
      var init, x := xs[..|xs| - 1], xs[|xs| - 1];
      if |init| > 0 {
        assert init[0] == xs[0];
      }
      ChangesDistinct(init, start);
      DistinctSnoc(xs);
      if |init| == 0 {
        assert Distinct(init) == {};
      } else if x == init[|init| - 1] {
        assert xs[|xs| - 2] == init[|init| - 1];
        assert init[|init| - 1] in Distinct(init);
        assert Distinct(init) + {x} == Distinct(init);
      } else {
        assert xs[|xs| - 2] == init[|init| - 1];
        assert x !in Distinct(init) by {
          assert forall i :: 0 <= i < |init| ==> init[i] >= init[|init| - 1] > x;
        }
      }
    }
  }

  /** The values of `xs` are those of all but its last element, and the last. */
  lemma DistinctSnoc(xs: seq<real>)
    requires |xs| > 0
    ensures Distinct(xs) == Distinct(xs[..|xs| - 1]) + {xs[|xs| - 1]}
  {
    var init, x := xs[..|xs| - 1], xs[|xs| - 1];
    forall y | y in Distinct(xs)
      ensures y in Distinct(init) + {x}
    {
      var i :| 0 <= i < |xs| && xs[i] == y;
      if i < |init| {
        assert init[i] == y;
      }
    }
    forall y | y in Distinct(init)
      ensures y in Distinct(xs)
    {
      var i :| 0 <= i < |init| && init[i] == y;
      assert xs[i] == y;
    }
  }

  /** The split of a descending sample is descending as well. */
  lemma {:induction false} PredictionsObservedDescending(s: seq<ObservedPredictedValue>, v: int)
    requires Descending(s, Prediction)
    ensures forall i, j :: 0 <= i < j < |PredictionsObserved(s, v)| ==>
              PredictionsObserved(s, v)[i] >= PredictionsObserved(s, v)[j]
    ensures forall i, j :: 0 <= i < j < |PredictionsNotObserved(s, v)| ==>
              PredictionsNotObserved(s, v)[i] >= PredictionsNotObserved(s, v)[j]
  {
    if |s| > 0 {
      var init, x := s[..|s| - 1], s[|s| - 1];
      assert forall i :: 0 <= i < |s| ==> Prediction(s[i]) == s[i].predictedValue;
      assert forall i :: 0 <= i < |init| ==> init[i].predictedValue >= x.predictedValue;
      assert Descending(init, Prediction) by {
        assert forall i :: 0 <= i < |init| ==> init[i] == s[i];
      }
      PredictionsObservedDescending(init, v);
      PredictionsAtLeast(init, v, x.predictedValue);
      var r, q := PredictionsObserved(s, v), PredictionsObserved(init, v);
      assert r == q + (if x.observedValue == v then [x.predictedValue] else []);
      forall i, j | 0 <= i < j < |r|
        ensures r[i] >= r[j]
      {
        assert r[i] == q[i];
        if j < |q| {
          assert r[j] == q[j];
          assert q[i] >= q[j];
        } else {
          assert r == q + [x.predictedValue];
          assert q[i] >= x.predictedValue;
        }
      }
      var r', q' := PredictionsNotObserved(s, v), PredictionsNotObserved(init, v);
      assert r' == q' + (if x.observedValue != v then [x.predictedValue] else []);
      forall i, j | 0 <= i < j < |r'|
        ensures r'[i] >= r'[j]
      {
        assert r'[i] == q'[i];
        if j < |q'| {
          assert r'[j] == q'[j];
        } else {
          assert r' == q' + [x.predictedValue];
        }
      }
    }
  }

  /** Every split prediction of a sample whose predictions are all at least `t` is at least `t`. */
  lemma {:induction false} PredictionsAtLeast(s: seq<ObservedPredictedValue>, v: int, t: real)
    requires forall i :: 0 <= i < |s| ==> s[i].predictedValue >= t
    ensures forall i :: 0 <= i < |PredictionsObserved(s, v)| ==> PredictionsObserved(s, v)[i] >= t
    ensures forall i :: 0 <= i < |PredictionsNotObserved(s, v)| ==> PredictionsNotObserved(s, v)[i] >= t
  {
    if |s| > 0 {
      var init := s[..|s| - 1];
      assert forall i :: 0 <= i < |init| ==> init[i] == s[i];
      PredictionsAtLeast(init, v, t);
    }
  }

  /** Reordering keeps the observed classes binary. */
  lemma BinaryPermutation(s: seq<ObservedPredictedValue>, t: seq<ObservedPredictedValue>)
    requires multiset(s) == multiset(t) && Binary(s)
    ensures Binary(t)
  {
    forall i | 0 <= i < |t|
      ensures t[i].observedValue == 0 || t[i].observedValue == 1
    {
      assert t[i] in multiset(s);
      var j :| 0 <= j < |s| && s[j] == t[i];
    }
  }

  /** Reordering keeps every prediction a probability. */
  lemma ProbabilitiesPermutation(s: seq<ObservedPredictedValue>, t: seq<ObservedPredictedValue>)
    requires multiset(s) == multiset(t) && Probabilities(s)
    ensures Probabilities(t)
  {
    forall i | 0 <= i < |t|
      ensures 0.0 <= t[i].predictedValue <= 1.0
    {
      assert t[i] in multiset(s);
      var j :| 0 <= j < |s| && s[j] == t[i];
    }
  }
}
