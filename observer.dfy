/**
 * `GHNumericAttributeClassObserver`: per-class statistics of one numeric
 * attribute at a leaf (smallest and largest value seen and a Gaussian
 * estimator per class), the candidate thresholds derived from them, the class
 * weights each threshold sends left and right, and the best threshold.
 */
module Observers {
  import opened Wrappers
  import opened Doubles
  import opened MathOracles
  import opened Vectors
  import opened Gaussian
  import opened SplitTests
  import opened SplitSuggestions
  import opened DoubleVectors

  /** The three per-class vectors, indexed by class label. */
  datatype Observer = GHNumericAttributeClassObserver(
    minValueObservedPerClass: seq<Double>,
    maxValueObservedPerClass: seq<Double>,
    attValDistPerClass: seq<Option<Estimator>>)

  /** A newly created observer: three empty vectors. */
  const FreshObserver: Observer := GHNumericAttributeClassObserver([], [], [])

  /** `numBins`: how many thresholds are tried across the observed range. */
  const NUM_BINS: nat := 10

  /** `minValueObservedPerClass.getValue(i)`: 0.0 beyond the stored values. */
  function MinOf(o: Observer, i: int): Double
  {
    Get(o.minValueObservedPerClass, i, Num(0.0))
  }

  /** `maxValueObservedPerClass.getValue(i)` */
  function MaxOf(o: Observer, i: int): Double
  {
    Get(o.maxValueObservedPerClass, i, Num(0.0))
  }

  /** `attValDistPerClass.get(i)`: null beyond the stored estimators. */
  function EstimatorOf(o: Observer, i: int): Option<Estimator>
  {
    Get(o.attValDistPerClass, i, None)
  }

  /** The class's estimator accepts a weight (see `WithObservation`); always true for a positive weight. */
  predicate CanObserve(o: Observer, classVal: int, weight: real)
  {
    match EstimatorOf(o, classVal)
    case None => true
    case Some(e) => e.weightSum <= 0.0 || e.weightSum + weight != 0.0
  }

  /**
   * `observeAttributeClass`: NaN is ignored.  The first value of a class
   * creates its estimator and sets both its smallest and largest value to it;
   * later values only lower the smallest or raise the largest.  Infinite
   * values move the bounds although the estimator ignores them.  A negative
   * class makes Java's vector `set` throw.
   */
  function ObservedAttributeClass(o: Observer, attVal: Double, classVal: int, weight: real): (r: Observer)
    requires classVal >= 0 && CanObserve(o, classVal, weight)
    ensures IsNaN(attVal) ==> r == o
    ensures !IsNaN(attVal) && EstimatorOf(o, classVal).None? ==>
              && EstimatorOf(r, classVal) == Some(WithObservation(Empty, attVal, weight))
              && MinOf(r, classVal) == attVal && MaxOf(r, classVal) == attVal
    ensures !IsNaN(attVal) && EstimatorOf(o, classVal).Some? ==>
              && EstimatorOf(r, classVal) == Some(WithObservation(EstimatorOf(o, classVal).value, attVal, weight))
              && MinOf(r, classVal) == (if Lt(attVal, MinOf(o, classVal)) then attVal else MinOf(o, classVal))
              && MaxOf(r, classVal) == (if Gt(attVal, MaxOf(o, classVal)) then attVal else MaxOf(o, classVal))
    ensures forall i :: i != classVal ==>
              EstimatorOf(r, i) == EstimatorOf(o, i) && MinOf(r, i) == MinOf(o, i) && MaxOf(r, i) == MaxOf(o, i)
  {
    if IsNaN(attVal) then o
    else
      match EstimatorOf(o, classVal)
      case None =>
        GHNumericAttributeClassObserver(
          Put(o.minValueObservedPerClass, classVal, attVal, Num(0.0)),
          Put(o.maxValueObservedPerClass, classVal, attVal, Num(0.0)),
          Put(o.attValDistPerClass, classVal, Some(WithObservation(Empty, attVal, weight)), None))
      case Some(valDist) =>
        var mins := if Lt(attVal, MinOf(o, classVal)) then Put(o.minValueObservedPerClass, classVal, attVal, Num(0.0))
                    else o.minValueObservedPerClass;
        var maxs := if Gt(attVal, MaxOf(o, classVal)) then Put(o.maxValueObservedPerClass, classVal, attVal, Num(0.0))
                    else o.maxValueObservedPerClass;
        GHNumericAttributeClassObserver(mins, maxs, o.attValDistPerClass[classVal := Some(WithObservation(valDist, attVal, weight))])
  }

  /**
   * Every class with an estimator has a smallest and a largest value that are
   * not NaN, in order, and an estimator with non-negative weight and scatter.
   */
  predicate WellFormed(o: Observer)
  {
    forall i :: 0 <= i < |o.attValDistPerClass| && o.attValDistPerClass[i].Some? ==>
      && !MinOf(o, i).NaN? && !MaxOf(o, i).NaN?
      && Compare(MinOf(o, i), MaxOf(o, i)) <= 0
      && o.attValDistPerClass[i].value.weightSum >= 0.0
      && o.attValDistPerClass[i].value.varianceSum >= 0.0
  }

  /**
   * Observing a present value with a positive weight keeps the observer well
   * formed and brackets the value between its class's smallest and largest
   * value, which only ever widen.
   */
  lemma ObserveKeepsRange(o: Observer, attVal: Double, classVal: int, weight: real)
    requires WellFormed(o) && classVal >= 0 && weight > 0.0 && !IsNaN(attVal)
    ensures CanObserve(o, classVal, weight)
    ensures var r := ObservedAttributeClass(o, attVal, classVal, weight);
            && WellFormed(r)
            && Compare(MinOf(r, classVal), attVal) <= 0 && Compare(attVal, MaxOf(r, classVal)) <= 0
            && (EstimatorOf(o, classVal).Some? ==>
                  Compare(MinOf(r, classVal), MinOf(o, classVal)) <= 0 && Compare(MaxOf(o, classVal), MaxOf(r, classVal)) <= 0)
  {
    var r := ObservedAttributeClass(o, attVal, classVal, weight);
    if EstimatorOf(o, classVal).Some? {
      var e := EstimatorOf(o, classVal).value;
      ScatterNonDecreasing(e, attVal, weight);
      CompareOrder(MinOf(r, classVal), attVal, MaxOf(r, classVal));
      CompareOrder(MinOf(o, classVal), MaxOf(o, classVal), attVal);
      CompareOrder(attVal, MinOf(o, classVal), MaxOf(o, classVal));
    }
    forall i | 0 <= i < |r.attValDistPerClass| && r.attValDistPerClass[i].Some?
      ensures && !MinOf(r, i).NaN? && !MaxOf(r, i).NaN?
              && Compare(MinOf(r, i), MaxOf(r, i)) <= 0
              && r.attValDistPerClass[i].value.weightSum >= 0.0
              && r.attValDistPerClass[i].value.varianceSum >= 0.0
    {
      assert EstimatorOf(r, i) == r.attValDistPerClass[i];
      if i == classVal {
        if EstimatorOf(o, classVal).Some? {
          CompareOrder(MinOf(r, i), MinOf(o, i), MaxOf(o, i));
          CompareOrder(MinOf(r, i), MaxOf(o, i), MaxOf(r, i));
        }
      } else {
        assert EstimatorOf(o, i) == r.attValDistPerClass[i];
      }
    }
  }

  /**
   * `probabilityOfAttributeValueGivenClass`: zero for a class without an
   * estimator, otherwise the estimator's density at the value.
   */
  function ProbabilityOfAttributeValueGivenClass(o: Observer, attVal: Double, classVal: int, m: MathLib): (p: Double)
    ensures EstimatorOf(o, classVal).None? ==> p == Num(0.0)
    ensures EstimatorOf(o, classVal).Some? ==> p == ProbabilityDensityAt(EstimatorOf(o, classVal).value, attVal, m)
  {
    match EstimatorOf(o, classVal)
    case None => Num(0.0)
    case Some(e) => ProbabilityDensityAt(e, attVal, m)
  }

  /** The least smallest value over the first `n` classes that have an estimator; +infinity when there is none. */
  function LowestMin(o: Observer, n: nat): Double
    requires n <= |o.attValDistPerClass|
  {
    if n == 0 then PosInf
    else
      var prev := LowestMin(o, n - 1);
      if o.attValDistPerClass[n - 1].Some? && Lt(MinOf(o, n - 1), prev) then MinOf(o, n - 1) else prev
  }

  /** The greatest largest value over the first `n` classes that have an estimator; -infinity when there is none. */
  function HighestMax(o: Observer, n: nat): Double
    requires n <= |o.attValDistPerClass|
  {
    if n == 0 then NegInf
    else
      var prev := HighestMax(o, n - 1);
      if o.attValDistPerClass[n - 1].Some? && Gt(MaxOf(o, n - 1), prev) then MaxOf(o, n - 1) else prev
  }

  /**
   * The thresholds for an overall range: `numBins` evenly spaced interior
   * points of a finite, non-degenerate range, and none otherwise (with an
   * infinite bound every computed point is infinite or NaN and fails the
   * strictly-inside filter).
   */
  function Candidates(lo: Double, hi: Double): (c: seq<Double>)
  {
    if lo.Num? && hi.Num? && lo.r < hi.r then seq(NUM_BINS, i => Num(lo.r + BinOffset(hi.r - lo.r, i)))
    else []
  }

  /** How far above the range's lower end the threshold of bin `i` (counted from 0) lies. */
  function BinOffset(d: real, i: int): real
  {
    d / (NUM_BINS as real + 1.0) * (i + 1) as real
  }

  /** What `getSplitPointSuggestions` answers. */
  function SplitPoints(o: Observer): seq<Double>
  {
    var n := |o.attValDistPerClass|;
    Candidates(LowestMin(o, n), HighestMax(o, n))
  }

  /** Strictly increasing in the `Double.compare` order, as a `TreeSet` iterates. */
  predicate StrictlyIncreasing(s: seq<Double>)
  {
    forall i, j :: 0 <= i < j < |s| ==> Compare(s[i], s[j]) < 0
  }

  /** `TreeSet.add` on the ascending sequence of its elements: a value already present is not added again. */
  function TreeSetAdd(s: seq<Double>, v: Double): (r: seq<Double>)
  {
    if |s| == 0 then [v]
    else if Compare(v, s[0]) < 0 then [v] + s
    else if Compare(v, s[0]) == 0 then s
    else [s[0]] + TreeSetAdd(s[1..], v)
  }

  /** Adding a value above every element appends it. */
  lemma {:induction false} TreeSetAddAbove(s: seq<Double>, v: Double)
    requires forall j :: 0 <= j < |s| ==> Compare(s[j], v) < 0
    ensures TreeSetAdd(s, v) == s + [v]
    decreases |s|
  {
    if |s| > 0 {
      CompareOrder(s[0], v, v);
      TreeSetAddAbove(s[1..], v);
      assert [s[0]] + (s[1..] + [v]) == s + [v];
    }
  }

  /** The value computed for bin `b` passes the strictly-inside filter exactly for a finite non-degenerate range, and is then the `b`-th candidate. */
  lemma BinValue(minValue: Double, maxValue: Double, b: nat)
    requires b < NUM_BINS
    ensures var splitValue := Add(Scale(Scale(Sub(maxValue, minValue), 1.0 / (NUM_BINS as real + 1.0)), (b + 1) as real), minValue);
            && ((Gt(splitValue, minValue) && Lt(splitValue, maxValue)) <==> |Candidates(minValue, maxValue)| > 0)
            && (|Candidates(minValue, maxValue)| > 0 ==> splitValue == Candidates(minValue, maxValue)[b])
  {
    if minValue.Num? && maxValue.Num? {
      var d := maxValue.r - minValue.r;
      var k := (b + 1) as real;
      assert d * (1.0 / (NUM_BINS as real + 1.0)) * k == BinOffset(d, b);
      if d > 0.0 {
        BinOffsets(d, b, b);
      } else {
        assert BinOffset(d, b) <= 0.0;
      }
    }
  }

  /** `getSplitPointSuggestions`: overall range from the per-class bounds, then the bin thresholds strictly inside it, collected in a sorted set. */
  method SplitPointSuggestions(o: Observer) returns (suggestions: seq<Double>)
    ensures suggestions == SplitPoints(o)
  {
    var suggestedSplitValues: seq<Double> := [];
    var minValue := PosInf;
    var maxValue := NegInf;
    var i := 0;
    while i < |o.attValDistPerClass|
      invariant 0 <= i <= |o.attValDistPerClass|
      invariant minValue == LowestMin(o, i) && maxValue == HighestMax(o, i)
    {
      var estimator := EstimatorOf(o, i);
      if estimator.Some? {
        if Lt(MinOf(o, i), minValue) {
          minValue := MinOf(o, i);
        }
        if Gt(MaxOf(o, i), maxValue) {
          maxValue := MaxOf(o, i);
        }
      }
      i := i + 1;
    }
    ghost var cands := Candidates(minValue, maxValue);
    if Lt(minValue, PosInf) {
      var range := Sub(maxValue, minValue);
      var b := 0;
      while b < NUM_BINS
        invariant 0 <= b <= NUM_BINS
        invariant suggestedSplitValues == if |cands| > 0 then cands[..b] else []
      {
        var splitValue := Add(Scale(Scale(range, 1.0 / (NUM_BINS as real + 1.0)), (b + 1) as real), minValue);
        BinValue(minValue, maxValue, b);
        if Gt(splitValue, minValue) && Lt(splitValue, maxValue) {
          CandidatesIncreasing(minValue, maxValue);
          TreeSetAddAbove(suggestedSplitValues, splitValue);
          assert cands[..b + 1] == cands[..b] + [cands[b]];
          suggestedSplitValues := TreeSetAdd(suggestedSplitValues, splitValue);
        }
        b := b + 1;
      }
      assert |cands| > 0 ==> cands[..NUM_BINS] == cands;
    }
    suggestions := suggestedSplitValues;
  }

  /** The candidates are strictly increasing, finite and strictly inside the range. */
  lemma CandidatesIncreasing(lo: Double, hi: Double)
    ensures var c := Candidates(lo, hi);
            && |c| <= NUM_BINS
            && StrictlyIncreasing(c)
            && (forall i :: 0 <= i < |c| ==> c[i].Num? && Lt(lo, c[i]) && Lt(c[i], hi))
            && (|c| > 0 <==> lo.Num? && hi.Num? && lo.r < hi.r)
  {
    var c := Candidates(lo, hi);
    if |c| > 0 {
      var d := hi.r - lo.r;
      forall i, j | 0 <= i < j < |c| ensures Compare(c[i], c[j]) < 0 {
        BinOffsets(d, i, j);
      }
      forall i | 0 <= i < |c| ensures Lt(lo, c[i]) && Lt(c[i], hi) {
        BinOffsets(d, i, i);
      }
    }
  }

  /** Offsets of bins `k1 <= k2` (counted from 1) into a range of width `d > 0`: positive, below `d`, in order. */
  lemma BinOffsets(d: real, i: int, j: int)
    requires d > 0.0 && 0 <= i <= j < NUM_BINS
    ensures 0.0 < BinOffset(d, i) < d
    ensures i < j ==> BinOffset(d, i) < BinOffset(d, j)
  {
    var q := d / (NUM_BINS as real + 1.0);
    var ki, kj := (i + 1) as real, (j + 1) as real;
    assert BinOffset(d, i) == q * ki && BinOffset(d, j) == q * kj;
    assert q > 0.0 && q * 11.0 == d;
    ScaleMonotone(q, 0.0, ki);
    ScaleMonotone(q, ki, 11.0);
    if i < j {
      ScaleMonotone(q, ki, kj);
    }
  }

  lemma ScaleMonotone(q: real, a: real, b: real)
    requires q > 0.0 && a < b
    ensures q * a < q * b
  {
    assert q * b - q * a == q * (b - a);
  }


  /**
   * With a well-formed observer, `LowestMin` is at most every class minimum
   * and is one of them unless no class has an estimator (then it is
   * +infinity); symmetrically for `HighestMax`.
   */
  lemma {:induction false} RangeBounds(o: Observer, n: nat)
    requires WellFormed(o) && n <= |o.attValDistPerClass|
    ensures forall i :: 0 <= i < n && o.attValDistPerClass[i].Some? ==>
              Compare(LowestMin(o, n), MinOf(o, i)) <= 0 && Compare(MaxOf(o, i), HighestMax(o, n)) <= 0
    ensures (forall i :: 0 <= i < n ==> o.attValDistPerClass[i].None?) ==> LowestMin(o, n) == PosInf
    ensures LowestMin(o, n) != PosInf ==> exists i :: 0 <= i < n && o.attValDistPerClass[i].Some? && LowestMin(o, n) == MinOf(o, i)
    ensures HighestMax(o, n) != NegInf ==> exists i :: 0 <= i < n && o.attValDistPerClass[i].Some? && HighestMax(o, n) == MaxOf(o, i)
    decreases n
  {
    if n > 0 {
      RangeBounds(o, n - 1);
      var k := n - 1;
      forall i | 0 <= i < n && o.attValDistPerClass[i].Some?
        ensures Compare(LowestMin(o, n), MinOf(o, i)) <= 0 && Compare(MaxOf(o, i), HighestMax(o, n)) <= 0
      {
        if i < k {
          CompareOrder(LowestMin(o, n), LowestMin(o, k), MinOf(o, i));
          CompareOrder(MaxOf(o, i), HighestMax(o, k), HighestMax(o, n));
        }
      }
    }
  }

  /**
   * `getSplitPointSuggestions` answers at most `numBins` strictly increasing
   * finite values, each strictly between the least class minimum and the
   * greatest class maximum over classes with estimators; none when no class
   * has an estimator or those two bounds coincide.
   */
  lemma SplitPointsShape(o: Observer)
    requires WellFormed(o)
    ensures var c := SplitPoints(o);
            var n := |o.attValDistPerClass|;
            && |c| <= NUM_BINS
            && StrictlyIncreasing(c)
            && (forall i :: 0 <= i < |c| ==> c[i].Num? && Lt(LowestMin(o, n), c[i]) && Lt(c[i], HighestMax(o, n)))
            && ((forall i :: 0 <= i < n ==> o.attValDistPerClass[i].None?) ==> |c| == 0)
            && (LowestMin(o, n) == HighestMax(o, n) ==> |c| == 0)
  {
    RangeBounds(o, |o.attValDistPerClass|);
    CandidatesIncreasing(LowestMin(o, |o.attValDistPerClass|), HighestMax(o, |o.attValDistPerClass|));
  }

  /**
   * The share of class `i`'s weight that threshold `splitValue` sends to the
   * left and to the right branch: all of it right when the threshold lies
   * below the class's smallest value, all of it left when it lies at or
   * above its largest value, and otherwise the estimator's parts below and
   * at the threshold left and its part above right.  A class without an
   * estimator contributes nothing.
   */
  function ClassShare(o: Observer, splitValue: real, m: MathLib, i: int): (share: (real, real))
  {
    match EstimatorOf(o, i)
    case None => (0.0, 0.0)
    case Some(e) =>
      if Lt(Num(splitValue), MinOf(o, i)) then (0.0, e.weightSum)
      else if Gt(Num(splitValue), MaxOf(o, i)) || Eq(Num(splitValue), MaxOf(o, i)) then (e.weightSum, 0.0)
      else
        var w := EstimatedWeights(e, splitValue, m);
        (w.lessThan + w.equalTo, w.greaterThan)
  }

  /**
   * No class weight is lost by a split: the two shares of a class add up to
   * its observed weight, except that the estimate may overshoot when the
   * part above the threshold is clamped at zero.  The right share is never
   * negative for a class of non-negative weight.
   */
  lemma ClassShareConserves(o: Observer, splitValue: real, m: MathLib, i: int)
    requires EstimatorOf(o, i).Some? && EstimatorOf(o, i).value.weightSum >= 0.0
    ensures var share := ClassShare(o, splitValue, m, i);
            var w := EstimatorOf(o, i).value.weightSum;
            && share.1 >= 0.0
            && (share.0 + share.1 == w || (share.1 == 0.0 && share.0 >= w))
  {
  }

  /**
   * Class `i`'s weight added to the left and right distributions `d`: only
   * the side (or sides) that receive weight are written, so a side that
   * receives nothing does not grow.
   */
  function RouteClass(d: seq<seq<real>>, o: Observer, splitValue: real, m: MathLib, i: nat): (r: seq<seq<real>>)
    requires |d| == 2
    ensures |r| == 2
    ensures |r[0]| <= Max(|d[0]|, i + 1) && |r[1]| <= Max(|d[1]|, i + 1)
  {
    match EstimatorOf(o, i)
    case None => d
    case Some(e) =>
      if Lt(Num(splitValue), MinOf(o, i)) then [d[0], AddTo(d[1], i, e.weightSum)]
      else if Gt(Num(splitValue), MaxOf(o, i)) || Eq(Num(splitValue), MaxOf(o, i)) then [AddTo(d[0], i, e.weightSum), d[1]]
      else
        var w := EstimatedWeights(e, splitValue, m);
        [AddTo(d[0], i, w.lessThan + w.equalTo), AddTo(d[1], i, w.greaterThan)]
  }

  /** The left and right class distributions after the first `n` classes have been routed. */
  function SplitDists(o: Observer, splitValue: real, m: MathLib, n: nat): (d: seq<seq<real>>)
    ensures |d| == 2 && |d[0]| <= n && |d[1]| <= n
  {
    if n == 0 then [[], []]
    else RouteClass(SplitDists(o, splitValue, m, n - 1), o, splitValue, m, n - 1)
  }

  /** Routing class `i` writes `ClassShare` at index `i` and leaves every other index alone. */
  lemma RouteClassEffect(d: seq<seq<real>>, o: Observer, splitValue: real, m: MathLib, i: nat, j: int)
    requires |d| == 2
    ensures var r := RouteClass(d, o, splitValue, m, i);
            var share := ClassShare(o, splitValue, m, i);
            if j == i then Get(r[0], j, 0.0) == Get(d[0], j, 0.0) + share.0 && Get(r[1], j, 0.0) == Get(d[1], j, 0.0) + share.1
            else Get(r[0], j, 0.0) == Get(d[0], j, 0.0) && Get(r[1], j, 0.0) == Get(d[1], j, 0.0)
  {
  }

  /**
   * The two distributions hold, at each class index, exactly that class's
   * share: the per-class routing is what the accumulated vectors record.
   */
  lemma {:induction false} SplitDistsPerClass(o: Observer, splitValue: real, m: MathLib, n: nat, i: int)
    ensures Get(SplitDists(o, splitValue, m, n)[0], i, 0.0) == (if 0 <= i < n then ClassShare(o, splitValue, m, i).0 else 0.0)
    ensures Get(SplitDists(o, splitValue, m, n)[1], i, 0.0) == (if 0 <= i < n then ClassShare(o, splitValue, m, i).1 else 0.0)
    decreases n
  {
    if n > 0 {
      SplitDistsPerClass(o, splitValue, m, n - 1, i);
      SplitDistsStep(o, splitValue, m, n, i);
    }
  }

  /** Routing the `n`-th class writes its share at its own index and leaves the other indices as they were. */
  lemma SplitDistsStep(o: Observer, splitValue: real, m: MathLib, n: nat, i: int)
    requires n > 0
    requires Get(SplitDists(o, splitValue, m, n - 1)[0], i, 0.0) == (if 0 <= i < n - 1 then ClassShare(o, splitValue, m, i).0 else 0.0)
    requires Get(SplitDists(o, splitValue, m, n - 1)[1], i, 0.0) == (if 0 <= i < n - 1 then ClassShare(o, splitValue, m, i).1 else 0.0)
    ensures Get(SplitDists(o, splitValue, m, n)[0], i, 0.0) == (if 0 <= i < n then ClassShare(o, splitValue, m, i).0 else 0.0)
    ensures Get(SplitDists(o, splitValue, m, n)[1], i, 0.0) == (if 0 <= i < n then ClassShare(o, splitValue, m, i).1 else 0.0)
  {
    var prev := SplitDists(o, splitValue, m, n - 1);
    if i == n - 1 {
      RoutedClassGetsShare(prev, o, splitValue, m, i);
    } else {
      OtherClassUntouched(prev, o, splitValue, m, n - 1, i);
    }
  }

  /** Routing class `i` into empty entries leaves exactly its share there. */
  lemma RoutedClassGetsShare(d: seq<seq<real>>, o: Observer, splitValue: real, m: MathLib, i: nat)
    requires |d| == 2 && Get(d[0], i, 0.0) == 0.0 && Get(d[1], i, 0.0) == 0.0
    ensures var r := RouteClass(d, o, splitValue, m, i);
            Get(r[0], i, 0.0) == ClassShare(o, splitValue, m, i).0 && Get(r[1], i, 0.0) == ClassShare(o, splitValue, m, i).1
  {
    RouteClassEffect(d, o, splitValue, m, i, i);
  }

  /** Routing class `k` leaves the entries of every other class as they were. */
  lemma OtherClassUntouched(d: seq<seq<real>>, o: Observer, splitValue: real, m: MathLib, k: nat, i: int)
    requires |d| == 2 && i != k
    ensures var r := RouteClass(d, o, splitValue, m, k);
            Get(r[0], i, 0.0) == Get(d[0], i, 0.0) && Get(r[1], i, 0.0) == Get(d[1], i, 0.0)
  {
    RouteClassEffect(d, o, splitValue, m, k, i);
  }

  /** One pass of the loop of `getClassDistsResultingFromBinarySplit`: class `i`'s weight added to the two vectors. */
  method RouteInto(lhsDist: DoubleVector, rhsDist: DoubleVector, o: Observer, splitValue: Double, m: MathLib, i: nat)
    requires splitValue.Num? && lhsDist.arr != rhsDist.arr
    modifies lhsDist, lhsDist.arr, rhsDist, rhsDist.arr
    ensures lhsDist.arr == old(lhsDist.arr) || fresh(lhsDist.arr)
    ensures rhsDist.arr == old(rhsDist.arr) || fresh(rhsDist.arr)
    ensures lhsDist.arr != rhsDist.arr
    ensures [lhsDist.Contents(), rhsDist.Contents()] == RouteClass(old([lhsDist.Contents(), rhsDist.Contents()]), o, splitValue.r, m, i)
  {
    var estimator := EstimatorOf(o, i);
    if estimator.Some? {
      if Lt(splitValue, MinOf(o, i)) {
        rhsDist.AddToValue(i, estimator.value.weightSum);
      } else if Gt(splitValue, MaxOf(o, i)) || Eq(splitValue, MaxOf(o, i)) {
        lhsDist.AddToValue(i, estimator.value.weightSum);
      } else {
        var weightDist := EstimatedWeights(estimator.value, splitValue.r, m);
        lhsDist.AddToValue(i, weightDist.lessThan + weightDist.equalTo);
        rhsDist.AddToValue(i, weightDist.greaterThan);
      }
    }
  }

  /**
   * `getClassDistsResultingFromBinarySplit`: the left and right class
   * distributions, built in two growable vectors.  The threshold is finite:
   * the method is only given candidates, which are.
   */
  method ClassDistsResultingFromBinarySplit(o: Observer, splitValue: Double, m: MathLib) returns (dists: seq<seq<real>>)
    requires splitValue.Num?
    ensures dists == SplitDists(o, splitValue.r, m, |o.attValDistPerClass|)
  {
    var lhsDist := new DoubleVector();
    var rhsDist := new DoubleVector();
    var i := 0;
    while i < |o.attValDistPerClass|
      invariant 0 <= i <= |o.attValDistPerClass|
      invariant fresh(lhsDist.arr) && fresh(rhsDist.arr) && lhsDist.arr != rhsDist.arr
      invariant [lhsDist.Contents(), rhsDist.Contents()] == SplitDists(o, splitValue.r, m, i)
    {
      assert SplitDists(o, splitValue.r, m, i + 1) == RouteClass(SplitDists(o, splitValue.r, m, i), o, splitValue.r, m, i);
      RouteInto(lhsDist, rhsDist, o, splitValue, m, i);
      i := i + 1;
    }
    dists := [lhsDist.GetArrayRef()[..], rhsDist.GetArrayRef()[..]];
  }

  /**
   * The merit every candidate of this observer gets: the Hellinger distance
   * between the Gaussians of class 1 and class 0, or -infinity unless both
   * classes have an estimator.  The threshold plays no part.
   */
  function CandidateMerit(o: Observer, m: MathLib): (merit: Double)
    ensures EstimatorOf(o, 0).None? || EstimatorOf(o, 1).None? ==> merit == NegInf
  {
    match (EstimatorOf(o, 0), EstimatorOf(o, 1))
    case (Some(n), Some(p)) => m.gaussianHellinger(p.mean, Variance(p), n.mean, Variance(n))
    case _ => NegInf
  }

  /** The suggestion built for candidate threshold `splitValue`. */
  function SuggestionAt(o: Observer, attIndex: int, splitValue: Double, m: MathLib): Suggestion
    requires splitValue.Num?
  {
    AttributeSplitSuggestion(
      Some(NumericAttributeBinaryTest(attIndex, splitValue, true)),
      SplitDists(o, splitValue.r, m, |o.attValDistPerClass|),
      Add(CandidateMerit(o, m), Num(0.0)))
  }

  /**
   * What `getBestEvaluatedSplitSuggestion` answers: nothing without
   * candidates, and otherwise the suggestion for the smallest candidate,
   * since every candidate has the same merit and only a strictly greater
   * merit replaces the current best.
   */
  function BestSuggestion(o: Observer, attIndex: int, m: MathLib): (best: Option<Suggestion>)
  {
    var c := SplitPoints(o);
    if |c| == 0 then None else Some(SuggestionAt(o, attIndex, c[0], m))
  }

  /**
   * The best suggestion is absent exactly when there are no candidates;
   * otherwise it is a two-way test on `attIndex` at the smallest candidate,
   * with the value at the threshold passing the test, and its merit is
   * -infinity unless classes 0 and 1 both have estimators.
   */
  lemma BestSuggestionShape(o: Observer, attIndex: int, m: MathLib)
    ensures var best := BestSuggestion(o, attIndex, m);
            var c := SplitPoints(o);
            && (best.None? <==> |c| == 0)
            && (best.Some? ==>
                  && NumSplits(best.value) == MAX_BRANCHES
                  && best.value.splitTest == Some(NumericAttributeBinaryTest(attIndex, c[0], true))
                  && (forall v :: v in c ==> Compare(c[0], v) <= 0)
                  && (EstimatorOf(o, 0).None? || EstimatorOf(o, 1).None? ==> best.value.merit == NegInf))
  {
    var c := SplitPoints(o);
    CandidatesIncreasing(LowestMin(o, |o.attValDistPerClass|), HighestMax(o, |o.attValDistPerClass|));
    if |c| > 0 {
      forall v | v in c ensures Compare(c[0], v) <= 0 {
        var j :| 0 <= j < |c| && c[j] == v;
      }
    }
  }

  /**
   * `getBestEvaluatedSplitSuggestion`: scans the candidates in increasing
   * order and keeps a suggestion only when its merit is strictly greater
   * than the best so far; as every candidate gets the same merit, the first
   * one stays.
   */
  method BestEvaluatedSplitSuggestion(o: Observer, attIndex: int, m: MathLib) returns (bestSuggestion: Option<Suggestion>)
    ensures bestSuggestion == BestSuggestion(o, attIndex, m)
  {
    bestSuggestion := None;
    var suggestedSplitValues := SplitPointSuggestions(o);
    CandidatesIncreasing(LowestMin(o, |o.attValDistPerClass|), HighestMax(o, |o.attValDistPerClass|));
    var k := 0;
    while k < |suggestedSplitValues|
      invariant 0 <= k <= |suggestedSplitValues|
      invariant k == 0 ==> bestSuggestion.None?
      invariant k > 0 ==> bestSuggestion == Some(SuggestionAt(o, attIndex, suggestedSplitValues[0], m))
    {
      var splitValue := suggestedSplitValues[k];
      var postSplitDists := ClassDistsResultingFromBinarySplit(o, splitValue, m);
      var merit := NegInf;
      var infoGain := Num(0.0);
      var negatives, positives := EstimatorOf(o, 0), EstimatorOf(o, 1);
      if negatives.Some? && positives.Some? {
        merit := m.gaussianHellinger(positives.value.mean, Variance(positives.value), negatives.value.mean, Variance(negatives.value));
      }
      if bestSuggestion.None? || Gt(Add(merit, infoGain), bestSuggestion.value.merit) {
        bestSuggestion := Some(AttributeSplitSuggestion(
          Some(NumericAttributeBinaryTest(attIndex, splitValue, true)), postSplitDists, Add(merit, infoGain)));
      }
      k := k + 1;
    }
  }

  /**
   * `getFeatureHellingerDistance`: the Hellinger distance between the
   * Gaussians of class 1 and class 0; 1 when either is missing (Java catches
   * the null dereference).
   */
  function FeatureHellingerDistance(o: Observer, m: MathLib): (h: Double)
    ensures EstimatorOf(o, 0).Some? && EstimatorOf(o, 1).Some? ==> h == CandidateMerit(o, m)
    ensures EstimatorOf(o, 0).None? || EstimatorOf(o, 1).None? ==> h == Num(1.0)
  {
    if EstimatorOf(o, 0).Some? && EstimatorOf(o, 1).Some? then CandidateMerit(o, m) else Num(1.0)
  }

  /**
   * `GHNumericAttributeClassObserver` as the source holds it: the three
   * vectors are fields that `observeAttributeClass` updates in place.
   */
  class NumericAttributeClassObserver {
    var minValueObservedPerClass: seq<Double>
    var maxValueObservedPerClass: seq<Double>
    var attValDistPerClass: seq<Option<Estimator>>

    ghost function State(): Observer
      reads this
    {
      GHNumericAttributeClassObserver(minValueObservedPerClass, maxValueObservedPerClass, attValDistPerClass)
    }

    constructor ()
      ensures State() == FreshObserver
    {
      minValueObservedPerClass := [];
      maxValueObservedPerClass := [];
      attValDistPerClass := [];
    }

    /** `observeAttributeClass` */
    method ObserveAttributeClass(attVal: Double, classVal: int, weight: real)
      requires classVal >= 0 && CanObserve(State(), classVal, weight)
      modifies this
      ensures State() == ObservedAttributeClass(old(State()), attVal, classVal, weight)
    {
      if IsNaN(attVal) {
        return;
      }
      var valDist := Vectors.Get(attValDistPerClass, classVal, None);
      if valDist.None? {
        var newDist := Empty;
        attValDistPerClass := Put(attValDistPerClass, classVal, Some(newDist), None);
        minValueObservedPerClass := Put(minValueObservedPerClass, classVal, attVal, Num(0.0));
        maxValueObservedPerClass := Put(maxValueObservedPerClass, classVal, attVal, Num(0.0));
        attValDistPerClass := attValDistPerClass[classVal := Some(WithObservation(newDist, attVal, weight))];
      } else {
        if Lt(attVal, Vectors.Get(minValueObservedPerClass, classVal, Num(0.0))) {
          minValueObservedPerClass := Put(minValueObservedPerClass, classVal, attVal, Num(0.0));
        }
        if Gt(attVal, Vectors.Get(maxValueObservedPerClass, classVal, Num(0.0))) {
          maxValueObservedPerClass := Put(maxValueObservedPerClass, classVal, attVal, Num(0.0));
        }
        attValDistPerClass := attValDistPerClass[classVal := Some(WithObservation(valDist.value, attVal, weight))];
      }
    }
  }
}
