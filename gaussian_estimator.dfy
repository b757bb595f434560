/**
 * `GaussianEstimator`: a running weighted mean and scatter (Welford's update)
 * of the values of one attribute within one class, and the density and
 * less/equal/greater weight estimates derived from it.
 */
module Gaussian {
  import opened Doubles
  import opened MathOracles

  /** The three fields of an estimator. */
  datatype Estimator = Estimator(weightSum: real, mean: real, varianceSum: real)

  /** A freshly allocated estimator: all fields zero. */
  const Empty: Estimator := Estimator(0.0, 0.0, 0.0)

  /**
   * `addObservation(value, weight)`: infinite and NaN values are ignored; the
   * first observation (no positive weight yet) sets the mean and the weight
   * and leaves the scatter as it was; later ones apply the weighted Welford
   * update.  The precondition excludes only a weight that brings a positive
   * total back to exactly zero, where Java divides by zero.
   */
  function WithObservation(e: Estimator, value: Double, weight: real): (r: Estimator)
    requires e.weightSum <= 0.0 || e.weightSum + weight != 0.0
    ensures !value.Num? ==> r == e
    ensures value.Num? && e.weightSum > 0.0 ==> r.weightSum == e.weightSum + weight
    ensures value.Num? && e.weightSum <= 0.0 ==>
              r.weightSum == weight && r.mean == value.r && r.varianceSum == e.varianceSum
  {
    if IsInfinite(value) || IsNaN(value) then e
    else if e.weightSum > 0.0 then Welford(e.weightSum, e.mean, e.varianceSum, value.r, weight)
    else Estimator(weight, value.r, e.varianceSum)
  }

  /** Welford's weighted update of a positive-weight estimator by the finite value `x`. */
  function Welford(weightSum: real, mean: real, varianceSum: real, x: real, weight: real): Estimator
    requires weightSum + weight != 0.0
  {
    var newWeightSum := weightSum + weight;
    var newMean := mean + weight * (x - mean) / newWeightSum;
    Estimator(newWeightSum, newMean, varianceSum + weight * (x - mean) * (x - newMean))
  }

  /** `getVariance`: the scatter divided by the weight minus one, or zero while the weight is at most one. */
  function Variance(e: Estimator): (v: real)
    ensures e.varianceSum >= 0.0 ==> v >= 0.0
    ensures e.weightSum <= 1.0 ==> v == 0.0
    ensures e.weightSum > 1.0 ==> v * (e.weightSum - 1.0) == e.varianceSum
  {
    if e.weightSum > 1.0 then
      DivisionSign(e.varianceSum, e.weightSum - 1.0);
      e.varianceSum / (e.weightSum - 1.0)
    else 0.0
  }

  lemma DivisionSign(a: real, b: real)
    requires b > 0.0
    ensures (a / b) * b == a
    ensures a >= 0.0 ==> a / b >= 0.0
  {

  }

  /** `getStdDev` */
  function StdDev(e: Estimator, m: MathLib): real
  {
    m.sqrt(Variance(e))
  }

  /** Facts about `Math.sqrt` some lemmas rely on: the root of zero is zero and that of a positive number is positive. */
  ghost predicate SqrtSound(m: MathLib)
  {
    m.sqrt(0.0) == 0.0 && forall x: real :: x > 0.0 ==> m.sqrt(x) > 0.0
  }

  /**
   * `probabilityDensity`: zero before any weight is seen; with a positive
   * standard deviation the Gaussian density; otherwise a point mass at the mean.
   */
  function ProbabilityDensity(e: Estimator, value: real, m: MathLib): (p: real)
    ensures e.weightSum <= 0.0 ==> p == 0.0
    ensures e.weightSum > 0.0 && StdDev(e, m) <= 0.0 ==> p == if value == e.mean then 1.0 else 0.0
    ensures e.weightSum > 0.0 && StdDev(e, m) > 0.0 ==> p == m.gaussianDensity(value - e.mean, StdDev(e, m))
  {
    if e.weightSum > 0.0 then
      var stdDev := StdDev(e, m);
      if stdDev > 0.0 then m.gaussianDensity(value - e.mean, stdDev)
      else if value == e.mean then 1.0 else 0.0
    else 0.0
  }

  /**
   * `probabilityDensity` at any double: a finite value as above; an infinite
   * one has zero density (the exponential underflows to zero, or the value
   * differs from the mean); NaN propagates through the Gaussian formula.
   */
  function ProbabilityDensityAt(e: Estimator, value: Double, m: MathLib): (p: Double)
    ensures value.Num? ==> p == Num(ProbabilityDensity(e, value.r, m))
    ensures e.weightSum <= 0.0 ==> p == Num(0.0)
    ensures IsInfinite(value) ==> p == Num(0.0)
    ensures p.NaN? <==> value.NaN? && e.weightSum > 0.0 && StdDev(e, m) > 0.0
  {
    match value
    case Num(x) => Num(ProbabilityDensity(e, x, m))
    case NaN => if e.weightSum > 0.0 && StdDev(e, m) > 0.0 then NaN else Num(0.0)
    case _ => Num(0.0)
  }

  /** The three weights answered by `estimatedWeight_LessThan_EqualTo_GreaterThan_Value`, in that order. */
  datatype Weights = Weights(lessThan: real, equalTo: real, greaterThan: real)

  /**
   * `estimatedWeight_LessThan_EqualTo_GreaterThan_Value`: splits the observed
   * weight into the parts estimated below, at and above `value`.  The part
   * above is clamped at zero; whenever it is not clamped the three parts add
   * up to the observed weight.
   */
  function EstimatedWeights(e: Estimator, value: real, m: MathLib): (r: Weights)
    ensures r.greaterThan >= 0.0
    ensures r.greaterThan > 0.0 ==> r.lessThan + r.equalTo + r.greaterThan == e.weightSum
    ensures r.greaterThan == 0.0 ==> r.lessThan + r.equalTo >= e.weightSum
    ensures r.equalTo == ProbabilityDensity(e, value, m) * e.weightSum
  {
    var equalTo := ProbabilityDensity(e, value, m) * e.weightSum;
    var stdDev := StdDev(e, m);
    var lessThan :=
      if stdDev > 0.0 then m.normalProbability((value - e.mean) / stdDev) * e.weightSum - equalTo
      else if value < e.mean then e.weightSum - equalTo
      else 0.0;
    var greaterThan := e.weightSum - equalTo - lessThan;
    Weights(lessThan, equalTo, if greaterThan < 0.0 then 0.0 else greaterThan)
  }

  /**
   * An estimator with positive weight and no spread sends its whole weight to
   * one side: below, at, or above the mean.
   */
  lemma PointMassWeights(e: Estimator, value: real, m: MathLib)
    requires SqrtSound(m)
    requires e.weightSum > 0.0 && Variance(e) == 0.0
    ensures value < e.mean ==> EstimatedWeights(e, value, m) == Weights(e.weightSum, 0.0, 0.0)
    ensures value == e.mean ==> EstimatedWeights(e, value, m) == Weights(0.0, e.weightSum, 0.0)
    ensures value > e.mean ==> EstimatedWeights(e, value, m) == Weights(0.0, 0.0, e.weightSum)
  {
    assert StdDev(e, m) == 0.0;
  }

  /** One observation: a value and its weight. */
  datatype Observation = Observation(value: Double, weight: real)

  predicate PositiveWeights(obs: seq<Observation>)
  {
    forall i :: 0 <= i < |obs| ==> obs[i].weight > 0.0
  }

  /** The estimator after feeding it the observations in order. */
  function ObserveAll(e: Estimator, obs: seq<Observation>): (r: Estimator)
    requires e.weightSum >= 0.0 && PositiveWeights(obs)
    ensures r.weightSum >= 0.0
  {
    if |obs| == 0 then e
    else
      var prev := ObserveAll(e, obs[..|obs| - 1]);
      WithObservation(prev, obs[|obs| - 1].value, obs[|obs| - 1].weight)
  }

  /** Batch statistics of the finite observations: total weight, weighted sum, weighted sum of squares. */
  function TotalWeight(obs: seq<Observation>): real
  {
    if |obs| == 0 then 0.0
    else TotalWeight(obs[..|obs| - 1]) + (if obs[|obs| - 1].value.Num? then obs[|obs| - 1].weight else 0.0)
  }

  function WeightedSum(obs: seq<Observation>): real
  {
    if |obs| == 0 then 0.0
    else
      var o := obs[|obs| - 1];
      WeightedSum(obs[..|obs| - 1]) + (if o.value.Num? then o.weight * o.value.r else 0.0)
  }

  function WeightedSquares(obs: seq<Observation>): real
  {
    if |obs| == 0 then 0.0
    else
      var o := obs[|obs| - 1];
      WeightedSquares(obs[..|obs| - 1]) + (if o.value.Num? then o.weight * o.value.r * o.value.r else 0.0)
  }

  /** The batch statistics that a running estimator should agree with. */
  predicate AgreesWithBatch(e: Estimator, obs: seq<Observation>)
  {
    && e.weightSum == TotalWeight(obs)
    && e.weightSum * e.mean == WeightedSum(obs)
    && e.varianceSum == WeightedSquares(obs) - e.weightSum * e.mean * e.mean
  }

  /** The algebra of one Welford step: weighted sum and scatter are updated exactly. */
  lemma WelfordStep(w0: real, m0: real, s0: real, x: real, w: real)
    requires w0 > 0.0 && w > 0.0
    ensures var w1 := w0 + w;
            var m1 := m0 + w * (x - m0) / w1;
            && w1 * m1 == w0 * m0 + w * x
            && s0 + w * (x - m0) * (x - m1) == (s0 + w0 * m0 * m0) + w * x * x - w1 * m1 * m1
  {
    var w1 := w0 + w;
    var d := x - m0;
    var m1 := m0 + w * d / w1;
    assert w1 * (w * d / w1) == w * d;
    assert w1 * m1 == w0 * m0 + w * x;
    // x - m1 == d * w0 / w1, so the scatter increment is w * w0 * d * d / w1
    assert x - m1 == d * w0 / w1 by {
      assert w1 * (x - m1) == w1 * x - (w0 * m0 + w * x);
      assert w1 * (x - m1) == w0 * d;
    }
    calc {
      w1 * m1 * m1;
      (w0 * m0 + w * x) * m1;
      (w0 * m0 + w * x) * (w0 * m0 + w * x) / w1;
    }
    assert w * d * (x - m1) == w * w0 * d * d / w1;
    assert (w0 * m0 + w * x) * (w0 * m0 + w * x) + w * w0 * d * d == w1 * (w0 * m0 * m0 + w * x * x);
  }

  /**
   * Welford's running update agrees with the batch definitions: after feeding
   * any finite-or-not observations with positive weights to a fresh estimator,
   * its weight is the total finite weight, its mean times its weight is the
   * weighted sum, and its scatter is the weighted sum of squared deviations
   * from the mean.
   */
  lemma {:induction false} RunningMatchesBatch(obs: seq<Observation>)
    requires PositiveWeights(obs)
    ensures AgreesWithBatch(ObserveAll(Empty, obs), obs)
    decreases |obs|
  {
    if |obs| > 0 {
      var p := obs[..|obs| - 1];
      var o := obs[|obs| - 1];
      assert PositiveWeights(p);
      assert obs == p + [o];
      RunningMatchesBatch(p);
      var e := ObserveAll(Empty, p);
      assert ObserveAll(Empty, obs) == WithObservation(e, o.value, o.weight);
      if !o.value.Num? {
        SkipAgrees(e, p, o);
      } else if e.weightSum > 0.0 {
        StepAgrees(e, p, o);
      } else {
        FirstAgrees(e, p, o);
      }
    }
  }

  /** An observation that is not a finite number changes neither the estimator nor the batch sums. */
  lemma SkipAgrees(e: Estimator, p: seq<Observation>, o: Observation)
    requires AgreesWithBatch(e, p) && !o.value.Num? && o.weight > 0.0
    ensures AgreesWithBatch(WithObservation(e, o.value, o.weight), p + [o])
  {
    BatchAppend(p, o);
  }

  /** The first finite observation after none of positive weight starts the statistics afresh. */
  lemma FirstAgrees(e: Estimator, p: seq<Observation>, o: Observation)
    requires PositiveWeights(p) && AgreesWithBatch(e, p)
    requires e.weightSum <= 0.0 && o.weight > 0.0 && o.value.Num?
    ensures AgreesWithBatch(WithObservation(e, o.value, o.weight), p + [o])
  {
    TotalWeightNonNegative(p);
    ZeroWeightNoSquares(p);
    BatchAppend(p, o);
    assert e.weightSum == 0.0;
    assert e.varianceSum == 0.0;
  }

  /** A stream repeating one finite value with positive weights has that value as its mean and no scatter, hence no variance. */
  lemma {:induction false} ConstantStream(obs: seq<Observation>, v: real)
    requires PositiveWeights(obs) && |obs| > 0
    requires forall i :: 0 <= i < |obs| ==> obs[i].value == Num(v)
    ensures var e := ObserveAll(Empty, obs);
            e.weightSum > 0.0 && e.mean == v && e.varianceSum == 0.0 && Variance(e) == 0.0
  {
    var e := ObserveAll(Empty, obs);
    var prev := ObserveAll(Empty, obs[..|obs| - 1]);
    var w := obs[|obs| - 1].weight;
    assert e == WithObservation(prev, Num(v), w);
    if |obs| > 1 {
      ConstantStream(obs[..|obs| - 1], v);
      ConstantStep(prev, v, w);
    }
    NoScatterNoVariance(e);
  }

  /** A further observation of the mean itself keeps the mean and adds no scatter. */
  lemma ConstantStep(e: Estimator, v: real, w: real)
    requires e.weightSum > 0.0 && e.mean == v && e.varianceSum == 0.0 && w > 0.0
    ensures var r := WithObservation(e, Num(v), w);
            r.weightSum > 0.0 && r.mean == v && r.varianceSum == 0.0
  {
    assert w * (v - v) / (e.weightSum + w) == 0.0;
  }

  /** An estimator without scatter has no variance. */
  lemma NoScatterNoVariance(e: Estimator)
    requires e.varianceSum == 0.0
    ensures Variance(e) == 0.0
  {
    if e.weightSum > 1.0 {
      var q := Variance(e);
      assert q * (e.weightSum - 1.0) == 0.0;
    }
  }

  /** The batch statistics of a sequence extended by one observation. */
  lemma BatchAppend(p: seq<Observation>, o: Observation)
    ensures TotalWeight(p + [o]) == TotalWeight(p) + (if o.value.Num? then o.weight else 0.0)
    ensures WeightedSum(p + [o]) == WeightedSum(p) + (if o.value.Num? then o.weight * o.value.r else 0.0)
    ensures WeightedSquares(p + [o]) == WeightedSquares(p) + (if o.value.Num? then o.weight * o.value.r * o.value.r else 0.0)
  {
    assert (p + [o])[..|p|] == p;
  }

  /** A Welford step on an estimator that agrees with its history agrees with the extended history. */
  lemma StepAgrees(e: Estimator, p: seq<Observation>, o: Observation)
    requires AgreesWithBatch(e, p)
    requires e.weightSum > 0.0 && o.weight > 0.0 && o.value.Num?
    ensures AgreesWithBatch(WithObservation(e, o.value, o.weight), p + [o])
  {
    BatchAppend(p, o);
    WelfordUpdate(e, o.value, o.weight);
  }

  /** The Welford update keeps weighted sum and scatter in step with the batch sums. */
  lemma WelfordUpdate(e: Estimator, v: Double, w: real)
    requires e.weightSum > 0.0 && w > 0.0 && v.Num?
    ensures var r := WithObservation(e, v, w);
            && r.weightSum == e.weightSum + w
            && r.weightSum * r.mean == e.weightSum * e.mean + w * v.r
            && r.varianceSum == (e.varianceSum + e.weightSum * e.mean * e.mean) + w * v.r * v.r - r.weightSum * r.mean * r.mean
  {
    WelfordStep(e.weightSum, e.mean, e.varianceSum, v.r, w);
  }

  /** Observations of total finite weight zero contribute no squares (weights being positive, there were none). */
  lemma {:induction false} ZeroWeightNoSquares(obs: seq<Observation>)
    requires PositiveWeights(obs) && TotalWeight(obs) == 0.0
    ensures WeightedSquares(obs) == 0.0 && WeightedSum(obs) == 0.0
    decreases |obs|
  {
    if |obs| > 0 {
      var p := obs[..|obs| - 1];
      assert PositiveWeights(p);
      TotalWeightNonNegative(p);
      ZeroWeightNoSquares(p);
    }
  }

  lemma {:induction false} TotalWeightNonNegative(obs: seq<Observation>)
    requires PositiveWeights(obs)
    ensures TotalWeight(obs) >= 0.0
    decreases |obs|
  {
    if |obs| > 0 {
      assert PositiveWeights(obs[..|obs| - 1]);
      TotalWeightNonNegative(obs[..|obs| - 1]);
    }
  }

  /** One weighted Welford step never decreases the scatter, so it stays non-negative. */
  lemma ScatterNonDecreasing(e: Estimator, value: Double, weight: real)
    requires weight > 0.0 && e.weightSum >= 0.0
    ensures WithObservation(e, value, weight).varianceSum >= e.varianceSum
  {
    if value.Num? && e.weightSum > 0.0 {
      var w1 := e.weightSum + weight;
      var d := value.r - e.mean;
      var m1 := e.mean + weight * d / w1;
      assert w1 * (value.r - m1) == e.weightSum * d;
      assert value.r - m1 == e.weightSum * d / w1;
      assert weight * d * (value.r - m1) == weight * e.weightSum * (d * d) / w1;
    }
  }

  /** One observation keeps the mean between the smallest and largest finite values seen. */
  lemma MeanStaysInRange(e: Estimator, value: Double, weight: real, lo: real, hi: real)
    requires weight > 0.0 && e.weightSum >= 0.0
    requires e.weightSum > 0.0 ==> lo <= e.mean <= hi
    requires value.Num? ==> lo <= value.r <= hi
    ensures var r := WithObservation(e, value, weight); r.weightSum > 0.0 ==> lo <= r.mean <= hi
  {
    if value.Num? && e.weightSum > 0.0 {
      ConvexStep(e.weightSum, e.mean, weight, value.r, lo, hi);
    }
  }

  /** The weighted mean update moves the mean towards the new value and never past it. */
  lemma ConvexStep(w0: real, m0: real, w: real, v: real, lo: real, hi: real)
    requires w0 > 0.0 && w > 0.0 && lo <= m0 <= hi && lo <= v <= hi
    ensures lo <= m0 + w * (v - m0) / (w0 + w) <= hi
  {
    var w1 := w0 + w;
    var d := v - m0;
    var m1 := m0 + w * d / w1;
    assert w1 * (w * d / w1) == w * d;
    assert w1 * m1 == w0 * m0 + w * v;
    assert w1 * (m1 - lo) == w0 * (m0 - lo) + w * (v - lo);
    assert w1 * (hi - m1) == w0 * (hi - m0) + w * (hi - v);
    ProductNonNegative(w0, m0 - lo);
    ProductNonNegative(w, v - lo);
    ProductNonNegative(w0, hi - m0);
    ProductNonNegative(w, hi - v);
    FactorSign(w1, m1 - lo);
    FactorSign(w1, hi - m1);
  }

  lemma ProductNonNegative(a: real, b: real)
    requires a >= 0.0 && b >= 0.0
    ensures a * b >= 0.0
  {
  }

  lemma FactorSign(a: real, b: real)
    requires a > 0.0 && a * b >= 0.0
    ensures b >= 0.0
  {
    DivisionSign(a * b, a);
    assert b == (a * b) / a;
  }

  /**
   * `GaussianEstimator` as the source holds it: three fields updated in place.
   * Every method is stated against the value functions above.
   */
  class GaussianEstimator {
    var weightSum: real
    var mean: real
    var varianceSum: real

    ghost function State(): Estimator
      reads this
    {
      Estimator(weightSum, mean, varianceSum)
    }

    constructor ()
      ensures State() == Empty
    {
      weightSum := 0.0;
      mean := 0.0;
      varianceSum := 0.0;
    }

    /** `getTotalWeightObserved` */
    function GetTotalWeightObserved(): (w: real)
      reads this
      ensures w == State().weightSum
    {
      weightSum
    }

    /** `getMean` */
    function GetMean(): (mu: real)
      reads this
      ensures mu == State().mean
    {
      mean
    }

    /** `getVariance` */
    function GetVariance(): (v: real)
      reads this
      ensures v == Variance(State())
    {
      if weightSum > 1.0 then varianceSum / (weightSum - 1.0) else 0.0
    }

    /** `addObservation` */
    method AddObservation(value: Double, weight: real)
      requires weightSum <= 0.0 || weightSum + weight != 0.0
      modifies this
      ensures State() == WithObservation(old(State()), value, weight)
    {
      if IsInfinite(value) || IsNaN(value) {
        return;
      }
      if weightSum > 0.0 {
        // the old mean is read before it is overwritten, as Java's `lastMean`
        var newWeightSum := weightSum + weight;
        var newMean := mean + weight * (value.r - mean) / newWeightSum;
        var newVarianceSum := varianceSum + weight * (value.r - mean) * (value.r - newMean);
        assert Welford(weightSum, mean, varianceSum, value.r, weight) == Estimator(newWeightSum, newMean, newVarianceSum);
        varianceSum := newVarianceSum;
        mean := newMean;
        weightSum := newWeightSum;
      } else {
        mean := value.r;
        weightSum := weight;
      }
    }
  }
}
