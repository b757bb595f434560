/**
 * The floating-point library the core calls but whose numerical content is not
 * modelled.  Each field is an arbitrary total function; every property proved
 * in this project holds for every choice of them, i.e. they are uninterpreted.
 * The formulas whose Java result can be NaN or infinite (a zero denominator,
 * the root of a negative number) answer a `Double`.
 */
module MathOracles {
  import opened Doubles

  datatype MathLib = MathLib(
    /** `Math.sqrt` */
    sqrt: real -> real,
    /** `GHDSplitCriterion.log2`, i.e. `Math.log(a) / Math.log(2)` */
    log2: real -> real,
    /** `StatsUtils.normalProbability`: the standard normal cumulative distribution function */
    normalProbability: real -> real,
    /** Exponential branch of `GaussianEstimator.probabilityDensity`, as a function of (value - mean, stdDev) */
    gaussianDensity: (real, real) -> real,
    /** `GHDSplitCriterion.computeHellinger(pMean, pVariance, qMean, qVariance)`, the Gaussian form */
    gaussianHellinger: (real, real, real, real) -> Double,
    /** Formula part of `GHDSplitCriterion.computeHellinger(double[][])` on (leftNeg, leftPos, rightNeg, rightPos) */
    hellingerCounts: (real, real, real, real) -> Double,
    /** `GHVFDT.computeHoeffdingBound(range, confidence, n)` */
    hoeffdingBound: (real, real, real) -> Double
  )
}
