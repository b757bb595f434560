/**
 * `GHDSplitCriterion`: the guard and counting logic around the Hellinger
 * distance.  The distance formulas themselves are library oracles.
 */
module SplitCriterion {
  import opened Doubles
  import opened MathOracles
  import opened Vectors

  /** `minBranchFrac`: the least share of the weight a branch needs to count. */
  const MIN_BRANCH_FRAC: real := 0.01

  /** The weight of each branch. */
  function DistSums(distributions: seq<seq<real>>): (sums: seq<real>)
    ensures |sums| == |distributions|
    ensures forall i :: 0 <= i < |sums| ==> sums[i] == Sum(distributions[i])
  {
    seq(|distributions|, i requires 0 <= i < |distributions| => Sum(distributions[i]))
  }

  /**
   * Whether `d / totalWeight > minFrac` holds in Java: with a zero total the
   * quotient is +infinity for a positive `d` (counted), -infinity for a
   * negative one and NaN for zero (neither counted).
   */
  predicate ShareAbove(d: real, totalWeight: real, minFrac: real)
  {
    if totalWeight == 0.0 then d > 0.0 else d / totalWeight > minFrac
  }

  /** How many of the first branch sums have a share above `minFrac`. */
  function CountAbove(sums: seq<real>, totalWeight: real, minFrac: real): (n: nat)
    ensures n <= |sums|
  {
    if |sums| == 0 then 0
    else CountAbove(sums[..|sums| - 1], totalWeight, minFrac)
         + (if ShareAbove(sums[|sums| - 1], totalWeight, minFrac) then 1 else 0)
  }

  /** What `numSubsetsGreaterThanFrac` answers: the branches whose share of the total weight exceeds `minFrac`. */
  function SubsetsAbove(distributions: seq<seq<real>>, minFrac: real): nat
  {
    var sums := DistSums(distributions);
    CountAbove(sums, Sum(sums), minFrac)
  }

  /** `numSubsetsGreaterThanFrac`: sums every branch, then counts the branches with a large enough share. */
  method NumSubsetsGreaterThanFrac(distributions: seq<seq<real>>, minFrac: real) returns (numGreater: int)
    ensures numGreater == SubsetsAbove(distributions, minFrac)
    ensures 0 <= numGreater <= |distributions|
  {
    var totalWeight := 0.0;
    var distSums := new real[|distributions|](_ => 0.0);
    var i := 0;
    while i < distSums.Length
      invariant 0 <= i <= distSums.Length
      invariant forall k :: 0 <= k < i ==> distSums[k] == Sum(distributions[k])
      invariant forall k :: i <= k < distSums.Length ==> distSums[k] == 0.0
      invariant totalWeight == Sum(distSums[..i])
    {
      var j := 0;
      while j < |distributions[i]|
        invariant 0 <= j <= |distributions[i]|
        invariant distSums[i] == Sum(distributions[i][..j])
        invariant forall k :: 0 <= k < i ==> distSums[k] == Sum(distributions[k])
        invariant forall k :: i < k < distSums.Length ==> distSums[k] == 0.0
        invariant totalWeight == Sum(distSums[..i])
      {
        assert distributions[i][..j + 1] == distributions[i][..j] + [distributions[i][j]];
        SumAppend(distributions[i][..j], distributions[i][j]);
        distSums[i] := distSums[i] + distributions[i][j];
        j := j + 1;
      }
      assert distributions[i][..j] == distributions[i];
      assert distSums[..i + 1] == distSums[..i] + [distSums[i]];
      SumAppend(distSums[..i], distSums[i]);
      totalWeight := totalWeight + distSums[i];
      i := i + 1;
    }
    assert distSums[..] == DistSums(distributions);
    ghost var sums := distSums[..];
    numGreater := 0;
    var k := 0;
    while k < distSums.Length
      invariant 0 <= k <= distSums.Length
      invariant numGreater == CountAbove(sums[..k], totalWeight, minFrac)
    {
      assert sums[..k + 1][..k] == sums[..k];
      if ShareAbove(distSums[k], totalWeight, minFrac) {
        numGreater := numGreater + 1;
      }
      k := k + 1;
    }
    assert sums[..k] == sums;
  }

  /** When every branch is empty no branch counts, whatever `minFrac` is. */
  lemma {:induction false} AllEmptyCountsNone(sums: seq<real>, totalWeight: real, minFrac: real)
    requires totalWeight == 0.0
    requires forall i :: 0 <= i < |sums| ==> sums[i] == 0.0
    ensures CountAbove(sums, totalWeight, minFrac) == 0
    decreases |sums|
  {
    if |sums| > 0 {
      AllEmptyCountsNone(sums[..|sums| - 1], totalWeight, minFrac);
    }
  }

  /** Raising the threshold never counts more branches. */
  lemma {:induction false} CountAboveAntitone(sums: seq<real>, totalWeight: real, lo: real, hi: real)
    requires lo <= hi
    ensures CountAbove(sums, totalWeight, hi) <= CountAbove(sums, totalWeight, lo)
    decreases |sums|
  {
    if |sums| > 0 {
      CountAboveAntitone(sums[..|sums| - 1], totalWeight, lo, hi);
    }
  }

  /**
   * `computeHellinger(double[][])`: zero when there are fewer than two
   * branches or either of the first two branches has fewer than two classes
   * (Java catches the out-of-bounds read); otherwise the distance formula on
   * the four counts.
   */
  function ComputeHellinger(dist: seq<seq<real>>, m: MathLib): (h: Double)
    ensures |dist| < 2 ==> h == Num(0.0)
    ensures |dist| >= 2 && (|dist[0]| < 2 || |dist[1]| < 2) ==> h == Num(0.0)
    ensures |dist| >= 2 && |dist[0]| >= 2 && |dist[1]| >= 2 ==>
              h == m.hellingerCounts(dist[0][0], dist[0][1], dist[1][0], dist[1][1])
  {
    if |dist| < 2 || |dist[0]| < 2 || |dist[1]| < 2 then Num(0.0)
    else m.hellingerCounts(dist[0][0], dist[0][1], dist[1][0], dist[1][1])
  }

  /**
   * `getMeritOfSplit`: -infinity unless at least two branches hold more than
   * `minBranchFrac` of the weight; otherwise the Hellinger distance of the
   * branches.  The distribution before the split is not consulted.
   */
  function MeritOfSplit(preSplitDist: seq<real>, postSplitDists: seq<seq<real>>, m: MathLib): (merit: Double)
    ensures SubsetsAbove(postSplitDists, MIN_BRANCH_FRAC) < 2 ==> merit == NegInf
    ensures SubsetsAbove(postSplitDists, MIN_BRANCH_FRAC) >= 2 ==> merit == ComputeHellinger(postSplitDists, m)
    ensures |postSplitDists| < 2 ==> merit == NegInf
  {
    if SubsetsAbove(postSplitDists, MIN_BRANCH_FRAC) < 2 then NegInf
    else ComputeHellinger(postSplitDists, m)
  }

  /** `getRangeOfMerit`: log2 of the number of classes, counting at least two. */
  function RangeOfMerit(preSplitDist: seq<real>, m: MathLib): (range: real)
    ensures |preSplitDist| <= 2 ==> range == m.log2(2.0)
    ensures |preSplitDist| > 2 ==> range == m.log2(|preSplitDist| as real)
  {
    var numClasses := if |preSplitDist| > 2 then |preSplitDist| else 2;
    m.log2(numClasses as real)
  }
}
