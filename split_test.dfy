/**
 * `NumericAttributeBinaryTest`: the immutable threshold test a decision node
 * applies.  Branch 0 takes values below the threshold (and equal ones when
 * `equalsPassesTest`), branch 1 the rest, -1 means the value is missing.
 */
module SplitTests {
  import opened Doubles

  datatype SplitTest = NumericAttributeBinaryTest(attIndex: int, attValue: Double, equalsPassesTest: bool)

  /** `maxBranches` of a binary test. */
  const MAX_BRANCHES: int := 2

  /** The feature slot the test reads: shifted by one for `attIndex >= -1`, used as is below that. */
  function InstAttIndex(t: SplitTest): (k: int)
    ensures t.attIndex >= -1 ==> k == t.attIndex + 1
    ensures t.attIndex < -1 ==> k == t.attIndex
  {
    if t.attIndex < -1 then t.attIndex else t.attIndex + 1
  }

  /**
   * The instance's feature vector holds the slot the test reads; outside it
   * Java's `isMissing` throws.
   */
  predicate CanTest(t: SplitTest, features: seq<Double>)
  {
    0 <= InstAttIndex(t) < |features|
  }

  /** `branchForInstance`, reading the instance's feature vector. */
  function BranchForInstance(t: SplitTest, features: seq<Double>): (b: int)
    requires CanTest(t, features)
    ensures b == -1 || b == 0 || b == 1
    ensures b == -1 <==> IsNaN(features[InstAttIndex(t)])
    ensures b != -1 && Eq(features[InstAttIndex(t)], t.attValue) ==> (b == 0 <==> t.equalsPassesTest)
    ensures b != -1 && !Eq(features[InstAttIndex(t)], t.attValue) ==> (b == 0 <==> Lt(features[InstAttIndex(t)], t.attValue))
  {
    var instAttIndex := InstAttIndex(t);
    if IsNaN(features[instAttIndex]) then -1
    else
      var v := features[instAttIndex];
      if Eq(v, t.attValue) then (if t.equalsPassesTest then 0 else 1)
      else if Lt(v, t.attValue) then 0 else 1
  }

  /** `resultKnownForInstance` */
  function ResultKnownForInstance(t: SplitTest, features: seq<Double>): (known: bool)
    requires CanTest(t, features)
    ensures known <==> !IsNaN(features[InstAttIndex(t)])
  {
    BranchForInstance(t, features) >= 0
  }

  /**
   * With `equalsPassesTest` and a threshold that is not NaN, a present value
   * goes left exactly when it is at most the threshold in the `Double.compare`
   * order, which is how the observer splits class weight.
   */
  lemma LeftIffAtMostThreshold(t: SplitTest, features: seq<Double>)
    requires CanTest(t, features) && t.equalsPassesTest && !t.attValue.NaN?
    requires !IsNaN(features[InstAttIndex(t)])
    ensures BranchForInstance(t, features) == 0 <==> Compare(features[InstAttIndex(t)], t.attValue) <= 0
  {
  }
}
