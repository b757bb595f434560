/** The part of the abstract `Classifier` the tree uses: choosing the predicted class from class votes. */
module Classifiers {

  /**
   * `maxIndex`: the index of the first largest value; 0 for an empty array.
   * Votes are finite, so no NaN is involved.
   */
  method MaxIndex(doubles: seq<real>) returns (maxIndex: int)
    ensures |doubles| == 0 ==> maxIndex == 0
    ensures |doubles| > 0 ==> 0 <= maxIndex < |doubles|
    ensures forall j :: 0 <= j < |doubles| ==> doubles[j] <= doubles[maxIndex]
    ensures forall j :: 0 <= j < maxIndex ==> doubles[j] < doubles[maxIndex]
  {
    var maximum := 0.0;
    maxIndex := 0;
    var i := 0;
    while i < |doubles|
      invariant 0 <= i <= |doubles|
      invariant i == 0 ==> maxIndex == 0
      invariant i > 0 ==> 0 <= maxIndex < i && maximum == doubles[maxIndex]
      invariant forall j :: 0 <= j < i ==> doubles[j] <= maximum
      invariant forall j :: 0 <= j < maxIndex ==> doubles[j] < maximum
    {
      if i == 0 || doubles[i] > maximum {
        maxIndex := i;
        maximum := doubles[i];
      }
      i := i + 1;
    }
  }
}
