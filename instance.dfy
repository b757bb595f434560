/**
 * `Instance`: one labelled example, a vector of feature values plus an integer
 * class label (-1 when the label is missing) and a training weight that is
 * always 1.0.  Feature slot 0 is reserved: the tree consults attribute `i` at
 * slot `i + 1`, and `getFeature`/`setFeature` refuse slot 0.
 */
module Instances {
  import opened Doubles

  /** Label value meaning "class missing". */
  const MISSING_LABEL: int := -1

  class Instance {
    var classLabel: int
    var features: seq<Double>
    /** Never changed after construction. */
    const weight: real

    /** A fresh instance: no features, missing label, weight 1.0. */
    constructor ()
      ensures classLabel == MISSING_LABEL && features == [] && weight == 1.0
    {
      classLabel := MISSING_LABEL;
      features := [];
      weight := 1.0;
    }

    /** `getClassLabel` */
    function GetClassLabel(): (lab: int)
      reads this
      ensures lab == classLabel
    {
      classLabel
    }

    /** `getFeature`: the value at slot `f` for `0 < f < size`, NaN otherwise (slot 0 included). */
    function GetFeature(f: int): (v: Double)
      reads this
      ensures 0 < f < |features| ==> v == features[f]
      ensures !(0 < f < |features|) ==> v.NaN?
    {
      if 0 < f < |features| then features[f] else NaN
    }

    /** `getFeatures`: the feature values (an empty vector when there are none). */
    function GetFeatures(): (fs: seq<Double>)
      reads this
      ensures fs == features
    {
      features
    }

    /** `setClasslabel` */
    method SetClassLabel(i: int)
      modifies this
      ensures classLabel == i && features == old(features)
    {
      classLabel := i;
    }

    /** `setFeature`: overwrites slot `f` when `0 < f < size` and reports whether it did; nothing changes otherwise. */
    method SetFeature(f: int, value: Double) returns (ok: bool)
      modifies this
      ensures ok <==> 0 < f < |old(features)|
      ensures features == if ok then old(features)[f := value] else old(features)
      ensures classLabel == old(classLabel)
      ensures ok ==> GetFeature(f) == value
    {
      if 0 < f < |features| {
        features := features[f := value];
        ok := true;
      } else {
        ok := false;
      }
    }

    /** `setFeatures`: replaces every feature value by the given ones, one at a time; always answers true. */
    method SetFeatures(values: seq<Double>) returns (ok: bool)
      modifies this
      ensures features == values && ok
      ensures classLabel == old(classLabel)
    {
      features := [];
      var i := 0;
      while i < |values|
        invariant 0 <= i <= |values|
        invariant features == values[..i]
        invariant classLabel == old(classLabel)
      {
        AddFeature(values[i]);
        assert values[..i + 1] == values[..i] + [values[i]];
        i := i + 1;
      }
      ok := true;
    }

    /** `addFeature`: appends a value. */
    method AddFeature(f: Double)
      modifies this
      ensures features == old(features) + [f] && classLabel == old(classLabel)
    {
      features := features + [f];
    }

    /** `removeFeature`: removes slot `f`; Java throws for an index outside the vector. */
    method RemoveFeature(f: int)
      requires 0 <= f < |features|
      modifies this
      ensures features == old(features[..f] + features[f + 1..]) && classLabel == old(classLabel)
    {
      features := features[..f] + features[f + 1..];
    }

    /** `getFeatureCount` and `numAttributes`: the number of slots, slot 0 included. */
    function NumAttributes(): (n: nat)
      reads this
      ensures n == |features|
    {
      |features|
    }

    /** `weight` */
    function Weight(): (w: real)
      ensures w == weight
    {
      weight
    }

    /** `classIsMissing`: only the label -1 counts as missing. */
    function ClassIsMissing(): (missing: bool)
      reads this
      ensures missing <==> classLabel == MISSING_LABEL
    {
      classLabel == MISSING_LABEL
    }

    /** `isMissing`: whether slot `attIndex` holds NaN; Java throws outside the vector. */
    function IsMissing(attIndex: int): (missing: bool)
      requires 0 <= attIndex < |features|
      reads this
      ensures missing <==> IsNaN(features[attIndex])
    {
      features[attIndex].NaN?
    }

    /** `classValue`: the label as a double. */
    function ClassValue(): (v: Double)
      reads this
      ensures v.Num? && v.r == classLabel as real
    {
      Num(classLabel as real)
    }

    /** `value`: the raw slot `attIndex`, slot 0 allowed; Java throws outside the vector. */
    function Value(attIndex: int): (v: Double)
      requires 0 <= attIndex < |features|
      reads this
      ensures v == features[attIndex]
      ensures attIndex > 0 ==> v == GetFeature(attIndex)
    {
      features[attIndex]
    }
  }
}
