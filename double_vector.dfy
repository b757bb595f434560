/**
 * `DoubleVector`: a growable vector of doubles over a plain array.  Writing
 * past the end reallocates the array with zero padding; reading past the end
 * yields zero.  Class weights are finite here, so the values are reals.
 */
module DoubleVectors {
  import opened Vectors

  class DoubleVector {
    var arr: array<real>

    /** The values held, in order. */
    ghost function Contents(): seq<real>
      reads this, arr
    {
      arr[..]
    }

    /** `new DoubleVector()`: the empty vector. */
    constructor ()
      ensures Contents() == [] && fresh(arr)
    {
      arr := new real[0];
    }

    /** `new DoubleVector(double[])`: a copy of the array, sharing no storage with it. */
    constructor FromArray(toCopy: array<real>)
      ensures Contents() == toCopy[..] && fresh(arr)
    {
      var a := new real[toCopy.Length];
      var i := 0;
      while i < toCopy.Length
        invariant 0 <= i <= toCopy.Length
        invariant a[..i] == toCopy[..i]
      {
        a[i] := toCopy[i];
        i := i + 1;
      }
      arr := a;
    }

    /** `new DoubleVector(DoubleVector)`: a copy of another vector's values. */
    constructor FromVector(toCopy: DoubleVector)
      ensures Contents() == toCopy.Contents() && fresh(arr)
    {
      var a := new real[toCopy.arr.Length];
      var i := 0;
      while i < toCopy.arr.Length
        invariant 0 <= i <= toCopy.arr.Length
        invariant a[..i] == toCopy.arr[..i]
      {
        a[i] := toCopy.arr[i];
        i := i + 1;
      }
      arr := a;
    }

    /** `numValues` */
    function NumValues(): (n: nat)
      reads this, arr
      ensures n == |Contents()|
    {
      arr.Length
    }

    /** `getValue`: the stored value, or zero outside the stored range. */
    function GetValue(i: int): (v: real)
      reads this, arr
      ensures 0 <= i < |Contents()| ==> v == Contents()[i]
      ensures (i < 0 || i >= |Contents()|) ==> v == 0.0
    {
      if 0 <= i < arr.Length then arr[i] else 0.0
    }

    /**
     * `setArrayLength`: reallocates to exactly `l` values, keeping the first
     * ones and zero-filling the rest.  Java rejects a negative length.
     */
    method SetArrayLength(l: int)
      requires l >= 0
      modifies this
      ensures fresh(arr)
      ensures Contents() == Resize(old(Contents()), l)
    {
      ghost var before := arr[..];
      var newArray := new real[l](_ => 0.0);
      var numToCopy := arr.Length;
      if numToCopy > l {
        numToCopy := l;
      }
      var i := 0;
      while i < numToCopy
        invariant numToCopy == Min(arr.Length, l)
        invariant arr[..] == before
        invariant 0 <= i <= numToCopy
        invariant forall j :: 0 <= j < i ==> newArray[j] == arr[j]
        invariant forall j :: i <= j < l ==> newArray[j] == 0.0
      {
        newArray[i] := arr[i];
        i := i + 1;
      }
      assert forall j :: 0 <= j < l ==> newArray[j] == Get(arr[..], j, 0.0);
      assert arr[..] == before;
      assert newArray[..] == Resize(before, l);
      arr := newArray;
    }

    /** `setValue`: writes `v` at `i`, growing the vector first when needed.  A negative index throws in Java. */
    method SetValue(i: int, v: real)
      requires i >= 0
      modifies this, arr
      ensures arr == old(arr) || fresh(arr)
      ensures Contents() == Put(old(Contents()), i, v, 0.0)
    {
      if i >= arr.Length {
        SetArrayLength(i + 1);
      }
      arr[i] := v;
    }

    /** `addToValue`: adds `v` to the value at `i`, growing the vector first when needed. */
    method AddToValue(i: int, v: real)
      requires i >= 0
      modifies this, arr
      ensures arr == old(arr) || fresh(arr)
      ensures Contents() == AddTo(old(Contents()), i, v)
    {
      if i >= arr.Length {
        SetArrayLength(i + 1);
      }
      arr[i] := arr[i] + v;
    }

    /** `sumOfValues` */
    method SumOfValues() returns (sum: real)
      ensures sum == Sum(Contents())
    {
      sum := 0.0;
      var i := 0;
      while i < arr.Length
        invariant 0 <= i <= arr.Length
        invariant sum == Sum(arr[..i])
      {
        assert arr[..i + 1] == arr[..i] + [arr[i]];
        SumAppend(arr[..i], arr[i]);
        sum := sum + arr[i];
        i := i + 1;
      }
      assert arr[..i] == arr[..];
    }

    /** `numNonZeroEntries` */
    method NumNonZeroEntries() returns (count: int)
      ensures count == NonZeroCount(Contents())
    {
      ghost var s := arr[..];
      count := 0;
      var i := 0;
      while i < arr.Length
        invariant 0 <= i <= arr.Length
        invariant count == NonZeroCount(s[..i])
      {
        assert s[..i + 1] == s[..i] + [arr[i]];
        NonZeroCountAppend(s[..i], arr[i]);
        if arr[i] != 0.0 {
          count := count + 1;
        }
        i := i + 1;
      }
      assert s[..i] == s;
    }

    /** `getArrayCopy`: a fresh array holding the values. */
    method GetArrayCopy() returns (aCopy: array<real>)
      ensures fresh(aCopy)
      ensures aCopy[..] == Contents()
    {
      aCopy := new real[arr.Length];
      var i := 0;
      while i < arr.Length
        invariant 0 <= i <= arr.Length
        invariant aCopy[..i] == arr[..i]
      {
        aCopy[i] := arr[i];
        i := i + 1;
      }
    }

    /** `getArrayRef`: the array itself, aliased. */
    function GetArrayRef(): (a: array<real>)
      reads this
      ensures a == arr
    {
      arr
    }
  }
}
