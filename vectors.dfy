/**
 * Value-level meaning of the growable vectors of the source: a read with a
 * default outside the stored range, a write that first pads the vector, and
 * the sums and counts taken over class distributions.
 */
module Vectors {

  function Max(a: int, b: int): int { if a < b then b else a }

  function Min(a: int, b: int): int { if a < b then a else b }

  /** `s` grown (never shrunk) to length `n` by appending copies of `fill`. */
  function Pad<T>(s: seq<T>, n: nat, fill: T): (r: seq<T>)
    ensures |r| == Max(|s|, n)
    ensures r[..|s|] == s
    ensures forall j :: |s| <= j < |r| ==> r[j] == fill
  {
    if n <= |s| then s else s + seq(n - |s|, _ => fill)
  }

  /** The vector after writing `v` at index `i`, padding with `fill` first when `i` lies past the end. */
  function Put<T>(s: seq<T>, i: nat, v: T, fill: T): (r: seq<T>)
    ensures |r| == Max(|s|, i + 1)
    ensures r[i] == v
    ensures forall j :: 0 <= j < |r| && j != i ==> r[j] == if j < |s| then s[j] else fill
  {
    Pad(s, i + 1, fill)[i := v]
  }

  /** A read that yields `dflt` outside the stored range. */
  function Get<T>(s: seq<T>, i: int, dflt: T): T
  {
    if 0 <= i < |s| then s[i] else dflt
  }

  /** The vector after adding `v` to the value at index `i` (an absent value counts as zero). */
  function AddTo(s: seq<real>, i: nat, v: real): seq<real>
  {
    Put(s, i, Get(s, i, 0.0) + v, 0.0)
  }

  /** The vector cut or zero-extended to exactly `n` values. */
  function Resize(s: seq<real>, n: nat): (r: seq<real>)
    ensures |r| == n
    ensures forall j :: 0 <= j < n ==> r[j] == Get(s, j, 0.0)
  {
    if n <= |s| then s[..n] else Pad(s, n, 0.0)
  }

  /** Sum of the values, accumulated from the front. */
  function Sum(s: seq<real>): real
  {
    if |s| == 0 then 0.0 else Sum(s[..|s| - 1]) + s[|s| - 1]
  }

  /** Number of values different from zero. */
  function NonZeroCount(s: seq<real>): (r: nat)
    ensures r <= |s|
  {
    if |s| == 0 then 0 else NonZeroCount(s[..|s| - 1]) + (if s[|s| - 1] != 0.0 then 1 else 0)
  }

  predicate AllNonNegative(s: seq<real>)
  {
    forall j :: 0 <= j < |s| ==> s[j] >= 0.0
  }

  /** Appending one value adds it to the sum (the step of the accumulation loops). */
  lemma SumAppend(s: seq<real>, x: real)
    ensures Sum(s + [x]) == Sum(s) + x
  {
    assert (s + [x])[..|s|] == s;
  }

  /** Appending zeros leaves the sum unchanged. */
  lemma {:induction false} SumPadZeros(s: seq<real>, n: nat)
    ensures Sum(Pad(s, n, 0.0)) == Sum(s)
    decreases n
  {
    if n > |s| {
      var p := Pad(s, n - 1, 0.0);
      SumPadZeros(s, n - 1);
      assert Pad(s, n, 0.0) == p + [0.0];
      SumAppend(p, 0.0);
    }
  }

  /** Replacing one value changes the sum by the difference. */
  lemma {:induction false} SumUpdate(s: seq<real>, i: nat, v: real)
    requires i < |s|
    ensures Sum(s[i := v]) == Sum(s) - s[i] + v
    decreases |s|
  {
    var t := s[i := v];
    if i == |s| - 1 {
      assert t[..|t| - 1] == s[..|s| - 1];
    } else {
      assert t[..|t| - 1] == s[..|s| - 1][i := v];
      SumUpdate(s[..|s| - 1], i, v);
    }
  }

  /** `AddTo` adds exactly `v` to the total: a class distribution's weight grows by the instance weight. */
  lemma SumAddTo(s: seq<real>, i: nat, v: real)
    ensures Sum(AddTo(s, i, v)) == Sum(s) + v
  {
    var p := Pad(s, i + 1, 0.0);
    SumPadZeros(s, i + 1);
    assert Get(s, i, 0.0) == p[i];
    SumUpdate(p, i, Get(s, i, 0.0) + v);
  }

  /** Non-negative values have a non-negative sum. */
  lemma {:induction false} SumNonNegative(s: seq<real>)
    requires AllNonNegative(s)
    ensures Sum(s) >= 0.0
    decreases |s|
  {
    if |s| > 0 {
      SumNonNegative(s[..|s| - 1]);
    }
  }

  /** Appending one value adds one to the count exactly when it is non-zero. */
  lemma NonZeroCountAppend(s: seq<real>, x: real)
    ensures NonZeroCount(s + [x]) == NonZeroCount(s) + (if x != 0.0 then 1 else 0)
  {
    assert (s + [x])[..|s|] == s;
  }

  /** At most one non-zero value exactly when no two distinct positions are both non-zero. */
  lemma {:induction false} NonZeroCountAtMostOne(s: seq<real>)
    ensures NonZeroCount(s) < 2 <==>
              forall i, j :: 0 <= i < j < |s| ==> s[i] == 0.0 || s[j] == 0.0
    decreases |s|
  {
    if |s| > 0 {
      var p := s[..|s| - 1];
      NonZeroCountAtMostOne(p);
      NonZeroCountZero(p);
      if NonZeroCount(s) >= 2 {
        if s[|s| - 1] == 0.0 {
          var i, j :| 0 <= i < j < |p| && p[i] != 0.0 && p[j] != 0.0;
          assert s[i] != 0.0 && s[j] != 0.0;
        } else {
          var i :| 0 <= i < |p| && p[i] != 0.0;
          assert s[i] != 0.0 && s[|s| - 1] != 0.0;
        }
      } else {
        forall i, j | 0 <= i < j < |s| ensures s[i] == 0.0 || s[j] == 0.0 {
          if j < |s| - 1 {
            assert s[i] == p[i] && s[j] == p[j];
          } else if s[|s| - 1] != 0.0 {
            assert NonZeroCount(p) == 0;
            assert s[i] == p[i];
          }
        }
      }
    }
  }

  /** The count is zero exactly when every value is zero. */
  lemma {:induction false} NonZeroCountZero(s: seq<real>)
    ensures NonZeroCount(s) == 0 <==> forall i :: 0 <= i < |s| ==> s[i] == 0.0
    decreases |s|
  {
    if |s| > 0 {
      var p := s[..|s| - 1];
      NonZeroCountZero(p);
      if NonZeroCount(s) == 0 {
        forall i | 0 <= i < |s| ensures s[i] == 0.0 {
          if i < |s| - 1 { assert s[i] == p[i]; }
        }
      } else if s[|s| - 1] == 0.0 {
        var i :| 0 <= i < |p| && p[i] != 0.0;
        assert s[i] != 0.0;
      }
    }
  }
}
