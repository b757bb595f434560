/**
 * `BaseObject`: conversions from Java collections to primitive arrays.  A
 * null collection is `None`.  Each conversion fills a fresh array index by
 * index.
 */
module BaseObjects {
  import opened Wrappers

  /** The contents of an optional list, empty for null. */
  function ListOrEmpty<T>(list: Option<seq<T>>): (s: seq<T>)
    ensures list.None? ==> s == []
    ensures list.Some? ==> s == list.value
  {
    match list
    case None => []
    case Some(l) => l
  }

  /** `toPrimitiveDouble`: a fresh array with the list's elements in order; empty for a null or empty list. */
  method ToPrimitiveDouble(list: Option<seq<real>>) returns (result: array<real>)
    ensures fresh(result)
    ensures result.Length == |ListOrEmpty(list)|
    ensures forall i :: 0 <= i < result.Length ==> result[i] == ListOrEmpty(list)[i]
  {
    if list.None? || |list.value| == 0 {
      return new real[0];
    }
    var list_ := list.value;
    result := new real[|list_|];
    var i := 0;
    while i < |list_|
      invariant 0 <= i <= |list_|
      invariant forall j :: 0 <= j < i ==> result[j] == list_[j]
    {
      result[i] := list_[i];
      i := i + 1;
    }
  }

  /** `toPrimitiveInt(ArrayList)`: a fresh array with the list's elements in order; empty for a null or empty list. */
  method ToPrimitiveIntList(list: Option<seq<int>>) returns (result: array<int>)
    ensures fresh(result)
    ensures result.Length == |ListOrEmpty(list)|
    ensures forall i :: 0 <= i < result.Length ==> result[i] == ListOrEmpty(list)[i]
  {
    if list.None? || |list.value| == 0 {
      return new int[0];
    }
    var list_ := list.value;
    result := new int[|list_|];
    var i := 0;
    while i < |list_|
      invariant 0 <= i <= |list_|
      invariant forall j :: 0 <= j < i ==> result[j] == list_[j]
    {
      result[i] := list_[i];
      i := i + 1;
    }
  }

  /** `s` lists its elements in strictly increasing order. */
  predicate StrictlyIncreasing(s: seq<int>)
  {
    forall i, j :: 0 <= i < j < |s| ==> s[i] < s[j]
  }

  /** The least element of a non-empty finite set. */
  function Least(s: set<int>): (k: int)
    requires s != {}
    ensures k in s && forall x :: x in s ==> k <= x
  {
    LeastExists(s);
    var k :| k in s && forall x :: x in s ==> k <= x;
    k
  }

  lemma {:induction false} LeastExists(s: set<int>)
    requires s != {}
    ensures exists k :: k in s && forall x :: x in s ==> k <= x
    decreases |s|
  {
    var y := Member(s);
    if s != {y} {
      var rest := s - {y};
      assert s == rest + {y};
      LeastExists(rest);
      var k :| k in rest && forall x :: x in rest ==> k <= x;
      if y < k {
        assert y in s && forall x :: x in s ==> y <= x;
      } else {
        assert k in s && forall x :: x in s ==> k <= x;
      }
    } else {
      assert y in s && forall x :: x in s ==> y <= x;
    }
  }

  /** Some element of a non-empty set. */
  ghost function Member(s: set<int>): (y: int)
    requires s != {}
    ensures y in s
  {
    assert exists x :: x in s by {
      if forall x :: x !in s {
        assert false;
      }
    }
    var x :| x in s;
    x
  }

  /** The elements of `s` in ascending order. */
  function Ascending(s: set<int>): (ks: seq<int>)
    ensures |ks| == |s|
    ensures forall k :: k in ks <==> k in s
    ensures StrictlyIncreasing(ks)
    decreases |s|
  {
    if s == {} then []
    else
      var k := Least(s);
      var rest := Ascending(s - {k});
      assert forall j :: 0 <= j < |rest| ==> k < rest[j] by {
        forall j | 0 <= j < |rest| ensures k < rest[j] {
          assert rest[j] in s - {k};
        }
      }
      [k] + rest
  }

  /** The keys of `m` in ascending order: the order in which a `TreeMap` hands out its entries. */
  function SortedKeys(m: map<int, int>): (ks: seq<int>)
    ensures |ks| == |m|
    ensures forall k :: k in ks <==> k in m
    ensures StrictlyIncreasing(ks)
  {
    assert |m.Keys| == |m|;
    Ascending(m.Keys)
  }

  /** The values of `m` in ascending key order. */
  function ValuesInKeyOrder(m: map<int, int>): (vs: seq<int>)
    ensures |vs| == |m|
  {
    var ks := SortedKeys(m);
    seq(|ks|, i requires 0 <= i < |ks| => m[ks[i]])
  }

  /**
   * Entry `i` of the values in key order is the value of the key with
   * exactly `i` smaller keys: the `i`-th smallest label, not label `i`.
   */
  lemma ValueRank(m: map<int, int>, k: int)
    requires k in m
    ensures var i := |set x | x in m && x < k|;
            i < |m| && ValuesInKeyOrder(m)[i] == m[k]
  {
    var ks := SortedKeys(m);
    var i :| 0 <= i < |ks| && ks[i] == k;
    assert (set x | x in m && x < k) == (set x | x in ks && x < ks[i]);
    BelowIsPrefix(ks, i);
    IndexSetSize(ks, i);
  }

  /** In a strictly increasing sequence the elements below entry `i` are the first `i` entries. */
  lemma BelowIsPrefix(ks: seq<int>, i: nat)
    requires StrictlyIncreasing(ks) && i < |ks|
    ensures (set x | x in ks && x < ks[i]) == (set j | 0 <= j < i :: ks[j])
  {
    forall x | x in ks && x < ks[i] ensures x in set j | 0 <= j < i :: ks[j] {
      var j :| 0 <= j < |ks| && ks[j] == x;
      assert j < i;
    }
  }

  /** The first `i` entries of a strictly increasing sequence are `i` distinct values. */
  lemma {:induction false} IndexSetSize(ks: seq<int>, i: nat)
    requires StrictlyIncreasing(ks) && i <= |ks|
    ensures |set j | 0 <= j < i :: ks[j]| == i
    decreases i
  {
    if i > 0 {
      IndexSetSize(ks, i - 1);
      var prev := set j | 0 <= j < i - 1 :: ks[j];
      assert (set j | 0 <= j < i :: ks[j]) == prev + {ks[i - 1]};
      assert ks[i - 1] !in prev;
    }
  }

  /** `toPrimitiveInt(TreeMap)`: a fresh array of the map's values in ascending key order; empty for a null or empty map. */
  method ToPrimitiveIntMap(map_: Option<map<int, int>>) returns (result: array<int>)
    ensures fresh(result)
    ensures result[..] == if map_.None? then [] else ValuesInKeyOrder(map_.value)
  {
    if map_.None? || |map_.value| == 0 {
      return new int[0];
    }
    var m := map_.value;
    var entries := SortedKeys(m);
    result := new int[|m|];
    var i := 0;
    while i < |entries|
      invariant 0 <= i <= |entries|
      invariant forall j :: 0 <= j < i ==> result[j] == m[entries[j]]
    {
      result[i] := m[entries[i]];
      i := i + 1;
    }
    assert result[..] == ValuesInKeyOrder(m);
  }
}
