/**
 * `AutoExpandVector`: an `ArrayList` whose positional writes pad with nulls
 * instead of throwing and whose reads outside the stored range yield null.
 * Capacity trimming has no observable effect and is not modelled.
 */
module AutoExpandVectors {
  import opened Wrappers
  import opened Vectors

  /** The list after `add(pos, obj)`: padded with nulls up to `pos`, then `obj` inserted at `pos`. */
  function Inserted<T>(s: seq<Option<T>>, pos: nat, obj: Option<T>): (r: seq<Option<T>>)
    ensures |r| == Max(|s|, pos) + 1
    ensures r[pos] == obj
    ensures forall j :: 0 <= j < pos ==> r[j] == Vectors.Get(s, j, None)
    ensures forall j :: pos < j < |r| ==> r[j] == s[j - 1]
  {
    var p := Pad(s, pos, None);
    p[..pos] + [obj] + p[pos..]
  }

  class AutoExpandVector<T> {
    var elems: seq<Option<T>>

    /** `new AutoExpandVector()` */
    constructor ()
      ensures elems == []
    {
      elems := [];
    }

    /** `new AutoExpandVector(size)`: the size is an initial capacity only; a negative one throws in Java. */
    constructor WithCapacity(size: int)
      requires size >= 0
      ensures elems == []
    {
      elems := [];
    }

    /** `size()` */
    function Size(): (n: nat)
      reads this
      ensures n == |elems|
    {
      |elems|
    }

    /** `get`: the stored element, or null outside the stored range. */
    function Get(pos: int): (r: Option<T>)
      reads this
      ensures 0 <= pos < |elems| ==> r == elems[pos]
      ensures (pos < 0 || pos >= |elems|) ==> r == None
    {
      if 0 <= pos < |elems| then elems[pos] else None
    }

    /** `add(T)`: appends; always answers true. */
    method Append(obj: Option<T>) returns (result: bool)
      modifies this
      ensures elems == old(elems) + [obj]
      ensures result
    {
      elems := elems + [obj];
      result := true;
    }

    /** `add(int, T)`: appends nulls while `pos` is past the end, then inserts `obj` at `pos`.  A negative position throws in Java. */
    method Insert(pos: int, obj: Option<T>)
      requires pos >= 0
      modifies this
      ensures elems == Inserted(old(elems), pos, obj)
    {
      ghost var s := elems;
      while pos > |elems|
        invariant |s| <= |elems| <= Max(|s|, pos)
        invariant elems == Pad(s, |elems|, None)
        decreases pos - |elems|
      {
        var _ := Append(None);
      }
      assert elems == Pad(s, pos, None);
      elems := elems[..pos] + [obj] + elems[pos..];
    }

    /**
     * `set`: replaces the element at `pos` and answers the previous one; past
     * the end it pads with nulls, places `obj` at `pos` and answers null.
     */
    method Set(pos: int, obj: Option<T>) returns (previous: Option<T>)
      requires pos >= 0
      modifies this
      ensures elems == Put(old(elems), pos, obj, None)
      ensures previous == Vectors.Get(old(elems), pos, None)
    {
      if pos >= |elems| {
        Insert(pos, obj);
        previous := None;
      } else {
        previous := elems[pos];
        elems := elems[pos := obj];
      }
    }

    /** `addAll(Collection)` */
    method AppendAll(objs: seq<Option<T>>) returns (changed: bool)
      modifies this
      ensures elems == old(elems) + objs
      ensures changed <==> |objs| > 0
    {
      elems := elems + objs;
      changed := |objs| > 0;
    }

    /** `addAll(int, Collection)`: inserts at a position inside the list or at its end. */
    method InsertAll(pos: int, objs: seq<Option<T>>) returns (changed: bool)
      requires 0 <= pos <= |elems|
      modifies this
      ensures elems == old(elems[..pos]) + objs + old(elems[pos..])
      ensures changed <==> |objs| > 0
    {
      elems := elems[..pos] + objs + elems[pos..];
      changed := |objs| > 0;
    }

    /** `clear()` */
    method Clear()
      modifies this
      ensures elems == []
    {
      elems := [];
    }

    /** `remove(int)`: removes and answers the element at a position inside the list. */
    method RemoveAt(pos: int) returns (removed: Option<T>)
      requires 0 <= pos < |elems|
      modifies this
      ensures removed == old(elems[pos])
      ensures elems == old(elems[..pos] + elems[pos + 1..])
    {
      removed := elems[pos];
      elems := elems[..pos] + elems[pos + 1..];
    }
  }
}
