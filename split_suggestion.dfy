/**
 * `AttributeSplitSuggestion`: a proposed test, the class distributions of its
 * branches and its merit, ordered by merit.  `Arrays.sort` on suggestions is
 * a stable sort by that order; it is modelled by insertion sort, which is
 * stable too.
 */
module SplitSuggestions {
  import opened Wrappers
  import opened Doubles
  import opened SplitTests

  datatype Suggestion = AttributeSplitSuggestion(
    splitTest: Option<SplitTest>,
    resultingClassDistributions: seq<seq<real>>,
    merit: Double)

  /** `numSplits`: the number of branch distributions. */
  function NumSplits(s: Suggestion): (n: nat)
    ensures n == |s.resultingClassDistributions|
  {
    |s.resultingClassDistributions|
  }

  /** `resultingClassDistributionFromSplit`: branch `i`'s distribution (a copy); Java throws outside the branches. */
  function ResultingClassDistributionFromSplit(s: Suggestion, splitIndex: int): (d: seq<real>)
    requires 0 <= splitIndex < NumSplits(s)
    ensures d == s.resultingClassDistributions[splitIndex]
  {
    s.resultingClassDistributions[splitIndex]
  }

  /** `compareTo`: `Double.compare` on the merits. */
  function CompareTo(a: Suggestion, b: Suggestion): (c: int)
    ensures c == -1 || c == 0 || c == 1
    ensures c == 0 <==> a.merit == b.merit
    ensures !a.merit.NaN? && !b.merit.NaN? ==> (c < 0 <==> Lt(a.merit, b.merit)) && (c > 0 <==> Gt(a.merit, b.merit))
  {
    Compare(a.merit, b.merit)
  }

  /** Suggestions in non-decreasing merit order. */
  predicate SortedByMerit(s: seq<Suggestion>)
  {
    forall i, j :: 0 <= i < j < |s| ==> CompareTo(s[i], s[j]) <= 0
  }

  /** Places `x` after every suggestion whose merit is not above its own. */
  function Insert(s: seq<Suggestion>, x: Suggestion): (r: seq<Suggestion>)
    ensures multiset(r) == multiset(s) + multiset{x}
    ensures |r| == |s| + 1
  {
    if |s| == 0 then [x]
    else if CompareTo(s[0], x) > 0 then [x] + s
    else
      assert s == [s[0]] + s[1..];
      [s[0]] + Insert(s[1..], x)
  }

  /** `Arrays.sort` on suggestions: a stable sort by merit. */
  function SortByMerit(s: seq<Suggestion>): (r: seq<Suggestion>)
    ensures multiset(r) == multiset(s)
    ensures |r| == |s|
  {
    if |s| == 0 then []
    else
      var p := s[..|s| - 1];
      assert s == p + [s[|s| - 1]];
      Insert(SortByMerit(p), s[|s| - 1])
  }

  lemma {:induction false} InsertKeepsSorted(s: seq<Suggestion>, x: Suggestion)
    requires SortedByMerit(s)
    ensures SortedByMerit(Insert(s, x))
    decreases |s|
  {
    if |s| > 0 && CompareTo(s[0], x) <= 0 {
      assert SortedByMerit(s[1..]);
      InsertKeepsSorted(s[1..], x);
      var r := Insert(s, x);
      forall i, j | 0 <= i < j < |r| ensures CompareTo(r[i], r[j]) <= 0 {
        if i == 0 {
          assert r[j] in multiset(Insert(s[1..], x));
          assert r[j] in multiset(s[1..]) + multiset{x};
          if r[j] == x {
          } else {
            var k :| 0 <= k < |s[1..]| && s[1..][k] == r[j];
            assert s[k + 1] == r[j];
          }
        }
      }
    } else if |s| > 0 {
      var r := Insert(s, x);
      forall i, j | 0 <= i < j < |r| ensures CompareTo(r[i], r[j]) <= 0 {
        if i == 0 {
          CompareOrder(x.merit, s[0].merit, s[j - 1].merit);
        }
      }
    }
  }

  /** The result of sorting is ordered by merit. */
  lemma {:induction false} SortIsSorted(s: seq<Suggestion>)
    ensures SortedByMerit(SortByMerit(s))
    decreases |s|
  {
    if |s| > 0 {
      SortIsSorted(s[..|s| - 1]);
      InsertKeepsSorted(SortByMerit(s[..|s| - 1]), s[|s| - 1]);
    }
  }

  /** Suggestion `k` has the greatest merit and every later one has a strictly smaller merit. */
  predicate IsLastBest(s: seq<Suggestion>, k: int)
  {
    && 0 <= k < |s|
    && (forall j :: 0 <= j < |s| ==> CompareTo(s[j], s[k]) <= 0)
    && (forall j :: k < j < |s| ==> CompareTo(s[j], s[k]) < 0)
  }

  /** Inserting into a sorted sequence: the new last element is `x` when nothing is above it, else the old last one. */
  lemma {:induction false} InsertLast(s: seq<Suggestion>, x: Suggestion)
    requires |s| > 0 && SortedByMerit(s)
    ensures var r := Insert(s, x);
            r[|r| - 1] == if CompareTo(s[|s| - 1], x) > 0 then s[|s| - 1] else x
    decreases |s|
  {
    var r := Insert(s, x);
    var last := s[|s| - 1];
    if CompareTo(s[0], x) > 0 {
      assert r == [x] + s;
      if |s| > 1 {
        assert CompareTo(s[0], last) <= 0;
        CompareOrder(x.merit, s[0].merit, last.merit);
      }
    } else if |s| > 1 {
      var t := s[1..];
      assert r == [s[0]] + Insert(t, x);
      assert SortedByMerit(t);
      assert t[|t| - 1] == last;
      InsertLast(t, x);
    } else {
      assert r == [s[0]] + [x];
    }
  }

  /**
   * After sorting, the last suggestion is the input's last suggestion of
   * greatest merit: the one `split` takes as the best.
   */
  lemma {:induction false} SortLastIsLastBest(s: seq<Suggestion>)
    requires |s| > 0
    ensures exists k :: IsLastBest(s, k) && SortByMerit(s)[|s| - 1] == s[k]
    decreases |s|
  {
    var x := s[|s| - 1];
    var p := s[..|s| - 1];
    if |p| == 0 {
      assert IsLastBest(s, 0);
    } else {
      SortLastIsLastBest(p);
      var k :| IsLastBest(p, k) && SortByMerit(p)[|p| - 1] == p[k];
      SortIsSorted(p);
      InsertLast(SortByMerit(p), x);
      if CompareTo(p[k], x) > 0 {
        LastBestKept(s, k);
      } else {
        LastBestIsNew(s, k);
      }
    }
  }

  /** A new last element below the best keeps the old best. */
  lemma LastBestKept(s: seq<Suggestion>, k: int)
    requires |s| > 1 && IsLastBest(s[..|s| - 1], k) && CompareTo(s[k], s[|s| - 1]) > 0
    ensures IsLastBest(s, k)
  {
    var p := s[..|s| - 1];
    forall j | 0 <= j < |s| ensures CompareTo(s[j], s[k]) <= 0 {
      if j < |p| { assert s[j] == p[j]; }
    }
    forall j | k < j < |s| ensures CompareTo(s[j], s[k]) < 0 {
      if j < |p| { assert s[j] == p[j]; }
    }
  }

  /** A new last element at least as good as the old best becomes the best. */
  lemma LastBestIsNew(s: seq<Suggestion>, k: int)
    requires |s| > 1 && IsLastBest(s[..|s| - 1], k) && CompareTo(s[k], s[|s| - 1]) <= 0
    ensures IsLastBest(s, |s| - 1)
  {
    var p := s[..|s| - 1];
    var x := s[|s| - 1];
    forall j | 0 <= j < |s| ensures CompareTo(s[j], x) <= 0 {
      if j < |p| {
        assert s[j] == p[j];
        CompareOrder(p[j].merit, p[k].merit, x.merit);
      }
    }
  }
}
