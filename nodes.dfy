/**
 * The node hierarchy of the tree: learning leaves that are active (they keep
 * per-attribute observers and can be split) or inactive (class counts only),
 * and decision nodes holding a binary test and child slots.  Nodes are
 * values owned by their parent's slot; the position of a node in the tree is
 * its path of branch indices from the root, which stands in for the object
 * references the source hands around.
 */
module Nodes {
  import opened Wrappers
  import opened Doubles
  import opened Vectors
  import opened SplitTests
  import opened SplitSuggestions
  import opened Observers
  import opened MathOracles
  import opened Instances

  /** A sequence of branch indices leading from the root to a slot. */
  type Path = seq<int>

  datatype Node =
    | ActiveLearningNode(observedClassDistribution: seq<real>, weightSeenAtLastSplitEvaluation: real,
                         attributeObservers: seq<Option<Observer>>, isInitialized: bool)
    | InactiveLearningNode(observedClassDistribution: seq<real>)
    | SplitNode(splitTest: SplitTest, observedClassDistribution: seq<real>, children: seq<Option<Node>>)

  predicate IsLearningNode(n: Node)
  {
    n.ActiveLearningNode? || n.InactiveLearningNode?
  }

  /** `getWeightSeen`: the total weight of the class distribution. */
  function WeightSeen(n: Node): real
  {
    Sum(n.observedClassDistribution)
  }

  /**
   * `new ActiveLearningNode(initialClassObservations)`: no observers yet, and
   * the weight at the last split evaluation is the weight already seeded, so
   * a fresh leaf starts its grace period with no new weight.
   */
  function NewActiveLearningNode(initialClassObservations: seq<real>): (n: Node)
    ensures n.ActiveLearningNode? && !n.isInitialized && n.attributeObservers == []
    ensures n.observedClassDistribution == initialClassObservations
    ensures WeightSeen(n) - n.weightSeenAtLastSplitEvaluation == 0.0
  {
    ActiveLearningNode(initialClassObservations, Sum(initialClassObservations), [], false)
  }

  /** `new SplitNode(splitTest, classObservations, size)`: `size` only reserves capacity, so there are no children yet. */
  function NewSplitNode(splitTest: SplitTest, classObservations: seq<real>, size: int): (n: Node)
    ensures n.SplitNode? && NumChildren(n) == 0
    ensures n.splitTest == splitTest && n.observedClassDistribution == classObservations
  {
    SplitNode(splitTest, classObservations, [])
  }

  /** `getObservedClassDistribution`: a copy, so later changes to either side do not reach the other. */
  function GetObservedClassDistribution(n: Node): (d: seq<real>)
    ensures d == n.observedClassDistribution
  {
    n.observedClassDistribution
  }

  /** `getClassVotes`: the observed distribution; `features` is unused, as in the source, where the instance plays no part. */
  function GetClassVotes(n: Node, features: seq<Double>): (votes: seq<real>)
    ensures votes == GetObservedClassDistribution(n)
  {
    n.observedClassDistribution
  }

  /** `isLeaf`: every node but a decision node. */
  function IsLeaf(n: Node): (leaf: bool)
    ensures leaf <==> !n.SplitNode?
  {
    !n.SplitNode?
  }

  /**
   * `observedClassDistributionIsPure`: fewer than two classes have non-zero
   * weight, that is, no two distinct classes have both been seen.
   */
  predicate ObservedClassDistributionIsPure(n: Node)
  {
    NonZeroCount(n.observedClassDistribution) < 2
  }

  /** A distribution is pure iff no two distinct classes both have non-zero weight; an empty one is pure. */
  lemma PureIffAtMostOneClass(n: Node)
    ensures var d := n.observedClassDistribution;
            ObservedClassDistributionIsPure(n) <==> forall i, j :: 0 <= i < j < |d| ==> d[i] == 0.0 || d[j] == 0.0
    ensures |n.observedClassDistribution| == 0 ==> ObservedClassDistributionIsPure(n)
  {
    NonZeroCountAtMostOne(n.observedClassDistribution);
  }

  /** `numChildren` */
  function NumChildren(n: Node): (k: nat)
    requires n.SplitNode?
    ensures k == |n.children|
  {
    |n.children|
  }

  /** `getChild`: null outside the stored slots. */
  function GetChild(n: Node, index: int): (c: Option<Node>)
    requires n.SplitNode?
    ensures !(0 <= index < NumChildren(n)) ==> c.None?
    ensures 0 <= index < NumChildren(n) ==> c == n.children[index]
  {
    Vectors.Get(n.children, index, None)
  }

  /**
   * `setChild`: the node with `child` in slot `index`; None where Java
   * throws, namely at or beyond the test's `maxBranches` and (from the
   * vector) below zero.
   */
  function SetChild(n: Node, index: int, child: Node): (r: Option<Node>)
    requires n.SplitNode?
    ensures r.None? <==> !(0 <= index < MAX_BRANCHES)
    ensures r.Some? ==> && r.value.SplitNode? && r.value.splitTest == n.splitTest
                        && r.value.observedClassDistribution == n.observedClassDistribution
                        && GetChild(r.value, index) == Some(child)
                        && NumChildren(r.value) == Max(NumChildren(n), index + 1)
                        && (forall j :: j != index ==> GetChild(r.value, j) == GetChild(n, j))
  {
    if 0 <= index < MAX_BRANCHES then Some(SplitNode(n.splitTest, n.observedClassDistribution, Put(n.children, index, Some(child), None)))
    else None
  }

  /** `instanceChildIndex`: the branch the test picks, -1 for a missing value. */
  function InstanceChildIndex(n: Node, features: seq<Double>): (b: int)
    requires n.SplitNode? && CanTest(n.splitTest, features)
    ensures -1 <= b < MAX_BRANCHES
  {
    BranchForInstance(n.splitTest, features)
  }

  /**
   * `FoundNode`: the node reached (null for an empty slot), its parent
   * decision node and the branch of the parent it hangs from, plus `at`,
   * the path of that slot, which stands in for the node's identity.
   */
  datatype FoundNode = FoundNode(node: Option<Node>, parent: Option<Node>, parentBranch: int, at: Path)

  /** Every test met on the way down can read the instance (Java throws otherwise). */
  predicate Routable(n: Node, features: seq<Double>)
    decreases n
  {
    n.SplitNode? ==>
      && CanTest(n.splitTest, features)
      && var b := BranchForInstance(n.splitTest, features);
         (0 <= b < |n.children| && n.children[b].Some? ==> Routable(n.children[b].value, features))
  }

  /**
   * `filterInstanceToLeaf`: a leaf answers itself with the context it was
   * given; a decision node passes the instance to the chosen child, answers
   * the empty slot with itself as parent, or answers itself when the value
   * is missing.
   */
  function FilterInstanceToLeaf(n: Node, features: seq<Double>, parent: Option<Node>, parentBranch: int, here: Path): (f: FoundNode)
    requires Routable(n, features)
    ensures f.node.None? ==> && f.parent.Some? && f.parent.value.SplitNode?
                             && 0 <= f.parentBranch < MAX_BRANCHES
                             && GetChild(f.parent.value, f.parentBranch).None?
                             && |f.at| > |here| && f.at[|f.at| - 1] == f.parentBranch
    ensures f.node.Some? ==> Routable(f.node.value, features)
    ensures f.node.Some? && f.node.value.SplitNode? ==> InstanceChildIndex(f.node.value, features) == -1
    ensures f.node == Some(n) ==> f.parent == parent && f.parentBranch == parentBranch && f.at == here
    decreases n
  {
    if !n.SplitNode? then FoundNode(Some(n), parent, parentBranch, here)
    else
      var childIndex := InstanceChildIndex(n, features);
      if childIndex >= 0 then
        if 0 <= childIndex < |n.children| && n.children[childIndex].Some? then
          FilterInstanceToLeaf(n.children[childIndex].value, features, Some(n), childIndex, here + [childIndex])
        else FoundNode(None, Some(n), childIndex, here + [childIndex])
      else FoundNode(Some(n), parent, parentBranch, here)
  }

  /** The observers after attributes `0 .. k-1` of the instance have been shown to them, each created on first use. */
  function ObserveAttributes(observers: seq<Option<Observer>>, features: seq<Double>, classVal: nat, weight: real, k: nat): (r: seq<Option<Observer>>)
    requires k <= |features| && weight > 0.0
    ensures |r| >= k && |r| == Max(|observers|, k)
    decreases k
  {
    if k == 0 then observers
    else
      var prev := ObserveAttributes(observers, features, classVal, weight, k - 1);
      var obs := match Get(prev, k - 1, None) case None => FreshObserver case Some(o) => o;
      Put(prev, k - 1, Some(ObservedAttributeClass(obs, features[k - 1], classVal, weight)), None)
  }

  /** How many attributes `learnFromInstance` shows to observers: all but the last. */
  function ObservedAttributeCount(features: seq<Double>): (k: nat)
    ensures k <= |features| && (|features| > 0 ==> k == |features| - 1)
  {
    if |features| > 0 then |features| - 1 else 0
  }

  /**
   * `learnFromInstance` on either kind of learning leaf: the instance weight
   * is added to its class's count; an active leaf also creates its observer
   * vector on first use and shows each observed attribute to its observer.
   */
  function LearnedFromInstance(n: Node, features: seq<Double>, classVal: nat, weight: real): (r: Node)
    requires IsLearningNode(n) && weight > 0.0
  {
    match n
    case InactiveLearningNode(dist) => InactiveLearningNode(AddTo(dist, classVal, weight))
    case ActiveLearningNode(dist, lastWeight, observers, initialized) =>
      var start := if initialized then observers else [];
      ActiveLearningNode(AddTo(dist, classVal, weight), lastWeight,
                         ObserveAttributes(start, features, classVal, weight, ObservedAttributeCount(features)), true)
  }

  /**
   * Learning keeps the kind of leaf and adds exactly the weight to exactly
   * its class: every other class count is unchanged and the weight seen grows
   * by the weight.  Only an active leaf is left initialized, and its split
   * bookkeeping is untouched.
   */
  lemma LearningAddsWeight(n: Node, features: seq<Double>, classVal: nat, weight: real)
    requires IsLearningNode(n) && weight > 0.0
    ensures var r := LearnedFromInstance(n, features, classVal, weight);
            && r.ActiveLearningNode? == n.ActiveLearningNode? && r.InactiveLearningNode? == n.InactiveLearningNode?
            && Get(r.observedClassDistribution, classVal, 0.0) == Get(n.observedClassDistribution, classVal, 0.0) + weight
            && (forall j :: j != classVal ==> Get(r.observedClassDistribution, j, 0.0) == Get(n.observedClassDistribution, j, 0.0))
            && WeightSeen(r) == WeightSeen(n) + weight
            && (r.ActiveLearningNode? ==> r.isInitialized && r.weightSeenAtLastSplitEvaluation == n.weightSeenAtLastSplitEvaluation)
  {
    SumAddTo(n.observedClassDistribution, classVal, weight);
  }

  /**
   * After `ObserveAttributes` over the first `k` attributes, attribute `i < k`
   * has an observer that saw the instance's slot `i` on top of what it held
   * (a fresh observer if none); every other attribute's observer is as before.
   */
  lemma {:induction false} ObserveAttributesEffect(observers: seq<Option<Observer>>, features: seq<Double>, classVal: nat, weight: real, k: nat, i: int)
    requires k <= |features| && weight > 0.0
    ensures var r := ObserveAttributes(observers, features, classVal, weight, k);
            if 0 <= i < k then
              var before := match Get(observers, i, None) case None => FreshObserver case Some(o) => o;
              Get(r, i, None) == Some(ObservedAttributeClass(before, features[i], classVal, weight))
            else Get(r, i, None) == Get(observers, i, None)
    decreases k
  {
    if k > 0 {
      ObserveAttributesEffect(observers, features, classVal, weight, k - 1, i);
      if i == k - 1 {
        ObserveAttributesEffect(observers, features, classVal, weight, k - 1, k);
        assert Get(ObserveAttributes(observers, features, classVal, weight, k - 1), i, None) == Get(observers, i, None) by {
          ObserveAttributesEffect(observers, features, classVal, weight, k - 1, i);
        }
      }
    }
  }

  /**
   * An active leaf that learns has an observer for every attribute but the
   * last, and that observer saw the instance's value; the last attribute's
   * observer (if any) is untouched.  The first instance starts from an empty
   * observer vector.
   */
  lemma ActiveLearningObserves(n: Node, features: seq<Double>, classVal: nat, weight: real, i: int)
    requires n.ActiveLearningNode? && weight > 0.0
    ensures var r := LearnedFromInstance(n, features, classVal, weight);
            var start := if n.isInitialized then n.attributeObservers else [];
            var before := match Get(start, i, None) case None => FreshObserver case Some(o) => o;
            && (0 <= i < |features| - 1 ==> Get(r.attributeObservers, i, None) == Some(ObservedAttributeClass(before, features[i], classVal, weight)))
            && (i == |features| - 1 ==> Get(r.attributeObservers, i, None) == Get(start, i, None))
  {
    var start := if n.isInitialized then n.attributeObservers else [];
    ObserveAttributesEffect(start, features, classVal, weight, ObservedAttributeCount(features), i);
  }

  /**
   * `learnFromInstance` for both leaf kinds, with the class distribution,
   * observer vector and flag of the leaf as locals written back into the
   * result.  `(int) inst.classValue()` is the label itself.
   */
  method LearnFromInstance(n: Node, inst: Instance) returns (r: Node)
    requires IsLearningNode(n) && inst.classLabel >= 0 && inst.weight > 0.0
    ensures r == LearnedFromInstance(n, inst.features, inst.classLabel, inst.weight)
  {
    var classVal := inst.GetClassLabel();
    var weight := inst.Weight();
    var features := inst.GetFeatures();
    var dist := AddTo(n.observedClassDistribution, classVal, weight);
    if n.InactiveLearningNode? {
      return InactiveLearningNode(dist);
    }
    var attributeObservers := n.attributeObservers;
    var isInitialized := n.isInitialized;
    if !isInitialized {
      attributeObservers := [];
      isInitialized := true;
    }
    ghost var start := attributeObservers;
    var i := 0;
    while i < |features| - 1
      invariant 0 <= i <= ObservedAttributeCount(features)
      invariant attributeObservers == ObserveAttributes(start, features, classVal, weight, i)
    {
      attributeObservers := ObserveAttribute(attributeObservers, i, features[i], classVal, weight);
      i := i + 1;
    }
    r := ActiveLearningNode(dist, n.weightSeenAtLastSplitEvaluation, attributeObservers, isInitialized);
  }

  /**
   * One pass of the loop of `learnFromInstance`: the observer of attribute
   * `i`, created and stored on first use, sees the value.  Only slot `i`
   * changes, and the vector grows to reach it.
   */
  method ObserveAttribute(observers: seq<Option<Observer>>, i: nat, value: Double, classVal: nat, weight: real)
    returns (r: seq<Option<Observer>>)
    requires weight > 0.0
    ensures r == Put(observers, i, Some(ObservedAttributeClass(match Get(observers, i, None) case None => FreshObserver case Some(o) => o,
                                                               value, classVal, weight)), None)
  {
    var obs := Vectors.Get(observers, i, None);
    r := observers;
    if obs.None? {
      obs := Some(FreshObserver);
      r := Put(r, i, obs, None);
    }
    ghost var before := r;
    r := r[i := Some(ObservedAttributeClass(obs.value, value, classVal, weight))];
    assert r == Put(before, i, r[i], None);
  }

  /** Each observer's best suggestion, in attribute order; none for a null observer. */
  function ObserverBests(observers: seq<Option<Observer>>, m: MathLib): (bests: seq<Option<Suggestion>>)
    ensures |bests| == |observers|
  {
    seq(|observers|, a requires 0 <= a < |observers| =>
      if observers[a].Some? then BestSuggestion(observers[a].value, a, m) else None)
  }

  /** The entries present among the first `k` of `bests`, in order. */
  function Present(bests: seq<Option<Suggestion>>, k: nat): (s: seq<Suggestion>)
    requires k <= |bests|
    ensures |s| <= k
  {
    if k == 0 then []
    else if bests[k - 1].Some? then Present(bests, k - 1) + [bests[k - 1].value]
    else Present(bests, k - 1)
  }

  /** The suggestions of the non-null observers among the first `k` that have one, in attribute order. */
  function BestSplitSuggestions(observers: seq<Option<Observer>>, m: MathLib, k: nat): (s: seq<Suggestion>)
    requires k <= |observers|
    ensures |s| <= k
  {
    Present(ObserverBests(observers, m), k)
  }

  /** Every entry present in `bests` is a two-way test on the attribute of its own position. */
  predicate TwoWayOnOwnAttribute(bests: seq<Option<Suggestion>>)
  {
    forall a :: 0 <= a < |bests| && bests[a].Some? ==>
      NumSplits(bests[a].value) == MAX_BRANCHES && bests[a].value.splitTest.Some? && bests[a].value.splitTest.value.attIndex == a
  }

  /** Each observer proposes a two-way test on its own attribute. */
  lemma ObserverBestsOnOwnAttribute(observers: seq<Option<Observer>>, m: MathLib)
    ensures TwoWayOnOwnAttribute(ObserverBests(observers, m))
  {
    var bests := ObserverBests(observers, m);
    forall a | 0 <= a < |bests| && bests[a].Some?
      ensures NumSplits(bests[a].value) == MAX_BRANCHES && bests[a].value.splitTest.Some? && bests[a].value.splitTest.value.attIndex == a
    {
      BestSuggestionOnAttribute(observers[a].value, a, m);
    }
  }

  /**
   * When every entry tests the attribute of its own position, the entries
   * kept below `k` are each the entry at the position they test, in
   * strictly increasing attribute order.
   */
  lemma {:induction false} PresentInOrder(bests: seq<Option<Suggestion>>, k: nat)
    requires k <= |bests| && TwoWayOnOwnAttribute(bests)
    ensures forall j :: 0 <= j < |Present(bests, k)| ==>
              var x := Present(bests, k)[j];
              x.splitTest.Some? && 0 <= x.splitTest.value.attIndex < k && bests[x.splitTest.value.attIndex] == Some(x)
    ensures forall i, j :: 0 <= i < j < |Present(bests, k)| ==>
              Present(bests, k)[i].splitTest.value.attIndex < Present(bests, k)[j].splitTest.value.attIndex
    decreases k
  {
    if k > 0 {
      PresentInOrder(bests, k - 1);
      var prev := Present(bests, k - 1);
      if bests[k - 1].Some? {
        var s := prev + [bests[k - 1].value];
        assert Present(bests, k) == s;
        forall j | 0 <= j < |s|
          ensures s[j].splitTest.Some? && 0 <= s[j].splitTest.value.attIndex < k && bests[s[j].splitTest.value.attIndex] == Some(s[j])
        {
          if j < |prev| {
            assert s[j] == prev[j];
          } else {
            assert s[j] == bests[k - 1].value;
          }
        }
        forall i, j | 0 <= i < j < |s| ensures s[i].splitTest.value.attIndex < s[j].splitTest.value.attIndex {
          assert s[i] == prev[i];
          if j < |prev| {
            assert s[j] == prev[j];
          } else {
            assert s[j] == bests[k - 1].value;
          }
        }
      } else {
        assert Present(bests, k) == prev;
      }
    }
  }

  /** Every entry present below `k` is kept. */
  lemma {:induction false} PresentComplete(bests: seq<Option<Suggestion>>, k: nat)
    requires k <= |bests|
    ensures forall a :: 0 <= a < k && bests[a].Some? ==> bests[a].value in Present(bests, k)
    decreases k
  {
    if k > 0 {
      PresentComplete(bests, k - 1);
      if bests[k - 1].Some? {
        assert Present(bests, k) == Present(bests, k - 1) + [bests[k - 1].value];
      }
    }
  }

  /**
   * Two-way tests, at most one per attribute, in strictly increasing
   * attribute order, each on an attribute below `k` whose observer exists.
   */
  predicate AttributeOrdered(s: seq<Suggestion>, observers: seq<Option<Observer>>, k: nat)
    requires k <= |observers|
  {
    && (forall j :: 0 <= j < |s| ==>
          && NumSplits(s[j]) == MAX_BRANCHES && s[j].splitTest.Some?
          && 0 <= s[j].splitTest.value.attIndex < k
          && observers[s[j].splitTest.value.attIndex].Some?)
    && (forall i, j :: 0 <= i < j < |s| ==> s[i].splitTest.value.attIndex < s[j].splitTest.value.attIndex)
  }

  /** The collected suggestions are two-way tests listed in attribute order. */
  lemma BestSplitSuggestionsShape(observers: seq<Option<Observer>>, m: MathLib, k: nat)
    requires k <= |observers|
    ensures AttributeOrdered(BestSplitSuggestions(observers, m, k), observers, k)
  {
    var bests := ObserverBests(observers, m);
    ObserverBestsOnOwnAttribute(observers, m);
    PresentInOrder(bests, k);
    var s := BestSplitSuggestions(observers, m, k);
    forall j | 0 <= j < |s|
      ensures NumSplits(s[j]) == MAX_BRANCHES && observers[s[j].splitTest.value.attIndex].Some?
    {
      assert bests[s[j].splitTest.value.attIndex] == Some(s[j]);
    }
  }

  /**
   * A collected suggestion tests the attribute of the observer it came from,
   * and that test reads the feature one further on: observer `a` is fed
   * feature `a`, while the split it proposes routes on feature `a + 1`.
   */
  lemma SplitReadsNextFeature(observers: seq<Option<Observer>>, m: MathLib, k: nat, j: nat)
    requires k <= |observers| && j < |BestSplitSuggestions(observers, m, k)|
    ensures var t := BestSplitSuggestions(observers, m, k)[j].splitTest;
            && t.Some? && 0 <= t.value.attIndex < k && observers[t.value.attIndex].Some?
            && InstAttIndex(t.value) == t.value.attIndex + 1
  {
    BestSplitSuggestionsShape(observers, m, k);
  }

  /** Attribute `a`'s observer exists and its best suggestion is `x`. */
  predicate IsBestOf(observers: seq<Option<Observer>>, m: MathLib, a: int, x: Suggestion)
  {
    0 <= a < |observers| && observers[a].Some? && BestSuggestion(observers[a].value, a, m) == Some(x)
  }

  /**
   * Each collected entry is the best suggestion of the observer of the
   * attribute it tests, and every observer below `k` with a best suggestion
   * contributes it.
   */
  predicate ExactlyTheBest(s: seq<Suggestion>, observers: seq<Option<Observer>>, m: MathLib, k: nat)
    requires k <= |observers|
  {
    && (forall j :: 0 <= j < |s| ==>
          s[j].splitTest.Some? && s[j].splitTest.value.attIndex < k && IsBestOf(observers, m, s[j].splitTest.value.attIndex, s[j]))
    && (forall a :: 0 <= a < k && observers[a].Some? && BestSuggestion(observers[a].value, a, m).Some? ==>
          BestSuggestion(observers[a].value, a, m).value in s)
  }

  /** The collected suggestions are exactly the non-null best suggestions of the non-null observers. */
  lemma BestSplitSuggestionsExact(observers: seq<Option<Observer>>, m: MathLib, k: nat)
    requires k <= |observers|
    ensures ExactlyTheBest(BestSplitSuggestions(observers, m, k), observers, m, k)
  {
    var bests := ObserverBests(observers, m);
    ObserverBestsOnOwnAttribute(observers, m);
    PresentInOrder(bests, k);
    PresentComplete(bests, k);
    var s := BestSplitSuggestions(observers, m, k);
    forall j | 0 <= j < |s|
      ensures IsBestOf(observers, m, s[j].splitTest.value.attIndex, s[j])
    {
      assert bests[s[j].splitTest.value.attIndex] == Some(s[j]);
    }
    forall a | 0 <= a < k && observers[a].Some? && BestSuggestion(observers[a].value, a, m).Some?
      ensures BestSuggestion(observers[a].value, a, m).value in s
    {
      assert bests[a] == BestSuggestion(observers[a].value, a, m);
    }
  }

  /** An observer's best suggestion is a two-way test on the observer's own attribute. */
  lemma BestSuggestionOnAttribute(o: Observer, attIndex: int, m: MathLib)
    requires BestSuggestion(o, attIndex, m).Some?
    ensures var best := BestSuggestion(o, attIndex, m).value;
            NumSplits(best) == MAX_BRANCHES && best.splitTest.Some? && best.splitTest.value.attIndex == attIndex
  {
    BestSuggestionShape(o, attIndex, m);
  }

  /** `getBestSplitSuggestions`: asks each non-null observer for its best suggestion and keeps the non-null ones; the node is not changed. */
  method GetBestSplitSuggestions(n: Node, m: MathLib) returns (suggestions: seq<Suggestion>)
    requires n.ActiveLearningNode?
    ensures suggestions == BestSplitSuggestions(n.attributeObservers, m, |n.attributeObservers|)
  {
    var bestSuggestions: seq<Suggestion> := [];
    ghost var bests := ObserverBests(n.attributeObservers, m);
    var i := 0;
    while i < |n.attributeObservers|
      invariant 0 <= i <= |n.attributeObservers|
      invariant bestSuggestions == Present(bests, i)
    {
      var obs := n.attributeObservers[i];
      assert bests[i] == if obs.Some? then BestSuggestion(obs.value, i, m) else None;
      if obs.Some? {
        var bestSuggestion := BestEvaluatedSplitSuggestion(obs.value, i, m);
        if bestSuggestion.Some? {
          bestSuggestions := bestSuggestions + [bestSuggestion.value];
        }
      }
      i := i + 1;
    }
    suggestions := bestSuggestions;
  }
}
