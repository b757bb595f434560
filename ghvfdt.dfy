/**
 * `GHVFDT`: the streaming tree.  It routes each training instance to a leaf,
 * lets the leaf learn from it and, once a leaf has seen `gracePeriod` more
 * weight, decides with the Hoeffding bound whether to replace it by a
 * decision node.  It keeps three counters that must equal the numbers of
 * reachable active leaves, inactive leaves and decision nodes.
 *
 * The state is read as a `TreeState` value; the `*ed` functions below say
 * what each operation makes of it, the class methods are proved to do
 * exactly that, and the lemmas prove the counter invariant `Valid` is kept.
 */
module Ghvfdt {
  import opened Wrappers
  import opened Doubles
  import opened Vectors
  import opened MathOracles
  import opened SplitTests
  import opened SplitSuggestions
  import opened SplitCriterion
  import opened Nodes
  import opened Trees
  import opened Instances
  import opened Classifiers

  /** The fields of the tree that its operations change. */
  datatype TreeState = TreeState(
    treeRoot: Option<Node>,
    decisionNodeCount: int,
    activeLeafNodeCount: int,
    inactiveLeafNodeCount: int,
    growthAllowed: bool)

  /** The tuning fields read by training. */
  datatype Params = Params(gracePeriod: int, splitConfidence: real, tieThreshold: real)

  function CountsOf(s: TreeState): Counts
  {
    Counts(s.activeLeafNodeCount, s.inactiveLeafNodeCount, s.decisionNodeCount)
  }

  /** The counters equal the numbers of reachable node kinds, and decision nodes have at most two slots. */
  predicate Valid(s: TreeState)
  {
    && CountsOf(s) == TallySlot(s.treeRoot)
    && (s.treeRoot.Some? ==> BinaryShaped(s.treeRoot.value))
  }

  /** A node can be put at `at`: as the root (parent null), or through its parent's `setChild`. */
  predicate CanPlace(root: Option<Node>, at: Path)
  {
    |at| == 0 || (root.Some? && Writable(root.value, at))
  }

  /** The new root after putting `n` at `at`. */
  function Placed(root: Option<Node>, at: Path, n: Node): (r: Node)
    requires CanPlace(root, at)
    ensures NodeAt(r, at) == Some(n)
  {
    if |at| == 0 then n else ReplaceAt(root.value, at, n)
  }

  /** What the slot at `at` holds before the placement. */
  function SlotAt(root: Option<Node>, at: Path): Option<Node>
  {
    match root
    case None => None
    case Some(r) => NodeAt(r, at)
  }

  /** Placing `n` trades the counts of what the slot held for those of `n`. */
  lemma PlacedTally(root: Option<Node>, at: Path, n: Node)
    requires CanPlace(root, at)
    ensures Tally(Placed(root, at, n)) == Plus(Minus(TallySlot(root), TallySlot(SlotAt(root, at))), Tally(n))
  {
    if |at| > 0 {
      ReplaceTally(root.value, at, n);
    } else {
      var placed := Placed(root, at, n);
      assert placed == n;
      var before := SlotAt(root, at);
      assert before == root;
      var a, b := TallySlot(root), Tally(n);
      CountsSwapSelf(a, b);
    }
  }

  /** Placing a binary-shaped node keeps the tree binary-shaped; the slot stays writable. */
  lemma PlacedShaped(root: Option<Node>, at: Path, n: Node)
    requires CanPlace(root, at) && BinaryShaped(n) && (root.Some? ==> BinaryShaped(root.value))
    ensures BinaryShaped(Placed(root, at, n))
    ensures CanPlace(Some(Placed(root, at, n)), at)
  {
    if |at| > 0 {
      ReplaceShaped(root.value, at, n);
      ReplaceKeepsWritable(root.value, at, n);
    }
  }

  /** Writing at `p` leaves `p` writable. */
  lemma {:induction false} ReplaceKeepsWritable(n: Node, p: Path, m: Node)
    requires Writable(n, p)
    ensures Writable(ReplaceAt(n, p, m), p)
    decreases |p|
  {
    if |p| > 1 {
      ReplaceKeepsWritable(n.children[p[0]].value, p[1..], m);
    }
  }

  /** Placing at `at` leaves slots apart from `at` as they were. */
  lemma PlacedElsewhere(root: Option<Node>, at: Path, n: Node, q: Path)
    requires CanPlace(root, at) && root.Some? && Incomparable(at, q)
    ensures NodeAt(Placed(root, at, n), q) == NodeAt(root.value, q)
  {
    if |at| > 0 {
      ReplaceElsewhere(root.value, at, n, q);
    }
  }

  // ---------------------------------------------------------------------
  // Leaf activation and deactivation
  // ---------------------------------------------------------------------

  /** `deactivateLearningNode`: an inactive leaf with the same distribution takes the slot; one unit moves from active to inactive. */
  function Deactivated(s: TreeState, at: Path, toDeactivate: Node): TreeState
    requires CanPlace(s.treeRoot, at)
  {
    s.(treeRoot := Some(Placed(s.treeRoot, at, InactiveLearningNode(GetObservedClassDistribution(toDeactivate)))),
       activeLeafNodeCount := s.activeLeafNodeCount - 1,
       inactiveLeafNodeCount := s.inactiveLeafNodeCount + 1)
  }

  /** `activateLearningNode`: a fresh active leaf with the same distribution takes the slot; one unit moves from inactive to active. */
  function Activated(s: TreeState, at: Path, toActivate: Node): TreeState
    requires CanPlace(s.treeRoot, at)
  {
    s.(treeRoot := Some(Placed(s.treeRoot, at, NewActiveLearningNode(GetObservedClassDistribution(toActivate)))),
       activeLeafNodeCount := s.activeLeafNodeCount + 1,
       inactiveLeafNodeCount := s.inactiveLeafNodeCount - 1)
  }

  /** Deactivating a reachable active leaf keeps the counters exact and leaves an equal distribution in its slot. */
  lemma DeactivatedKeepsValid(s: TreeState, at: Path, n: Node)
    requires Valid(s) && s.treeRoot.Some? && NodeAt(s.treeRoot.value, at) == Some(n) && n.ActiveLearningNode?
    ensures CanPlace(s.treeRoot, at)
    ensures var r := Deactivated(s, at, n);
            && Valid(r)
            && NodeAt(r.treeRoot.value, at) == Some(InactiveLearningNode(n.observedClassDistribution))
  {
    OccupiedWritable(s.treeRoot.value, at);
    PlacedTally(s.treeRoot, at, InactiveLearningNode(n.observedClassDistribution));
    PlacedShaped(s.treeRoot, at, InactiveLearningNode(n.observedClassDistribution));
  }

  /** Activating a reachable inactive leaf keeps the counters exact and leaves an equal distribution in its slot. */
  lemma ActivatedKeepsValid(s: TreeState, at: Path, n: Node)
    requires Valid(s) && s.treeRoot.Some? && NodeAt(s.treeRoot.value, at) == Some(n) && n.InactiveLearningNode?
    ensures CanPlace(s.treeRoot, at)
    ensures var r := Activated(s, at, n);
            && Valid(r)
            && NodeAt(r.treeRoot.value, at) == Some(NewActiveLearningNode(n.observedClassDistribution))
  {
    OccupiedWritable(s.treeRoot.value, at);
    PlacedTally(s.treeRoot, at, NewActiveLearningNode(n.observedClassDistribution));
    PlacedShaped(s.treeRoot, at, NewActiveLearningNode(n.observedClassDistribution));
  }

  // ---------------------------------------------------------------------
  // The split decision
  // ---------------------------------------------------------------------

  /** Every suggestion is a two-way test. */
  predicate TwoWay(s: seq<Suggestion>)
  {
    forall j :: 0 <= j < |s| ==> NumSplits(s[j]) == MAX_BRANCHES && s[j].splitTest.Some?
  }

  /** The suggestions `getBestSplitSuggestions` returns for an active leaf. */
  function RawSuggestions(n: Node, m: MathLib): (s: seq<Suggestion>)
    requires n.ActiveLearningNode?
    ensures TwoWay(s)
  {
    BestSplitSuggestionsShape(n.attributeObservers, m, |n.attributeObservers|);
    BestSplitSuggestions(n.attributeObservers, m, |n.attributeObservers|)
  }

  /** `Arrays.sort` applied to `getBestSplitSuggestions`: in merit order, every one a two-way test. */
  function SortedSuggestions(n: Node, m: MathLib): (s: seq<Suggestion>)
    requires n.ActiveLearningNode?
    ensures SortedByMerit(s) && TwoWay(s)
    ensures multiset(s) == multiset(RawSuggestions(n, m))
  {
    var raw := RawSuggestions(n, m);
    SortIsSorted(raw);
    SortKeepsTwoWay(raw);
    SortByMerit(raw)
  }

  /** Sorting only reorders, so two-way tests stay two-way tests. */
  lemma SortKeepsTwoWay(s: seq<Suggestion>)
    requires TwoWay(s)
    ensures TwoWay(SortByMerit(s))
  {
    var r := SortByMerit(s);
    forall j | 0 <= j < |r| ensures NumSplits(r[j]) == MAX_BRANCHES && r[j].splitTest.Some? {
      assert r[j] in multiset(r);
      assert r[j] in multiset(s);
      var i :| 0 <= i < |s| && s[i] == r[j];
    }
  }

  /**
   * The split test of `split`: with fewer than two suggestions, split when
   * there is one; otherwise split when the best beats the second best by
   * more than the Hoeffding bound, or the bound is below the tie threshold.
   */
  function ShouldSplit(sorted: seq<Suggestion>, n: Node, p: Params, m: MathLib): (split: bool)
    ensures |sorted| == 0 ==> !split
    ensures |sorted| == 1 ==> split
  {
    if |sorted| < 2 then |sorted| > 0
    else
      var hoeffdingBound := m.hoeffdingBound(RangeOfMerit(GetObservedClassDistribution(n), m), p.splitConfidence, WeightSeen(n));
      var best := sorted[|sorted| - 1];
      var secondBest := sorted[|sorted| - 2];
      Gt(Sub(best.merit, secondBest.merit), hoeffdingBound) || Lt(hoeffdingBound, Num(p.tieThreshold))
  }

  /** What `split` does with a leaf. */
  datatype SplitOutcome = KeepLeaf | DeactivateLeaf | InstallSplit(decision: Node)

  /** `newSplitNode` followed by `setChild(i, newLearningNode(branch i's distribution))` for each branch. */
  function NewSplitFrom(d: Suggestion, dist: seq<real>): (n: Node)
    requires d.splitTest.Some? && NumSplits(d) <= MAX_BRANCHES
  {
    SplitNode(d.splitTest.value, dist,
      seq(NumSplits(d), i requires 0 <= i < NumSplits(d) => Some(NewActiveLearningNode(ResultingClassDistributionFromSplit(d, i)))))
  }

  /**
   * The decision node a split installs holds the leaf's distribution and one
   * fresh active leaf per branch seeded with that branch's distribution, so
   * it adds one decision node and `numSplits` active leaves.
   */
  lemma NewSplitShape(d: Suggestion, dist: seq<real>)
    requires d.splitTest.Some? && NumSplits(d) <= MAX_BRANCHES
    ensures var n := NewSplitFrom(d, dist);
            && n.SplitNode? && n.splitTest == d.splitTest.value && n.observedClassDistribution == dist
            && NumChildren(n) == NumSplits(d)
            && (forall i :: 0 <= i < NumSplits(d) ==>
                  GetChild(n, i) == Some(NewActiveLearningNode(ResultingClassDistributionFromSplit(d, i))))
            && BinaryShaped(n)
            && Tally(n) == Counts(NumSplits(d), 0, 1)
  {
    var n := NewSplitFrom(d, dist);
    TallyActiveLeaves(n.children, |n.children|);
  }

  /** Slots that all hold active leaves count as that many active leaves. */
  lemma {:induction false} TallyActiveLeaves(cs: seq<Option<Node>>, k: nat)
    requires k <= |cs| && forall j :: 0 <= j < k ==> cs[j].Some? && cs[j].value.ActiveLearningNode?
    ensures TallyFirst(cs, k) == Counts(k, 0, 0)
    decreases k
  {
    if k > 0 {
      TallyActiveLeaves(cs, k - 1);
      assert cs[k - 1].Some? && cs[k - 1].value.ActiveLearningNode?;
      assert TallySlot(cs[k - 1]) == Counts(1, 0, 0);
    }
  }

  /** The loop of `split` that builds the decision node: `newSplitNode`, then a fresh leaf per branch through `setChild`. */
  method SeededSplitNode(splitDecision: Suggestion, dist: seq<real>) returns (newSplit: Node)
    requires splitDecision.splitTest.Some? && NumSplits(splitDecision) <= MAX_BRANCHES
    ensures newSplit == NewSplitFrom(splitDecision, dist)
  {
    newSplit := NewSplitNode(splitDecision.splitTest.value, dist, NumSplits(splitDecision));
    var i := 0;
    while i < NumSplits(splitDecision)
      invariant 0 <= i <= NumSplits(splitDecision)
      invariant newSplit.SplitNode? && newSplit.splitTest == splitDecision.splitTest.value
      invariant newSplit.observedClassDistribution == dist && |newSplit.children| == i
      invariant forall j :: 0 <= j < i ==>
                  newSplit.children[j] == Some(NewActiveLearningNode(ResultingClassDistributionFromSplit(splitDecision, j)))
    {
      var newChild := NewActiveLearningNode(ResultingClassDistributionFromSplit(splitDecision, i));
      var next := SetChild(newSplit, i, newChild).value;
      assert forall j :: 0 <= j < i ==> next.children[j] == GetChild(next, j) == GetChild(newSplit, j);
      newSplit := next;
      i := i + 1;
    }
    assert newSplit.children == NewSplitFrom(splitDecision, dist).children;
  }

  /** `split`'s choice: nothing for a pure leaf or when the test fails; otherwise the best suggestion's split, or deactivation for a null test. */
  function SplitDecision(n: Node, p: Params, m: MathLib): SplitOutcome
    requires n.ActiveLearningNode?
  {
    if ObservedClassDistributionIsPure(n) then KeepLeaf
    else
      var sorted := SortedSuggestions(n, m);
      if !ShouldSplit(sorted, n, p, m) then KeepLeaf
      else
        var splitDecision := sorted[|sorted| - 1];
        if splitDecision.splitTest.None? then DeactivateLeaf
        else InstallSplit(NewSplitFrom(splitDecision, GetObservedClassDistribution(n)))
  }

  /** The suggestion a split installs: the last after sorting. */
  function InstalledSuggestion(n: Node, p: Params, m: MathLib): (d: Suggestion)
    requires n.ActiveLearningNode? && SplitDecision(n, p, m).InstallSplit?
    ensures d.splitTest.Some? && NumSplits(d) == MAX_BRANCHES
    ensures SplitDecision(n, p, m) == InstallSplit(NewSplitFrom(d, n.observedClassDistribution))
  {
    var sorted := SortedSuggestions(n, m);
    sorted[|sorted| - 1]
  }

  /** `split(node, parent, parentIndex)` on the tree state, with `at` the slot of the node. */
  function SplitAttempted(s: TreeState, at: Path, n: Node, p: Params, m: MathLib): TreeState
    requires n.ActiveLearningNode? && CanPlace(s.treeRoot, at)
  {
    OutcomeApplied(s, at, n, SplitDecision(n, p, m))
  }

  /** The state after carrying out `outcome` on the leaf `n` at `at`. */
  function OutcomeApplied(s: TreeState, at: Path, n: Node, outcome: SplitOutcome): TreeState
    requires CanPlace(s.treeRoot, at) && (outcome.InstallSplit? ==> outcome.decision.SplitNode?)
  {
    match outcome
    case KeepLeaf => s
    case DeactivateLeaf => Deactivated(s, at, n)
    case InstallSplit(newSplit) =>
      s.(treeRoot := Some(Placed(s.treeRoot, at, newSplit)),
         activeLeafNodeCount := s.activeLeafNodeCount - 1 + NumChildren(newSplit),
         decisionNodeCount := s.decisionNodeCount + 1)
  }

  /** For a mixed leaf, the decision read off the sorted suggestions: keep the leaf, or install the last one's split. */
  lemma DecisionFromSorted(n: Node, p: Params, m: MathLib)
    requires n.ActiveLearningNode? && !ObservedClassDistributionIsPure(n)
    ensures var sorted := SortedSuggestions(n, m);
            && (!ShouldSplit(sorted, n, p, m) ==> SplitDecision(n, p, m) == KeepLeaf)
            && (ShouldSplit(sorted, n, p, m) ==>
                  |sorted| > 0 && sorted[|sorted| - 1].splitTest.Some? && NumSplits(sorted[|sorted| - 1]) == MAX_BRANCHES
                  && SplitDecision(n, p, m) == InstallSplit(NewSplitFrom(sorted[|sorted| - 1], n.observedClassDistribution)))
  {
    var sorted := SortedSuggestions(n, m);
    if ShouldSplit(sorted, n, p, m) {
      assert TwoWay(sorted);
      assert sorted[|sorted| - 1].splitTest.Some?;
    }
  }

  /** A pure leaf is never split. */
  lemma PureLeafKept(n: Node, p: Params, m: MathLib)
    requires n.ActiveLearningNode? && ObservedClassDistributionIsPure(n)
    ensures SplitDecision(n, p, m) == KeepLeaf
  {
  }

  /**
   * Every suggestion carries a test, so `split` never takes its
   * deactivation branch: a mixed leaf is either kept or replaced, and it is
   * replaced exactly when the Hoeffding test passes.
   */
  lemma SplitNeverDeactivates(n: Node, p: Params, m: MathLib)
    requires n.ActiveLearningNode? && !ObservedClassDistributionIsPure(n)
    ensures SplitDecision(n, p, m) != DeactivateLeaf
    ensures SplitDecision(n, p, m).InstallSplit? <==> ShouldSplit(SortedSuggestions(n, m), n, p, m)
  {
    var sorted := SortedSuggestions(n, m);
    if |sorted| > 0 {
      assert sorted[|sorted| - 1].splitTest.Some?;
    }
  }

  /** With no suggestion a mixed leaf is kept; with exactly one it is split on that one, whatever the bound. */
  lemma FewSuggestions(n: Node, p: Params, m: MathLib)
    requires n.ActiveLearningNode? && !ObservedClassDistributionIsPure(n)
    ensures var raw := RawSuggestions(n, m);
            && (|raw| == 0 ==> SplitDecision(n, p, m) == KeepLeaf)
            && (|raw| == 1 ==> SplitDecision(n, p, m) == InstallSplit(NewSplitFrom(raw[0], n.observedClassDistribution)))
  {
    var raw := RawSuggestions(n, m);
    var sorted := SortedSuggestions(n, m);
    assert |sorted| == |raw| by {
      assert |multiset(sorted)| == |multiset(raw)|;
    }
    if |raw| == 1 {
      assert sorted[0] in multiset(raw);
      assert sorted[0] == raw[0];
    }
  }

  /** The split installed is on the input's last suggestion of greatest merit. */
  lemma SplitOnLastBest(n: Node, p: Params, m: MathLib)
    requires n.ActiveLearningNode? && SplitDecision(n, p, m).InstallSplit?
    ensures var raw := RawSuggestions(n, m);
            exists k :: IsLastBest(raw, k) && SplitDecision(n, p, m) == InstallSplit(NewSplitFrom(raw[k], n.observedClassDistribution))
  {
    var raw := RawSuggestions(n, m);
    SortLastIsLastBest(raw);
  }

  /** Installing a split's decision node in place of a reachable active leaf keeps the counters exact. */
  lemma InstallKeepsValid(s: TreeState, at: Path, d: Suggestion, dist: seq<real>)
    requires Valid(s) && s.treeRoot.Some? && NodeAt(s.treeRoot.value, at).Some?
    requires NodeAt(s.treeRoot.value, at).value.ActiveLearningNode?
    requires d.splitTest.Some? && NumSplits(d) == MAX_BRANCHES
    ensures CanPlace(s.treeRoot, at)
    ensures var newSplit := NewSplitFrom(d, dist);
            Valid(s.(treeRoot := Some(Placed(s.treeRoot, at, newSplit)),
                     activeLeafNodeCount := s.activeLeafNodeCount - 1 + NumChildren(newSplit),
                     decisionNodeCount := s.decisionNodeCount + 1))
  {
    OccupiedWritable(s.treeRoot.value, at);
    var newSplit := NewSplitFrom(d, dist);
    NewSplitShape(d, dist);
    PlacedTally(s.treeRoot, at, newSplit);
    PlacedShaped(s.treeRoot, at, newSplit);
  }

  /** A split attempt on a reachable active leaf keeps the counters exact. */
  lemma SplitAttemptKeepsValid(s: TreeState, at: Path, n: Node, p: Params, m: MathLib)
    requires Valid(s) && s.treeRoot.Some? && NodeAt(s.treeRoot.value, at) == Some(n) && n.ActiveLearningNode?
    ensures CanPlace(s.treeRoot, at)
    ensures Valid(SplitAttempted(s, at, n, p, m))
  {
    OccupiedWritable(s.treeRoot.value, at);
    var decision := SplitDecision(n, p, m);
    if ObservedClassDistributionIsPure(n) {
      PureLeafKept(n, p, m);
    } else {
      SplitNeverDeactivates(n, p, m);
    }
    if decision.InstallSplit? {
      var best := InstalledSuggestion(n, p, m);
      OutcomeKeepsValid(s, at, n, decision, best);
    }
  }

  /** Keeping the leaf, or installing the split of a two-way suggestion, keeps the counters exact. */
  lemma OutcomeKeepsValid(s: TreeState, at: Path, n: Node, outcome: SplitOutcome, d: Suggestion)
    requires Valid(s) && s.treeRoot.Some? && NodeAt(s.treeRoot.value, at) == Some(n) && n.ActiveLearningNode?
    requires d.splitTest.Some? && NumSplits(d) == MAX_BRANCHES
    requires outcome.KeepLeaf? || outcome == InstallSplit(NewSplitFrom(d, n.observedClassDistribution))
    ensures CanPlace(s.treeRoot, at)
    ensures Valid(OutcomeApplied(s, at, n, outcome))
  {
    OccupiedWritable(s.treeRoot.value, at);
    if outcome.InstallSplit? {
      InstallKeepsValid(s, at, d, n.observedClassDistribution);
    }
  }

  // ---------------------------------------------------------------------
  // Training
  // ---------------------------------------------------------------------

  /** What training on an instance demands: a classLabel that is an index, and every test on the route readable. */
  predicate Trainable(s: TreeState, features: seq<Double>, classLabel: int, weight: real)
  {
    weight > 0.0 && classLabel != MISSING_LABEL ==>
      classLabel >= 0 && (s.treeRoot.Some? ==> Routable(s.treeRoot.value, features))
  }

  /** The leaf at `at` learns; past its grace period an active leaf then gets a split attempt. */
  function Learned(s: TreeState, at: Path, leaf: Node, features: seq<Double>, classLabel: nat, weight: real, p: Params, m: MathLib): TreeState
    requires s.treeRoot.Some? && Writable(s.treeRoot.value, at) && IsLearningNode(leaf) && weight > 0.0
  {
    var learned := LearnedFromInstance(leaf, features, classLabel, weight);
    var root := ReplaceAt(s.treeRoot.value, at, learned);
    ReplaceKeepsWritable(s.treeRoot.value, at, learned);
    GraceChecked(s.(treeRoot := Some(root)), at, learned, p, m)
  }

  /** After learning: past the grace period an active leaf at `at` gets a split attempt. */
  function GraceChecked(s: TreeState, at: Path, learned: Node, p: Params, m: MathLib): TreeState
    requires s.treeRoot.Some? && Writable(s.treeRoot.value, at)
  {
    if s.growthAllowed && learned.ActiveLearningNode?
       && WeightSeen(learned) - learned.weightSeenAtLastSplitEvaluation >= p.gracePeriod as real
    then
      match SplitDecision(learned, p, m)
      case KeepLeaf =>
        // the leaf stayed in the tree, so recording the weight seen shows
        s.(treeRoot := Some(ReplaceAt(s.treeRoot.value, at, learned.(weightSeenAtLastSplitEvaluation := WeightSeen(learned)))))
      case _ => SplitAttempted(s, at, learned, p, m)
    else s
  }

  /** `trainOnInstance`. */
  function TrainedOn(s: TreeState, features: seq<Double>, classLabel: int, weight: real, p: Params, m: MathLib): TreeState
    requires Trainable(s, features, classLabel, weight)
  {
    if !(weight > 0.0) || classLabel == MISSING_LABEL then s
    else
      var s1 := if s.treeRoot.None? then s.(treeRoot := Some(NewActiveLearningNode([])), activeLeafNodeCount := 1) else s;
      var r := RoutedToLeaf(s1, features);
      if IsLearningNode(r.leaf) then Learned(r.state, r.at, r.leaf, features, classLabel, weight, p, m)
      else r.state
  }

  /** Where `trainOnInstance` delivers an instance: the state with the slot filled, the slot, and the node in it. */
  datatype Delivery = Delivery(state: TreeState, at: Path, leaf: Node)

  /**
   * The routing part of `trainOnInstance`: the instance is filtered to a
   * slot, and an empty slot receives a fresh active leaf, counted as one.
   */
  function RoutedToLeaf(s: TreeState, features: seq<Double>): (r: Delivery)
    requires s.treeRoot.Some? && Routable(s.treeRoot.value, features)
    ensures r.state.treeRoot.Some? && Writable(r.state.treeRoot.value, r.at)
    ensures NodeAt(r.state.treeRoot.value, r.at) == Some(r.leaf)
  {
    var root1 := s.treeRoot.value;
    FilterLocates(root1, root1, features, None, -1, []);
    var foundNode := FilterInstanceToLeaf(root1, features, None, -1, []);
    var leafNode := if foundNode.node.None? then NewActiveLearningNode([]) else foundNode.node.value;
    var root2 := if foundNode.node.None? then ReplaceAt(root1, foundNode.at, leafNode) else root1;
    ReplaceKeepsWritable(root1, foundNode.at, leafNode);
    Delivery(s.(treeRoot := Some(root2),
                activeLeafNodeCount := if foundNode.node.None? then s.activeLeafNodeCount + 1 else s.activeLeafNodeCount),
             foundNode.at, leafNode)
  }

  /** Filling an empty slot with a fresh active leaf, and counting it, keeps the counters exact. */
  lemma RoutingKeepsValid(s: TreeState, features: seq<Double>)
    requires Valid(s) && s.treeRoot.Some? && Routable(s.treeRoot.value, features)
    ensures Valid(RoutedToLeaf(s, features).state)
  {
    var root1 := s.treeRoot.value;
    FilterLocates(root1, root1, features, None, -1, []);
    var foundNode := FilterInstanceToLeaf(root1, features, None, -1, []);
    if foundNode.node.None? {
      FillSlotKeepsValid(s, foundNode.at);
    }
  }

  /** Putting a fresh active leaf into an empty writable slot and counting it keeps the counters exact. */
  lemma FillSlotKeepsValid(s: TreeState, at: Path)
    requires Valid(s) && s.treeRoot.Some? && Writable(s.treeRoot.value, at) && NodeAt(s.treeRoot.value, at).None?
    ensures Valid(s.(treeRoot := Some(ReplaceAt(s.treeRoot.value, at, NewActiveLearningNode([]))),
                     activeLeafNodeCount := s.activeLeafNodeCount + 1))
  {
    var leafNode := NewActiveLearningNode([]);
    ReplaceTally(s.treeRoot.value, at, leafNode);
    ReplaceShaped(s.treeRoot.value, at, leafNode);
  }

  /** Learning at a reachable leaf, and the split attempt after it, keep the counters exact. */
  lemma LearnedKeepsValid(s: TreeState, at: Path, leaf: Node, features: seq<Double>, classLabel: nat, weight: real, p: Params, m: MathLib)
    requires Valid(s) && s.treeRoot.Some? && NodeAt(s.treeRoot.value, at) == Some(leaf) && IsLearningNode(leaf) && weight > 0.0
    ensures Writable(s.treeRoot.value, at)
    ensures Valid(Learned(s, at, leaf, features, classLabel, weight, p, m))
  {
    OccupiedWritable(s.treeRoot.value, at);
    var learned := LearnedFromInstance(leaf, features, classLabel, weight);
    LearningAddsWeight(leaf, features, classLabel, weight);
    var learnedState := s.(treeRoot := Some(ReplaceAt(s.treeRoot.value, at, learned)));
    SameKindKeepsValid(s, at, learned);
    GraceCheckedKeepsValid(learnedState, at, learned, p, m);
  }

  /** Putting a leaf of the same kind into an occupied leaf slot keeps the counters exact, and the leaf is then in the slot. */
  lemma SameKindKeepsValid(s: TreeState, at: Path, n: Node)
    requires Valid(s) && s.treeRoot.Some? && NodeAt(s.treeRoot.value, at).Some? && IsLearningNode(n)
    requires var before := NodeAt(s.treeRoot.value, at).value;
             n.ActiveLearningNode? == before.ActiveLearningNode? && n.InactiveLearningNode? == before.InactiveLearningNode?
    ensures Writable(s.treeRoot.value, at)
    ensures var r := ReplaceAt(s.treeRoot.value, at, n);
            Valid(s.(treeRoot := Some(r))) && NodeAt(r, at) == Some(n) && Writable(r, at)
  {
    var root := s.treeRoot.value;
    OccupiedWritable(root, at);
    var before := NodeAt(root, at);
    assert TallySlot(before) == Tally(n);
    ReplaceTally(root, at, n);
    CountsRestore(Tally(root), Tally(n));
    ReplaceShaped(root, at, n);
    ReplaceKeepsWritable(root, at, n);
  }

  /** The grace-period check after learning keeps the counters exact. */
  lemma GraceCheckedKeepsValid(s: TreeState, at: Path, learned: Node, p: Params, m: MathLib)
    requires Valid(s) && s.treeRoot.Some? && NodeAt(s.treeRoot.value, at) == Some(learned) && IsLearningNode(learned)
    requires Writable(s.treeRoot.value, at)
    ensures Valid(GraceChecked(s, at, learned, p, m))
  {
    if s.growthAllowed && learned.ActiveLearningNode?
       && WeightSeen(learned) - learned.weightSeenAtLastSplitEvaluation >= p.gracePeriod as real
    {
      if SplitDecision(learned, p, m).KeepLeaf? {
        SameKindKeepsValid(s, at, learned.(weightSeenAtLastSplitEvaluation := WeightSeen(learned)));
      } else {
        SplitAttemptKeepsValid(s, at, learned, p, m);
      }
    }
  }

  /** Training keeps the counters equal to the reachable node kinds. */
  lemma TrainKeepsValid(s: TreeState, features: seq<Double>, classLabel: int, weight: real, p: Params, m: MathLib)
    requires Valid(s) && Trainable(s, features, classLabel, weight)
    ensures Valid(TrainedOn(s, features, classLabel, weight, p, m))
  {
    if weight > 0.0 && classLabel != MISSING_LABEL {
      var s1 := if s.treeRoot.None? then s.(treeRoot := Some(NewActiveLearningNode([])), activeLeafNodeCount := 1) else s;
      assert Valid(s1);
      RoutingKeepsValid(s1, features);
      var r := RoutedToLeaf(s1, features);
      if IsLearningNode(r.leaf) {
        LearnedKeepsValid(r.state, r.at, r.leaf, features, classLabel, weight, p, m);
      }
    }
  }

  /**
   * Without `growthAllowed` (the state of a freshly constructed tree)
   * training never splits: no decision node and no inactive leaf appears,
   * and growth stays disallowed.
   */
  lemma NoGrowthNoSplit(s: TreeState, features: seq<Double>, classLabel: int, weight: real, p: Params, m: MathLib)
    requires !s.growthAllowed && Trainable(s, features, classLabel, weight)
    ensures var r := TrainedOn(s, features, classLabel, weight, p, m);
            && !r.growthAllowed
            && r.decisionNodeCount == s.decisionNodeCount
            && r.inactiveLeafNodeCount == s.inactiveLeafNodeCount
  {
  }

  /** An instance without positive weight, or with the missing classLabel, changes nothing. */
  lemma UntrainableIgnored(s: TreeState, features: seq<Double>, classLabel: int, weight: real, p: Params, m: MathLib)
    requires !(weight > 0.0) || classLabel == MISSING_LABEL
    ensures Trainable(s, features, classLabel, weight)
    ensures TrainedOn(s, features, classLabel, weight, p, m) == s
  {
  }

  /** An instance whose route ends at a decision node (the value its test reads is missing) is not learned from. */
  lemma StopsAtDecisionNode(s: TreeState, features: seq<Double>, classLabel: int, weight: real, p: Params, m: MathLib)
    requires weight > 0.0 && classLabel >= 0 && s.treeRoot.Some? && Routable(s.treeRoot.value, features)
    requires FilterInstanceToLeaf(s.treeRoot.value, features, None, -1, []).node.Some?
    requires FilterInstanceToLeaf(s.treeRoot.value, features, None, -1, []).node.value.SplitNode?
    ensures Trainable(s, features, classLabel, weight)
    ensures TrainedOn(s, features, classLabel, weight, p, m) == s
  {
  }

  /** A fresh leaf that has learned one instance has seen a single class: it is pure and has seen exactly that weight. */
  lemma FreshLeafPure(features: seq<Double>, classLabel: nat, weight: real)
    requires weight > 0.0
    ensures var r := LearnedFromInstance(NewActiveLearningNode([]), features, classLabel, weight);
            r.ActiveLearningNode? && ObservedClassDistributionIsPure(r) && WeightSeen(r) == weight
  {
    var n := NewActiveLearningNode([]);
    LearningAddsWeight(n, features, classLabel, weight);
    var d := LearnedFromInstance(n, features, classLabel, weight).observedClassDistribution;
    forall i, j | 0 <= i < j < |d| ensures d[i] == 0.0 || d[j] == 0.0 {
      assert Get(d, i, 0.0) == d[i] && Get(d, j, 0.0) == d[j];
      assert Get(n.observedClassDistribution, i, 0.0) == 0.0;
    }
    PureIffAtMostOneClass(LearnedFromInstance(n, features, classLabel, weight));
  }

  /**
   * A fresh leaf learning its first instance is never split, even past its
   * grace period: the counters stay as they are and the slot holds an
   * active leaf that has seen the instance's weight.
   */
  lemma FreshLeafLearns(s: TreeState, at: Path, features: seq<Double>, classLabel: nat, weight: real, p: Params, m: MathLib)
    requires s.treeRoot.Some? && Writable(s.treeRoot.value, at) && weight > 0.0
    ensures var r := Learned(s, at, NewActiveLearningNode([]), features, classLabel, weight, p, m);
            && CountsOf(r) == CountsOf(s) && r.growthAllowed == s.growthAllowed
            && r.treeRoot.Some? && NodeAt(r.treeRoot.value, at).Some?
            && NodeAt(r.treeRoot.value, at).value.ActiveLearningNode?
            && WeightSeen(NodeAt(r.treeRoot.value, at).value) == weight
  {
    var learned := LearnedFromInstance(NewActiveLearningNode([]), features, classLabel, weight);
    FreshLeafPure(features, classLabel, weight);
    PureLeafKept(learned, p, m);
    ReplaceKeepsWritable(s.treeRoot.value, at, learned);
  }

  /** The first trainable instance makes the root an active leaf that has seen it, with exactly one active leaf counted. */
  lemma FirstInstance(s: TreeState, features: seq<Double>, classLabel: int, weight: real, p: Params, m: MathLib)
    requires s.treeRoot.None? && weight > 0.0 && classLabel >= 0
    ensures Trainable(s, features, classLabel, weight)
    ensures var r := TrainedOn(s, features, classLabel, weight, p, m);
            && r.treeRoot.Some? && r.treeRoot.value.ActiveLearningNode? && WeightSeen(r.treeRoot.value) == weight
            && r.activeLeafNodeCount == 1
            && r.decisionNodeCount == s.decisionNodeCount && r.inactiveLeafNodeCount == s.inactiveLeafNodeCount
  {
    var leaf := NewActiveLearningNode([]);
    var s2 := s.(treeRoot := Some(leaf), activeLeafNodeCount := 1);
    assert Writable(leaf, []);
    FreshLeafLearns(s2, [], features, classLabel, weight, p, m);
  }

  /**
   * An instance routed to an empty child slot puts a fresh active leaf
   * there, which learns it: the active count grows by exactly one and the
   * other counters stay.
   */
  lemma EmptySlotGetsLeaf(s: TreeState, features: seq<Double>, classLabel: int, weight: real, p: Params, m: MathLib)
    requires weight > 0.0 && classLabel >= 0 && s.treeRoot.Some? && Routable(s.treeRoot.value, features)
    requires FilterInstanceToLeaf(s.treeRoot.value, features, None, -1, []).node.None?
    ensures Trainable(s, features, classLabel, weight)
    ensures var at := FilterInstanceToLeaf(s.treeRoot.value, features, None, -1, []).at;
            var r := TrainedOn(s, features, classLabel, weight, p, m);
            && r.activeLeafNodeCount == s.activeLeafNodeCount + 1
            && r.decisionNodeCount == s.decisionNodeCount && r.inactiveLeafNodeCount == s.inactiveLeafNodeCount
            && r.treeRoot.Some? && NodeAt(r.treeRoot.value, at).Some?
            && NodeAt(r.treeRoot.value, at).value.ActiveLearningNode?
            && WeightSeen(NodeAt(r.treeRoot.value, at).value) == weight
  {
    var at := FilterInstanceToLeaf(s.treeRoot.value, features, None, -1, []).at;
    EmptySlotFilled(s, features);
    FreshLeafLearns(RoutedToLeaf(s, features).state, at, features, classLabel, weight, p, m);
  }

  /** An empty slot on the route receives a fresh active leaf, counted as one more active leaf, and nothing else changes. */
  lemma EmptySlotFilled(s: TreeState, features: seq<Double>)
    requires s.treeRoot.Some? && Routable(s.treeRoot.value, features)
    requires FilterInstanceToLeaf(s.treeRoot.value, features, None, -1, []).node.None?
    ensures var at := FilterInstanceToLeaf(s.treeRoot.value, features, None, -1, []).at;
            var r := RoutedToLeaf(s, features);
            && r.at == at && r.leaf == NewActiveLearningNode([])
            && r.state == s.(treeRoot := r.state.treeRoot, activeLeafNodeCount := s.activeLeafNodeCount + 1)
  {
  }

  /** An example of a stream: features, classLabel and weight. */
  datatype Example = Example(features: seq<Double>, classLabel: int, weight: real)

  /** A tree that is empty or a single leaf. */
  predicate AtMostLeaf(s: TreeState)
  {
    s.treeRoot.Some? ==> IsLearningNode(s.treeRoot.value)
  }

  /** Training of a tree without growth on a stream whose labels are -1 or class indices. */
  function TrainedOnStream(s: TreeState, stream: seq<Example>, p: Params, m: MathLib): (r: TreeState)
    requires !s.growthAllowed && AtMostLeaf(s)
    requires forall j :: 0 <= j < |stream| ==> stream[j].classLabel >= MISSING_LABEL
    ensures !r.growthAllowed && AtMostLeaf(r)
    decreases |stream|
  {
    if |stream| == 0 then s
    else
      var x := stream[0];
      StaysLeaf(s, x.features, x.classLabel, x.weight, p, m);
      TrainedOnStream(TrainedOn(s, x.features, x.classLabel, x.weight, p, m), stream[1..], p, m)
  }

  /** Without growth a single-leaf tree stays a single leaf. */
  lemma StaysLeaf(s: TreeState, features: seq<Double>, classLabel: int, weight: real, p: Params, m: MathLib)
    requires !s.growthAllowed && AtMostLeaf(s) && classLabel >= MISSING_LABEL
    ensures Trainable(s, features, classLabel, weight)
    ensures var r := TrainedOn(s, features, classLabel, weight, p, m);
            !r.growthAllowed && AtMostLeaf(r)
  {
    if weight > 0.0 && classLabel != MISSING_LABEL {
      var s1 := if s.treeRoot.None? then s.(treeRoot := Some(NewActiveLearningNode([])), activeLeafNodeCount := 1) else s;
      var f := FilterInstanceToLeaf(s1.treeRoot.value, features, None, -1, []);
      assert f.node == s1.treeRoot;
      var learned := LearnedFromInstance(f.node.value, features, classLabel, weight);
      LearningAddsWeight(f.node.value, features, classLabel, weight);
      assert ReplaceAt(s1.treeRoot.value, [], learned) == learned;
    }
  }

  /**
   * A freshly constructed tree (growth not allowed, no root, zero counters)
   * never splits, whatever it is trained on: it keeps zero decision nodes
   * and at most one leaf.
   */
  lemma {:induction false} FreshTreeNeverSplits(stream: seq<Example>, p: Params, m: MathLib)
    requires forall j :: 0 <= j < |stream| ==> stream[j].classLabel >= MISSING_LABEL
    ensures var r := TrainedOnStream(TreeState(None, 0, 0, 0, false), stream, p, m);
            r.decisionNodeCount == 0 && AtMostLeaf(r) && Valid(r)
  {
    StreamKeepsCounts(TreeState(None, 0, 0, 0, false), stream, p, m);
  }

  lemma {:induction false} StreamKeepsCounts(s: TreeState, stream: seq<Example>, p: Params, m: MathLib)
    requires !s.growthAllowed && AtMostLeaf(s) && Valid(s)
    requires forall j :: 0 <= j < |stream| ==> stream[j].classLabel >= MISSING_LABEL
    ensures var r := TrainedOnStream(s, stream, p, m);
            r.decisionNodeCount == s.decisionNodeCount && Valid(r)
    decreases |stream|
  {
    if |stream| > 0 {
      var x := stream[0];
      StaysLeaf(s, x.features, x.classLabel, x.weight, p, m);
      NoGrowthNoSplit(s, x.features, x.classLabel, x.weight, p, m);
      TrainKeepsValid(s, x.features, x.classLabel, x.weight, p, m);
      StreamKeepsCounts(TrainedOn(s, x.features, x.classLabel, x.weight, p, m), stream[1..], p, m);
    }
  }

  /** The entries from `i` on are still in their slots. */
  predicate Located(s: TreeState, found: seq<FoundNode>, i: nat)
  {
    forall j :: i <= j < |found| ==>
      s.treeRoot.Some? && found[j].node.Some? && NodeAt(s.treeRoot.value, found[j].at) == found[j].node
  }

  /** The state after one step of `deactivateAllLeaves`: entry `i` deactivated when it is an active leaf. */
  function AfterStep(s: TreeState, found: seq<FoundNode>, i: nat): TreeState
    requires i < |found| && Located(s, found, i) && Valid(s)
  {
    var e := found[i];
    if e.node.value.ActiveLearningNode? then
      OccupiedWritable(s.treeRoot.value, e.at);
      Deactivated(s, e.at, e.node.value)
    else s
  }

  /** One step of `deactivateAllLeaves` leaves the tree's image under `AllDeactivated` as it was. */
  lemma StepKeepsImage(s: TreeState, found: seq<FoundNode>, i: nat)
    requires i < |found| && Located(s, found, i) && Valid(s)
    ensures AfterStep(s, found, i).treeRoot.Some?
    ensures AllDeactivated(AfterStep(s, found, i).treeRoot.value) == AllDeactivated(s.treeRoot.value)
  {
    var e := found[i];
    if e.node.value.ActiveLearningNode? {
      OccupiedWritable(s.treeRoot.value, e.at);
      var m := InactiveLearningNode(GetObservedClassDistribution(e.node.value));
      assert Placed(s.treeRoot, e.at, m) == ReplaceAt(s.treeRoot.value, e.at, m);
      DeactivateOneLeaf(s.treeRoot.value, e.at, m);
    }
  }

  /**
   * The loop invariant of `deactivateAllLeaves` after `i` entries, `s0`
   * being the state it started from: counters exact, the remaining entries
   * still in their slots and counting the active leaves left, and only
   * active leaves turned inactive.
   */
  predicate Progress(s: TreeState, s0: TreeState, found: seq<FoundNode>, i: nat)
  {
    && i <= |found| && Valid(s) && Separate(found) && Located(s, found, i)
    && s.activeLeafNodeCount == ActiveEntries(found[i..])
    && s.activeLeafNodeCount + s.inactiveLeafNodeCount == s0.activeLeafNodeCount + s0.inactiveLeafNodeCount
    && s.decisionNodeCount == s0.decisionNodeCount && s.growthAllowed == s0.growthAllowed
  }

  /** One step of `deactivateAllLeaves` keeps its invariant. */
  lemma DeactivationStep(s: TreeState, s0: TreeState, found: seq<FoundNode>, i: nat)
    requires Progress(s, s0, found, i) && i < |found|
    ensures Progress(AfterStep(s, found, i), s0, found, i + 1)
  {
    var e := found[i];
    assert found[i..][0] == e && found[i..][1..] == found[i + 1..];
    ActiveEntriesFirst(found[i..]);
    if e.node.value.ActiveLearningNode? {
      DeactivatedKeepsValid(s, e.at, e.node.value);
      var r := Deactivated(s, e.at, e.node.value);
      forall j | i + 1 <= j < |found|
        ensures r.treeRoot.Some? && found[j].node.Some? && NodeAt(r.treeRoot.value, found[j].at) == found[j].node
      {
        PlacedElsewhere(s.treeRoot, e.at, InactiveLearningNode(e.node.value.observedClassDistribution), found[j].at);
      }
    }
  }

  /** When the loop has seen every entry, every active leaf was moved to the inactive counter. */
  lemma DeactivationDone(s: TreeState, s0: TreeState, found: seq<FoundNode>)
    requires Progress(s, s0, found, |found|)
    ensures s.activeLeafNodeCount == 0
    ensures s.inactiveLeafNodeCount == s0.inactiveLeafNodeCount + s0.activeLeafNodeCount
    ensures s.treeRoot.Some? ==> forall p :: NodeAt(s.treeRoot.value, p).Some? ==> !NodeAt(s.treeRoot.value, p).value.ActiveLearningNode?
  {
    assert found[|found|..] == [];
    NoActiveLeft(s);
  }

  /** With exact counters at zero active leaves, no active leaf is reachable. */
  lemma NoActiveLeft(s: TreeState)
    requires Valid(s) && s.activeLeafNodeCount == 0
    ensures s.treeRoot.Some? ==> forall p :: NodeAt(s.treeRoot.value, p).Some? ==> !NodeAt(s.treeRoot.value, p).value.ActiveLearningNode?
  {
    if s.treeRoot.Some? {
      forall p | NodeAt(s.treeRoot.value, p).Some?
        ensures !NodeAt(s.treeRoot.value, p).value.ActiveLearningNode?
      {
        if NodeAt(s.treeRoot.value, p).value.ActiveLearningNode? {
          ReachableActiveCounted(s.treeRoot.value, p);
        }
      }
    }
  }

  // ---------------------------------------------------------------------
  // Prediction
  // ---------------------------------------------------------------------

  /** `predict`: no votes without a root; else the votes of the node reached, or of its parent for an empty slot. */
  function Prediction(s: TreeState, features: seq<Double>): seq<real>
    requires s.treeRoot.Some? ==> Routable(s.treeRoot.value, features)
  {
    match s.treeRoot
    case None => []
    case Some(root) =>
      var foundNode := FilterInstanceToLeaf(root, features, None, -1, []);
      var leafNode := if foundNode.node.None? then foundNode.parent.value else foundNode.node.value;
      GetClassVotes(leafNode, features)
  }

  /**
   * The votes come from a node of the tree on the instance's route: the one
   * at the slot routing answers, or at the slot just above an empty one.
   */
  lemma PredictionFromRoute(s: TreeState, features: seq<Double>)
    requires s.treeRoot.Some? && Routable(s.treeRoot.value, features)
    ensures var f := FilterInstanceToLeaf(s.treeRoot.value, features, None, -1, []);
            var q := if f.node.None? then f.at[..|f.at| - 1] else f.at;
            && NodeAt(s.treeRoot.value, q).Some?
            && Prediction(s, features) == NodeAt(s.treeRoot.value, q).value.observedClassDistribution
  {
    var root := s.treeRoot.value;
    FilterLocates(root, root, features, None, -1, []);
  }

  /** `c` is `maxIndex` of `v`: the first index of a largest value, 0 when there is none. */
  predicate FirstLargest(v: seq<real>, c: int)
  {
    && (|v| == 0 ==> c == 0)
    && (|v| > 0 ==> 0 <= c < |v|)
    && (forall j :: 0 <= j < |v| ==> v[j] <= v[c])
    && (forall j :: 0 <= j < c ==> v[j] < v[c])
  }

  /** Only one index is the first largest. */
  lemma FirstLargestUnique(v: seq<real>, c: int, d: int)
    requires FirstLargest(v, c) && FirstLargest(v, d)
    ensures c == d
  {
    if |v| > 0 {
      assert v[c] <= v[d] && v[d] <= v[c];
      assert !(c < d) && !(d < c);
    }
  }

  // ---------------------------------------------------------------------
  // The tree object
  // ---------------------------------------------------------------------

  class GHVFDT {
    /** Instances a leaf observes between split attempts. */
    var gracePeriod: int
    /** The allowed error of a split decision (delta of the Hoeffding bound). */
    var splitConfidence: real
    /** Bound below which a split is forced to break ties. */
    var tieThreshold: real
    /** Only binary splits; stored, never consulted. */
    var binarySplits: bool
    var treeRoot: Option<Node>
    var decisionNodeCount: int
    var activeLeafNodeCount: int
    var inactiveLeafNodeCount: int
    var growthAllowed: bool

    function State(): TreeState
      reads this
    {
      TreeState(treeRoot, decisionNodeCount, activeLeafNodeCount, inactiveLeafNodeCount, growthAllowed)
    }

    function Settings(): Params
      reads this
    {
      Params(gracePeriod, splitConfidence, tieThreshold)
    }

    /** `new GHVFDT()`: the field defaults; no root, zero counters and growth not yet allowed. */
    constructor ()
      ensures State() == TreeState(None, 0, 0, 0, false) && Valid(State())
      ensures Settings() == Params(200, 0.0000001, 0.05) && binarySplits
    {
      gracePeriod := 200;
      splitConfidence := 0.0000001;
      tieThreshold := 0.05;
      binarySplits := true;
      treeRoot := None;
      decisionNodeCount := 0;
      activeLeafNodeCount := 0;
      inactiveLeafNodeCount := 0;
      growthAllowed := false;
    }

    /** `setGracePeriod` */
    method SetGracePeriod(gracePeriod: int)
      modifies this
      ensures this.gracePeriod == gracePeriod
      ensures State() == old(State()) && splitConfidence == old(splitConfidence) && tieThreshold == old(tieThreshold)
      ensures binarySplits == old(binarySplits)
    {
      this.gracePeriod := gracePeriod;
    }

    /** `setSplitConfidence` */
    method SetSplitConfidence(splitConfidence: real)
      modifies this
      ensures this.splitConfidence == splitConfidence
      ensures State() == old(State()) && gracePeriod == old(gracePeriod) && tieThreshold == old(tieThreshold)
      ensures binarySplits == old(binarySplits)
    {
      this.splitConfidence := splitConfidence;
    }

    /** `setTieThreshold` */
    method SetTieThreshold(tieThreshold: real)
      modifies this
      ensures this.tieThreshold == tieThreshold
      ensures State() == old(State()) && gracePeriod == old(gracePeriod) && splitConfidence == old(splitConfidence)
      ensures binarySplits == old(binarySplits)
    {
      this.tieThreshold := tieThreshold;
    }

    /** `setBinarySplits` */
    method SetBinarySplits(binarySplits: bool)
      modifies this
      ensures this.binarySplits == binarySplits
      ensures State() == old(State()) && Settings() == old(Settings())
    {
      this.binarySplits := binarySplits;
    }

    /** `resetLearning`: an empty tree with zero counters that is allowed to grow. */
    method ResetLearning()
      modifies this
      ensures State() == TreeState(None, 0, 0, 0, true) && Valid(State())
      ensures Settings() == old(Settings()) && binarySplits == old(binarySplits)
    {
      treeRoot := None;
      decisionNodeCount := 0;
      activeLeafNodeCount := 0;
      inactiveLeafNodeCount := 0;
      growthAllowed := true;
    }

    /** `deactivateLearningNode(toDeactivate, parent, parentBranch)`, the parent and branch given as the slot `at`. */
    method DeactivateLearningNode(toDeactivate: Node, at: Path)
      requires toDeactivate.ActiveLearningNode? && CanPlace(treeRoot, at)
      modifies this
      ensures State() == Deactivated(old(State()), at, toDeactivate)
      ensures Settings() == old(Settings()) && binarySplits == old(binarySplits)
    {
      var newLeaf := InactiveLearningNode(GetObservedClassDistribution(toDeactivate));
      if |at| == 0 {
        treeRoot := Some(newLeaf);
      } else {
        treeRoot := Some(ReplaceAt(treeRoot.value, at, newLeaf));
      }
      activeLeafNodeCount := activeLeafNodeCount - 1;
      inactiveLeafNodeCount := inactiveLeafNodeCount + 1;
    }

    /** `activateLearningNode(toActivate, parent, parentBranch)`, the parent and branch given as the slot `at`. */
    method ActivateLearningNode(toActivate: Node, at: Path)
      requires toActivate.InactiveLearningNode? && CanPlace(treeRoot, at)
      modifies this
      ensures State() == Activated(old(State()), at, toActivate)
      ensures Settings() == old(Settings()) && binarySplits == old(binarySplits)
    {
      var newLeaf := NewActiveLearningNode(GetObservedClassDistribution(toActivate));
      if |at| == 0 {
        treeRoot := Some(newLeaf);
      } else {
        treeRoot := Some(ReplaceAt(treeRoot.value, at, newLeaf));
      }
      activeLeafNodeCount := activeLeafNodeCount + 1;
      inactiveLeafNodeCount := inactiveLeafNodeCount - 1;
    }

    /** `split(node, parent, parentIndex)`, the parent and index given as the slot `at` of the node. */
    method Split(node: Node, at: Path, m: MathLib)
      requires node.ActiveLearningNode? && CanPlace(treeRoot, at)
      modifies this
      ensures State() == SplitAttempted(old(State()), at, node, old(Settings()), m)
      ensures Settings() == old(Settings()) && binarySplits == old(binarySplits)
    {
      var splitDecision := ChooseSplit(node, m);
      if splitDecision.Some? {
        InstallSplitNode(node, at, splitDecision.value);
      }
    }

    /**
     * The test of `split`: nothing for a pure leaf or when the Hoeffding test
     * fails, otherwise the last suggestion after sorting, which always
     * carries a test.
     */
    method ChooseSplit(node: Node, m: MathLib) returns (splitDecision: Option<Suggestion>)
      requires node.ActiveLearningNode?
      ensures splitDecision.Some? ==> splitDecision.value.splitTest.Some? && NumSplits(splitDecision.value) == MAX_BRANCHES
      ensures SplitDecision(node, Settings(), m) ==
                if splitDecision.None? then KeepLeaf
                else InstallSplit(NewSplitFrom(splitDecision.value, node.observedClassDistribution))
    {
      if ObservedClassDistributionIsPure(node) {
        return None;
      }
      var bestSplitSuggestions := GetBestSplitSuggestions(node, m);
      bestSplitSuggestions := SortByMerit(bestSplitSuggestions);
      assert bestSplitSuggestions == SortedSuggestions(node, m);
      DecisionFromSorted(node, Settings(), m);
      var shouldSplit := ShouldSplit(bestSplitSuggestions, node, Settings(), m);
      if !shouldSplit {
        return None;
      }
      var best := bestSplitSuggestions[|bestSplitSuggestions| - 1];
      if best.splitTest.None? {
        // every suggestion carries a test (`SplitNeverDeactivates`), so the deactivation here is dead code
        assert false;
      }
      return Some(best);
    }

    /** The end of `split` that replaces the leaf by a new decision node with a fresh leaf per branch. */
    method InstallSplitNode(node: Node, at: Path, splitDecision: Suggestion)
      requires node.ActiveLearningNode? && CanPlace(treeRoot, at)
      requires splitDecision.splitTest.Some? && NumSplits(splitDecision) <= MAX_BRANCHES
      modifies this
      ensures var newSplit := NewSplitFrom(splitDecision, node.observedClassDistribution);
              State() == old(State()).(treeRoot := Some(Placed(old(treeRoot), at, newSplit)),
                                       activeLeafNodeCount := old(activeLeafNodeCount) - 1 + NumChildren(newSplit),
                                       decisionNodeCount := old(decisionNodeCount) + 1)
      ensures Settings() == old(Settings()) && binarySplits == old(binarySplits)
    {
      var newSplit := SeededSplitNode(splitDecision, GetObservedClassDistribution(node));
      activeLeafNodeCount := activeLeafNodeCount - 1;
      decisionNodeCount := decisionNodeCount + 1;
      activeLeafNodeCount := activeLeafNodeCount + NumSplits(splitDecision);
      if |at| == 0 {
        treeRoot := Some(newSplit);
      } else {
        treeRoot := Some(ReplaceAt(treeRoot.value, at, newSplit));
      }
    }

    /**
     * `trainOnInstance`.  The learning node is a value, so the method writes
     * it back into its slot after learning; the weight seen at the last
     * split evaluation is recorded on the node in the slot when the split
     * attempt left it there (otherwise Java records it on a node that is no
     * longer in the tree).
     */
    method TrainOnInstance(inst: Instance, m: MathLib)
      requires Trainable(State(), inst.features, inst.classLabel, inst.weight)
      modifies this
      ensures State() == TrainedOn(old(State()), inst.features, inst.classLabel, inst.weight, old(Settings()), m)
      ensures !(inst.weight > 0.0) || inst.classLabel == MISSING_LABEL ==> State() == old(State())
      ensures Settings() == old(Settings()) && binarySplits == old(binarySplits)
    {
      var isTraining := inst.Weight() > 0.0;
      if inst.ClassIsMissing() {
        isTraining := false;
      }
      if isTraining {
        if treeRoot.None? {
          treeRoot := Some(NewActiveLearningNode([]));
          activeLeafNodeCount := 1;
        }
        var features := inst.GetFeatures();
        var at, leafNode := RouteToLeaf(features);
        if IsLearningNode(leafNode) {
          LearnAt(leafNode, at, inst, m);
        }
      }
    }

    /** The routing part of `trainOnInstance`: filter to a slot, and fill an empty slot with a fresh active leaf. */
    method RouteToLeaf(features: seq<Double>) returns (at: Path, leafNode: Node)
      requires treeRoot.Some? && Routable(treeRoot.value, features)
      modifies this
      ensures Delivery(State(), at, leafNode) == RoutedToLeaf(old(State()), features)
      ensures Settings() == old(Settings()) && binarySplits == old(binarySplits)
    {
      FilterLocates(treeRoot.value, treeRoot.value, features, None, -1, []);
      var foundNode := FilterInstanceToLeaf(treeRoot.value, features, None, -1, []);
      at := foundNode.at;
      if foundNode.node.None? {
        leafNode := NewActiveLearningNode([]);
        ReplaceKeepsWritable(treeRoot.value, foundNode.at, leafNode);
        treeRoot := Some(ReplaceAt(treeRoot.value, foundNode.at, leafNode));
        activeLeafNodeCount := activeLeafNodeCount + 1;
      } else {
        leafNode := foundNode.node.value;
      }
    }

    /** The learning part of `trainOnInstance`: the leaf at `at` learns, then a split is attempted after the grace period. */
    method LearnAt(leafNode: Node, at: Path, inst: Instance, m: MathLib)
      requires treeRoot.Some? && Writable(treeRoot.value, at) && IsLearningNode(leafNode)
      requires inst.weight > 0.0 && inst.classLabel >= 0
      modifies this
      ensures State() == Learned(old(State()), at, leafNode, inst.features, inst.classLabel, inst.weight, old(Settings()), m)
      ensures Settings() == old(Settings()) && binarySplits == old(binarySplits)
    {
      var learningNode := LearnFromInstance(leafNode, inst);
      ReplaceKeepsWritable(treeRoot.value, at, learningNode);
      treeRoot := Some(ReplaceAt(treeRoot.value, at, learningNode));
      CheckGracePeriod(learningNode, at, m);
    }

    /** The end of `trainOnInstance`: with growth allowed, an active leaf past its grace period gets a split attempt. */
    method CheckGracePeriod(learningNode: Node, at: Path, m: MathLib)
      requires treeRoot.Some? && Writable(treeRoot.value, at)
      requires NodeAt(treeRoot.value, at) == Some(learningNode)
      modifies this
      ensures State() == GraceChecked(old(State()), at, learningNode, old(Settings()), m)
      ensures Settings() == old(Settings()) && binarySplits == old(binarySplits)
    {
      if growthAllowed && learningNode.ActiveLearningNode? {
        var weightSeen := WeightSeen(learningNode);
        if weightSeen - learningNode.weightSeenAtLastSplitEvaluation >= gracePeriod as real {
          Split(learningNode, at, m);
          if NodeAt(treeRoot.value, at) == Some(learningNode) {
            assert SplitDecision(learningNode, Settings(), m).KeepLeaf?;
            treeRoot := Some(ReplaceAt(treeRoot.value, at, learningNode.(weightSeenAtLastSplitEvaluation := weightSeen)));
          } else {
            assert !SplitDecision(learningNode, Settings(), m).KeepLeaf?;
          }
        }
      }
    }

    /** `predict`: does not change the tree. */
    method Predict(inst: Instance) returns (votes: seq<real>)
      requires treeRoot.Some? ==> Routable(treeRoot.value, inst.features)
      ensures votes == Prediction(State(), inst.features)
    {
      if treeRoot.Some? {
        var foundNode := FilterInstanceToLeaf(treeRoot.value, inst.GetFeatures(), None, -1, []);
        var leafNode: Node;
        if foundNode.node.None? {
          leafNode := foundNode.parent.value;
        } else {
          leafNode := foundNode.node.value;
        }
        return GetClassVotes(leafNode, inst.GetFeatures());
      }
      return [];
    }

    /** `classify`: the first class with the most votes. */
    method Classify(inst: Instance) returns (c: int)
      requires treeRoot.Some? ==> Routable(treeRoot.value, inst.features)
      ensures FirstLargest(Prediction(State(), inst.features), c)
    {
      var votes := Predict(inst);
      c := MaxIndex(votes);
    }

    /** `correctlyClassifies`: whether that class is the instance's classLabel (`(int) classValue()` is the classLabel). */
    method CorrectlyClassifies(inst: Instance) returns (correct: bool)
      requires treeRoot.Some? ==> Routable(treeRoot.value, inst.features)
      ensures correct <==> FirstLargest(Prediction(State(), inst.features), inst.classLabel)
    {
      var votes := Predict(inst);
      var c := MaxIndex(votes);
      correct := c == inst.GetClassLabel();
      if FirstLargest(votes, inst.classLabel) {
        FirstLargestUnique(votes, c, inst.classLabel);
      }
    }

    /** `findLearningNodes(node, parent, parentBranch, found)`: appends the learning nodes below `node` to `found`. */
    method CollectLearningNodes(node: Option<Node>, parent: Option<Node>, parentBranch: int, here: Path, found: seq<FoundNode>)
      returns (result: seq<FoundNode>)
      ensures result == found + FindLearningNodes(node, parent, parentBranch, here)
      decreases node, 1
    {
      result := found;
      if node.Some? {
        var n := node.value;
        if IsLearningNode(n) {
          result := result + [FoundNode(node, parent, parentBranch, here)];
          assert FindLearningNodes(node, parent, parentBranch, here) == [FoundNode(node, parent, parentBranch, here)] + [];
        } else if n.SplitNode? {
          result := CollectFromChildren(n, here, result);
          assert FindLearningNodes(node, parent, parentBranch, here) == [] + FindInChildren(n, here, |n.children|);
        }
      }
    }

    /** The loop of `findLearningNodes` over the children of decision node `n` at `here`. */
    method CollectFromChildren(n: Node, here: Path, found: seq<FoundNode>) returns (result: seq<FoundNode>)
      requires n.SplitNode?
      ensures result == found + FindInChildren(n, here, |n.children|)
      decreases Some(n), 0
    {
      result := found;
      var i := 0;
      while i < NumChildren(n)
        invariant 0 <= i <= |n.children|
        invariant result == found + FindInChildren(n, here, i)
      {
        ghost var before := result;
        ghost var below := FindLearningNodes(n.children[i], Some(n), i, here + [i]);
        result := CollectLearningNodes(GetChild(n, i), Some(n), i, here + [i], result);
        assert result == found + FindInChildren(n, here, i + 1) by {
          assert result == before + below;
          assert FindInChildren(n, here, i + 1) == FindInChildren(n, here, i) + below;
        }
        i := i + 1;
      }
    }

    /** `findLearningNodes()`: every learning node of the tree with its slot, in depth-first order. */
    method FindAllLearningNodes() returns (found: seq<FoundNode>)
      ensures found == if treeRoot.None? then [] else FindLearningNodes(treeRoot, None, -1, [])
      ensures treeRoot.Some? ==> LearningEntries(treeRoot.value, found) && Separate(found)
      ensures treeRoot.Some? ==> ActiveEntries(found) == Tally(treeRoot.value).active
    {
      found := CollectLearningNodes(treeRoot, None, -1, [], []);
      if treeRoot.Some? {
        FindFromRoot(treeRoot.value);
      }
    }

    /** `deactivateAllLeaves`: afterwards no active leaf is reachable. */
    method DeactivateAllLeaves()
      requires Valid(State())
      modifies this
      ensures Valid(State())
      ensures activeLeafNodeCount == 0
      ensures treeRoot.Some? ==> forall p :: NodeAt(treeRoot.value, p).Some? ==> !NodeAt(treeRoot.value, p).value.ActiveLearningNode?
      ensures treeRoot == if old(treeRoot).None? then None else Some(AllDeactivated(old(treeRoot).value))
      ensures inactiveLeafNodeCount == old(inactiveLeafNodeCount) + old(activeLeafNodeCount)
      ensures decisionNodeCount == old(decisionNodeCount) && growthAllowed == old(growthAllowed)
      ensures Settings() == old(Settings()) && binarySplits == old(binarySplits)
    {
      ghost var start := State();
      var learningNodes := FindAllLearningNodes();
      assert learningNodes[0..] == learningNodes;
      var i := 0;
      while i < |learningNodes|
        invariant Progress(State(), start, learningNodes, i)
        invariant Settings() == old(Settings()) && binarySplits == old(binarySplits)
        invariant treeRoot.None? <==> start.treeRoot.None?
        invariant treeRoot.Some? ==> AllDeactivated(treeRoot.value) == AllDeactivated(start.treeRoot.value)
      {
        DeactivationStep(State(), start, learningNodes, i);
        StepKeepsImage(State(), learningNodes, i);
        DeactivateEntry(learningNodes, i);
        i := i + 1;
      }
      DeactivationDone(State(), start, learningNodes);
      if treeRoot.Some? {
        NoActiveUnchanged(treeRoot.value);
      }
    }

    /** One pass of the loop of `deactivateAllLeaves`: the `i`th learning node found is deactivated if it is active. */
    method DeactivateEntry(learningNodes: seq<FoundNode>, i: nat)
      requires i < |learningNodes| && Located(State(), learningNodes, i) && Valid(State())
      modifies this
      ensures State() == AfterStep(old(State()), learningNodes, i)
      ensures Settings() == old(Settings()) && binarySplits == old(binarySplits)
    {
      var entry := learningNodes[i];
      if entry.node.value.ActiveLearningNode? {
        assert CanPlace(treeRoot, entry.at) by {
          OccupiedWritable(treeRoot.value, entry.at);
        }
        DeactivateLearningNode(entry.node.value, entry.at);
      }
    }
  }
}
