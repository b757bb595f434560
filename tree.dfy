/**
 * The tree as a whole: addressing a slot by its path from the root, writing
 * a node into a slot (what `setChild` on the parent, or assigning the root,
 * does), counting the reachable node kinds, and `findLearningNodes`.
 */
module Trees {
  import opened Wrappers
  import opened Doubles
  import opened Vectors
  import opened SplitTests
  import opened Nodes

  /** The node in the slot at path `p` below `n`; None for an empty or missing slot. */
  function NodeAt(n: Node, p: Path): Option<Node>
    decreases |p|
  {
    if |p| == 0 then Some(n)
    else if n.SplitNode? && 0 <= p[0] < |n.children| && n.children[p[0]].Some? then NodeAt(n.children[p[0]].value, p[1..])
    else None
  }

  /**
   * A node can be written at `p`: every slot on the way holds a decision
   * node, and the final branch is one `setChild` accepts.
   */
  predicate Writable(n: Node, p: Path)
    decreases |p|
  {
    |p| == 0 ||
    (n.SplitNode? &&
      if |p| == 1 then 0 <= p[0] < MAX_BRANCHES
      else 0 <= p[0] < |n.children| && n.children[p[0]].Some? && Writable(n.children[p[0]].value, p[1..]))
  }

  /** The tree with `m` written into the slot at `p`: the root itself for the empty path, otherwise `setChild` on the parent. */
  function ReplaceAt(n: Node, p: Path, m: Node): (r: Node)
    requires Writable(n, p)
    ensures NodeAt(r, p) == Some(m)
    ensures r.SplitNode? <==> (|p| > 0 || m.SplitNode?)
    ensures |p| > 0 ==> r.observedClassDistribution == n.observedClassDistribution
    decreases |p|
  {
    if |p| == 0 then m
    else if |p| == 1 then
      var r := SetChild(n, p[0], m).value;
      assert NodeAt(r, p) == NodeAt(m, p[1..]);
      r
    else SplitNode(n.splitTest, n.observedClassDistribution, n.children[p[0] := Some(ReplaceAt(n.children[p[0]].value, p[1..], m))])
  }

  predicate IsPrefix(a: Path, b: Path)
  {
    |a| <= |b| && b[..|a|] == a
  }

  /** Neither slot lies below the other. */
  predicate Incomparable(a: Path, b: Path)
  {
    !IsPrefix(a, b) && !IsPrefix(b, a)
  }

  /** Following `p` and then `q` is following `p + q`. */
  lemma {:induction false} NodeAtConcat(r: Node, p: Path, q: Path)
    ensures NodeAt(r, p + q) == match NodeAt(r, p) case None => None case Some(s) => NodeAt(s, q)
    decreases |p|
  {
    if |p| == 0 {
      assert p + q == q;
    } else if r.SplitNode? && 0 <= p[0] < |r.children| && r.children[p[0]].Some? {
      assert (p + q)[1..] == p[1..] + q;
      NodeAtConcat(r.children[p[0]].value, p[1..], q);
    }
  }

  /** Below a decision node at `here`, the slot of any branch `setChild` accepts can be written. */
  lemma {:induction false} WritableExtend(r: Node, here: Path, b: int)
    requires NodeAt(r, here).Some? && NodeAt(r, here).value.SplitNode? && 0 <= b < MAX_BRANCHES
    ensures Writable(r, here + [b])
    decreases |here|
  {
    if |here| > 0 {
      assert (here + [b])[1..] == here[1..] + [b];
      WritableExtend(r.children[here[0]].value, here[1..], b);
    }
  }

  /** Writing at `p` leaves every slot that is neither above nor below `p` as it was. */
  lemma {:induction false} ReplaceElsewhere(n: Node, p: Path, m: Node, q: Path)
    requires Writable(n, p) && Incomparable(p, q)
    ensures NodeAt(ReplaceAt(n, p, m), q) == NodeAt(n, q)
    ensures Writable(n, q) ==> Writable(ReplaceAt(n, p, m), q)
    decreases |p|
  {
    if p[0] == q[0] && |p| > 1 && |q| > 1 {
      PrefixTail(p, q);
      PrefixTail(q, p);
      ReplaceElsewhere(n.children[p[0]].value, p[1..], m, q[1..]);
    }
  }

  /** Two paths starting with the same branch: one lies below the other exactly when their tails do. */
  lemma PrefixTail(a: Path, b: Path)
    requires |a| > 0 && |b| > 0 && a[0] == b[0]
    ensures IsPrefix(a, b) <==> IsPrefix(a[1..], b[1..])
  {
    if IsPrefix(a[1..], b[1..]) {
      assert b[..|a|] == [b[0]] + b[1..][..|a| - 1];
    }
    if IsPrefix(a, b) {
      assert b[1..][..|a| - 1] == b[..|a|][1..];
    }
  }

  /** Counts of the three node kinds. */
  datatype Counts = Counts(active: int, inactive: int, decision: int)

  const NoNodes: Counts := Counts(0, 0, 0)

  function Plus(a: Counts, b: Counts): Counts
  {
    Counts(a.active + b.active, a.inactive + b.inactive, a.decision + b.decision)
  }

  function Minus(a: Counts, b: Counts): Counts
  {
    Counts(a.active - b.active, a.inactive - b.inactive, a.decision - b.decision)
  }

  /** The active leaves, inactive leaves and decision nodes reachable from `n`, itself included. */
  function Tally(n: Node): Counts
    decreases n
  {
    match n
    case ActiveLearningNode(_, _, _, _) => Counts(1, 0, 0)
    case InactiveLearningNode(_) => Counts(0, 1, 0)
    case SplitNode(_, _, children) => Plus(Counts(0, 0, 1), TallyFirst(children, |children|))
  }

  /** The counts over the first `k` child slots. */
  function TallyFirst(cs: seq<Option<Node>>, k: nat): Counts
    requires k <= |cs|
    decreases cs, k
  {
    if k == 0 then NoNodes else Plus(TallyFirst(cs, k - 1), TallySlot(cs[k - 1]))
  }

  /** The counts of a slot: nothing for an empty one. */
  function TallySlot(c: Option<Node>): Counts
    decreases c
  {
    match c
    case None => NoNodes
    case Some(n) => Tally(n)
  }

  function TallyAll(cs: seq<Option<Node>>): Counts
  {
    TallyFirst(cs, |cs|)
  }

  /** No count is negative. */
  predicate NonNegative(c: Counts)
  {
    c.active >= 0 && c.inactive >= 0 && c.decision >= 0
  }

  /** Slots that agree up to `k` are counted alike up to `k`. */
  lemma {:induction false} TallyFirstAgree(a: seq<Option<Node>>, b: seq<Option<Node>>, k: nat)
    requires k <= |a| && k <= |b| && a[..k] == b[..k]
    ensures TallyFirst(a, k) == TallyFirst(b, k)
    decreases k
  {
    if k > 0 {
      assert a[k - 1] == a[..k][k - 1] == b[..k][k - 1] == b[k - 1];
      assert a[..k - 1] == a[..k][..k - 1];
      assert b[..k - 1] == b[..k][..k - 1];
      TallyFirstAgree(a, b, k - 1);
    }
  }

  /** Empty slots count nothing. */
  lemma {:induction false} TallyFirstEmpty(cs: seq<Option<Node>>, lo: nat, k: nat)
    requires lo <= k <= |cs| && forall j :: lo <= j < k ==> cs[j].None?
    ensures TallyFirst(cs, k) == TallyFirst(cs, lo)
    decreases k
  {
    if k > lo {
      TallyFirstEmpty(cs, lo, k - 1);
    }
  }

  /** Overwriting slot `i` swaps its counts for the new slot's. */
  lemma {:induction false} TallyFirstUpdate(cs: seq<Option<Node>>, i: nat, x: Option<Node>, k: nat)
    requires i < k <= |cs|
    ensures TallyFirst(cs[i := x], k) == Plus(Minus(TallyFirst(cs, k), TallySlot(cs[i])), TallySlot(x))
    decreases k
  {
    var u := cs[i := x];
    assert TallyFirst(u, k) == Plus(TallyFirst(u, k - 1), TallySlot(u[k - 1]));
    if i == k - 1 {
      assert u[..k - 1] == cs[..k - 1];
      TallyFirstAgree(u, cs, k - 1);
    } else {
      TallyFirstUpdate(cs, i, x, k - 1);
    }
  }

  /** `set` on a child vector: the old slot's counts leave, the new one's arrive; padding adds nothing. */
  lemma TallyPut(cs: seq<Option<Node>>, i: nat, x: Option<Node>)
    ensures TallyAll(Put(cs, i, x, None)) == Plus(Minus(TallyAll(cs), TallySlot(Get(cs, i, None))), TallySlot(x))
  {
    var padded := Pad(cs, i + 1, None);
    TallyFirstAgree(padded, cs, |cs|);
    TallyFirstEmpty(padded, |cs|, |padded|);
    assert TallyAll(padded) == TallyAll(cs);
    assert Put(cs, i, x, None) == padded[i := x];
    TallyFirstUpdate(padded, i, x, |padded|);
  }

  /** Writing `m` at `p` removes the counts of what the slot held and adds those of `m`. */
  lemma {:induction false} ReplaceTally(n: Node, p: Path, m: Node)
    requires Writable(n, p)
    ensures Tally(ReplaceAt(n, p, m)) == Plus(Minus(Tally(n), TallySlot(NodeAt(n, p))), Tally(m))
    decreases |p|
  {
    if |p| == 0 {
      ReplaceRootTally(n, p, m);
    } else if |p| == 1 {
      ReplaceChildTally(n, p, m);
    } else {
      var child := n.children[p[0]].value;
      assert Writable(child, p[1..]);
      ReplaceTally(child, p[1..], m);
      ReplaceNestedTally(n, p, m);
    }
  }

  lemma ReplaceRootTally(n: Node, p: Path, m: Node)
    requires |p| == 0
    ensures Tally(ReplaceAt(n, p, m)) == Plus(Minus(Tally(n), TallySlot(NodeAt(n, p))), Tally(m))
  {
    var r := ReplaceAt(n, p, m);
    assert r == m;
    var before := NodeAt(n, p);
    assert before == Some(n);
    var a, b := Tally(n), Tally(m);
    assert TallySlot(before) == a;
    CountsSwapSelf(a, b);
  }

  lemma CountsSwapSelf(a: Counts, b: Counts)
    ensures Plus(Minus(a, a), b) == b
  {
  }

  lemma CountsRestore(a: Counts, b: Counts)
    ensures Plus(Minus(a, b), b) == a
  {
  }

  /** One level of `ReplaceTally`: the child's bookkeeping lifts to its parent. */
  lemma ReplaceNestedTally(n: Node, p: Path, m: Node)
    requires Writable(n, p) && |p| > 1
    requires var child := n.children[p[0]].value;
      Tally(ReplaceAt(child, p[1..], m)) == Plus(Minus(Tally(child), TallySlot(NodeAt(child, p[1..]))), Tally(m))
    ensures Tally(ReplaceAt(n, p, m)) == Plus(Minus(Tally(n), TallySlot(NodeAt(n, p))), Tally(m))
  {
    var child := n.children[p[0]].value;
    var written := ReplaceAt(child, p[1..], m);
    var updated := n.children[p[0] := Some(written)];
    assert NodeAt(n, p) == NodeAt(child, p[1..]);
    assert ReplaceAt(n, p, m) == SplitNode(n.splitTest, n.observedClassDistribution, updated);
    TallyFirstUpdate(n.children, p[0], Some(written), |n.children|);
    CountsShift(TallyFirst(n.children, |n.children|), Tally(child), Tally(written), TallySlot(NodeAt(n, p)), Tally(m));
  }

  /** The bookkeeping of one nested replacement. */
  lemma CountsShift(all: Counts, before: Counts, after: Counts, removed: Counts, added: Counts)
    requires after == Plus(Minus(before, removed), added)
    ensures Plus(Counts(0, 0, 1), Plus(Minus(all, before), after)) == Plus(Minus(Plus(Counts(0, 0, 1), all), removed), added)
  {
  }

  lemma ReplaceChildTally(n: Node, p: Path, m: Node)
    requires Writable(n, p) && |p| == 1
    ensures Tally(ReplaceAt(n, p, m)) == Plus(Minus(Tally(n), TallySlot(NodeAt(n, p))), Tally(m))
  {
    TallyPut(n.children, p[0], Some(m));
    assert NodeAt(n, p) == Get(n.children, p[0], None) by {
      if 0 <= p[0] < |n.children| && n.children[p[0]].Some? {
        assert NodeAt(n.children[p[0]].value, p[1..]) == n.children[p[0]];
      }
    }
  }

  /** Counts are never negative. */
  lemma {:induction false} TallyNonNegative(n: Node)
    ensures NonNegative(Tally(n))
    decreases n, 1
  {
    if n.SplitNode? {
      TallyFirstNonNegative(n.children, |n.children|);
    }
  }

  lemma {:induction false} TallyFirstNonNegative(cs: seq<Option<Node>>, k: nat)
    requires k <= |cs|
    ensures NonNegative(TallyFirst(cs, k))
    decreases cs, k
  {
    if k > 0 {
      TallyFirstNonNegative(cs, k - 1);
      TallySlotNonNegative(cs[k - 1]);
    }
  }

  lemma {:induction false} TallySlotNonNegative(c: Option<Node>)
    ensures NonNegative(TallySlot(c))
    decreases c
  {
    if c.Some? {
      TallyNonNegative(c.value);
    }
  }

  /** Every reachable active leaf is counted: a tree whose active count is zero has none. */
  lemma {:induction false} ReachableActiveCounted(n: Node, p: Path)
    requires NodeAt(n, p).Some? && NodeAt(n, p).value.ActiveLearningNode?
    ensures Tally(n).active >= 1
    decreases |p|
  {
    if |p| > 0 {
      var child := n.children[p[0]].value;
      ReachableActiveCounted(child, p[1..]);
      TallyFirstUpdate(n.children, p[0], None, |n.children|);
      TallyFirstNonNegative(n.children[p[0] := None], |n.children|);
    }
  }

  /** Every decision node has at most `maxBranches` child slots. */
  predicate BinaryShaped(n: Node)
    decreases n
  {
    n.SplitNode? ==>
      && |n.children| <= MAX_BRANCHES
      && forall i :: 0 <= i < |n.children| && n.children[i].Some? ==> BinaryShaped(n.children[i].value)
  }

  /** In a binary-shaped tree every occupied slot can be written. */
  lemma {:induction false} OccupiedWritable(n: Node, p: Path)
    requires BinaryShaped(n) && NodeAt(n, p).Some?
    ensures Writable(n, p)
    decreases |p|
  {
    if |p| > 1 {
      OccupiedWritable(n.children[p[0]].value, p[1..]);
    }
  }

  /** Writing a binary-shaped node keeps the tree binary-shaped. */
  lemma {:induction false} ReplaceShaped(n: Node, p: Path, m: Node)
    requires Writable(n, p) && BinaryShaped(n) && BinaryShaped(m)
    ensures BinaryShaped(ReplaceAt(n, p, m))
    decreases |p|
  {
    if |p| > 1 {
      ReplaceShaped(n.children[p[0]].value, p[1..], m);
    }
  }

  /**
   * What routing answers, located in the tree `r`: the slot `at` can be
   * written and holds the node found, and for an empty slot the parent is
   * the node one step up.
   */
  predicate Locates(r: Node, f: FoundNode)
  {
    && Writable(r, f.at)
    && NodeAt(r, f.at) == f.node
    && (f.node.None? ==> |f.at| > 0 && NodeAt(r, f.at[..|f.at| - 1]) == f.parent)
  }

  /** `filterInstanceToLeaf` started at a node of `r` answers a slot of `r` below it. */
  lemma {:induction false} FilterLocates(r: Node, n: Node, features: seq<Double>, parent: Option<Node>, parentBranch: int, here: Path)
    requires Routable(n, features) && NodeAt(r, here) == Some(n) && Writable(r, here)
    ensures Locates(r, FilterInstanceToLeaf(n, features, parent, parentBranch, here))
    decreases n
  {
    if !n.SplitNode? || InstanceChildIndex(n, features) < 0 {
      assert Locates(r, FoundNode(Some(n), parent, parentBranch, here));
    } else {
      var b := InstanceChildIndex(n, features);
      StepDown(r, here, n, b);
      if 0 <= b < |n.children| && n.children[b].Some? {
        FilterLocates(r, n.children[b].value, features, Some(n), b, here + [b]);
      } else {
        assert Locates(r, FoundNode(None, Some(n), b, here + [b]));
      }
    }
  }

  /** One step below the decision node at `here`: branch `b`'s slot can be written and holds that child. */
  lemma StepDown(r: Node, here: Path, n: Node, b: int)
    requires NodeAt(r, here) == Some(n) && n.SplitNode? && 0 <= b < MAX_BRANCHES
    ensures Writable(r, here + [b]) && (here + [b])[..|here|] == here
    ensures NodeAt(r, here + [b]) == if b < |n.children| then n.children[b] else None
  {
    NodeAtConcat(r, here, [b]);
    WritableExtend(r, here, b);
    assert (here + [b])[..|here|] == here;
  }

  /**
   * `findLearningNodes`: every learning node below `node`, which sits in the
   * slot `here`, in depth-first order with children left to right.
   */
  function FindLearningNodes(node: Option<Node>, parent: Option<Node>, parentBranch: int, here: Path): seq<FoundNode>
    decreases node
  {
    match node
    case None => []
    case Some(n) =>
      (if IsLearningNode(n) then [FoundNode(node, parent, parentBranch, here)] else [])
      + (if n.SplitNode? then FindInChildren(n, here, |n.children|) else [])
  }

  /** The learning nodes below the first `k` children of decision node `s` at `here`. */
  function FindInChildren(s: Node, here: Path, k: nat): seq<FoundNode>
    requires s.SplitNode? && k <= |s.children|
    decreases s, k
  {
    if k == 0 then []
    else FindInChildren(s, here, k - 1) + FindLearningNodes(s.children[k - 1], Some(s), k - 1, here + [k - 1])
  }

  /** Each entry is a learning node found at its slot of `r`. */
  predicate LearningEntries(r: Node, found: seq<FoundNode>)
  {
    forall j :: 0 <= j < |found| ==>
      found[j].node.Some? && IsLearningNode(found[j].node.value) && NodeAt(r, found[j].at) == found[j].node
  }

  /** No entry's slot lies above or below another's. */
  predicate Separate(found: seq<FoundNode>)
  {
    forall i, j :: 0 <= i < j < |found| ==> Incomparable(found[i].at, found[j].at)
  }

  /** Every entry lies at or below `here`. */
  predicate AllBelow(found: seq<FoundNode>, here: Path)
  {
    forall j :: 0 <= j < |found| ==> IsPrefix(here, found[j].at)
  }

  /** Every entry lies below one of the first `k` branches of `here`. */
  predicate BelowBranches(found: seq<FoundNode>, here: Path, k: nat)
  {
    forall j :: 0 <= j < |found| ==>
      |found[j].at| > |here| && found[j].at[..|here|] == here && 0 <= found[j].at[|here|] < k
  }

  /** How many entries are active leaves. */
  function ActiveEntries(found: seq<FoundNode>): nat
  {
    if |found| == 0 then 0
    else ActiveEntries(found[..|found| - 1]) + (if found[|found| - 1].node.Some? && found[|found| - 1].node.value.ActiveLearningNode? then 1 else 0)
  }

  lemma {:induction false} ActiveEntriesAppend(a: seq<FoundNode>, b: seq<FoundNode>)
    ensures ActiveEntries(a + b) == ActiveEntries(a) + ActiveEntries(b)
    decreases |b|
  {
    if |b| == 0 {
      assert a + b == a;
    } else {
      assert (a + b)[..|a + b| - 1] == a + b[..|b| - 1];
      assert (a + b)[|a + b| - 1] == b[|b| - 1];
      ActiveEntriesAppend(a, b[..|b| - 1]);
    }
  }

  /** Dropping the first entry removes its contribution. */
  lemma {:induction false} ActiveEntriesFirst(found: seq<FoundNode>)
    requires |found| > 0
    ensures ActiveEntries(found) == ActiveEntries(found[1..]) + (if found[0].node.Some? && found[0].node.value.ActiveLearningNode? then 1 else 0)
  {
    assert found == [found[0]] + found[1..];
    ActiveEntriesAppend([found[0]], found[1..]);
  }

  /** Two slots below different branches of the same node are incomparable. */
  lemma BranchesIncomparable(here: Path, a: Path, b: Path)
    requires |a| > |here| && a[..|here|] == here && |b| > |here| && b[..|here|] == here
    requires a[|here|] != b[|here|]
    ensures Incomparable(a, b)
  {
  }

  /**
   * `findLearningNodes` below the slot `here` of `r` lists learning nodes at
   * their own slots, pairwise apart, all below `here`, and as many active
   * ones as there are active leaves below `here`.
   */
  lemma FindSound(r: Node, node: Option<Node>, parent: Option<Node>, parentBranch: int, here: Path)
    requires NodeAt(r, here) == node
    ensures LearningEntries(r, FindLearningNodes(node, parent, parentBranch, here))
    ensures Separate(FindLearningNodes(node, parent, parentBranch, here))
    ensures AllBelow(FindLearningNodes(node, parent, parentBranch, here), here)
    ensures ActiveEntries(FindLearningNodes(node, parent, parentBranch, here)) == TallySlot(node).active
  {
    FindEntries(r, node, parent, parentBranch, here);
    FindActive(node, parent, parentBranch, here);
  }

  /** The entries found below `here` are learning nodes at their slots, pairwise apart, all below `here`. */
  lemma {:induction false} FindEntries(r: Node, node: Option<Node>, parent: Option<Node>, parentBranch: int, here: Path)
    requires NodeAt(r, here) == node
    ensures LearningEntries(r, FindLearningNodes(node, parent, parentBranch, here))
    ensures Separate(FindLearningNodes(node, parent, parentBranch, here))
    ensures AllBelow(FindLearningNodes(node, parent, parentBranch, here), here)
    decreases node, 1
  {
    if node.Some? {
      var n := node.value;
      var found := FindLearningNodes(node, parent, parentBranch, here);
      if n.SplitNode? {
        ChildrenEntries(r, n, here, |n.children|);
        assert found == FindInChildren(n, here, |n.children|);
        forall j | 0 <= j < |found| ensures IsPrefix(here, found[j].at) {
          assert found[j].at[..|here|] == here;
        }
      } else {
        assert found == [FoundNode(node, parent, parentBranch, here)];
      }
    }
  }

  lemma {:induction false} ChildrenEntries(r: Node, s: Node, here: Path, k: nat)
    requires s.SplitNode? && k <= |s.children| && NodeAt(r, here) == Some(s)
    ensures LearningEntries(r, FindInChildren(s, here, k))
    ensures Separate(FindInChildren(s, here, k))
    ensures BelowBranches(FindInChildren(s, here, k), here, k)
    decreases s, 0, k
  {
    if k > 0 {
      var a := FindInChildren(s, here, k - 1);
      var slot := here + [k - 1];
      var b := FindLearningNodes(s.children[k - 1], Some(s), k - 1, slot);
      ChildrenEntries(r, s, here, k - 1);
      ChildSlot(r, s, here, k - 1);
      FindEntries(r, s.children[k - 1], Some(s), k - 1, slot);
      JoinBranches(r, a, b, here, k - 1);
    }
  }

  /** As many active entries are found below a slot as there are active leaves there. */
  lemma {:induction false} FindActive(node: Option<Node>, parent: Option<Node>, parentBranch: int, here: Path)
    ensures ActiveEntries(FindLearningNodes(node, parent, parentBranch, here)) == TallySlot(node).active
    decreases node, 1
  {
    if node.Some? {
      var n := node.value;
      var found := FindLearningNodes(node, parent, parentBranch, here);
      if n.SplitNode? {
        ChildrenActive(n, here, |n.children|);
        assert found == FindInChildren(n, here, |n.children|);
      } else {
        assert found == [FoundNode(node, parent, parentBranch, here)];
      }
    }
  }

  lemma {:induction false} ChildrenActive(s: Node, here: Path, k: nat)
    requires s.SplitNode? && k <= |s.children|
    ensures ActiveEntries(FindInChildren(s, here, k)) == TallyFirst(s.children, k).active
    decreases s, 0, k
  {
    if k > 0 {
      var a := FindInChildren(s, here, k - 1);
      var b := FindLearningNodes(s.children[k - 1], Some(s), k - 1, here + [k - 1]);
      ChildrenActive(s, here, k - 1);
      FindActive(s.children[k - 1], Some(s), k - 1, here + [k - 1]);
      ActiveEntriesAppend(a, b);
    }
  }

  /** The slot of branch `b` of the decision node at `here` holds that child. */
  lemma ChildSlot(r: Node, s: Node, here: Path, b: nat)
    requires s.SplitNode? && b < |s.children| && NodeAt(r, here) == Some(s)
    ensures NodeAt(r, here + [b]) == s.children[b]
  {
    NodeAtConcat(r, here, [b]);
    if s.children[b].Some? {
      assert NodeAt(s.children[b].value, [b][1..]) == s.children[b];
    }
  }

  /** Entries below branches before `b`, followed by entries below branch `b`, are entries below branches up to `b`. */
  lemma JoinBranches(r: Node, a: seq<FoundNode>, b: seq<FoundNode>, here: Path, branch: nat)
    requires LearningEntries(r, a) && Separate(a) && BelowBranches(a, here, branch)
    requires LearningEntries(r, b) && Separate(b) && AllBelow(b, here + [branch])
    ensures LearningEntries(r, a + b) && Separate(a + b) && BelowBranches(a + b, here, branch + 1)
  {
    var found := a + b;
    var slot := here + [branch];
    forall j | 0 <= j < |b| ensures |b[j].at| > |here| && b[j].at[..|here|] == here && b[j].at[|here|] == branch {
      assert b[j].at[..|slot|] == slot;
      assert b[j].at[..|here|] == slot[..|here|];
    }
    forall i, j | 0 <= i < j < |found| ensures Incomparable(found[i].at, found[j].at) {
      if j < |a| {
        assert found[i] == a[i] && found[j] == a[j];
      } else if i >= |a| {
        assert found[i] == b[i - |a|] && found[j] == b[j - |a|];
      } else {
        assert found[i] == a[i] && found[j] == b[j - |a|];
        BranchesIncomparable(here, found[i].at, found[j].at);
      }
    }
    forall j | 0 <= j < |found|
      ensures found[j].node.Some? && IsLearningNode(found[j].node.value) && NodeAt(r, found[j].at) == found[j].node
      ensures |found[j].at| > |here| && found[j].at[..|here|] == here && 0 <= found[j].at[|here|] < branch + 1
    {
      if j < |a| {
        assert found[j] == a[j];
      } else {
        assert found[j] == b[j - |a|];
      }
    }
  }

  /**
   * From the root: every learning node listed is at its slot, the slots are
   * pairwise apart, and the active ones listed are exactly as many as the
   * reachable active leaves.
   */
  lemma FindFromRoot(r: Node)
    ensures var found := FindLearningNodes(Some(r), None, -1, []);
            LearningEntries(r, found) && Separate(found) && ActiveEntries(found) == Tally(r).active
  {
    FindSound(r, Some(r), None, -1, []);
  }

  /** The tree `deactivateAllLeaves` leaves behind: each active leaf becomes an inactive leaf with its distribution, all else as it was. */
  function AllDeactivated(n: Node): Node
    decreases n
  {
    match n
    case ActiveLearningNode(dist, _, _, _) => InactiveLearningNode(dist)
    case InactiveLearningNode(_) => n
    case SplitNode(test, dist, children) => SplitNode(test, dist, DeactivateFirst(children, |children|))
  }

  /** `AllDeactivated` on each of the first `k` child slots. */
  function DeactivateFirst(cs: seq<Option<Node>>, k: nat): (r: seq<Option<Node>>)
    requires k <= |cs|
    ensures |r| == k && forall j :: 0 <= j < k ==> r[j] == DeactivateSlot(cs[j])
    decreases cs, k
  {
    if k == 0 then [] else DeactivateFirst(cs, k - 1) + [DeactivateSlot(cs[k - 1])]
  }

  function DeactivateSlot(c: Option<Node>): Option<Node>
    decreases c
  {
    match c
    case None => None
    case Some(n) => Some(AllDeactivated(n))
  }

  /**
   * Turning one reachable active leaf into an inactive leaf with its
   * distribution does not change the image under `AllDeactivated`.
   */
  lemma {:induction false} DeactivateOneLeaf(n: Node, p: Path, m: Node)
    requires Writable(n, p) && NodeAt(n, p).Some? && NodeAt(n, p).value.ActiveLearningNode?
    requires m == InactiveLearningNode(NodeAt(n, p).value.observedClassDistribution)
    ensures AllDeactivated(ReplaceAt(n, p, m)) == AllDeactivated(n)
    decreases |p|
  {
    if |p| > 0 {
      var b := p[0];
      var child := n.children[b].value;
      var x := ReplaceAt(child, p[1..], m);
      assert NodeAt(n, p) == NodeAt(child, p[1..]);
      if |p| > 1 {
        DeactivateOneLeaf(child, p[1..], m);
      } else {
        assert x == m && child == NodeAt(n, p).value;
      }
      assert DeactivateSlot(Some(x)) == DeactivateSlot(n.children[b]);
      var r := ReplaceAt(n, p, m);
      assert r == SplitNode(n.splitTest, n.observedClassDistribution, n.children[b := Some(x)]);
      assert DeactivateFirst(r.children, |r.children|) == DeactivateFirst(n.children, |n.children|);
    }
  }

  /** A tree without a reachable active leaf is its own image under `AllDeactivated`. */
  lemma {:induction false} NoActiveUnchanged(n: Node)
    requires forall p :: NodeAt(n, p).Some? ==> !NodeAt(n, p).value.ActiveLearningNode?
    ensures AllDeactivated(n) == n
    decreases n
  {
    assert NodeAt(n, []) == Some(n);
    if n.SplitNode? {
      forall j | 0 <= j < |n.children| && n.children[j].Some?
        ensures AllDeactivated(n.children[j].value) == n.children[j].value
      {
        var c := n.children[j].value;
        forall q | NodeAt(c, q).Some?
          ensures !NodeAt(c, q).value.ActiveLearningNode?
        {
          assert ([j] + q)[1..] == q;
          assert NodeAt(n, [j] + q) == NodeAt(c, q);
        }
        NoActiveUnchanged(c);
      }
      assert DeactivateFirst(n.children, |n.children|) == n.children;
    }
  }
}
