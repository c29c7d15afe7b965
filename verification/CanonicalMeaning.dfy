/** What the canonical form of a topology is: the same topology with every list in order. */
module CanonicalMeaning {
  import opened Machine
  import opened Orders
  import opened Topology
  import opened CanonicalForm

  // --------------------------------------------------------------- every list in order

  ghost predicate StringsInOrder(s: seq<string>) {
    forall i, j :: 0 <= i < j < |s| ==> ReadsBefore(s[i], s[j])
  }

  predicate ModeBefore(a: ResourceMode, b: ResourceMode) {
    a == Read || (a == Write && b == Exclusive)
  }

  ghost predicate GroupBefore(a: Option<string>, b: Option<string>) {
    a.None? || (b.Some? && ReadsBefore(a.value, b.value))
  }

  predicate StrategyBefore(a: Option<WorkspaceStrategy>, b: Option<WorkspaceStrategy>) {
    a.None? || (b.Some? && (a.value == Shared || (a.value == IsolatedWorktree && b.value == Ephemeral)))
  }

  /** Resource, mode, rate-limit group, workspace strategy, network scope and secret scope decide
      in this order. */
  ghost predicate ClaimBefore(a: ResourceClaim, b: ResourceClaim) {
    if a.resource != b.resource then ReadsBefore(a.resource, b.resource)
    else if a.mode != b.mode then ModeBefore(a.mode, b.mode)
    else if a.rateLimitGroup != b.rateLimitGroup then GroupBefore(a.rateLimitGroup, b.rateLimitGroup)
    else if a.workspaceStrategy != b.workspaceStrategy then StrategyBefore(a.workspaceStrategy, b.workspaceStrategy)
    else if a.networkScope != b.networkScope then AllReadBefore(a.networkScope, b.networkScope)
    else AllReadBefore(a.secretScope, b.secretScope)
  }

  ghost predicate ClaimInOrder(c: ResourceClaim) {
    StringsInOrder(c.networkScope) && StringsInOrder(c.secretScope)
  }

  ghost predicate InputsInOrder(s: seq<NodeInput>) {
    forall i, j :: 0 <= i < j < |s| ==> ReadsBefore(s[i].name, s[j].name)
  }

  ghost predicate OutputsInOrder(s: seq<NodeOutput>) {
    forall i, j :: 0 <= i < j < |s| ==> ReadsBefore(s[i].name, s[j].name)
  }

  ghost predicate ClaimsInOrder(s: seq<ResourceClaim>) {
    && (forall i, j :: 0 <= i < j < |s| ==> ClaimBefore(s[i], s[j]))
    && (forall i :: 0 <= i < |s| ==> ClaimInOrder(s[i]))
  }

  ghost predicate NodeInOrder(n: TopologyNode) {
    InputsInOrder(n.inputs) && OutputsInOrder(n.outputs) && ClaimsInOrder(n.resourceClaims)
  }

  ghost predicate NodesInOrder(s: seq<TopologyNode>) {
    && (forall i, j :: 0 <= i < j < |s| ==> ReadsBefore(s[i].nodeId, s[j].nodeId))
    && (forall i :: 0 <= i < |s| ==> NodeInOrder(s[i]))
  }

  ghost predicate EdgesInOrder(s: seq<TopologyEdge>) {
    && (forall i, j :: 0 <= i < j < |s| ==> ReadsBefore(s[i].edgeId, s[j].edgeId))
    && (forall i :: 0 <= i < |s| ==> StringsInOrder(s[i].resourceScope))
  }

  ghost predicate InOrder(t: ExecutionTopology) {
    && NodesInOrder(t.nodes) && EdgesInOrder(t.edges)
    && StringsInOrder(t.verificationPolicyIds) && StringsInOrder(t.budgetPolicyIds)
    && StringsInOrder(t.expansionPolicyIds)
  }

  lemma SortedStringsInOrder(s: seq<string>)
    ensures StringsInOrder(SortBy(s, StringLeq)) && multiset(SortBy(s, StringLeq)) == multiset(s)
  {
    var r := SortBy(s, StringLeq);
    StringLeqIsOrder();
    SortBySorted(s, StringLeq);
    forall i, j | 0 <= i < j < |r| ensures ReadsBefore(r[i], r[j]) { StringLeqMeaning(r[i], r[j]); }
  }

  lemma ClaimLeqMeaning(a: ResourceClaim, b: ResourceClaim)
    ensures ClaimLeq(a, b) <==> ClaimBefore(a, b)
  {
    var x, y := KeyOf(a), KeyOf(b);
    var last := PairLeq(StringsLeq, StringsLeq);
    var strategies := PairLeq(NatLeq, last);
    var groups := PairLeq(GroupLeq, strategies);
    var modes := PairLeq(NatLeq, groups);
    assert ClaimLeq(a, b) == PairLeq(StringLeq, modes)(x, y);
    StringLeqMeaning(a.resource, b.resource);
    GroupLeqMeaning(a.rateLimitGroup, b.rateLimitGroup);
    StringsLeqMeaning(a.networkScope, b.networkScope);
    StringsLeqMeaning(a.secretScope, b.secretScope);
    assert a.mode != b.mode ==> (ModeRank(a.mode) <= ModeRank(b.mode) <==> ModeBefore(a.mode, b.mode));
    assert a.workspaceStrategy != b.workspaceStrategy ==>
        (StrategyRank(a.workspaceStrategy) <= StrategyRank(b.workspaceStrategy) <==>
          StrategyBefore(a.workspaceStrategy, b.workspaceStrategy));
    assert ModeRank(a.mode) == ModeRank(b.mode) <==> a.mode == b.mode;
    assert StrategyRank(a.workspaceStrategy) == StrategyRank(b.workspaceStrategy) <==>
        a.workspaceStrategy == b.workspaceStrategy;
  }

  lemma GroupLeqMeaning(a: Option<string>, b: Option<string>)
    ensures GroupLeq(a, b) <==> GroupBefore(a, b)
  {
    if a.Some? && b.Some? { StringLeqMeaning(a.value, b.value); }
  }

  lemma CanonicalClaimsInOrder(s: seq<ResourceClaim>)
    ensures ClaimsInOrder(SortBy(MapSeq(CanonicalClaim, s), ClaimLeq))
  {
    var claims := MapSeq(CanonicalClaim, s);
    var r := SortBy(claims, ClaimLeq);
    ClaimLeqIsOrder();
    SortBySorted(claims, ClaimLeq);
    SameMultiset(r, claims);
    forall i, j | 0 <= i < j < |r| ensures ClaimBefore(r[i], r[j]) { ClaimLeqMeaning(r[i], r[j]); }
    forall i | 0 <= i < |r| ensures ClaimInOrder(r[i]) {
      assert r[i] in claims;
      var k :| 0 <= k < |claims| && claims[k] == r[i];
      SortedStringsInOrder(s[k].networkScope);
      SortedStringsInOrder(s[k].secretScope);
    }
  }

  lemma CanonicalNodeInOrder(n: TopologyNode)
    ensures NodeInOrder(CanonicalNode(n))
  {
    SortedInputsInOrder(n.inputs);
    SortedOutputsInOrder(n.outputs);
    CanonicalClaimsInOrder(n.resourceClaims);
  }

  lemma SortedInputsInOrder(s: seq<NodeInput>)
    ensures InputsInOrder(SortBy(s, InputLeq))
  {
    var r := SortBy(s, InputLeq);
    IdOrders();
    SortBySorted(s, InputLeq);
    forall i, j | 0 <= i < j < |r| ensures ReadsBefore(r[i].name, r[j].name) {
      assert InputLeq(r[i], r[j]);
      StringLeqMeaning(r[i].name, r[j].name);
    }
  }

  lemma SortedOutputsInOrder(s: seq<NodeOutput>)
    ensures OutputsInOrder(SortBy(s, OutputLeq))
  {
    var r := SortBy(s, OutputLeq);
    IdOrders();
    SortBySorted(s, OutputLeq);
    forall i, j | 0 <= i < j < |r| ensures ReadsBefore(r[i].name, r[j].name) {
      assert OutputLeq(r[i], r[j]);
      StringLeqMeaning(r[i].name, r[j].name);
    }
  }

  lemma CanonicalNodesInOrder(s: seq<TopologyNode>)
    ensures NodesInOrder(MapSeq(CanonicalNode, SortBy(s, NodeLeq)))
  {
    var sorted := SortBy(s, NodeLeq);
    IdOrders();
    SortBySorted(s, NodeLeq);
    forall i, j | 0 <= i < j < |sorted| ensures ReadsBefore(sorted[i].nodeId, sorted[j].nodeId) {
      StringLeqMeaning(sorted[i].nodeId, sorted[j].nodeId);
    }
    forall i | 0 <= i < |sorted| ensures NodeInOrder(CanonicalNode(sorted[i])) { CanonicalNodeInOrder(sorted[i]); }
  }

  lemma CanonicalEdgesInOrder(s: seq<TopologyEdge>)
    ensures EdgesInOrder(MapSeq(CanonicalEdge, SortBy(s, EdgeLeq)))
  {
    var sorted := SortBy(s, EdgeLeq);
    IdOrders();
    SortBySorted(s, EdgeLeq);
    forall i, j | 0 <= i < j < |sorted| ensures ReadsBefore(sorted[i].edgeId, sorted[j].edgeId) {
      StringLeqMeaning(sorted[i].edgeId, sorted[j].edgeId);
    }
    forall i | 0 <= i < |sorted| ensures StringsInOrder(CanonicalEdge(sorted[i]).resourceScope) {
      SortedStringsInOrder(sorted[i].resourceScope);
    }
  }

  // -------------------------------------------------------------------- the same topology

  lemma CanonicalNodeIsSame(n: TopologyNode)
    ensures SameNode(n, CanonicalNode(n))
  {
    MappedIsRearranged(n.resourceClaims, CanonicalClaim, SortBy(MapSeq(CanonicalClaim, n.resourceClaims), ClaimLeq),
      SameClaim);
  }

  /** A rearrangement of the images is a rearrangement, if each image is the same entry. */
  lemma MappedIsRearranged<T(!new)>(s: seq<T>, f: T -> T, r: seq<T>, same: (T, T) -> bool)
    requires multiset(r) == multiset(MapSeq(f, s)) && forall x :: x in s ==> same(x, f(x))
    ensures Rearranged(s, r, same)
  {
    var pi := MultisetGivesMatching(MapSeq(f, s), r);
    forall i | 0 <= i < |s| ensures same(s[i], r[pi[i]]) {
      assert s[i] in s && MapSeq(f, s)[i] == f(s[i]);
    }
  }

  lemma {:induction false} MapKeepsMultiset<T>(s: seq<T>, r: seq<T>, f: T -> T)
    requires multiset(s) == multiset(r)
    ensures multiset(MapSeq(f, s)) == multiset(MapSeq(f, r))
  {
    var pi := MultisetGivesMatching(s, r);
    MatchingGivesMultiset(MapSeq(f, s), MapSeq(f, r), pi);
  }

  lemma CanonicalNodesAreSame(s: seq<TopologyNode>)
    ensures Rearranged(s, MapSeq(CanonicalNode, SortBy(s, NodeLeq)), SameNode)
  {
    forall n: TopologyNode ensures SameNode(n, CanonicalNode(n)) { CanonicalNodeIsSame(n); }
    MapKeepsMultiset(SortBy(s, NodeLeq), s, CanonicalNode);
    MappedIsRearranged(s, CanonicalNode, MapSeq(CanonicalNode, SortBy(s, NodeLeq)), SameNode);
  }

  lemma CanonicalEdgesAreSame(s: seq<TopologyEdge>)
    ensures Rearranged(s, MapSeq(CanonicalEdge, SortBy(s, EdgeLeq)), SameEdge)
  {
    MapKeepsMultiset(SortBy(s, EdgeLeq), s, CanonicalEdge);
    MappedIsRearranged(s, CanonicalEdge, MapSeq(CanonicalEdge, SortBy(s, EdgeLeq)), SameEdge);
  }

  /** The canonical form of any topology is the topology itself with every list, at every depth,
      in dictionary order. */
  lemma CanonicalIsOrdered(t: ExecutionTopology)
    ensures SameUpToOrder(t, Canonical(t)) && InOrder(Canonical(t))
  {
    CanonicalNodesAreSame(t.nodes);
    CanonicalEdgesAreSame(t.edges);
    CanonicalNodesInOrder(t.nodes);
    CanonicalEdgesInOrder(t.edges);
    SortedStringsInOrder(t.verificationPolicyIds);
    SortedStringsInOrder(t.budgetPolicyIds);
    SortedStringsInOrder(t.expansionPolicyIds);
  }
}
