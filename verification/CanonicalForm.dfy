/** Canonical form of a topology: what it forgets (list order) and what it keeps
    (everything else). */
module CanonicalForm {
  import opened Machine
  import opened Orders
  import opened Topology

  // ------------------------------------------------------------- sort orders

  predicate InputLeq(a: NodeInput, b: NodeInput) { StringLeq(a.name, b.name) }

  predicate OutputLeq(a: NodeOutput, b: NodeOutput) { StringLeq(a.name, b.name) }

  predicate NodeLeq(a: TopologyNode, b: TopologyNode) { StringLeq(a.nodeId, b.nodeId) }

  predicate EdgeLeq(a: TopologyEdge, b: TopologyEdge) { StringLeq(a.edgeId, b.edgeId) }

  predicate GroupLeq(a: Option<string>, b: Option<string>) {
    a.None? || (b.Some? && StringLeq(a.value, b.value))
  }

  function ModeRank(m: ResourceMode): nat { match m case Read => 0 case Write => 1 case Exclusive => 2 }

  function StrategyRank(s: Option<WorkspaceStrategy>): nat {
    match s
    case None => 0
    case Some(Shared) => 1
    case Some(IsolatedWorktree) => 2
    case Some(Ephemeral) => 3
  }

  type ClaimKey = (string, (nat, (Option<string>, (nat, (seq<string>, seq<string>)))))

  function KeyOf(c: ResourceClaim): ClaimKey {
    (c.resource, (ModeRank(c.mode), (c.rateLimitGroup,
      (StrategyRank(c.workspaceStrategy), (c.networkScope, c.secretScope)))))
  }

  /** The derived field-by-field order of `ResourceClaim`. */
  predicate ClaimLeq(a: ResourceClaim, b: ResourceClaim) {
    PairLeq(StringLeq, PairLeq(NatLeq, PairLeq(GroupLeq, PairLeq(NatLeq,
      PairLeq(StringsLeq, StringsLeq)))))(KeyOf(a), KeyOf(b))
  }

  lemma GroupLeqIsOrder()
    ensures TotalOrder(GroupLeq)
  {
    StringLeqIsOrder();
  }

  lemma ClaimLeqIsOrder()
    ensures TotalOrder(ClaimLeq)
  {
    StringLeqIsOrder();
    StringsLeqIsOrder();
    GroupLeqIsOrder();
    assert TotalOrder(NatLeq);
    var k5 := PairLeq(StringsLeq, StringsLeq);
    PairLeqIsOrder(StringsLeq, StringsLeq);
    var k4 := PairLeq(NatLeq, k5);
    PairLeqIsOrder(NatLeq, k5);
    var k3 := PairLeq(GroupLeq, k4);
    PairLeqIsOrder(GroupLeq, k4);
    var k2 := PairLeq(NatLeq, k3);
    PairLeqIsOrder(NatLeq, k3);
    var k1 := PairLeq(StringLeq, k2);
    PairLeqIsOrder(StringLeq, k2);
    ClaimLeqFromKey(k1);
  }

  lemma ClaimLeqFromKey(k: (ClaimKey, ClaimKey) -> bool)
    requires TotalOrder(k)
    requires forall a, b :: ClaimLeq(a, b) == k(KeyOf(a), KeyOf(b))
    ensures TotalOrder(ClaimLeq)
  {
    forall a: ResourceClaim, b: ResourceClaim
      ensures ClaimLeq(a, b) || ClaimLeq(b, a)
      ensures ClaimLeq(a, b) && ClaimLeq(b, a) ==> a == b
    {
      assert k(KeyOf(a), KeyOf(b)) || k(KeyOf(b), KeyOf(a));
    }
    forall a: ResourceClaim, b: ResourceClaim, c: ResourceClaim | ClaimLeq(a, b) && ClaimLeq(b, c)
      ensures ClaimLeq(a, c) {
      assert k(KeyOf(a), KeyOf(b)) && k(KeyOf(b), KeyOf(c));
    }
  }

  lemma IdOrders()
    ensures TotalPreorder(InputLeq) && TotalPreorder(OutputLeq) && TotalPreorder(NodeLeq) && TotalPreorder(EdgeLeq)
  {
    StringLeqIsOrder();
  }

  // -------------------------------------------------------- canonical form

  function CanonicalClaim(c: ResourceClaim): ResourceClaim {
    c.(networkScope := SortBy(c.networkScope, StringLeq), secretScope := SortBy(c.secretScope, StringLeq))
  }

  function CanonicalNode(n: TopologyNode): TopologyNode {
    n.(inputs := SortBy(n.inputs, InputLeq),
       outputs := SortBy(n.outputs, OutputLeq),
       resourceClaims := SortBy(MapSeq(CanonicalClaim, n.resourceClaims), ClaimLeq))
  }

  function CanonicalEdge(e: TopologyEdge): TopologyEdge {
    e.(resourceScope := SortBy(e.resourceScope, StringLeq))
  }

  /** The normalized topology that is serialized and hashed. */
  function Canonical(t: ExecutionTopology): ExecutionTopology {
    t.(nodes := MapSeq(CanonicalNode, SortBy(t.nodes, NodeLeq)),
       edges := MapSeq(CanonicalEdge, SortBy(t.edges, EdgeLeq)),
       verificationPolicyIds := SortBy(t.verificationPolicyIds, StringLeq),
       budgetPolicyIds := SortBy(t.budgetPolicyIds, StringLeq),
       expansionPolicyIds := SortBy(t.expansionPolicyIds, StringLeq))
  }

  /** Source: the in-place normalization of `canonical_execution_topology`. */
  method Normalize(t: ExecutionTopology) returns (r: ExecutionTopology)
    ensures r == Canonical(t)
  {
    var nodes := NormalizeNodes(SortBy(t.nodes, NodeLeq));
    var edges := NormalizeEdges(SortBy(t.edges, EdgeLeq));
    r := t.(nodes := nodes, edges := edges,
            verificationPolicyIds := SortBy(t.verificationPolicyIds, StringLeq),
            budgetPolicyIds := SortBy(t.budgetPolicyIds, StringLeq),
            expansionPolicyIds := SortBy(t.expansionPolicyIds, StringLeq));
  }

  method NormalizeNodes(sorted: seq<TopologyNode>) returns (nodes: seq<TopologyNode>)
    ensures nodes == MapSeq(CanonicalNode, sorted)
  {
    nodes := sorted;
    for i := 0 to |sorted|
      invariant |nodes| == |sorted|
      invariant forall j :: 0 <= j < |sorted| ==> nodes[j] == if j < i then CanonicalNode(sorted[j]) else sorted[j]
    {
      var claims := NormalizeClaims(nodes[i].resourceClaims);
      nodes := nodes[i := nodes[i].(inputs := SortBy(nodes[i].inputs, InputLeq),
                                    outputs := SortBy(nodes[i].outputs, OutputLeq),
                                    resourceClaims := SortBy(claims, ClaimLeq))];
    }
  }

  method NormalizeClaims(given: seq<ResourceClaim>) returns (claims: seq<ResourceClaim>)
    ensures claims == MapSeq(CanonicalClaim, given)
  {
    claims := given;
    for k := 0 to |given|
      invariant |claims| == |given|
      invariant forall j :: 0 <= j < |given| ==> claims[j] == if j < k then CanonicalClaim(given[j]) else given[j]
    {
      claims := claims[k := claims[k].(networkScope := SortBy(claims[k].networkScope, StringLeq),
                                       secretScope := SortBy(claims[k].secretScope, StringLeq))];
    }
  }

  method NormalizeEdges(sorted: seq<TopologyEdge>) returns (edges: seq<TopologyEdge>)
    ensures edges == MapSeq(CanonicalEdge, sorted)
  {
    edges := sorted;
    for i := 0 to |sorted|
      invariant |edges| == |sorted|
      invariant forall j :: 0 <= j < |sorted| ==> edges[j] == if j < i then CanonicalEdge(sorted[j]) else sorted[j]
    {
      edges := edges[i := edges[i].(resourceScope := SortBy(edges[i].resourceScope, StringLeq))];
    }
  }

  // ------------------------------------------------ equality up to list order

  ghost predicate SameStrings(a: seq<string>, b: seq<string>) { multiset(a) == multiset(b) }

  ghost predicate SameClaim(a: ResourceClaim, b: ResourceClaim) {
    && b == a.(networkScope := b.networkScope, secretScope := b.secretScope)
    && SameStrings(a.networkScope, b.networkScope) && SameStrings(a.secretScope, b.secretScope)
  }

  ghost predicate SameNode(a: TopologyNode, b: TopologyNode) {
    && b == a.(inputs := b.inputs, outputs := b.outputs, resourceClaims := b.resourceClaims)
    && multiset(a.inputs) == multiset(b.inputs) && multiset(a.outputs) == multiset(b.outputs)
    && Rearranged(a.resourceClaims, b.resourceClaims, SameClaim)
  }

  ghost predicate SameEdge(a: TopologyEdge, b: TopologyEdge) {
    b == a.(resourceScope := b.resourceScope) && SameStrings(a.resourceScope, b.resourceScope)
  }

  /** The two topologies differ only in the order of their lists, at any depth. */
  ghost predicate SameUpToOrder(a: ExecutionTopology, b: ExecutionTopology) {
    && b == a.(nodes := b.nodes, edges := b.edges, verificationPolicyIds := b.verificationPolicyIds,
               budgetPolicyIds := b.budgetPolicyIds, expansionPolicyIds := b.expansionPolicyIds)
    && Rearranged(a.nodes, b.nodes, SameNode) && Rearranged(a.edges, b.edges, SameEdge)
    && SameStrings(a.verificationPolicyIds, b.verificationPolicyIds)
    && SameStrings(a.budgetPolicyIds, b.budgetPolicyIds)
    && SameStrings(a.expansionPolicyIds, b.expansionPolicyIds)
  }

  lemma SortedStringsEqual(a: seq<string>, b: seq<string>)
    ensures SameStrings(a, b) <==> SortBy(a, StringLeq) == SortBy(b, StringLeq)
  {
    StringLeqIsOrder();
    if SameStrings(a, b) { SortForgetsOrder(a, b, StringLeq); }
  }

  lemma SameClaimIffCanonical(a: ResourceClaim, b: ResourceClaim)
    ensures SameClaim(a, b) <==> CanonicalClaim(a) == CanonicalClaim(b)
  {
    SortedStringsEqual(a.networkScope, b.networkScope);
    SortedStringsEqual(a.secretScope, b.secretScope);
  }

  lemma ClaimsRearranged(a: seq<ResourceClaim>, b: seq<ResourceClaim>)
    ensures Rearranged(a, b, SameClaim) <==>
      SortBy(MapSeq(CanonicalClaim, a), ClaimLeq) == SortBy(MapSeq(CanonicalClaim, b), ClaimLeq)
  {
    ClaimLeqIsOrder();
    forall x: ResourceClaim, y: ResourceClaim ensures SameClaim(x, y) <==> CanonicalClaim(x) == CanonicalClaim(y) {
      SameClaimIffCanonical(x, y);
    }
    RearrangedIffMultiset(a, b, CanonicalClaim, SameClaim);
    var ca, cb := MapSeq(CanonicalClaim, a), MapSeq(CanonicalClaim, b);
    if multiset(ca) == multiset(cb) { SortForgetsOrder(ca, cb, ClaimLeq); }
  }

  lemma PortTies(n: TopologyNode)
    requires PortNamesUnique(n)
    ensures TiesAreEqual(InputLeq, n.inputs) && TiesAreEqual(OutputLeq, n.outputs)
  {
    StringLeqIsOrder();
    forall x, y | x in n.inputs && y in n.inputs && InputLeq(x, y) && InputLeq(y, x) ensures x == y {
      assert x.name == y.name;
    }
    forall x, y | x in n.outputs && y in n.outputs && OutputLeq(x, y) && OutputLeq(y, x) ensures x == y {
      assert x.name == y.name;
    }
  }

  /** Ports with one name are the same port. */
  ghost predicate PortsHarmless(n: TopologyNode) {
    TiesAreEqual(InputLeq, n.inputs) && TiesAreEqual(OutputLeq, n.outputs)
  }

  lemma SameNodeIffCanonical(a: TopologyNode, b: TopologyNode)
    requires PortsHarmless(a)
    ensures SameNode(a, b) <==> CanonicalNode(a) == CanonicalNode(b)
  {
    IdOrders();
    ClaimsRearranged(a.resourceClaims, b.resourceClaims);
    if SameNode(a, b) {
      SortForgetsOrder(a.inputs, b.inputs, InputLeq);
      SortForgetsOrder(a.outputs, b.outputs, OutputLeq);
    }
    if CanonicalNode(a) == CanonicalNode(b) {
      assert SortBy(a.inputs, InputLeq) == SortBy(b.inputs, InputLeq);
      assert SortBy(a.outputs, OutputLeq) == SortBy(b.outputs, OutputLeq);
    }
  }

  lemma SameEdgeIffCanonical(a: TopologyEdge, b: TopologyEdge)
    ensures SameEdge(a, b) <==> CanonicalEdge(a) == CanonicalEdge(b)
  {
    SortedStringsEqual(a.resourceScope, b.resourceScope);
  }

  /** Names within each list are distinct, as validation demands. */
  ghost predicate KeysUnique(t: ExecutionTopology) {
    && NodeIdsUnique(t.nodes) && EdgeIdsUnique(t.edges)
    && (forall i :: 0 <= i < |t.nodes| ==> PortNamesUnique(t.nodes[i]))
  }

  lemma ValidKeysUnique(t: ExecutionTopology)
    requires Valid(t)
    ensures KeysUnique(t)
  {
    forall i | 0 <= i < |t.nodes| ensures PortNamesUnique(t.nodes[i]) {
      assert ValidNode(t, t.nodes[i]);
    }
  }

  lemma NodeWithId(a: seq<TopologyNode>, x: TopologyNode, y: TopologyNode)
    requires NodeIdsUnique(a) && x in a && y in a && x.nodeId == y.nodeId
    ensures x == y
  {
  }

  lemma EdgeWithId(a: seq<TopologyEdge>, x: TopologyEdge, y: TopologyEdge)
    requires EdgeIdsUnique(a) && x in a && y in a && x.edgeId == y.edgeId
    ensures x == y
  {
  }

  lemma NodeTies(a: seq<TopologyNode>)
    requires NodeIdsUnique(a)
    ensures TiesAreEqual(NodeLeq, MapSeq(CanonicalNode, a))
  {
    forall x, y | x in a && y in a && NodeLeq(x, y) && NodeLeq(y, x) ensures x == y {
      AntisymmetricIds(x.nodeId, y.nodeId);
      NodeWithId(a, x, y);
    }
    TiesThroughMap(a, CanonicalNode, NodeLeq);
  }

  lemma EdgeTies(a: seq<TopologyEdge>)
    requires EdgeIdsUnique(a)
    ensures TiesAreEqual(EdgeLeq, MapSeq(CanonicalEdge, a))
  {
    forall x, y | x in a && y in a && EdgeLeq(x, y) && EdgeLeq(y, x) ensures x == y {
      AntisymmetricIds(x.edgeId, y.edgeId);
      EdgeWithId(a, x, y);
    }
    TiesThroughMap(a, CanonicalEdge, EdgeLeq);
  }

  lemma AntisymmetricIds(a: string, b: string)
    ensures StringLeq(a, b) && StringLeq(b, a) ==> a == b
  {
    StringLeqIsOrder();
  }

  lemma NodesRearranged(a: seq<TopologyNode>, b: seq<TopologyNode>)
    requires TiesAreEqual(NodeLeq, MapSeq(CanonicalNode, a)) && forall i :: 0 <= i < |a| ==> PortsHarmless(a[i])
    ensures Rearranged(a, b, SameNode) <==>
      MapSeq(CanonicalNode, SortBy(a, NodeLeq)) == MapSeq(CanonicalNode, SortBy(b, NodeLeq))
  {
    IdOrders();
    forall x: TopologyNode, y: TopologyNode | x in a && y in b
      ensures SameNode(x, y) <==> CanonicalNode(x) == CanonicalNode(y) {
      SameNodeIffCanonical(x, y);
    }
    RearrangedIffMultiset(a, b, CanonicalNode, SameNode);
    MapSort(CanonicalNode, a, NodeLeq, NodeLeq);
    MapSort(CanonicalNode, b, NodeLeq, NodeLeq);
    var ca, cb := MapSeq(CanonicalNode, a), MapSeq(CanonicalNode, b);
    if multiset(ca) == multiset(cb) { SortForgetsOrder(ca, cb, NodeLeq); }
  }

  lemma EdgesRearranged(a: seq<TopologyEdge>, b: seq<TopologyEdge>)
    requires TiesAreEqual(EdgeLeq, MapSeq(CanonicalEdge, a))
    ensures Rearranged(a, b, SameEdge) <==>
      MapSeq(CanonicalEdge, SortBy(a, EdgeLeq)) == MapSeq(CanonicalEdge, SortBy(b, EdgeLeq))
  {
    IdOrders();
    forall x: TopologyEdge, y: TopologyEdge ensures SameEdge(x, y) <==> CanonicalEdge(x) == CanonicalEdge(y) {
      SameEdgeIffCanonical(x, y);
    }
    RearrangedIffMultiset(a, b, CanonicalEdge, SameEdge);
    MapSort(CanonicalEdge, a, EdgeLeq, EdgeLeq);
    MapSort(CanonicalEdge, b, EdgeLeq, EdgeLeq);
    var ca, cb := MapSeq(CanonicalEdge, a), MapSeq(CanonicalEdge, b);
    if multiset(ca) == multiset(cb) { SortForgetsOrder(ca, cb, EdgeLeq); }
  }

  /** Entries with one sort key have one canonical form, in every list. */
  ghost predicate TiesHarmless(t: ExecutionTopology) {
    && TiesAreEqual(NodeLeq, MapSeq(CanonicalNode, t.nodes)) && TiesAreEqual(EdgeLeq, MapSeq(CanonicalEdge, t.edges))
    && (forall i :: 0 <= i < |t.nodes| ==> PortsHarmless(t.nodes[i]))
  }

  /** Unique ids and names, which validation demands, are enough. */
  lemma UniqueKeysAreHarmless(t: ExecutionTopology)
    requires KeysUnique(t)
    ensures TiesHarmless(t)
  {
    NodeTies(t.nodes);
    EdgeTies(t.edges);
    forall i | 0 <= i < |t.nodes| ensures PortsHarmless(t.nodes[i]) { PortTies(t.nodes[i]); }
  }

  /** The canonical form identifies a topology exactly up to list order: equal
      forms iff the topologies are rearrangements of each other. */
  lemma CanonicalIffSameUpToOrder(a: ExecutionTopology, b: ExecutionTopology)
    requires TiesHarmless(a)
    ensures Canonical(a) == Canonical(b) <==> SameUpToOrder(a, b)
  {
    NodesRearranged(a.nodes, b.nodes);
    EdgesRearranged(a.edges, b.edges);
    SortedStringsEqual(a.verificationPolicyIds, b.verificationPolicyIds);
    SortedStringsEqual(a.budgetPolicyIds, b.budgetPolicyIds);
    SortedStringsEqual(a.expansionPolicyIds, b.expansionPolicyIds);
  }

  lemma CanonicalClaimIdempotent(c: ResourceClaim)
    ensures CanonicalClaim(CanonicalClaim(c)) == CanonicalClaim(c)
  {
    StringLeqIsOrder();
    SortIdempotent(c.networkScope, StringLeq);
    SortIdempotent(c.secretScope, StringLeq);
  }

  lemma CanonicalNodeIdempotent(n: TopologyNode)
    ensures CanonicalNode(CanonicalNode(n)) == CanonicalNode(n)
  {
    IdOrders();
    ClaimLeqIsOrder();
    SortIdempotent(n.inputs, InputLeq);
    SortIdempotent(n.outputs, OutputLeq);
    SortedClaimsFixed(n.resourceClaims);
    SortIdempotent(MapSeq(CanonicalClaim, n.resourceClaims), ClaimLeq);
  }

  lemma SortedClaimsFixed(s: seq<ResourceClaim>)
    ensures MapSeq(CanonicalClaim, SortBy(MapSeq(CanonicalClaim, s), ClaimLeq)) ==
      SortBy(MapSeq(CanonicalClaim, s), ClaimLeq)
  {
    var claims := MapSeq(CanonicalClaim, s);
    forall i | 0 <= i < |claims| ensures CanonicalClaim(claims[i]) == claims[i] {
      CanonicalClaimIdempotent(s[i]);
    }
    FixedWhenRearranged(claims, SortBy(claims, ClaimLeq));
  }

  lemma FixedWhenRearranged(claims: seq<ResourceClaim>, sorted: seq<ResourceClaim>)
    requires multiset(claims) == multiset(sorted)
    requires forall i :: 0 <= i < |claims| ==> CanonicalClaim(claims[i]) == claims[i]
    ensures MapSeq(CanonicalClaim, sorted) == sorted
  {
    SameMultiset(sorted, claims);
    forall i | 0 <= i < |sorted| ensures CanonicalClaim(sorted[i]) == sorted[i] {
      assert sorted[i] in claims;
    }
  }

  /** Canonicalization is idempotent on every topology, valid or not. */
  lemma CanonicalIdempotent(t: ExecutionTopology)
    ensures Canonical(Canonical(t)) == Canonical(t)
  {
    IdOrders();
    StringLeqIsOrder();
    SortIdempotent(t.verificationPolicyIds, StringLeq);
    SortIdempotent(t.budgetPolicyIds, StringLeq);
    SortIdempotent(t.expansionPolicyIds, StringLeq);
    CanonicalNodesIdempotent(t.nodes);
    CanonicalEdgesIdempotent(t.edges);
  }

  lemma CanonicalNodesIdempotent(s: seq<TopologyNode>)
    ensures MapSeq(CanonicalNode, SortBy(MapSeq(CanonicalNode, SortBy(s, NodeLeq)), NodeLeq)) ==
      MapSeq(CanonicalNode, SortBy(s, NodeLeq))
  {
    IdOrders();
    var sorted := SortBy(s, NodeLeq);
    var once := MapSeq(CanonicalNode, sorted);
    MapSort(CanonicalNode, sorted, NodeLeq, NodeLeq);
    SortIdempotent(s, NodeLeq);
    assert SortBy(once, NodeLeq) == once;
    forall i | 0 <= i < |once| ensures CanonicalNode(once[i]) == once[i] {
      CanonicalNodeIdempotent(sorted[i]);
    }
    assert MapSeq(CanonicalNode, once) == once;
  }

  lemma CanonicalEdgesIdempotent(s: seq<TopologyEdge>)
    ensures MapSeq(CanonicalEdge, SortBy(MapSeq(CanonicalEdge, SortBy(s, EdgeLeq)), EdgeLeq)) ==
      MapSeq(CanonicalEdge, SortBy(s, EdgeLeq))
  {
    IdOrders();
    StringLeqIsOrder();
    var sorted := SortBy(s, EdgeLeq);
    var once := MapSeq(CanonicalEdge, sorted);
    MapSort(CanonicalEdge, sorted, EdgeLeq, EdgeLeq);
    SortIdempotent(s, EdgeLeq);
    assert SortBy(once, EdgeLeq) == once;
    forall i | 0 <= i < |once| ensures CanonicalEdge(once[i]) == once[i] {
      SortIdempotent(sorted[i].resourceScope, StringLeq);
    }
    assert MapSeq(CanonicalEdge, once) == once;
  }

  // ---------------------------------------------------- when list order shows

  /** The list with two entries exchanged. */
  function Swapped<T>(s: seq<T>, i: nat, j: nat): (r: seq<T>)
    requires i < |s| && j < |s|
    ensures |r| == |s| && r[i] == s[j] && r[j] == s[i]
    ensures forall k :: 0 <= k < |s| && k != i && k != j ==> r[k] == s[k]
  {
    s[i := s[j]][j := s[i]]
  }

  lemma SwappedMultiset<T>(s: seq<T>, i: nat, j: nat)
    requires i < |s| && j < |s|
    ensures multiset(Swapped(s, i, j)) == multiset(s)
  {
  }

  lemma SwapKeepsSorted<T(!new)>(s: seq<T>, i: nat, j: nat, leq: (T, T) -> bool)
    requires TotalPreorder(leq) && Sorted(leq, s) && i < |s| && j < |s| && leq(s[i], s[j]) && leq(s[j], s[i])
    ensures Sorted(leq, Swapped(s, i, j))
  {
    var r := Swapped(s, i, j);
    forall a, b | 0 <= a < b < |r| ensures leq(r[a], r[b]) {
      assert leq(s[a], s[b]);
      assert leq(r[a], s[a]) && leq(s[b], r[b]) by {
        assert leq(s[a], s[a]) && leq(s[b], s[b]);
      }
      assert leq(r[a], s[b]);
    }
  }

  /** An unequal tie gives two arrangements that sorting leaves apart. */
  lemma TieGivesTwoOrders<T(!new)>(s: seq<T>, leq: (T, T) -> bool, x: T, y: T) returns (a: seq<T>, b: seq<T>, k: nat)
    requires TotalPreorder(leq) && x in s && y in s && leq(x, y) && leq(y, x)
    ensures multiset(a) == multiset(s) == multiset(b) && SortBy(a, leq) == a && SortBy(b, leq) == b
    ensures k < |a| && |a| == |b| && a[k] == x && b[k] == y
  {
    a := SortBy(s, leq);
    SortBySorted(s, leq);
    SameMultiset(s, a);
    var i :| 0 <= i < |a| && a[i] == x;
    var j :| 0 <= j < |a| && a[j] == y;
    b, k := Swapped(a, i, j), i;
    SwappedMultiset(a, i, j);
    SwapKeepsSorted(a, i, j, leq);
    SortFixesSorted(a, leq);
    SortFixesSorted(b, leq);
  }

  lemma PermutationIsRearranged<T(!new)>(a: seq<T>, b: seq<T>, same: (T, T) -> bool)
    requires multiset(a) == multiset(b) && forall x :: x in a ==> same(x, x)
    ensures Rearranged(a, b, same)
  {
    var pi := MultisetGivesMatching(a, b);
  }

  lemma SameNodeReflexive(a: TopologyNode)
    ensures SameNode(a, a)
  {
    PermutationIsRearranged(a.resourceClaims, a.resourceClaims, SameClaim);
  }

  lemma SameUpToOrderLists(t: ExecutionTopology, nodes: seq<TopologyNode>, edges: seq<TopologyEdge>)
    requires multiset(nodes) == multiset(t.nodes) && multiset(edges) == multiset(t.edges)
    ensures SameUpToOrder(t, t.(nodes := nodes, edges := edges))
  {
    forall x | x in t.nodes ensures SameNode(x, x) { SameNodeReflexive(x); }
    PermutationIsRearranged(t.nodes, nodes, SameNode);
    PermutationIsRearranged(t.edges, edges, SameEdge);
  }

  ghost predicate OrderForgotten(t: ExecutionTopology) {
    forall b :: SameUpToOrder(t, b) ==> Canonical(t) == Canonical(b)
  }

  lemma ForgottenNodeTies(t: ExecutionTopology, x: TopologyNode, y: TopologyNode)
    requires OrderForgotten(t) && x in t.nodes && y in t.nodes && NodeLeq(x, y) && NodeLeq(y, x)
    ensures CanonicalNode(x) == CanonicalNode(y)
  {
    IdOrders();
    var a, b, k := TieGivesTwoOrders(t.nodes, NodeLeq, x, y);
    SameUpToOrderLists(t, a, t.edges);
    SameUpToOrderLists(t, b, t.edges);
    var ca, cb := Canonical(t.(nodes := a, edges := t.edges)), Canonical(t.(nodes := b, edges := t.edges));
    assert ca == cb;
    assert ca.nodes[k] == CanonicalNode(x) && cb.nodes[k] == CanonicalNode(y);
  }

  lemma ForgottenEdgeTies(t: ExecutionTopology, x: TopologyEdge, y: TopologyEdge)
    requires OrderForgotten(t) && x in t.edges && y in t.edges && EdgeLeq(x, y) && EdgeLeq(y, x)
    ensures CanonicalEdge(x) == CanonicalEdge(y)
  {
    IdOrders();
    var a, b, k := TieGivesTwoOrders(t.edges, EdgeLeq, x, y);
    SameUpToOrderLists(t, t.nodes, a);
    SameUpToOrderLists(t, t.nodes, b);
    var ca, cb := Canonical(t.(nodes := t.nodes, edges := a)), Canonical(t.(nodes := t.nodes, edges := b));
    assert ca == cb;
    assert ca.edges[k] == CanonicalEdge(x) && cb.edges[k] == CanonicalEdge(y);
  }

  lemma SameUpToOrderAt(t: ExecutionTopology, i: nat, n: TopologyNode)
    requires i < |t.nodes| && SameNode(t.nodes[i], n)
    ensures SameUpToOrder(t, t.(nodes := t.nodes[i := n]))
  {
    var pi: seq<nat> := seq(|t.nodes|, k => k);
    assert IsMatching(|t.nodes|, pi);
    forall k | 0 <= k < |t.nodes|
      ensures SameNode(t.nodes[k], t.nodes[i := n][pi[k]]) { SameNodeReflexive(t.nodes[k]); }
    PermutationIsRearranged(t.edges, t.edges, SameEdge);
  }

  /** Two versions of one node that canonicalization cannot tell apart in context are
      the same canonical node. */
  lemma ForgottenVersions(t: ExecutionTopology, i: nat, a: TopologyNode, b: TopologyNode)
    requires OrderForgotten(t) && i < |t.nodes| && SameNode(t.nodes[i], a) && SameNode(t.nodes[i], b)
    ensures CanonicalNode(a) == CanonicalNode(b)
  {
    SameUpToOrderAt(t, i, a);
    SameUpToOrderAt(t, i, b);
    assert Canonical(t.(nodes := t.nodes[i := a])) == Canonical(t.(nodes := t.nodes[i := b]));
    SameCanonicalNodes(t.nodes[i := a], t.nodes[i := b]);
    VersionsAgree(t.nodes, i, a, b);
  }

  lemma SameCanonicalNodes(s: seq<TopologyNode>, u: seq<TopologyNode>)
    requires MapSeq(CanonicalNode, SortBy(s, NodeLeq)) == MapSeq(CanonicalNode, SortBy(u, NodeLeq))
    ensures multiset(MapSeq(CanonicalNode, s)) == multiset(MapSeq(CanonicalNode, u))
  {
    MapSort(CanonicalNode, s, NodeLeq, NodeLeq);
    MapSort(CanonicalNode, u, NodeLeq, NodeLeq);
  }

  lemma VersionsAgree(nodes: seq<TopologyNode>, i: nat, a: TopologyNode, b: TopologyNode)
    requires i < |nodes|
    requires multiset(MapSeq(CanonicalNode, nodes[i := a])) == multiset(MapSeq(CanonicalNode, nodes[i := b]))
    ensures CanonicalNode(a) == CanonicalNode(b)
  {
    var ca, cb := MapSeq(CanonicalNode, nodes[i := a]), MapSeq(CanonicalNode, nodes[i := b]);
    assert cb == ca[i := CanonicalNode(b)];
    SameUpdate(ca, i, CanonicalNode(b));
  }

  lemma SameUpdate<T>(s: seq<T>, i: nat, x: T)
    requires i < |s| && multiset(s[i := x]) == multiset(s)
    ensures s[i] == x
  {
    assert multiset(s[i := x]) == multiset(s) - multiset{s[i]} + multiset{x};
    assert multiset(s)[s[i]] > 0 by { assert s[i] in s; }
  }

  lemma ForgottenPorts(t: ExecutionTopology, i: nat)
    requires OrderForgotten(t) && i < |t.nodes|
    ensures PortsHarmless(t.nodes[i])
  {
    IdOrders();
    var n := t.nodes[i];
    SameNodeReflexive(n);
    forall x, y | x in n.inputs && y in n.inputs && InputLeq(x, y) && InputLeq(y, x) ensures x == y {
      var a, b, k := TieGivesTwoOrders(n.inputs, InputLeq, x, y);
      ForgottenVersions(t, i, n.(inputs := a), n.(inputs := b));
      assert CanonicalNode(n.(inputs := a)).inputs[k] == x && CanonicalNode(n.(inputs := b)).inputs[k] == y;
    }
    forall x, y | x in n.outputs && y in n.outputs && OutputLeq(x, y) && OutputLeq(y, x) ensures x == y {
      var a, b, k := TieGivesTwoOrders(n.outputs, OutputLeq, x, y);
      ForgottenVersions(t, i, n.(outputs := a), n.(outputs := b));
      assert CanonicalNode(n.(outputs := a)).outputs[k] == x && CanonicalNode(n.(outputs := b)).outputs[k] == y;
    }
  }

  lemma TiesThroughMap<T(!new)>(s: seq<T>, f: T -> T, leq: (T, T) -> bool)
    requires forall x, y :: leq(f(x), f(y)) == leq(x, y)
    requires forall x, y :: x in s && y in s && leq(x, y) && leq(y, x) ==> f(x) == f(y)
    ensures TiesAreEqual(leq, MapSeq(f, s))
  {
    var m := MapSeq(f, s);
    forall x, y | x in m && y in m && leq(x, y) && leq(y, x) ensures x == y {
      var i :| 0 <= i < |m| && m[i] == x;
      var j :| 0 <= j < |m| && m[j] == y;
      assert s[i] in s && s[j] in s;
    }
  }

  lemma ForgottenTies(t: ExecutionTopology)
    requires OrderForgotten(t)
    ensures TiesHarmless(t)
  {
    forall x, y | x in t.nodes && y in t.nodes && NodeLeq(x, y) && NodeLeq(y, x)
      ensures CanonicalNode(x) == CanonicalNode(y)
    {
      ForgottenNodeTies(t, x, y);
    }
    forall x, y | x in t.edges && y in t.edges && EdgeLeq(x, y) && EdgeLeq(y, x)
      ensures CanonicalEdge(x) == CanonicalEdge(y)
    {
      ForgottenEdgeTies(t, x, y);
    }
    TiesThroughMap(t.nodes, CanonicalNode, NodeLeq);
    TiesThroughMap(t.edges, CanonicalEdge, EdgeLeq);
    forall i | 0 <= i < |t.nodes| ensures PortsHarmless(t.nodes[i]) { ForgottenPorts(t, i); }
  }

  /** List order is forgotten exactly when entries with one sort key have one canonical
      form: repeated ids are harmless if and only if the repeated entries agree. */
  lemma OrderForgottenIff(t: ExecutionTopology)
    ensures OrderForgotten(t) <==> TiesHarmless(t)
  {
    if TiesHarmless(t) {
      forall b | SameUpToOrder(t, b) ensures Canonical(t) == Canonical(b) { CanonicalIffSameUpToOrder(t, b); }
    }
    if OrderForgotten(t) { ForgottenTies(t); }
  }

  /** In particular two nodes with one id and different purposes make the order show. */
  lemma DuplicateIdsExposeOrder(t: ExecutionTopology, i: nat, j: nat)
    requires i < |t.nodes| && j < |t.nodes| && t.nodes[i].nodeId == t.nodes[j].nodeId &&
      t.nodes[i].purpose != t.nodes[j].purpose
    ensures !OrderForgotten(t)
  {
    IdOrders();
    if OrderForgotten(t) {
      ForgottenNodeTies(t, t.nodes[i], t.nodes[j]);
      assert false;
    }
  }
}
