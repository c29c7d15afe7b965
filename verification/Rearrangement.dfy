/** What a rearrangement of a topology keeps: validity, in both directions. */
module Rearrangement {
  import opened Orders
  import opened Topology
  import opened CanonicalForm

  // ------------------------------------------------------------------ both ways

  /** The correspondence read from the other side. */
  lemma InverseMatching(n: nat, pi: seq<nat>) returns (back: seq<nat>)
    requires IsMatching(n, pi)
    ensures IsMatching(n, back) && forall j :: 0 <= j < n ==> pi[back[j]] == j
    ensures forall i :: 0 <= i < n ==> back[pi[i]] == i
  {
    var positions: seq<nat> := seq(n, k => k);
    MatchingGivesMultiset(pi, positions, pi);
    back := MultisetGivesMatching(positions, pi);
    forall i | 0 <= i < n ensures back[pi[i]] == i {
      assert pi[back[pi[i]]] == pi[i];
    }
  }

  /** For every entry of the rearranged list, the entry it comes from. */
  lemma RearrangedBack<T(!new)>(a: seq<T>, b: seq<T>, same: (T, T) -> bool) returns (back: seq<nat>)
    requires Rearranged(a, b, same)
    ensures |a| == |b| && IsMatching(|a|, back) && forall j :: 0 <= j < |b| ==> same(a[back[j]], b[j])
  {
    var pi :| IsMatching(|a|, pi) && forall i :: 0 <= i < |a| ==> same(a[i], b[pi[i]]);
    back := InverseMatching(|a|, pi);
    forall j | 0 <= j < |b| ensures same(a[back[j]], b[j]) {
      assert b[pi[back[j]]] == b[j];
    }
  }

  lemma RearrangedSymmetric<T(!new)>(a: seq<T>, b: seq<T>, same: (T, T) -> bool)
    requires Rearranged(a, b, same) && forall x, y :: same(x, y) ==> same(y, x)
    ensures Rearranged(b, a, same)
  {
    var back := RearrangedBack(a, b, same);
  }

  lemma SameClaimSymmetric(a: ResourceClaim, b: ResourceClaim)
    ensures SameClaim(a, b) ==> SameClaim(b, a)
  {
  }

  lemma SameNodeSymmetric(a: TopologyNode, b: TopologyNode)
    requires SameNode(a, b)
    ensures SameNode(b, a)
  {
    forall x: ResourceClaim, y: ResourceClaim | SameClaim(x, y) ensures SameClaim(y, x) { SameClaimSymmetric(x, y); }
    RearrangedSymmetric(a.resourceClaims, b.resourceClaims, SameClaim);
  }

  lemma SameUpToOrderSymmetric(t: ExecutionTopology, u: ExecutionTopology)
    requires SameUpToOrder(t, u)
    ensures SameUpToOrder(u, t)
  {
    forall x: TopologyNode, y: TopologyNode | SameNode(x, y) ensures SameNode(y, x) { SameNodeSymmetric(x, y); }
    RearrangedSymmetric(t.nodes, u.nodes, SameNode);
    RearrangedSymmetric(t.edges, u.edges, SameEdge);
  }

  // -------------------------------------------------------------------- validity

  lemma SameRepeats(s: seq<string>, t: seq<string>)
    requires multiset(s) == multiset(t)
    ensures NoRepeats(s) <==> NoRepeats(t)
  {
    if NoRepeats(s) { NoRepeatsIsMultiset(s, t); }
    if NoRepeats(t) { NoRepeatsIsMultiset(t, s); }
  }

  lemma SameFilled(s: seq<string>, t: seq<string>)
    requires multiset(s) == multiset(t)
    ensures AllFilled(s) <==> AllFilled(t)
  {
    SameMultiset(s, t);
    assert forall i :: 0 <= i < |s| ==> s[i] in t;
    assert forall i :: 0 <= i < |t| ==> t[i] in s;
  }

  lemma ValidClaimKept(c: ResourceClaim, d: ResourceClaim)
    requires ValidClaim(c) && SameClaim(c, d)
    ensures ValidClaim(d)
  {
    SameFilled(c.networkScope, d.networkScope);
    SameFilled(c.secretScope, d.secretScope);
  }

  lemma PortNamesKept(x: TopologyNode, y: TopologyNode)
    requires PortNamesUnique(x)
    requires multiset(x.inputs) == multiset(y.inputs) && multiset(x.outputs) == multiset(y.outputs)
    ensures PortNamesUnique(y)
  {
    var ins := MultisetGivesMatching(y.inputs, x.inputs);
    forall i, j | 0 <= i < j < |y.inputs| ensures y.inputs[i].name != y.inputs[j].name { assert ins[i] != ins[j]; }
    var outs := MultisetGivesMatching(y.outputs, x.outputs);
    forall i, j | 0 <= i < j < |y.outputs| ensures y.outputs[i].name != y.outputs[j].name { assert outs[i] != outs[j]; }
  }

  lemma ClaimsKept(x: TopologyNode, y: TopologyNode)
    requires SameNode(x, y) && forall i :: 0 <= i < |x.resourceClaims| ==> ValidClaim(x.resourceClaims[i])
    ensures forall i :: 0 <= i < |y.resourceClaims| ==> ValidClaim(y.resourceClaims[i])
  {
    var back := RearrangedBack(x.resourceClaims, y.resourceClaims, SameClaim);
    forall j | 0 <= j < |y.resourceClaims| ensures ValidClaim(y.resourceClaims[j]) {
      ValidClaimKept(x.resourceClaims[back[j]], y.resourceClaims[j]);
    }
  }

  lemma PortsKept(x: TopologyNode, y: TopologyNode)
    requires multiset(x.inputs) == multiset(y.inputs) && multiset(x.outputs) == multiset(y.outputs)
    ensures (forall v :: v in x.inputs <==> v in y.inputs) && (forall v :: v in x.outputs <==> v in y.outputs)
  {
    SameMultiset(x.inputs, y.inputs);
    SameMultiset(x.outputs, y.outputs);
  }

  /** The policy lists of the two topologies declare the same ids. */
  ghost predicate SamePolicies(t: ExecutionTopology, u: ExecutionTopology) {
    && SameStrings(t.verificationPolicyIds, u.verificationPolicyIds)
    && SameStrings(t.budgetPolicyIds, u.budgetPolicyIds)
    && SameStrings(t.expansionPolicyIds, u.expansionPolicyIds)
  }

  lemma DeclaredKept(reference: seq<string>, known: seq<string>, id: string)
    requires SameStrings(reference, known) && id in reference
    ensures id in known
  {
    SameMultiset(reference, known);
  }

  lemma ValidNodeKept(t: ExecutionTopology, u: ExecutionTopology, x: TopologyNode, y: TopologyNode)
    requires ValidNode(t, x) && SameNode(x, y) && SamePolicies(t, u)
    ensures ValidNode(u, y)
  {
    PortNamesKept(x, y);
    PortsKept(x, y);
    ClaimsKept(x, y);
    if y.verificationPolicyId.Some? {
      DeclaredKept(t.verificationPolicyIds, u.verificationPolicyIds, y.verificationPolicyId.value);
    }
    if y.budgetPolicyId.Some? { DeclaredKept(t.budgetPolicyIds, u.budgetPolicyIds, y.budgetPolicyId.value); }
    if y.expansionPolicyId.Some? {
      DeclaredKept(t.expansionPolicyIds, u.expansionPolicyIds, y.expansionPolicyId.value);
    }
    forall i | 0 <= i < |y.inputs|
      ensures Filled(y.inputs[i].name) && Filled(y.inputs[i].schemaId) && Filled(y.inputs[i].artifactSelector) {
      assert y.inputs[i] in x.inputs;
    }
    forall i | 0 <= i < |y.outputs| ensures Filled(y.outputs[i].name) && Filled(y.outputs[i].schemaId) {
      assert y.outputs[i] in x.outputs;
    }
  }

  lemma ClaimsResourceKept(x: TopologyNode, y: TopologyNode, resource: string)
    requires SameNode(x, y) && Claims(x, resource)
    ensures Claims(y, resource)
  {
    var pi :| IsMatching(|x.resourceClaims|, pi) && forall i :: 0 <= i < |x.resourceClaims| ==>
      SameClaim(x.resourceClaims[i], y.resourceClaims[pi[i]]);
    var i :| 0 <= i < |x.resourceClaims| && x.resourceClaims[i].resource == resource;
    assert y.resourceClaims[pi[i]].resource == resource;
  }

  lemma BindingKept(e: TopologyEdge, f: TopologyEdge, a: TopologyNode, b: TopologyNode, a': TopologyNode,
      b': TopologyNode)
    requires SameEdge(e, f) && SameNode(a, a') && SameNode(b, b') && ValidDataBinding(e, a, b)
    ensures ValidDataBinding(f, a', b')
  {
    PortsKept(a, a');
    PortsKept(b, b');
    var i :| 0 <= i < |b.inputs| && b.inputs[i].name == e.input.value && b.inputs[i].schemaId == e.schemaId.value;
    assert b.inputs[i] in b'.inputs;
    var j :| 0 <= j < |b'.inputs| && b'.inputs[j] == b.inputs[i];
  }

  lemma ExclusionKept(e: TopologyEdge, f: TopologyEdge, a: TopologyNode, a': TopologyNode)
    requires SameEdge(e, f) && SameNode(a, a')
    requires forall i :: 0 <= i < |e.resourceScope| ==> Claims(a, e.resourceScope[i])
    ensures forall i :: 0 <= i < |f.resourceScope| ==> Claims(a', f.resourceScope[i])
    ensures e.resourceScope != [] ==> f.resourceScope != []
  {
    SameMultiset(e.resourceScope, f.resourceScope);
    forall i | 0 <= i < |f.resourceScope| ensures Claims(a', f.resourceScope[i]) {
      assert f.resourceScope[i] in e.resourceScope;
      ClaimsResourceKept(a, a', f.resourceScope[i]);
    }
  }

  lemma EdgeBetweenKept(e: TopologyEdge, f: TopologyEdge, a: TopologyNode, b: TopologyNode, a': TopologyNode,
      b': TopologyNode)
    requires SameEdge(e, f) && SameNode(a, a') && SameNode(b, b') && ValidEdgeBetween(e, a, b)
    ensures ValidEdgeBetween(f, a', b')
  {
    match e.kind
    case Data => BindingKept(e, f, a, b, a', b');
    case ResourceExclusion => ExclusionKept(e, f, a, a'); ExclusionKept(e, f, b, b');
    case _ =>
  }

  lemma ValidEdgeKept(t: ExecutionTopology, u: ExecutionTopology, e: TopologyEdge, f: TopologyEdge)
    requires ValidEdge(t, e) && SameEdge(e, f) && Rearranged(t.nodes, u.nodes, SameNode)
    ensures ValidEdge(u, f)
  {
    var pi :| IsMatching(|t.nodes|, pi) && forall i :: 0 <= i < |t.nodes| ==> SameNode(t.nodes[i], u.nodes[pi[i]]);
    var i, j :| 0 <= i < |t.nodes| && 0 <= j < |t.nodes| && t.nodes[i].nodeId == e.from &&
      t.nodes[j].nodeId == e.to && ValidEdgeBetween(e, t.nodes[i], t.nodes[j]);
    EdgeBetweenKept(e, f, t.nodes[i], t.nodes[j], u.nodes[pi[i]], u.nodes[pi[j]]);
    SameFilled(e.resourceScope, f.resourceScope);
    assert u.nodes[pi[i]].nodeId == f.from && u.nodes[pi[j]].nodeId == f.to;
  }

  lemma NodesKept(t: ExecutionTopology, u: ExecutionTopology)
    requires Rearranged(t.nodes, u.nodes, SameNode) && SamePolicies(t, u) && NodeIdsUnique(t.nodes)
    requires forall i :: 0 <= i < |t.nodes| ==> ValidNode(t, t.nodes[i])
    ensures NodeIdsUnique(u.nodes) && forall i :: 0 <= i < |u.nodes| ==> ValidNode(u, u.nodes[i])
  {
    var back := RearrangedBack(t.nodes, u.nodes, SameNode);
    forall i, j | 0 <= i < j < |u.nodes| ensures u.nodes[i].nodeId != u.nodes[j].nodeId { assert back[i] != back[j]; }
    forall j | 0 <= j < |u.nodes| ensures ValidNode(u, u.nodes[j]) {
      ValidNodeKept(t, u, t.nodes[back[j]], u.nodes[j]);
    }
  }

  lemma EdgesKept(t: ExecutionTopology, u: ExecutionTopology)
    requires Rearranged(t.nodes, u.nodes, SameNode) && Rearranged(t.edges, u.edges, SameEdge) && EdgeIdsUnique(t.edges)
    requires forall i :: 0 <= i < |t.edges| ==> ValidEdge(t, t.edges[i])
    ensures EdgeIdsUnique(u.edges) && forall i :: 0 <= i < |u.edges| ==> ValidEdge(u, u.edges[i])
  {
    var back := RearrangedBack(t.edges, u.edges, SameEdge);
    forall i, j | 0 <= i < j < |u.edges| ensures u.edges[i].edgeId != u.edges[j].edgeId { assert back[i] != back[j]; }
    forall j | 0 <= j < |u.edges| ensures ValidEdge(u, u.edges[j]) {
      ValidEdgeKept(t, u, t.edges[back[j]], u.edges[j]);
    }
  }

  lemma PoliciesKept(t: ExecutionTopology, u: ExecutionTopology)
    requires SamePolicies(t, u)
    ensures NoRepeats(t.verificationPolicyIds) ==> NoRepeats(u.verificationPolicyIds)
    ensures NoRepeats(t.budgetPolicyIds) ==> NoRepeats(u.budgetPolicyIds)
    ensures NoRepeats(t.expansionPolicyIds) ==> NoRepeats(u.expansionPolicyIds)
    ensures AllFilled(t.verificationPolicyIds) ==> AllFilled(u.verificationPolicyIds)
    ensures AllFilled(t.budgetPolicyIds) ==> AllFilled(u.budgetPolicyIds)
    ensures AllFilled(t.expansionPolicyIds) ==> AllFilled(u.expansionPolicyIds)
  {
    SameRepeats(t.verificationPolicyIds, u.verificationPolicyIds);
    SameRepeats(t.budgetPolicyIds, u.budgetPolicyIds);
    SameRepeats(t.expansionPolicyIds, u.expansionPolicyIds);
    SameFilled(t.verificationPolicyIds, u.verificationPolicyIds);
    SameFilled(t.budgetPolicyIds, u.budgetPolicyIds);
    SameFilled(t.expansionPolicyIds, u.expansionPolicyIds);
  }

  /** Validation does not depend on the order of any list. */
  lemma ValidForgetsOrder(t: ExecutionTopology, u: ExecutionTopology)
    requires SameUpToOrder(t, u)
    ensures Valid(t) <==> Valid(u)
  {
    SameUpToOrderSymmetric(t, u);
    if Valid(t) { ValidKept(t, u); }
    if Valid(u) { ValidKept(u, t); }
  }

  lemma ValidKept(t: ExecutionTopology, u: ExecutionTopology)
    requires SameUpToOrder(t, u) && Valid(t)
    ensures Valid(u)
  {
    PoliciesKept(t, u);
    NodesKept(t, u);
    EdgesKept(t, u);
  }

  // -------------------------------------------------------- one arrangement only

  predicate AllAlike<T(==)>(s: seq<T>) {
    forall i, j :: 0 <= i < |s| && 0 <= j < |s| ==> s[i] == s[j]
  }

  /** Each list inside the node repeats a single entry, or is empty. */
  predicate OneArrangement(n: TopologyNode) {
    && AllAlike(n.inputs) && AllAlike(n.outputs) && AllAlike(n.resourceClaims)
    && forall i :: 0 <= i < |n.resourceClaims| ==>
         AllAlike(n.resourceClaims[i].networkScope) && AllAlike(n.resourceClaims[i].secretScope)
  }

  lemma {:induction false} AlikeFixed<T>(s: seq<T>, t: seq<T>)
    requires AllAlike(s) && multiset(s) == multiset(t)
    ensures s == t
  {
    SameMultiset(s, t);
    forall i | 0 <= i < |s| ensures s[i] == t[i] {
      assert t[i] in s;
    }
  }

  /** A list with two different entries can be rearranged. */
  lemma Unalike<T>(s: seq<T>) returns (t: seq<T>)
    requires !AllAlike(s)
    ensures multiset(s) == multiset(t) && s != t
  {
    var i, j :| 0 <= i < |s| && 0 <= j < |s| && s[i] != s[j];
    t := Swapped(s, i, j);
    SwappedMultiset(s, i, j);
  }

  lemma ClaimsFixed(s: seq<ResourceClaim>, t: seq<ResourceClaim>)
    requires AllAlike(s) && Rearranged(s, t, SameClaim)
    requires forall i :: 0 <= i < |s| ==> AllAlike(s[i].networkScope) && AllAlike(s[i].secretScope)
    ensures s == t
  {
    var back := RearrangedBack(s, t, SameClaim);
    forall j | 0 <= j < |t| ensures s[j] == t[j] {
      AlikeFixed(s[back[j]].networkScope, t[j].networkScope);
      AlikeFixed(s[back[j]].secretScope, t[j].secretScope);
    }
  }

  lemma ClaimChanged(s: seq<ResourceClaim>, i: nat, c: ResourceClaim)
    requires i < |s| && SameClaim(s[i], c)
    ensures Rearranged(s, s[i := c], SameClaim)
  {
    var pi: seq<nat> := seq(|s|, k => k);
    assert IsMatching(|s|, pi);
    assert forall k :: 0 <= k < |s| ==> SameClaim(s[k], s[i := c][pi[k]]);
  }

  /** A node that has two arrangements, and another one of them. */
  lemma OtherArrangement(n: TopologyNode) returns (m: TopologyNode)
    requires !OneArrangement(n)
    ensures SameNode(n, m) && m != n
  {
    SameNodeReflexive(n);
    if !AllAlike(n.inputs) {
      var s := Unalike(n.inputs);
      m := n.(inputs := s);
    } else if !AllAlike(n.outputs) {
      var s := Unalike(n.outputs);
      m := n.(outputs := s);
    } else {
      var s := OtherClaims(n.resourceClaims);
      m := n.(resourceClaims := s);
    }
  }

  lemma OtherClaims(s: seq<ResourceClaim>) returns (t: seq<ResourceClaim>)
    requires !(AllAlike(s) && forall i :: 0 <= i < |s| ==> AllAlike(s[i].networkScope) && AllAlike(s[i].secretScope))
    ensures Rearranged(s, t, SameClaim) && s != t
  {
    if !AllAlike(s) {
      t := Unalike(s);
      PermutationIsRearranged(s, t, SameClaim);
    } else {
      var i :| 0 <= i < |s| && !(AllAlike(s[i].networkScope) && AllAlike(s[i].secretScope));
      var c := s[i];
      if !AllAlike(c.networkScope) {
        var scope := Unalike(c.networkScope);
        c := c.(networkScope := scope);
      } else {
        var scope := Unalike(c.secretScope);
        c := c.(secretScope := scope);
      }
      t := s[i := c];
      ClaimChanged(s, i, c);
    }
  }

  /** A node is its own only rearrangement exactly when its lists repeat single entries. */
  lemma OneArrangementIff(n: TopologyNode)
    ensures OneArrangement(n) <==> forall m :: SameNode(n, m) ==> m == n
  {
    if OneArrangement(n) {
      forall m | SameNode(n, m) ensures m == n {
        AlikeFixed(n.inputs, m.inputs);
        AlikeFixed(n.outputs, m.outputs);
        ClaimsFixed(n.resourceClaims, m.resourceClaims);
      }
    } else {
      var m := OtherArrangement(n);
    }
  }

  lemma OneEdgeArrangementIff(e: TopologyEdge)
    ensures AllAlike(e.resourceScope) <==> forall f :: SameEdge(e, f) ==> f == e
  {
    if AllAlike(e.resourceScope) {
      forall f | SameEdge(e, f) ensures f == e { AlikeFixed(e.resourceScope, f.resourceScope); }
    } else {
      var s := Unalike(e.resourceScope);
      assert SameEdge(e, e.(resourceScope := s));
    }
  }
}
