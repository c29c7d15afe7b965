/** The linter's verdict, and the simulated time where nothing is scarce, do not depend on the
    order in which a topology lists its parts; in general the simulated time does. */
module LintOrder {
  import opened Orders
  import opened Topology
  import opened CanonicalForm
  import opened Rearrangement
  import opened Graphs
  import opened Renumbering
  import opened Lint
  import opened GraphSimulation

  /** Node `i` of `t` is node `pi[i]` of `u`. */
  ghost predicate NodesMatch(t: ExecutionTopology, u: ExecutionTopology, pi: seq<nat>) {
    && |t.nodes| == |u.nodes| && IsMatching(|t.nodes|, pi)
    && forall i :: 0 <= i < |t.nodes| ==> SameNode(t.nodes[i], u.nodes[pi[i]])
  }

  ghost predicate EdgesMatch(t: ExecutionTopology, u: ExecutionTopology, sigma: seq<nat>) {
    && |t.edges| == |u.edges| && IsMatching(|t.edges|, sigma)
    && forall e :: 0 <= e < |t.edges| ==> SameEdge(t.edges[e], u.edges[sigma[e]])
  }

  lemma ArcMoved(t: ExecutionTopology, u: ExecutionTopology, pi: seq<nat>, sigma: seq<nat>, e: nat)
    requires NodeIdsUnique(t.nodes) && NodeIdsUnique(u.nodes) && NodesMatch(t, u, pi) && EdgesMatch(t, u, sigma)
    requires e in ArcsOf(t)
    ensures e < |t.edges| && ArcsOf(t)[e].from < |t.nodes| && ArcsOf(t)[e].to < |t.nodes|
    ensures sigma[e] in ArcsOf(u) && ArcsOf(u)[sigma[e]] == Arc(pi[ArcsOf(t)[e].from], pi[ArcsOf(t)[e].to])
  {
    var arc := ArcsOf(t)[e];
    ArcsWellFormed(t);
    ArcByIds(t, e, arc.from, arc.to);
    ArcByIds(u, sigma[e], pi[arc.from], pi[arc.to]);
  }

  lemma ArcsCarried(t: ExecutionTopology, u: ExecutionTopology, pi: seq<nat>, sigma: seq<nat>)
    requires NodeIdsUnique(t.nodes) && NodeIdsUnique(u.nodes) && NodesMatch(t, u, pi) && EdgesMatch(t, u, sigma)
    ensures Carries(|t.nodes|, ArcsOf(t), ArcsOf(u), pi)
  {
    forall a: nat, b: nat | a < |t.nodes| && b < |t.nodes| && Linked(ArcsOf(t), a, b)
      ensures Linked(ArcsOf(u), pi[a], pi[b])
    {
      var e :| e in ArcsOf(t) && ArcsOf(t)[e] == Arc(a, b);
      ArcMoved(t, u, pi, sigma, e);
    }
  }

  /** The two topologies are the same graph under these numberings. */
  ghost predicate SameGraph(t: ExecutionTopology, u: ExecutionTopology, pi: seq<nat>, back: seq<nat>) {
    NodesMatch(t, u, pi) && NodesMatch(u, t, back) && Isomorphic(|t.nodes|, ArcsOf(t), ArcsOf(u), pi, back)
  }

  lemma MatchNodes(t: ExecutionTopology, u: ExecutionTopology) returns (pi: seq<nat>, back: seq<nat>)
    requires Rearranged(t.nodes, u.nodes, SameNode)
    ensures NodesMatch(t, u, pi) && NodesMatch(u, t, back)
    ensures forall v :: 0 <= v < |t.nodes| ==> back[pi[v]] == v && pi[back[v]] == v
  {
    pi :| IsMatching(|t.nodes|, pi) && forall i :: 0 <= i < |t.nodes| ==> SameNode(t.nodes[i], u.nodes[pi[i]]);
    back := InverseMatching(|t.nodes|, pi);
    forall j | 0 <= j < |u.nodes| ensures SameNode(u.nodes[j], t.nodes[back[j]]) {
      SameNodeSymmetric(t.nodes[back[j]], u.nodes[pi[back[j]]]);
    }
  }

  lemma MatchEdges(t: ExecutionTopology, u: ExecutionTopology) returns (sigma: seq<nat>, back: seq<nat>)
    requires Rearranged(t.edges, u.edges, SameEdge)
    ensures EdgesMatch(t, u, sigma) && EdgesMatch(u, t, back)
  {
    sigma :| IsMatching(|t.edges|, sigma) && forall e :: 0 <= e < |t.edges| ==>
      SameEdge(t.edges[e], u.edges[sigma[e]]);
    back := InverseMatching(|t.edges|, sigma);
    forall d | 0 <= d < |u.edges| ensures SameEdge(u.edges[d], t.edges[back[d]]) {
      assert SameEdge(t.edges[back[d]], u.edges[sigma[back[d]]]);
    }
  }

  lemma Renumber(t: ExecutionTopology, u: ExecutionTopology) returns (pi: seq<nat>, back: seq<nat>)
    requires SameUpToOrder(t, u) && NodeIdsUnique(t.nodes) && NodeIdsUnique(u.nodes)
    ensures SameGraph(t, u, pi, back)
  {
    var sigma, sigmaBack := MatchEdges(t, u);
    pi, back := MatchNodes(t, u);
    ArcsCarried(t, u, pi, sigma);
    ArcsCarried(u, t, back, sigmaBack);
  }

  // ------------------------------------------------------------------- conflicts

  lemma ClaimBack(a: TopologyNode, b: TopologyNode, c: ResourceClaim) returns (d: ResourceClaim)
    requires SameNode(a, b) && c in b.resourceClaims
    ensures d in a.resourceClaims && SameClaim(d, c)
  {
    var back := RearrangedBack(a.resourceClaims, b.resourceClaims, SameClaim);
    var j :| 0 <= j < |b.resourceClaims| && b.resourceClaims[j] == c;
    d := a.resourceClaims[back[j]];
  }

  lemma SharingKept(a: TopologyNode, b: TopologyNode, a': TopologyNode, b': TopologyNode)
    requires SameNode(a, a') && SameNode(b, b') && ShareSafely(a, b)
    ensures ShareSafely(a', b')
  {
    forall l, r | l in a'.resourceClaims && r in b'.resourceClaims && l.resource == r.resource ensures MayShare(l, r) {
      var l0 := ClaimBack(a, a', l);
      var r0 := ClaimBack(b, b', r);
      assert MayShare(l0, r0);
    }
  }

  lemma ConflictFreeKept(t: ExecutionTopology, u: ExecutionTopology, pi: seq<nat>, back: seq<nat>)
    requires SameGraph(t, u, pi, back) && ConflictFree(t)
    ensures ConflictFree(u)
  {
    ConflictFreeIffShareSafely(t);
    forall a: nat, b: nat | a < |u.nodes| && b < |u.nodes| && a != b && !Ordered(u, a, b)
      ensures ShareSafely(u.nodes[a], u.nodes[b])
    {
      assert back[a] != back[b];
      StillUnordered(t, u, pi, back, a, b);
      SharingKept(t.nodes[back[a]], t.nodes[back[b]], u.nodes[pi[back[a]]], u.nodes[pi[back[b]]]);
    }
    ConflictFreeIffShareSafely(u);
  }

  lemma StillUnordered(t: ExecutionTopology, u: ExecutionTopology, pi: seq<nat>, back: seq<nat>, a: nat, b: nat)
    requires SameGraph(t, u, pi, back) && a < |u.nodes| && b < |u.nodes| && !Ordered(u, a, b)
    ensures !Ordered(t, back[a], back[b])
  {
    var n := |t.nodes|;
    if Reaches(n, ArcsOf(t), back[a], back[b]) { ReachesCarried(n, ArcsOf(t), ArcsOf(u), pi, back[a], back[b]); }
    if Reaches(n, ArcsOf(t), back[b], back[a]) { ReachesCarried(n, ArcsOf(t), ArcsOf(u), pi, back[b], back[a]); }
  }

  // --------------------------------------------------------------------- the verdict

  lemma LintCleanKept(t: ExecutionTopology, u: ExecutionTopology)
    requires SameUpToOrder(t, u) && LintClean(t)
    ensures LintClean(u)
  {
    ValidForgetsOrder(t, u);
    var pi, back := Renumber(t, u);
    AcyclicCarriedBack(|t.nodes|, ArcsOf(u), ArcsOf(t), back);
    ConflictFreeKept(t, u, pi, back);
    forall j | 0 <= j < |u.nodes| && u.nodes[j].expansionPolicyId.Some? ensures u.nodes[j].budgetPolicyId.Some? {
      assert SameNode(u.nodes[j], t.nodes[back[j]]);
    }
  }

  /** Whether the linter finds a deterministic error does not depend on the order of any list,
      so the content hash that a review binds settles it. */
  lemma LintForgetsOrder(t: ExecutionTopology, u: ExecutionTopology)
    requires SameUpToOrder(t, u)
    ensures LintClean(t) <==> LintClean(u)
  {
    SameUpToOrderSymmetric(t, u);
    if LintClean(t) { LintCleanKept(t, u); }
    if LintClean(u) { LintCleanKept(u, t); }
  }
}
