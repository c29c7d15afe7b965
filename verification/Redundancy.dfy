/** Deleting several edges at once: when the linter's redundancy flags may be acted on
    together. */
module Redundancy {
  import opened Orders
  import opened Graphs
  import opened Kahn
  import opened Reachability
  import opened Topology
  import opened Lint
  import opened SmallTopologies

  /** The edge can be bypassed through a third node. */
  ghost predicate LongWay(n: nat, g: Graph, e: nat)
    requires e in g
  {
    exists p :: PathBetween(n, g, p, g[e].from, g[e].to) && |p| > 2
  }

  /** A parallel edge survives the deletion of `gone`. */
  ghost predicate TwinKept(g: Graph, gone: set<nat>, e: nat)
    requires e in g
  {
    exists d :: d in g - gone && g[d] == g[e]
  }

  ghost predicate EachReplaceable(n: nat, g: Graph, gone: set<nat>) {
    forall e :: e in g && e in gone ==> LongWay(n, g, e) || TwinKept(g, gone, e)
  }

  lemma TailPath(n: nat, g: Graph, p: seq<nat>)
    requires IsPath(n, g, p) && |p| > 1
    ensures IsPath(n, g, p[1..]) && Linked(g, p[0], p[1])
  {
    forall i | 0 <= i < |p[1..]| - 1 ensures Linked(g, p[1..][i], p[1..][i + 1]) {
      assert Linked(g, p[i + 1], p[i + 2]);
    }
  }

  lemma RankStep(n: nat, g: Graph, rank: seq<nat>, p: seq<nat>)
    requires IsRanking(n, g, rank) && IsPath(n, g, p) && |p| > 2
    ensures rank[p[0]] < rank[p[1]] < rank[p[|p| - 1]]
  {
    TailPath(n, g, p);
    RankGrowsAlongPath(n, g, rank, p[1..]);
  }

  ghost function Gap(low: nat, high: nat): nat {
    if low <= high then high - low else 0
  }

  /** A path of the full graph, arc by arc replaced by what is left. */
  lemma {:induction false} PathSurvives(n: nat, g: Graph, gone: set<nat>, rank: seq<nat>, p: seq<nat>)
    requires WellFormed(n, g) && IsRanking(n, g, rank) && EachReplaceable(n, g, gone) && IsPath(n, g, p) && |p| > 1
    ensures Reaches(n, g - gone, p[0], p[|p| - 1])
    decreases Gap(rank[p[0]], rank[p[|p| - 1]]), 1
  {
    TailPath(n, g, p);
    if |p| == 2 {
      ArcSurvives(n, g, gone, rank, p[0], p[1]);
    } else {
      RankStep(n, g, rank, p);
      ArcSurvives(n, g, gone, rank, p[0], p[1]);
      PathSurvives(n, g, gone, rank, p[1..]);
      ReachesTransitive(n, g - gone, p[0], p[1], p[|p| - 1]);
    }
  }

  lemma {:induction false} ArcSurvives(n: nat, g: Graph, gone: set<nat>, rank: seq<nat>, u: nat, v: nat)
    requires WellFormed(n, g) && IsRanking(n, g, rank) && EachReplaceable(n, g, gone) && u < n && v < n &&
      Linked(g, u, v)
    ensures Reaches(n, g - gone, u, v)
    decreases Gap(rank[u], rank[v]), 0
  {
    var e :| e in g && g[e] == Arc(u, v);
    if d :| d in g - gone && g[d] == Arc(u, v) {
      assert (g - gone)[d] == Arc(u, v);
      LinkReaches(n, g - gone, u, v);
    } else {
      assert LongWay(n, g, e);
      var p :| PathBetween(n, g, p, u, v) && |p| > 2;
      TailPath(n, g, p);
      RankStep(n, g, rank, p);
      ArcSurvives(n, g, gone, rank, p[0], p[1]);
      PathSurvives(n, g, gone, rank, p[1..]);
      ReachesTransitive(n, g - gone, p[0], p[1], v);
    }
  }

  lemma SurvivorIsReplacement(n: nat, g: Graph, gone: set<nat>, e: nat)
    requires e in g && Reaches(n, g - gone, g[e].from, g[e].to)
    ensures LongWay(n, g, e) || TwinKept(g, gone, e)
  {
    var p :| PathBetween(n, g - gone, p, g[e].from, g[e].to);
    if |p| == 2 {
      assert Linked(g - gone, p[0], p[1]);
      var d :| d in g - gone && (g - gone)[d] == Arc(p[0], p[1]);
      assert g[d] == g[e];
    } else {
      forall i | 0 <= i < |p| - 1 ensures Linked(g, p[i], p[i + 1]) { assert Linked(g - gone, p[i], p[i + 1]); }
      assert PathBetween(n, g, p, g[e].from, g[e].to);
    }
  }

  /** A set of edges of an acyclic graph can be deleted together exactly when each of
      them has a way round through a third node or a parallel edge that stays. */
  lemma JointlyDeletable(n: nat, g: Graph, gone: set<nat>)
    requires WellFormed(n, g) && Acyclic(n, g)
    ensures SameReachability(n, g, g - gone) <==> EachReplaceable(n, g, gone)
  {
    DeletableIffDetours(n, g, gone);
    if EachReplaceable(n, g, gone) {
      var rank := AcyclicHasRanking(n, g);
      forall e | e in g && e in gone ensures Reaches(n, g - gone, g[e].from, g[e].to) {
        assert g[e] == Arc(g[e].from, g[e].to);
        ArcSurvives(n, g, gone, rank, g[e].from, g[e].to);
      }
    }
    if Bypassed(n, g, gone) {
      forall e | e in g && e in gone ensures LongWay(n, g, e) || TwinKept(g, gone, e) {
        SurvivorIsReplacement(n, g, gone, e);
      }
    }
  }

  /** All arcs between three nodes. */
  const TRIANGLE: Graph := map[0 := Arc(0, 1), 1 := Arc(1, 2), 2 := Arc(2, 0), 3 := Arc(1, 0), 4 := Arc(2, 1),
                               5 := Arc(0, 2)]

  /** In a cyclic graph ways round are not enough: between three nodes every arc has one, and
      every arc is flagged, but nothing is left when all of them go. */
  lemma WaysRoundCanVanish()
    ensures forall e :: e in TRIANGLE ==> LongWay(3, TRIANGLE, e)
    ensures Flagged(3, TRIANGLE) == TRIANGLE.Keys && !SameReachability(3, TRIANGLE, TRIANGLE - Flagged(3, TRIANGLE))
  {
    forall e | e in TRIANGLE ensures LongWay(3, TRIANGLE, e) && Reaches(3, TRIANGLE - {e}, TRIANGLE[e].from,
      TRIANGLE[e].to) {
      TriangleWayRound(e);
    }
    assert TRIANGLE[0] == Arc(0, 1);
    assert Linked(TRIANGLE, 0, 1);
    LinkReaches(3, TRIANGLE, 0, 1);
    NothingReaches(3, 0, 1);
    assert TRIANGLE - TRIANGLE.Keys == map[];
  }

  lemma NothingReaches(n: nat, u: nat, v: nat)
    ensures !Reaches(n, map[], u, v)
  {
    forall p ensures !PathBetween(n, map[], p, u, v) {
      if |p| > 1 { assert !Linked(map[], p[0], p[1]); }
    }
  }

  lemma TriangleWayRound(e: nat)
    requires e in TRIANGLE
    ensures LongWay(3, TRIANGLE, e) && Reaches(3, TRIANGLE - {e}, TRIANGLE[e].from, TRIANGLE[e].to)
  {
    var a, b := TRIANGLE[e].from, TRIANGLE[e].to;
    var mid := 3 - a - b;
    var first, second := if e < 3 then 3 + (e + 2) % 3 else (e - 3 + 1) % 3,
                         if e < 3 then 3 + (e + 1) % 3 else (e - 3 + 2) % 3;
    assert TRIANGLE[first] == Arc(a, mid) && TRIANGLE[second] == Arc(mid, b) && first != e && second != e;
    var h := TRIANGLE - {e};
    assert h[first] == Arc(a, mid) && h[second] == Arc(mid, b);
    assert Linked(h, a, mid) && Linked(h, mid, b) && Linked(TRIANGLE, a, mid) && Linked(TRIANGLE, mid, b);
    assert PathBetween(3, TRIANGLE, [a, mid, b], a, b) && PathBetween(3, h, [a, mid, b], a, b);
  }

  // ----------------------------------------------------------------- one kind

  /** The edges of a one-kind graph that the linter flags. */
  ghost function Flagged(n: nat, h: Graph): set<nat> {
    set e | e in h && Reaches(n, h - {e}, h[e].from, h[e].to)
  }

  lemma TwinsAreFlagged(n: nat, h: Graph, d: nat, e: nat)
    requires WellFormed(n, h) && d in h && e in h && d != e && h[d] == h[e]
    ensures d in Flagged(n, h)
  {
    assert (h - {d})[e] == Arc(h[d].from, h[d].to);
    assert Linked(h - {d}, h[d].from, h[d].to);
    LinkReaches(n, h - {d}, h[d].from, h[d].to);
  }

  /** Within one kind, all flagged edges can go together exactly when each of them has a
      way round through a third node: bundles of parallel edges are the only obstacle. */
  lemma FlaggedJointlyDeletable(n: nat, h: Graph)
    requires WellFormed(n, h) && Acyclic(n, h)
    ensures SameReachability(n, h, h - Flagged(n, h)) <==> forall e :: e in Flagged(n, h) ==> LongWay(n, h, e)
  {
    var gone := Flagged(n, h);
    JointlyDeletable(n, h, gone);
    forall e | e in gone ensures !TwinKept(h, gone, e) {
      forall d | d in h && h[d] == h[e] ensures d in gone {
        if d != e { TwinsAreFlagged(n, h, d, e); }
      }
    }
  }

  /** Without parallel edges of one kind, which a caller can see from the edge list, the
      flagged edges can always go together. */
  lemma NoTwinsDeletable(n: nat, h: Graph)
    requires WellFormed(n, h) && Acyclic(n, h)
    requires forall d, e :: d in h && e in h && d != e ==> h[d] != h[e]
    ensures SameReachability(n, h, h - Flagged(n, h))
  {
    forall e | e in Flagged(n, h) ensures LongWay(n, h, e) {
      SurvivorIsReplacement(n, h, {e}, e);
      assert !TwinKept(h, {e}, e);
    }
    FlaggedJointlyDeletable(n, h);
  }

  // ------------------------------------------------------------------ topologies

  function KindsOf(t: ExecutionTopology): (kinds: seq<EdgeKind>)
    ensures |kinds| == |t.edges| && forall e :: 0 <= e < |t.edges| ==> kinds[e] == t.edges[e].kind
  {
    seq(|t.edges|, e requires 0 <= e < |t.edges| => t.edges[e].kind)
  }

  ghost function ArcsOfKind(t: ExecutionTopology, kind: EdgeKind): Graph {
    OfKind(ArcsOf(t), KindsOf(t), kind)
  }

  /** The edges reported as `redundant_reachability`. */
  ghost function FlaggedEdges(t: ExecutionTopology): set<nat> {
    set e | e in ArcsOf(t) && Redundant(|t.nodes|, ArcsOf(t), KindsOf(t), e)
  }

  lemma FlaggedOfKind(t: ExecutionTopology, kind: EdgeKind)
    ensures ArcsOfKind(t, kind) - FlaggedEdges(t) == ArcsOfKind(t, kind) - Flagged(|t.nodes|, ArcsOfKind(t, kind))
    ensures WellFormed(|t.nodes|, ArcsOfKind(t, kind))
    ensures forall e :: e in ArcsOfKind(t, kind) ==>
      (e in FlaggedEdges(t) <==> e in Flagged(|t.nodes|, ArcsOfKind(t, kind)))
  {
  }

  lemma {:induction false} SubgraphAcyclic(n: nat, h: Graph, g: Graph)
    requires Subgraph(h, g) && Acyclic(n, g)
    ensures Acyclic(n, h)
  {
    forall p ensures !IsCycle(n, h, p) {
      if IsCycle(n, h, p) {
        forall i | 0 <= i < |p| - 1 ensures Linked(g, p[i], p[i + 1]) { assert Linked(h, p[i], p[i + 1]); }
        assert IsCycle(n, g, p);
      }
    }
  }

  /** Acting on all flags of one kind keeps that kind's reachability exactly when every
      flagged edge of the kind has a way round of the same kind through a third node. */
  lemma FlagsOfKindDeletable(t: ExecutionTopology, kind: EdgeKind)
    ensures var h, flags := ArcsOfKind(t, kind), FlaggedEdges(t);
      && (SameReachability(|t.nodes|, h, h - flags) <==> Bypassed(|t.nodes|, h, flags))
      && (Acyclic(|t.nodes|, ArcsOf(t)) ==>
           (SameReachability(|t.nodes|, h, h - flags) <==>
             forall e :: e in h && e in flags ==> LongWay(|t.nodes|, h, e)))
  {
    var n, h := |t.nodes|, ArcsOfKind(t, kind);
    FlaggedOfKind(t, kind);
    DeletableIffDetours(n, h, FlaggedEdges(t));
    if Acyclic(n, ArcsOf(t)) {
      SubgraphAcyclic(n, h, ArcsOf(t));
      FlaggedJointlyDeletable(n, h);
    }
  }

  /** Acting on all flags at once keeps the reachability of the whole topology exactly
      when every flagged edge has a way round through a third node or an unflagged
      parallel edge of another kind. */
  lemma FlagsDeletable(t: ExecutionTopology)
    ensures var n, g, flags := |t.nodes|, ArcsOf(t), FlaggedEdges(t);
      && (SameReachability(n, g, g - flags) <==> Bypassed(n, g, flags))
      && (Acyclic(n, g) ==>
           (SameReachability(n, g, g - flags) <==>
             forall e :: e in flags ==> LongWay(n, g, e) || TwinKept(g, flags, e)))
  {
    ArcsWellFormed(t);
    DeletableIffDetours(|t.nodes|, ArcsOf(t), FlaggedEdges(t));
    if Acyclic(|t.nodes|, ArcsOf(t)) { JointlyDeletable(|t.nodes|, ArcsOf(t), FlaggedEdges(t)); }
  }

  /** Source: the redundant-edge pass of `lint_execution_topology`, as the edge indices it reports. */
  method RedundantEdges(t: ExecutionTopology, adjacency: seq<seq<Half>>) returns (flagged: seq<nat>)
    requires |adjacency| == |t.nodes| && IsAdjacency(|t.nodes|, ArcsOf(t), adjacency)
    ensures forall e :: e in flagged <==> e in FlaggedEdges(t)
    ensures forall i, j :: 0 <= i < j < |flagged| ==> flagged[i] < flagged[j]
  {
    flagged := [];
    ghost var flags := FlaggedEdges(t);
    for e := 0 to |t.edges|
      invariant FlagsUpTo(flags, e, flagged)
    {
      var redundant := IsRedundant(t, e, adjacency);
      NextFlag(flags, e, flagged);
      if redundant { flagged := flagged + [e]; }
    }
    AllFlags(t, flagged);
  }

  /** The flags below `k`, in increasing order. */
  ghost predicate FlagsUpTo(flags: set<nat>, k: nat, flagged: seq<nat>) {
    && (forall d :: d in flagged <==> d in flags && d < k)
    && (forall i, j :: 0 <= i < j < |flagged| ==> flagged[i] < flagged[j])
  }

  lemma NextFlag(flags: set<nat>, k: nat, flagged: seq<nat>)
    requires FlagsUpTo(flags, k, flagged)
    ensures FlagsUpTo(flags, k + 1, if k in flags then flagged + [k] else flagged)
  {
    assert forall i :: 0 <= i < |flagged| ==> flagged[i] in flagged;
  }

  lemma AllFlags(t: ExecutionTopology, flagged: seq<nat>)
    requires FlagsUpTo(FlaggedEdges(t), |t.edges|, flagged)
    ensures forall e :: e in flagged <==> e in FlaggedEdges(t)
  {
  }

  method IsRedundant(t: ExecutionTopology, e: nat, adjacency: seq<seq<Half>>) returns (redundant: bool)
    requires e < |t.edges| && |adjacency| == |t.nodes| && IsAdjacency(|t.nodes|, ArcsOf(t), adjacency)
    ensures redundant <==> e in FlaggedEdges(t)
  {
    var index, edge := NodeIndex(t.nodes), t.edges[e];
    if edge.from !in index || edge.to !in index { return false; }
    ghost var g := ArcsOf(t);
    ArcsWellFormed(t);
    assert Resolves(t, e) && g[e] == ArcAt(t, e);
    redundant := ReachableIgnoringEdgeOfKind(index[edge.from], index[edge.to], e, edge.kind, adjacency, KindsOf(t), g);
  }

  lemma FlagIsDeletable(t: ExecutionTopology, e: nat)
    requires e in FlaggedEdges(t)
    ensures SameReachability(|t.nodes|, ArcsOf(t), ArcsOf(t) - {e})
  {
    ArcsWellFormed(t);
    RedundantEdgeIsDeletable(|t.nodes|, ArcsOf(t), KindsOf(t), e);
  }

  lemma TwinsBothFlagged(t: ExecutionTopology, d: nat, e: nat)
    requires d != e && d in ArcsOf(t) && e in ArcsOf(t)
    requires ArcsOf(t)[d] == ArcsOf(t)[e] && t.edges[d].kind == t.edges[e].kind
    ensures d in FlaggedEdges(t)
  {
    var h := ArcsOfKind(t, t.edges[e].kind);
    FlaggedOfKind(t, t.edges[e].kind);
    assert d in h && e in h;
    TwinsAreFlagged(|t.nodes|, h, d, e);
  }

  // --------------------------------------------------------------------- witness

  /** Two nodes and two edges of one kind from the first to the second. */
  ghost predicate IsTwinPair(t: ExecutionTopology) {
    && |t.nodes| == 2 && t.nodes[0].nodeId != t.nodes[1].nodeId
    && |t.edges| == 2 && t.edges[0].kind == t.edges[1].kind
    && (forall e :: 0 <= e < 2 ==> t.edges[e].from == t.nodes[0].nodeId && t.edges[e].to == t.nodes[1].nodeId)
  }

  lemma TwinPairArcs(t: ExecutionTopology)
    requires IsTwinPair(t)
    ensures ArcsOf(t).Keys == {0, 1} && ArcsOf(t)[0] == ArcsOf(t)[1] == Arc(0, 1)
  {
    assert NodeIdsUnique(t.nodes);
    UniqueIndex(t.nodes, 0);
    UniqueIndex(t.nodes, 1);
    assert Resolves(t, 0) && Resolves(t, 1);
    assert ArcAt(t, 0) == Arc(0, 1) && ArcAt(t, 1) == Arc(0, 1);
  }

  lemma TwinPairHasNoWayRound(g: Graph)
    requires g.Keys == {0, 1} && g[0] == g[1] == Arc(0, 1)
    ensures Acyclic(2, g) && !LongWay(2, g, 0)
  {
    var rank: seq<nat> := [0, 1];
    assert IsRanking(2, g, rank);
    RankingIsAcyclic(2, g, rank);
    if LongWay(2, g, 0) {
      var p :| PathBetween(2, g, p, 0, 1) && |p| > 2;
      RankGrowsAlongPath(2, g, rank, p);
      assert false;
    }
  }

  lemma TwinPairFlagged(t: ExecutionTopology)
    requires IsTwinPair(t)
    ensures FlaggedEdges(t) == {0, 1}
  {
    TwinPairArcs(t);
    TwinsBothFlagged(t, 0, 1);
    TwinsBothFlagged(t, 1, 0);
  }

  lemma TwinPairFlags(t: ExecutionTopology)
    requires IsTwinPair(t)
    ensures Acyclic(2, ArcsOf(t)) && !SameReachability(2, ArcsOf(t), ArcsOf(t) - FlaggedEdges(t))
  {
    TwinPairArcs(t);
    var g := ArcsOf(t);
    TwinPairHasNoWayRound(g);
    TwinPairFlagged(t);
    JointlyDeletable(2, g, {0, 1});
  }

  function TwinPair(a: string, b: string, d: string, e: string): ExecutionTopology {
    Small([NodeNamed(a), NodeNamed(b)], [EdgeNamed(d, a, b), EdgeNamed(e, a, b)])
  }

  lemma TwinEntriesValid(t: ExecutionTopology, a: string, b: string, d: string, e: string)
    requires t == TwinPair(a, b, d, e) && Filled(a) && Filled(b) && Filled(d) && Filled(e) && a != b
    ensures EntriesValid(t)
  {
    NodeIsValid(t, a);
    NodeIsValid(t, b);
    EdgeIsValid(t, d, 0, 1);
    EdgeIsValid(t, e, 0, 1);
    assert t.nodes == [NodeNamed(a), NodeNamed(b)] && t.edges == [EdgeNamed(d, a, b), EdgeNamed(e, a, b)];
  }

  lemma TwinPairIsTwin(t: ExecutionTopology, a: string, b: string, d: string, e: string)
    requires t == TwinPair(a, b, d, e) && a != b && d != e
    ensures IsTwinPair(t) && t == Small(t.nodes, t.edges) && NodeIdsUnique(t.nodes) && EdgeIdsUnique(t.edges)
  {
    assert t.nodes == [NodeNamed(a), NodeNamed(b)] && t.edges == [EdgeNamed(d, a, b), EdgeNamed(e, a, b)];
  }

  /** A valid topology whose flags cannot all be acted on: between two nodes with two parallel
      edges of one kind both edges are flagged, either may go, and both may not. */
  lemma ValidFlagsCannotAllGo(t: ExecutionTopology, a: string, b: string, d: string, e: string)
    requires t == TwinPair(a, b, d, e)
    requires Filled(a) && Filled(b) && Filled(d) && Filled(e) && a != b && d != e
    ensures Valid(t) && Acyclic(2, ArcsOf(t)) && FlaggedEdges(t) == {0, 1}
    ensures SameReachability(2, ArcsOf(t), ArcsOf(t) - {0}) && SameReachability(2, ArcsOf(t), ArcsOf(t) - {1})
    ensures !SameReachability(2, ArcsOf(t), ArcsOf(t) - FlaggedEdges(t))
  {
    TwinPairIsTwin(t, a, b, d, e);
    TwinEntriesValid(t, a, b, d, e);
    SmallIsValid(t);
    TwinPairFlagged(t);
    TwinPairFlags(t);
    FlagIsDeletable(t, 0);
    FlagIsDeletable(t, 1);
  }
}
