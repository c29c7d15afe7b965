/** The linter's breadth-first searches and the redundant-edge pass built on them. */
module Reachability {
  import opened Graphs
  import opened Kahn
  import opened Orders

  /** The arcs a search may use. */
  ghost function Kept(g: Graph, keep: nat -> bool): Graph {
    map e | e in g && keep(e) :: g[e]
  }

  ghost predicate SearchInv(n: nat, h: Graph, from: nat, to: nat, seen: seq<bool>, queue: seq<nat>,
      expanded: set<nat>) {
    && |seen| == n && from < n && seen[from]
    && (forall v :: v in expanded ==> v < n && seen[v])
    && (forall v :: v in queue ==> v < n && seen[v] && v !in expanded)
    && NoRepeats(queue)
    && (forall v: nat :: v < n && seen[v] ==> v in expanded || v in queue)
    && (forall v: nat :: v < n && seen[v] ==> v == from || Reaches(n, h, from, v))
    && (forall e :: e in h && h[e].from in expanded ==> h[e].to != to && h[e].to < n && seen[h[e].to])
  }

  /** A search that ran dry without meeting `to` has explored a closed set. */
  lemma {:induction false} ClosedSearch(n: nat, h: Graph, from: nat, to: nat, seen: seq<bool>, expanded: set<nat>,
      p: seq<nat>)
    requires SearchInv(n, h, from, to, seen, [], expanded)
    requires IsPath(n, h, p) && p[0] in expanded
    ensures p[|p| - 1] in expanded && (|p| > 1 ==> p[|p| - 1] != to)
  {
    if |p| > 1 {
      assert Linked(h, p[0], p[1]);
      assert p[1] in expanded;
      forall i | 0 <= i < |p| - 2 ensures Linked(h, p[1..][i], p[1..][i + 1]) {
        assert Linked(h, p[i + 1], p[i + 2]);
      }
      ClosedSearch(n, h, from, to, seen, expanded, p[1..]);
    }
  }

  lemma NotFound(n: nat, h: Graph, from: nat, to: nat, seen: seq<bool>, expanded: set<nat>)
    requires SearchInv(n, h, from, to, seen, [], expanded)
    ensures !Reaches(n, h, from, to)
  {
    if Reaches(n, h, from, to) {
      var p :| PathBetween(n, h, p, from, to);
      assert from in expanded;
      ClosedSearch(n, h, from, to, seen, expanded, p);
      assert false;
    }
  }

  lemma StepReaches(n: nat, h: Graph, from: nat, u: nat, v: nat)
    requires from < n && u < n && v < n && (u == from || Reaches(n, h, from, u)) && Linked(h, u, v)
    ensures Reaches(n, h, from, v)
  {
    LinkReaches(n, h, u, v);
    if u != from { ReachesTransitive(n, h, from, u, v); }
  }

  /** The common search: true iff a non-empty path of kept edges leads from `from` to `to`. */
  method Search(from: nat, to: nat, keep: nat -> bool, adjacency: seq<seq<Half>>, ghost g: Graph) returns (found: bool)
    requires from < |adjacency| && to < |adjacency|
    requires WellFormed(|adjacency|, g) && IsAdjacency(|adjacency|, g, adjacency)
    ensures found <==> Reaches(|adjacency|, Kept(g, keep), from, to)
  {
    ghost var n, h := |adjacency|, Kept(g, keep);
    var seen := seq(|adjacency|, _ => false)[from := true];
    var queue := [from];
    ghost var expanded: set<nat> := {};
    while queue != []
      invariant SearchInv(n, h, from, to, seen, queue, expanded)
      decreases Nodes(n) - expanded
    {
      var node := queue[0];
      ghost var rest := queue[1..];
      assert queue == [node] + rest && node in queue;
      assert ListsArcsOf(g, node, adjacency[node]);
      found, seen, queue := Expand(from, to, node, keep, adjacency[node], g, seen, queue[1..], expanded, n);
      if found {
        return;
      }
      expanded := expanded + {node};
    }
    NotFound(n, h, from, to, seen, expanded);
    found := false;
  }

  /** Part way through the edges of `node`; `j` of them have been looked at. */
  ghost predicate ExpandInv(n: nat, h: Graph, from: nat, to: nat, node: nat, list: seq<Half>, j: nat,
                            seen: seq<bool>, queue: seq<nat>, expanded: set<nat>)
  {
    && j <= |list| && |seen| == n && from < n && seen[from] && node < n && seen[node] && node !in expanded &&
      node !in queue
    && (forall v :: v in expanded ==> v < n && seen[v])
    && (forall v :: v in queue ==> v < n && seen[v] && v !in expanded)
    && NoRepeats(queue)
    && (forall v: nat :: v < n && seen[v] ==> v in expanded || v in queue || v == node)
    && (forall v: nat :: v < n && seen[v] ==> v == from || Reaches(n, h, from, v))
    && (forall e :: e in h && h[e].from in expanded ==> h[e].to != to && h[e].to < n && seen[h[e].to])
    && (forall i :: 0 <= i < j && list[i].edge in h ==> list[i].node != to && list[i].node < n && seen[list[i].node])
  }

  method Expand(from: nat, to: nat, node: nat, keep: nat -> bool, list: seq<Half>, ghost g: Graph,
                seen0: seq<bool>, queue0: seq<nat>, ghost expanded: set<nat>, ghost n: nat)
    returns (found: bool, seen: seq<bool>, queue: seq<nat>)
    requires WellFormed(n, g) && ListsArcsOf(g, node, list) && node < n && to < n
    requires SearchInv(n, Kept(g, keep), from, to, seen0, [node] + queue0, expanded)
    ensures found ==> Reaches(n, Kept(g, keep), from, to)
    ensures !found ==> SearchInv(n, Kept(g, keep), from, to, seen, queue, expanded + {node})
  {
    ghost var h := Kept(g, keep);
    seen, queue := seen0, queue0;
    EnterExpand(n, h, from, to, node, list, seen0, queue0, expanded);
    for j := 0 to |list|
      invariant ExpandInv(n, h, from, to, node, list, j, seen, queue, expanded)
    {
      var next, edge := list[j].node, list[j].edge;
      if keep(edge) {
        assert h[edge] == Arc(node, next);
        StepReaches(n, h, from, node, next);
        if next == to {
          return true, seen, queue;
        }
        if !seen[next] {
          VisitKeepsInv(n, h, from, to, node, list, j, seen, queue, expanded);
          seen := seen[next := true];
          queue := queue + [next];
        } else {
          SkipKeepsInv(n, h, from, to, node, list, j, seen, queue, expanded);
        }
      } else {
        SkipKeepsInv(n, h, from, to, node, list, j, seen, queue, expanded);
      }
    }
    LeaveExpand(n, g, h, from, to, node, list, seen, queue, expanded);
    found := false;
  }

  lemma EnterExpand(n: nat, h: Graph, from: nat, to: nat, node: nat, list: seq<Half>, seen: seq<bool>,
      queue: seq<nat>, expanded: set<nat>)
    requires SearchInv(n, h, from, to, seen, [node] + queue, expanded)
    ensures ExpandInv(n, h, from, to, node, list, 0, seen, queue, expanded)
  {
    var all := [node] + queue;
    assert all[0] == node && node in all;
    forall v | v in queue ensures v in all && v != node {
      var i :| 0 <= i < |queue| && queue[i] == v;
      assert all[i + 1] == v;
    }
    forall i, j | 0 <= i < j < |queue| ensures queue[i] != queue[j] {
      assert all[i + 1] == queue[i] && all[j + 1] == queue[j];
    }
  }

  lemma SkipKeepsInv(n: nat, h: Graph, from: nat, to: nat, node: nat, list: seq<Half>, j: nat, seen: seq<bool>,
      queue: seq<nat>, expanded: set<nat>)
    requires ExpandInv(n, h, from, to, node, list, j, seen, queue, expanded) && j < |list|
    requires list[j].edge in h ==> list[j].node < n && seen[list[j].node] && list[j].node != to
    ensures ExpandInv(n, h, from, to, node, list, j + 1, seen, queue, expanded)
  {
  }

  lemma VisitKeepsInv(n: nat, h: Graph, from: nat, to: nat, node: nat, list: seq<Half>, j: nat, seen: seq<bool>,
      queue: seq<nat>, expanded: set<nat>)
    requires ExpandInv(n, h, from, to, node, list, j, seen, queue, expanded) && j < |list|
    requires list[j].node < n && !seen[list[j].node] && list[j].node != to && Reaches(n, h, from, list[j].node)
    ensures ExpandInv(n, h, from, to, node, list, j + 1, seen[list[j].node := true], queue + [list[j].node], expanded)
  {
  }

  lemma LeaveExpand(n: nat, g: Graph, h: Graph, from: nat, to: nat, node: nat, list: seq<Half>, seen: seq<bool>,
      queue: seq<nat>, expanded: set<nat>)
    requires ExpandInv(n, h, from, to, node, list, |list|, seen, queue, expanded)
    requires ListsArcsOf(g, node, list) && h.Keys <= g.Keys && forall e :: e in h ==> h[e] == g[e]
    ensures SearchInv(n, h, from, to, seen, queue, expanded + {node})
  {
    forall e | e in h && h[e].from == node ensures h[e].to != to && h[e].to < n && seen[h[e].to] {
      assert Half(g[e].to, e) in list;
      var i :| 0 <= i < |list| && list[i] == Half(g[e].to, e);
      assert list[i].edge in h;
    }
  }

  /** Source: `reachable_ignoring_edge`. */
  method ReachableIgnoringEdge(from: nat, to: nat, ignored: nat, adjacency: seq<seq<Half>>,
      ghost g: Graph) returns (found: bool)
    requires from < |adjacency| && to < |adjacency|
    requires WellFormed(|adjacency|, g) && IsAdjacency(|adjacency|, g, adjacency)
    ensures found <==> Reaches(|adjacency|, g - {ignored}, from, to)
  {
    found := Search(from, to, e => e != ignored, adjacency, g);
    assert Kept(g, e => e != ignored) == g - {ignored};
  }

  /** Source: `reachable_ignoring_edge_of_kind`; `kinds[e]` is the kind of edge `e`. */
  method ReachableIgnoringEdgeOfKind<K(==)>(from: nat, to: nat, ignored: nat, kind: K, adjacency: seq<seq<Half>>,
      kinds: seq<K>,
                                            ghost g: Graph)
    returns (found: bool)
    requires from < |adjacency| && to < |adjacency|
    requires WellFormed(|adjacency|, g) && IsAdjacency(|adjacency|, g, adjacency)
    requires forall e :: e in g ==> e < |kinds|
    ensures found <==> Reaches(|adjacency|, OfKind(g, kinds, kind) - {ignored}, from, to)
  {
    found := Search(from, to, (e: nat) => e != ignored && e < |kinds| && kinds[e] == kind, adjacency, g);
    assert Kept(g, (e: nat) => e != ignored && e < |kinds| && kinds[e] == kind) == OfKind(g, kinds, kind) - {ignored};
  }

  ghost function OfKind<K>(g: Graph, kinds: seq<K>, kind: K): Graph {
    map e | e in g && e < |kinds| && kinds[e] == kind :: g[e]
  }

  // ------------------------------------------------------------ redundancy

  ghost predicate Subgraph(h: Graph, g: Graph) {
    forall e :: e in h ==> e in g && h[e] == g[e]
  }

  lemma SubgraphReaches(n: nat, h: Graph, g: Graph, u: nat, v: nat)
    requires Subgraph(h, g) && Reaches(n, h, u, v)
    ensures Reaches(n, g, u, v)
  {
    var p :| PathBetween(n, h, p, u, v);
    forall i | 0 <= i < |p| - 1 ensures Linked(g, p[i], p[i + 1]) {
      assert Linked(h, p[i], p[i + 1]);
    }
    assert PathBetween(n, g, p, u, v);
  }

  /** What is left of the graph still joins the ends of every deleted edge. */
  ghost predicate Bypassed(n: nat, g: Graph, gone: set<nat>) {
    forall e :: e in g && e in gone ==> Reaches(n, g - gone, g[e].from, g[e].to)
  }

  /** Every arc of a path can be replaced by a detour that avoids the deleted edges. */
  lemma {:induction false} DetourAlongPath(n: nat, g: Graph, gone: set<nat>, p: seq<nat>)
    requires Bypassed(n, g, gone) && IsPath(n, g, p) && |p| > 1
    ensures Reaches(n, g - gone, p[0], p[|p| - 1])
  {
    assert Linked(g, p[0], p[1]);
    assert Reaches(n, g - gone, p[0], p[1]) by {
      var d :| d in g && g[d] == Arc(p[0], p[1]);
      if d !in gone {
        assert d in g - gone;
        assert Linked(g - gone, p[0], p[1]);
        LinkReaches(n, g - gone, p[0], p[1]);
      }
    }
    if |p| > 2 {
      var q := p[1..];
      forall i | 0 <= i < |q| - 1 ensures Linked(g, q[i], q[i + 1]) { assert Linked(g, p[i + 1], p[i + 2]); }
      DetourAlongPath(n, g, gone, q);
      ReachesTransitive(n, g - gone, p[0], p[1], p[|p| - 1]);
    }
  }

  ghost predicate SameReachability(n: nat, g: Graph, h: Graph) {
    forall u: nat, v: nat :: Reaches(n, g, u, v) <==> Reaches(n, h, u, v)
  }

  /** Edges can be deleted without changing reachability iff what is left joins the ends of each. */
  lemma DeletableIffDetours(n: nat, g: Graph, gone: set<nat>)
    requires WellFormed(n, g)
    ensures SameReachability(n, g, g - gone) <==> Bypassed(n, g, gone)
  {
    forall e | e in g && e in gone ensures Reaches(n, g, g[e].from, g[e].to) {
      assert g[e] == Arc(g[e].from, g[e].to);
      assert Linked(g, g[e].from, g[e].to);
      LinkReaches(n, g, g[e].from, g[e].to);
    }
    if Bypassed(n, g, gone) {
      forall u: nat, v: nat ensures Reaches(n, g, u, v) <==> Reaches(n, g - gone, u, v) {
        if Reaches(n, g, u, v) {
          var p :| PathBetween(n, g, p, u, v);
          DetourAlongPath(n, g, gone, p);
        }
        if Reaches(n, g - gone, u, v) {
          SubgraphReaches(n, g - gone, g, u, v);
        }
      }
    }
  }

  /** The condition under which the linter reports `redundant_reachability` for `e`. */
  ghost predicate Redundant<K>(n: nat, g: Graph, kinds: seq<K>, e: nat)
    requires e in g && e < |kinds|
  {
    Reaches(n, OfKind(g, kinds, kinds[e]) - {e}, g[e].from, g[e].to)
  }

  /** The flag is exact for the edge's own kind, and deleting the edge is safe for
      the whole graph. */
  lemma RedundantEdgeIsDeletable<K>(n: nat, g: Graph, kinds: seq<K>, e: nat)
    requires WellFormed(n, g) && e in g && e < |kinds|
    ensures Redundant(n, g, kinds, e) <==>
      SameReachability(n, OfKind(g, kinds, kinds[e]), OfKind(g, kinds, kinds[e]) - {e})
    ensures Redundant(n, g, kinds, e) ==> SameReachability(n, g, g - {e})
  {
    var h := OfKind(g, kinds, kinds[e]);
    assert e in h && h[e] == g[e];
    DeletableIffDetours(n, h, {e});
    DeletableIffDetours(n, g, {e});
    if Redundant(n, g, kinds, e) {
      SubgraphReaches(n, h - {e}, g - {e}, g[e].from, g[e].to);
    }
  }
}
