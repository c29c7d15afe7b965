/** The linter's two Kahn passes: `dag_metrics` (acyclicity, width, longest path
    in nodes) and `critical_path_ms` (heaviest path, saturating). */
module Kahn {
  import opened Graphs
  import opened Machine
  import opened Orders

  /** One adjacency-list entry: the neighbour and the index of the edge. */
  datatype Half = Half(node: nat, edge: nat)

  ghost predicate IsAdjacency(n: nat, g: Graph, adjacency: seq<seq<Half>>) {
    && |adjacency| == n
    && (forall u, j :: 0 <= u < n && 0 <= j < |adjacency[u]| ==>
          adjacency[u][j].edge in g && g[adjacency[u][j].edge] == Arc(u, adjacency[u][j].node))
    && (forall u :: 0 <= u < n ==> DistinctEdges(adjacency[u]))
    && (forall e :: e in g && g[e].from < n ==> Half(g[e].to, e) in adjacency[g[e].from])
  }

  ghost predicate DistinctEdges(list: seq<Half>) {
    forall i, j :: 0 <= i < j < |list| ==> list[i].edge != list[j].edge
  }

  ghost function Transpose(g: Graph): Graph {
    map e | e in g :: Arc(g[e].to, g[e].from)
  }

  function Targets(list: seq<Half>): (t: seq<nat>)
    ensures |t| == |list| && forall i :: 0 <= i < |t| ==> t[i] == list[i].node
  {
    if list == [] then [] else Targets(list[..|list| - 1]) + [list[|list| - 1].node]
  }

  ghost function EdgesTo(list: seq<Half>, v: nat): (r: set<nat>)
    ensures forall e :: e in r <==> Half(v, e) in list
  {
    if list == [] then {} else
      var last := list[|list| - 1];
      assert list == list[..|list| - 1] + [last];
      EdgesTo(list[..|list| - 1], v) + if last.node == v then {last.edge} else {}
  }

  lemma {:induction false} TargetCount(list: seq<Half>, v: nat)
    requires DistinctEdges(list)
    ensures multiset(Targets(list))[v] == |EdgesTo(list, v)|
  {
    if list != [] {
      var front, last := list[..|list| - 1], list[|list| - 1];
      TargetCount(front, v);
      EdgesToGrows(list, v);
      assert multiset(Targets(list)) == multiset(Targets(front)) + multiset{last.node};
    }
  }

  lemma EdgesToGrows(list: seq<Half>, v: nat)
    requires DistinctEdges(list) && list != []
    ensures |EdgesTo(list, v)| == |EdgesTo(list[..|list| - 1], v)| + if list[|list| - 1].node == v then 1 else 0
  {
    var front, last := list[..|list| - 1], list[|list| - 1];
    assert last.edge !in EdgesTo(front, v);
  }

  ghost predicate ListsArcsOf(g: Graph, u: nat, list: seq<Half>) {
    && DistinctEdges(list)
    && (forall j :: 0 <= j < |list| ==> list[j].edge in g && g[list[j].edge] == Arc(u, list[j].node))
    && (forall e :: e in g && g[e].from == u ==> Half(g[e].to, e) in list)
  }

  lemma TargetsCountArcs(n: nat, g: Graph, u: nat, list: seq<Half>)
    requires WellFormed(n, g) && ListsArcsOf(g, u, list)
    ensures forall v: nat :: multiset(Targets(list))[v] == ArcCount(g, u, v)
    ensures forall v :: v in Targets(list) ==> v < n
  {
    forall v: nat ensures multiset(Targets(list))[v] == ArcCount(g, u, v) {
      TargetCount(list, v);
      assert EdgesTo(list, v) == ArcsBetween(g, u, v);
    }
  }

  lemma AdjacencyIsSuccessorTable(n: nat, g: Graph, adjacency: seq<seq<Half>>)
    requires WellFormed(n, g) && IsAdjacency(n, g, adjacency)
    ensures IsSuccessorTable(n, g, seq(n, u requires 0 <= u < n => Targets(adjacency[u])))
  {
    forall u | 0 <= u < n ensures ListsArcsOf(g, u, adjacency[u]) {
    }
    forall u, v | 0 <= u < n && 0 <= v < n ensures multiset(Targets(adjacency[u]))[v] == ArcCount(g, u, v) {
      TargetsCountArcs(n, g, u, adjacency[u]);
    }
    forall u, j | 0 <= u < n && 0 <= j < |adjacency[u]| ensures Targets(adjacency[u])[j] < n {
      TargetsCountArcs(n, g, u, adjacency[u]);
      assert Targets(adjacency[u])[j] in Targets(adjacency[u]);
    }
  }

  ghost function EdgeSet(list: seq<Half>): (r: set<nat>)
    ensures forall h :: h in list ==> h.edge in r
    ensures forall e :: e in r ==> exists i :: 0 <= i < |list| && list[i].edge == e
  {
    if list == [] then {} else
      var front, last := list[..|list| - 1], list[|list| - 1];
      assert list == front + [last];
      assert forall i :: 0 <= i < |front| ==> list[i] == front[i];
      EdgeSet(front) + {last.edge}
  }

  lemma {:induction false} DistinctEdgeCount(list: seq<Half>)
    requires DistinctEdges(list)
    ensures |EdgeSet(list)| == |list|
  {
    if list != [] {
      var front := list[..|list| - 1];
      DistinctEdgeCount(front);
      assert list[|list| - 1].edge !in EdgeSet(front);
    }
  }

  lemma InDegreeIsPending(n: nat, g: Graph, reverse: seq<seq<Half>>, v: nat)
    requires WellFormed(n, g) && IsAdjacency(n, Transpose(g), reverse) && v < n
    ensures |reverse[v]| == Pending(g, v, {})
  {
    DistinctEdgeCount(reverse[v]);
    forall e | e in PendingArcs(g, v, {}) ensures e in EdgeSet(reverse[v]) {
      assert Transpose(g)[e] == Arc(v, g[e].from);
      assert Half(g[e].from, e) in reverse[v];
    }
    forall e | e in EdgeSet(reverse[v]) ensures e in PendingArcs(g, v, {}) {
      var i :| 0 <= i < |reverse[v]| && reverse[v][i].edge == e;
      assert Transpose(g)[e] == Arc(v, reverse[v][i].node);
    }
    assert EdgeSet(reverse[v]) == PendingArcs(g, v, {});
  }

  // ------------------------------------------------------- the shared Kahn step

  function Ones(n: nat): (s: seq<nat>)
    ensures |s| == n && forall i :: 0 <= i < n ==> s[i] == 1
  {
    seq(n, _ => 1)
  }

  /** Between two nodes: the counters are exact and the queue holds precisely the
      unfinished nodes that wait for nothing. */
  ghost predicate KahnInv(n: nat, g: Graph, indegree: seq<nat>, queue: seq<nat>, finished: set<nat>) {
    && |indegree| == n
    && (forall v :: v in finished ==> v < n)
    && (forall v :: 0 <= v < n ==> indegree[v] == Pending(g, v, finished))
    && (forall e :: e in g && g[e].to in finished ==> g[e].from in finished)
    && NoRepeats(queue)
    && (forall v: nat :: v in queue <==> v < n && v !in finished && Pending(g, v, finished) == 0)
  }

  /** While the successors of `u` are relaxed; `rest` counts those still to come. */
  ghost predicate RelaxInv(n: nat, g: Graph, indegree: seq<nat>, queue: seq<nat>, finished: set<nat>, u: nat,
      rest: multiset<nat>) {
    && |indegree| == n
    && (forall v :: v in finished ==> v < n)
    && u in finished
    && (forall v: nat :: v < n ==> indegree[v] == Pending(g, v, finished) + rest[v])
    && (forall e :: e in g && g[e].to in finished ==> g[e].from in finished)
    && (forall v :: v in rest ==> v < n && v !in finished && Linked(g, u, v))
    && NoRepeats(queue)
    && (forall v: nat :: v in queue <==> v < n && v !in finished && indegree[v] == 0)
  }

  lemma BeginNode(n: nat, g: Graph, indegree: seq<nat>, queue: seq<nat>, finished: set<nat>, rest: multiset<nat>)
    requires KahnInv(n, g, indegree, queue, finished) && queue != []
    requires forall v :: v in rest ==> v < n
    requires forall v: nat :: v < n ==> rest[v] == ArcCount(g, queue[0], v)
    ensures queue[0] < n && queue[0] !in finished
    ensures RelaxInv(n, g, indegree, queue[1..], finished + {queue[0]}, queue[0], rest)
  {
    var u := queue[0];
    assert u in queue;
    NoRepeatsTail(queue);
    NoPendingMeansPredecessorsFinished(g, u, finished);
    forall v: nat | v < n ensures indegree[v] == Pending(g, v, finished + {u}) + rest[v] {
      FinishingRemovesArcs(g, u, v, finished);
    }
    forall v | v in rest ensures v !in finished + {u} && Linked(g, u, v) {
      CountedIsLinked(g, u, v, rest);
    }
  }

  lemma CountedIsLinked(g: Graph, u: nat, v: nat, rest: multiset<nat>)
    requires v in rest && rest[v] == ArcCount(g, u, v)
    ensures Linked(g, u, v)
  {
    var e :| e in ArcsBetween(g, u, v);
    assert g[e] == Arc(u, v);
  }

  lemma RelaxStep(n: nat, g: Graph, indegree: seq<nat>, queue: seq<nat>, finished: set<nat>, u: nat,
      rest: multiset<nat>,
                  x: nat, indegree': seq<nat>, queue': seq<nat>)
    requires RelaxInv(n, g, indegree, queue, finished, u, rest) && x in rest && indegree[x] > 0
    requires indegree' == indegree[x := indegree[x] - 1]
    requires queue' == if indegree'[x] == 0 then queue + [x] else queue
    ensures RelaxInv(n, g, indegree', queue', finished, u, rest - multiset{x})
  {
    assert x !in queue;
  }

  lemma EndNode(n: nat, g: Graph, indegree: seq<nat>, queue: seq<nat>, finished: set<nat>, u: nat)
    requires RelaxInv(n, g, indegree, queue, finished, u, multiset{})
    ensures KahnInv(n, g, indegree, queue, finished)
  {
  }

  /** The longest-path equations restricted to the arcs already relaxed. */
  ghost predicate LongestOn(n: nat, g: Graph, w: seq<nat>, longest: seq<nat>, settled: set<nat>) {
    && |w| == n && |longest| == n && WellFormed(n, g) && settled <= g.Keys
    && (forall v :: 0 <= v < n ==> w[v] <= longest[v])
    && (forall e :: e in settled ==> longest[g[e].from] + w[g[e].to] <= longest[g[e].to])
    && (forall v {:trigger AttainedOn(g, w, longest, settled, v)} :: 0 <= v < n ==>
          longest[v] == w[v] || AttainedOn(g, w, longest, settled, v))
  }

  ghost predicate AttainedOn(g: Graph, w: seq<nat>, longest: seq<nat>, settled: set<nat>, v: nat)
    requires v < |w| && v < |longest|
  {
    exists e :: e in settled && e in g && g[e].to == v && g[e].from < |longest| &&
      longest[v] == longest[g[e].from] + w[v]
  }

  ghost function OutArcs(g: Graph, nodes: set<nat>): set<nat> {
    set e | e in g && g[e].from in nodes
  }

  lemma RelaxArc(n: nat, g: Graph, w: seq<nat>, longest: seq<nat>, settled: set<nat>, u: nat, x: nat,
      longest': seq<nat>)
    requires LongestOn(n, g, w, longest, settled) && u < n && x < n && u != x && Linked(g, u, x)
    requires forall e :: e in settled ==> g[e].from != x
    requires longest' == longest[x := Max(longest[x], longest[u] + w[x])]
    ensures LongestOn(n, g, w, longest', settled + ArcsBetween(g, u, x))
  {
    var settled' := settled + ArcsBetween(g, u, x);
    forall v | 0 <= v < n && longest'[v] != w[v] ensures AttainedOn(g, w, longest', settled', v) {
      if longest'[v] != longest[v] {
        var e :| e in g && g[e] == Arc(u, x);
        assert e in settled';
      } else {
        assert AttainedOn(g, w, longest, settled, v);
        var e :| e in settled && e in g && g[e].to == v && longest[v] == longest[g[e].from] + w[v];
        assert e in settled' && longest'[g[e].from] == longest[g[e].from];
      }
    }
  }

  /** Which arcs are settled part way through the successor list of `u`. */
  ghost predicate SettledSoFar(g: Graph, settled: set<nat>, before: set<nat>, u: nat, rest: multiset<nat>) {
    && OutArcs(g, before) <= settled <= OutArcs(g, before + {u})
    && (forall e :: e in g && g[e].from == u && g[e].to !in rest ==> e in settled)
  }

  lemma SettledStep(g: Graph, settled: set<nat>, before: set<nat>, u: nat, rest: multiset<nat>, x: nat)
    requires SettledSoFar(g, settled, before, u, rest) && x in rest
    ensures SettledSoFar(g, settled + ArcsBetween(g, u, x), before, u, rest - multiset{x})
  {
    forall e | e in g && g[e].from == u && g[e].to !in rest - multiset{x} ensures e in settled + ArcsBetween(g, u, x) {
      if g[e].to == x { assert g[e] == Arc(u, x); }
    }
  }

  lemma SettledAtEnd(g: Graph, settled: set<nat>, before: set<nat>, u: nat)
    requires SettledSoFar(g, settled, before, u, multiset{})
    ensures settled == OutArcs(g, before + {u})
  {
    forall e | e in OutArcs(g, before + {u}) ensures e in settled {
      if g[e].from in before { assert e in OutArcs(g, before); }
    }
  }

  lemma SettledAtStart(g: Graph, before: set<nat>, u: nat, rest: multiset<nat>)
    requires forall e :: e in g && g[e].from == u ==> g[e].to in rest
    ensures SettledSoFar(g, OutArcs(g, before), before, u, rest)
  {
  }

  lemma ArcTargetsCounted(n: nat, g: Graph, u: nat, rest: multiset<nat>)
    requires WellFormed(n, g)
    requires forall v: nat :: v < n ==> rest[v] == ArcCount(g, u, v)
    ensures forall e :: e in g && g[e].from == u ==> g[e].to in rest
  {
    forall e | e in g && g[e].from == u ensures g[e].to in rest {
      assert g[e] == Arc(u, g[e].to);
      assert e in ArcsBetween(g, u, g[e].to);
      assert rest[g[e].to] > 0;
    }
  }

  /** Everything that one pass over the successors of `u` maintains. */
  ghost predicate Relaxing(n: nat, g: Graph, w: seq<nat>, indegree: seq<nat>, queue: seq<nat>, longest: seq<nat>,
                           before: set<nat>, u: nat, rest: multiset<nat>, settled: set<nat>)
  {
    && RelaxInv(n, g, indegree, queue, before + {u}, u, rest)
    && LongestOn(n, g, w, longest, settled)
    && SettledSoFar(g, settled, before, u, rest)
  }

  ghost predicate BetweenNodes(n: nat, g: Graph, w: seq<nat>, indegree: seq<nat>, queue: seq<nat>, longest: seq<nat>,
                               finished: set<nat>)
  {
    KahnInv(n, g, indegree, queue, finished) && LongestOn(n, g, w, longest, OutArcs(g, finished))
  }

  lemma StartRelaxing(n: nat, g: Graph, w: seq<nat>, indegree: seq<nat>, queue: seq<nat>, longest: seq<nat>,
                      finished: set<nat>, rest: multiset<nat>)
    requires BetweenNodes(n, g, w, indegree, queue, longest, finished) && queue != []
    requires forall v :: v in rest ==> v < n
    requires forall v: nat :: v < n ==> rest[v] == ArcCount(g, queue[0], v)
    ensures queue[0] < n && queue[0] !in finished
    ensures Relaxing(n, g, w, indegree, queue[1..], longest, finished, queue[0], rest, OutArcs(g, finished))
  {
    BeginNode(n, g, indegree, queue, finished, rest);
    ArcTargetsCounted(n, g, queue[0], rest);
    SettledAtStart(g, finished, queue[0], rest);
  }

  lemma NextTarget(n: nat, g: Graph, w: seq<nat>, indegree: seq<nat>, queue: seq<nat>, longest: seq<nat>,
                   before: set<nat>, u: nat, rest: multiset<nat>, settled: set<nat>, x: nat)
    requires Relaxing(n, g, w, indegree, queue, longest, before, u, rest, settled) && x in rest
    ensures x < n && u < n && x !in before + {u} && indegree[x] > 0 && x !in queue && Linked(g, u, x)
  {
  }

  lemma ContinueRelaxing(n: nat, g: Graph, w: seq<nat>, indegree: seq<nat>, queue: seq<nat>, longest: seq<nat>,
                         before: set<nat>, u: nat, rest: multiset<nat>, settled: set<nat>, x: nat,
                         indegree': seq<nat>, queue': seq<nat>, d: nat)
    requires Relaxing(n, g, w, indegree, queue, longest, before, u, rest, settled)
    requires x in rest && x < n && u < n && indegree[x] > 0
    requires indegree' == indegree[x := indegree[x] - 1]
    requires queue' == if indegree'[x] == 0 then queue + [x] else queue
    requires d == Max(longest[x], longest[u] + w[x])
    ensures Relaxing(n, g, w, indegree', queue', longest[x := d], before, u, rest - multiset{x},
      settled + ArcsBetween(g, u, x))
  {
    RelaxStep(n, g, indegree, queue, before + {u}, u, rest, x, indegree', queue');
    RelaxArc(n, g, w, longest, settled, u, x, longest[x := d]);
    SettledStep(g, settled, before, u, rest, x);
  }

  lemma StopRelaxing(n: nat, g: Graph, w: seq<nat>, indegree: seq<nat>, queue: seq<nat>, longest: seq<nat>,
                     before: set<nat>, u: nat, settled: set<nat>)
    requires Relaxing(n, g, w, indegree, queue, longest, before, u, multiset{}, settled)
    ensures BetweenNodes(n, g, w, indegree, queue, longest, before + {u})
  {
    EndNode(n, g, indegree, queue, before + {u}, u);
    SettledAtEnd(g, settled, before, u);
  }

  lemma UnfinishedIsLinked(n: nat, g: Graph, indegree: seq<nat>, queue: seq<nat>, finished: set<nat>, v: nat)
    requires WellFormed(n, g) && KahnInv(n, g, indegree, queue, finished) && queue == []
    requires v < n && v !in finished
    ensures LinkedFrom(g, Nodes(n) - finished, v)
  {
    assert v !in queue;
    NoPendingMeansPredecessorsFinished(g, v, finished);
    var e :| e in g && g[e].to == v && g[e].from !in finished;
    assert g[e] == Arc(g[e].from, v);
    assert Linked(g, g[e].from, v);
  }

  /** An empty queue with unfinished nodes left over means there is a cycle. */
  lemma DrainedQueue(n: nat, g: Graph, indegree: seq<nat>, queue: seq<nat>, finished: set<nat>)
    requires WellFormed(n, g) && KahnInv(n, g, indegree, queue, finished) && queue == []
    ensures |finished| == n <==> finished == Nodes(n)
    ensures finished != Nodes(n) ==> !Acyclic(n, g)
  {
    var stuck := Nodes(n) - finished;
    assert finished <= Nodes(n);
    assert Nodes(n) == finished + stuck;
    assert |Nodes(n)| == |finished| + |stuck|;
    if stuck != {} {
      forall v | v in stuck ensures LinkedFrom(g, stuck, v) {
        UnfinishedIsLinked(n, g, indegree, queue, finished, v);
      }
      StuckHasCycle(n, g, stuck);
    }
  }

  lemma FinishedIsLongest(n: nat, g: Graph, w: seq<nat>, longest: seq<nat>)
    requires LongestOn(n, g, w, longest, OutArcs(g, Nodes(n)))
    ensures IsLongestMap(n, g, w, longest)
  {
    assert OutArcs(g, Nodes(n)) == g.Keys;
    forall v | 0 <= v < n && longest[v] != w[v] ensures Attained(g, w, longest, v) {
      assert AttainedOn(g, w, longest, OutArcs(g, Nodes(n)), v);
    }
  }

  method MaximumOf(values: seq<nat>) returns (m: nat)
    ensures values == [] ==> m == 0
    ensures values != [] ==> m in values
    ensures forall x :: x in values ==> x <= m
  {
    m := 0;
    for i := 0 to |values|
      invariant i == 0 ==> m == 0
      invariant i > 0 ==> m in values[..i]
      invariant forall x :: x in values[..i] ==> x <= m
    {
      assert values[..i + 1] == values[..i] + [values[i]];
      m := Max(m, values[i]);
    }
    assert values[..|values|] == values;
  }

  // ------------------------------------------------------------- dag_metrics

  /** `d` is the number of nodes on a longest path ending at `v`. */
  ghost predicate DepthIs(n: nat, g: Graph, v: nat, d: nat) {
    && (exists p :: IsPath(n, g, p) && p[|p| - 1] == v && |p| == d)
    && (forall p :: IsPath(n, g, p) && p[|p| - 1] == v ==> |p| <= d)
  }

  ghost predicate IsDepthMap(n: nat, g: Graph, depth: seq<nat>) {
    |depth| == n && forall v :: 0 <= v < n ==> DepthIs(n, g, v, depth[v])
  }

  ghost function Level(nodes: set<nat>, depth: seq<nat>, d: nat): set<nat> {
    set v | v in nodes && v < |depth| && depth[v] == d
  }

  /** `width` is the size of the largest set of nodes of one depth. */
  ghost predicate IsLevelWidth(nodes: set<nat>, depth: seq<nat>, width: nat) {
    && (forall d :: |Level(nodes, depth, d)| <= width)
    && (exists d :: |Level(nodes, depth, d)| == width)
  }

  lemma {:induction false} UnitWeight(n: nat, p: seq<nat>)
    requires forall i :: 0 <= i < |p| ==> p[i] < n
    ensures Weight(Ones(n), p) == |p|
  {
    if p != [] { UnitWeight(n, p[..|p| - 1]); }
  }

  lemma UnitLongestIsDepth(n: nat, g: Graph, distance: seq<nat>)
    requires IsLongestMap(n, g, Ones(n), distance)
    ensures IsRanking(n, g, distance) && IsDepthMap(n, g, distance)
  {
    forall v | 0 <= v < n ensures DepthIs(n, g, v, distance[v]) {
      var p := LongestIsAttained(n, g, Ones(n), distance, distance, v);
      UnitWeight(n, p);
      forall q | IsPath(n, g, q) && q[|q| - 1] == v ensures |q| <= distance[v] {
        PathWithinLongest(n, g, Ones(n), distance, q);
        UnitWeight(n, q);
      }
    }
  }

  /** Depths are unique, so the width does not depend on the map naming them. */
  lemma DepthMapUnique(n: nat, g: Graph, a: seq<nat>, b: seq<nat>)
    requires IsDepthMap(n, g, a) && IsDepthMap(n, g, b)
    ensures a == b
  {
    forall v | 0 <= v < n ensures a[v] == b[v] {
      assert DepthIs(n, g, v, a[v]) && DepthIs(n, g, v, b[v]);
    }
  }

  /** Nodes of one depth cannot reach each other: a level can run in parallel. */
  lemma LevelIsAntichain(n: nat, g: Graph, depth: seq<nat>, u: nat, v: nat)
    requires IsDepthMap(n, g, depth) && u < n && v < n && depth[u] == depth[v]
    ensures !Reaches(n, g, u, v)
  {
    if Reaches(n, g, u, v) {
      var q :| PathBetween(n, g, q, u, v);
      assert DepthIs(n, g, u, depth[u]) && DepthIs(n, g, v, depth[v]);
      var p :| IsPath(n, g, p) && p[|p| - 1] == u && |p| == depth[u];
      PathConcat(n, g, p, q);
      assert false;
    }
  }

  /** The first `remaining` queue entries have depth `k + 1`, the others `k + 2`;
      everything finished lies no deeper than `k + 1`. */
  ghost predicate LevelInv(queue: seq<nat>, finished: set<nat>, distance: seq<nat>, k: nat, remaining: nat) {
    && remaining <= |queue|
    && (forall i :: 0 <= i < |queue| ==> queue[i] < |distance|)
    && (forall i :: 0 <= i < |queue| ==> distance[queue[i]] == if i < remaining then k + 1 else k + 2)
    && (forall v :: v in finished ==> v < |distance| && distance[v] <= k + 1)
  }

  /** `width` dominates every finished depth class and is attained, where the
      class of depth `k + 1` still waits for its `remaining` queue entries. */
  ghost predicate WidthInv(finished: set<nat>, distance: seq<nat>, k: nat, remaining: nat, width: nat) {
    && (forall d :: d != k + 1 ==> |Level(finished, distance, d)| <= width)
    && |Level(finished, distance, k + 1)| + remaining <= width
    && (|Level(finished, distance, k + 1)| + remaining == width
        || exists d :: d != k + 1 && |Level(finished, distance, d)| == width)
  }

  lemma LevelPop(queue: seq<nat>, finished: set<nat>, distance: seq<nat>, k: nat, remaining: nat)
    requires LevelInv(queue, finished, distance, k, remaining) && remaining > 0
    ensures queue[0] < |distance| && distance[queue[0]] == k + 1
    ensures LevelInv(queue[1..], finished + {queue[0]}, distance, k, remaining - 1)
  {
  }

  lemma WidthPop(finished: set<nat>, distance: seq<nat>, k: nat, remaining: nat, width: nat, u: nat)
    requires WidthInv(finished, distance, k, remaining, width) && remaining > 0
    requires u !in finished && u < |distance| && distance[u] == k + 1
    ensures WidthInv(finished + {u}, distance, k, remaining - 1, width)
  {
    assert Level(finished + {u}, distance, k + 1) == Level(finished, distance, k + 1) + {u};
    forall d | d != k + 1 ensures Level(finished + {u}, distance, d) == Level(finished, distance, d) {
    }
    if d :| d != k + 1 && |Level(finished, distance, d)| == width {
      assert |Level(finished + {u}, distance, d)| == width;
    }
  }

  lemma WidthUnaffected(finished: set<nat>, distance: seq<nat>, distance': seq<nat>, k: nat, remaining: nat, width: nat)
    requires WidthInv(finished, distance, k, remaining, width) && AgreeOn(distance', distance, finished)
    ensures WidthInv(finished, distance', k, remaining, width)
  {
    forall d ensures Level(finished, distance', d) == Level(finished, distance, d) {
    }
    if d :| d != k + 1 && |Level(finished, distance, d)| == width {
      assert |Level(finished, distance', d)| == width;
    }
  }

  /** One level is used up; the queue now holds the next depth class. */
  lemma NextLevel(queue: seq<nat>, finished: set<nat>, distance: seq<nat>, k: nat, width: nat)
    requires LevelInv(queue, finished, distance, k, 0) && WidthInv(finished, distance, k, 0, width)
    ensures LevelInv(queue, finished, distance, k + 1, |queue|)
    ensures WidthInv(finished, distance, k + 1, |queue|, Max(width, |queue|))
  {
    assert Level(finished, distance, k + 2) == {};
    if |queue| < width && |Level(finished, distance, k + 1)| != width {
      var d :| d != k + 1 && |Level(finished, distance, d)| == width;
      assert d != k + 2;
    }
  }

  lemma WidthIsLevelWidth(finished: set<nat>, distance: seq<nat>, k: nat, width: nat)
    requires WidthInv(finished, distance, k, 0, width)
    ensures IsLevelWidth(finished, distance, width)
  {
  }

  // ------------------------------------------- what a cyclic graph still releases

  /** No cycle leads to the node. */
  ghost predicate Grounded(n: nat, g: Graph, v: nat) {
    forall c :: IsCycle(n, g, c) ==> c[0] != v && !Reaches(n, g, c[0], v)
  }

  ghost function GroundedNodes(n: nat, g: Graph): set<nat> {
    set v | v in Nodes(n) && Grounded(n, g, v)
  }

  ghost predicate IsDepthOn(n: nat, g: Graph, nodes: set<nat>, depth: seq<nat>) {
    |depth| == n && forall v :: v in nodes ==> v < n && DepthIs(n, g, v, depth[v])
  }

  lemma BackwardFrom(n: nat, g: Graph, stuck: set<nat>, v: nat, k: nat) returns (p: seq<nat>)
    requires Stuck(n, g, stuck) && v in stuck && k > 0
    ensures IsPath(n, g, p) && |p| == k && p[k - 1] == v && forall i :: 0 <= i < k ==> p[i] in stuck
  {
    if k == 1 {
      p := [v];
    } else {
      var q := BackwardFrom(n, g, stuck, v, k - 1);
      assert LinkedFrom(g, stuck, q[0]);
      var u :| u in stuck && Linked(g, u, q[0]);
      p := [u] + q;
    }
  }

  lemma SubPath(n: nat, g: Graph, p: seq<nat>, i: nat, j: nat)
    requires IsPath(n, g, p) && i < j <= |p|
    ensures IsPath(n, g, p[i..j])
  {
    forall k | 0 <= k < |p[i..j]| - 1
      ensures Linked(g, p[i..j][k], p[i..j][k + 1]) { assert Linked(g, p[i + k], p[i + k + 1]); }
  }

  lemma StuckIsNotGrounded(n: nat, g: Graph, stuck: set<nat>, v: nat)
    requires Stuck(n, g, stuck) && v in stuck
    ensures !Grounded(n, g, v)
  {
    var p := BackwardFrom(n, g, stuck, v, n + 1);
    var i, j := Pigeonhole(n, p);
    SubPath(n, g, p, i, j + 1);
    var c := p[i..j + 1];
    assert IsCycle(n, g, c);
    SubPath(n, g, p, i, |p|);
    assert PathBetween(n, g, p[i..], c[0], v);
  }

  /** Along a path into the released part, distances grow with every arc. */
  lemma {:induction false} ReleasedPath(n: nat, g: Graph, distance: seq<nat>, finished: set<nat>, p: seq<nat>)
    requires LongestOn(n, g, Ones(n), distance, OutArcs(g, finished)) && IsPath(n, g, p) && p[|p| - 1] in finished
    requires forall e :: e in g && g[e].to in finished ==> g[e].from in finished
    ensures p[0] in finished && distance[p[0]] + |p| - 1 <= distance[p[|p| - 1]]
  {
    if |p| > 1 {
      SubPath(n, g, p, 1, |p|);
      ReleasedPath(n, g, distance, finished, p[1..]);
      assert Linked(g, p[0], p[1]);
      var e :| e in g && g[e] == Arc(p[0], p[1]);
      assert e in OutArcs(g, finished);
    }
  }

  lemma {:induction false} ReleasedDepthAttained(n: nat, g: Graph, distance: seq<nat>, settled: set<nat>,
      v: nat) returns (p: seq<nat>)
    requires LongestOn(n, g, Ones(n), distance, settled) && v < n
    ensures IsPath(n, g, p) && p[|p| - 1] == v && |p| == distance[v]
    decreases distance[v]
  {
    if distance[v] == 1 {
      p := [v];
    } else {
      assert AttainedOn(g, Ones(n), distance, settled, v);
      var e :| e in settled && e in g && g[e].to == v && distance[v] == distance[g[e].from] + 1;
      var q := ReleasedDepthAttained(n, g, distance, settled, g[e].from);
      assert g[e] == Arc(q[|q| - 1], v);
      p := q + [v];
    }
  }

  lemma ReleasedDepth(n: nat, g: Graph, distance: seq<nat>, finished: set<nat>, v: nat)
    requires LongestOn(n, g, Ones(n), distance, OutArcs(g, finished)) && v in finished && v < n
    requires forall e :: e in g && g[e].to in finished ==> g[e].from in finished
    ensures DepthIs(n, g, v, distance[v]) && Grounded(n, g, v)
  {
    var q := ReleasedDepthAttained(n, g, distance, OutArcs(g, finished), v);
    forall p | IsPath(n, g, p) && p[|p| - 1] == v ensures |p| <= distance[v] {
      ReleasedPath(n, g, distance, finished, p);
    }
    forall c | IsCycle(n, g, c) ensures c[0] != v && !Reaches(n, g, c[0], v) {
      if c[0] == v {
        ReleasedPath(n, g, distance, finished, c);
        assert false;
      } else if Reaches(n, g, c[0], v) {
        var p :| PathBetween(n, g, p, c[0], v);
        ReleasedPath(n, g, distance, finished, p);
        ReleasedPath(n, g, distance, finished, c);
        assert false;
      }
    }
  }

  /** With the queue empty, exactly the grounded nodes have been released, with their depths. */
  lemma ReleasedIsGrounded(n: nat, g: Graph, indegree: seq<nat>, distance: seq<nat>, finished: set<nat>)
    requires WellFormed(n, g) && KahnInv(n, g, indegree, [], finished) &&
      LongestOn(n, g, Ones(n), distance, OutArcs(g, finished))
    ensures finished == GroundedNodes(n, g) && IsDepthOn(n, g, finished, distance)
  {
    forall v | v in finished ensures DepthIs(n, g, v, distance[v]) && Grounded(n, g, v) {
      ReleasedDepth(n, g, distance, finished, v);
    }
    var stuck := Nodes(n) - finished;
    forall v | v in stuck ensures !Grounded(n, g, v) {
      forall u | u in stuck ensures LinkedFrom(g, stuck, u) { UnfinishedIsLinked(n, g, indegree, [], finished, u); }
      StuckIsNotGrounded(n, g, stuck, v);
    }
  }

  lemma DeepestIsLongest(n: nat, g: Graph, distance: seq<nat>, m: nat)
    requires n > 0 ==> m in distance
    requires forall x :: x in distance ==> x <= m
    requires IsDepthMap(n, g, distance)
    ensures n > 0 ==>
      && (exists p :: IsPath(n, g, p) && |p| == m)
      && (forall p :: IsPath(n, g, p) ==> |p| <= m)
  {
    if n > 0 {
      var v :| 0 <= v < n && distance[v] == m;
      assert DepthIs(n, g, v, distance[v]);
      forall p | IsPath(n, g, p) ensures |p| <= m {
        var v := p[|p| - 1];
        assert DepthIs(n, g, v, distance[v]);
        assert distance[v] in distance;
      }
    }
  }

  /** Source: `dag_metrics`.  Levels of the queue are exactly the depth classes. */
  method DagMetrics(adjacency: seq<seq<Half>>, reverse: seq<seq<Half>>, ghost g: Graph)
    returns (acyclic: bool, width: nat, longest: Option<nat>)
    requires WellFormed(|adjacency|, g) && IsAdjacency(|adjacency|, g, adjacency)
    requires IsAdjacency(|adjacency|, Transpose(g), reverse)
    ensures acyclic <==> Acyclic(|adjacency|, g)
    ensures longest.Some? <==> acyclic
    ensures acyclic && |adjacency| > 0 ==>
      && (exists p :: IsPath(|adjacency|, g, p) && |p| == longest.value)
      && (forall p :: IsPath(|adjacency|, g, p) ==> |p| <= longest.value)
    ensures acyclic && |adjacency| == 0 ==> longest.value == 0
    ensures acyclic ==>
      exists depth :: IsDepthMap(|adjacency|, g, depth) && IsLevelWidth(Nodes(|adjacency|), depth, width)
    ensures var grounded := GroundedNodes(|adjacency|, g);
      exists depth :: IsDepthOn(|adjacency|, g, grounded, depth) && IsLevelWidth(grounded, depth, width)
  {
    ghost var n := |adjacency|;
    ghost var unit := Ones(n);
    var indegree, queue := InitialQueue(reverse, g);
    var distance := Ones(|adjacency|);
    var processed := 0;
    width := |queue|;
    ghost var finished: set<nat> := {};
    ghost var k := 0;
    assert OutArcs(g, {}) == {};
    assert forall d :: Level({}, distance, d) == {};
    assert forall i :: 0 <= i < |queue| ==> queue[i] in queue;
    while queue != []
      invariant BetweenNodes(n, g, unit, indegree, queue, distance, finished) && processed == |finished|
      invariant LevelInv(queue, finished, distance, k, |queue|)
      invariant WidthInv(finished, distance, k, |queue|, Max(width, |queue|))
      decreases Nodes(n) - finished
    {
      var level := |queue|;
      width := Max(width, level);
      indegree, queue, distance, processed, finished :=
        ProcessLevel(adjacency, g, indegree, queue, distance, processed, finished, k, width);
      NextLevel(queue, finished, distance, k, width);
      k := k + 1;
    }
    DrainedQueue(n, g, indegree, queue, finished);
    ReleasedIsGrounded(n, g, indegree, distance, finished);
    WidthIsLevelWidth(finished, distance, k, width);
    acyclic := processed == |adjacency|;
    longest := None;
    if acyclic {
      FinishedIsLongest(n, g, unit, distance);
      UnitLongestIsDepth(n, g, distance);
      RankingIsAcyclic(n, g, distance);
      var m := MaximumOf(distance);
      longest := Some(m);
      DeepestIsLongest(n, g, distance, m);
    }
  }

  /** The flag alone. */
  method IsAcyclic(adjacency: seq<seq<Half>>, reverse: seq<seq<Half>>, ghost g: Graph) returns (acyclic: bool)
    requires WellFormed(|adjacency|, g) && IsAdjacency(|adjacency|, g, adjacency)
    requires IsAdjacency(|adjacency|, Transpose(g), reverse)
    ensures acyclic <==> Acyclic(|adjacency|, g)
  {
    var flag, width, longest := DagMetrics(adjacency, reverse, g);
    acyclic := flag;
  }

  method InitialQueue(reverse: seq<seq<Half>>, ghost g: Graph) returns (indegree: seq<nat>, queue: seq<nat>)
    requires WellFormed(|reverse|, g) && IsAdjacency(|reverse|, Transpose(g), reverse)
    ensures KahnInv(|reverse|, g, indegree, queue, {})
  {
    indegree, queue := [], [];
    for i := 0 to |reverse|
      invariant |indegree| == i
      invariant forall v :: 0 <= v < i ==> indegree[v] == Pending(g, v, {})
      invariant NoRepeats(queue)
      invariant forall v: nat :: v in queue <==> v < i && Pending(g, v, {}) == 0
    {
      InDegreeIsPending(|reverse|, g, reverse, i);
      indegree := indegree + [|reverse[i]|];
      if |reverse[i]| == 0 {
        queue := queue + [i];
      }
    }
  }

  /** The inner `for _ in 0..level` loop: one depth class is popped, the next pushed. */
  method ProcessLevel(adjacency: seq<seq<Half>>, ghost g: Graph, indegree0: seq<nat>, queue0: seq<nat>,
                      distance0: seq<nat>, processed0: nat, ghost finished0: set<nat>, ghost k: nat, ghost width: nat)
    returns (indegree: seq<nat>, queue: seq<nat>, distance: seq<nat>, processed: nat, ghost finished: set<nat>)
    requires IsAdjacency(|adjacency|, g, adjacency) && queue0 != []
    requires BetweenNodes(|adjacency|, g, Ones(|adjacency|), indegree0, queue0, distance0, finished0)
    requires processed0 == |finished0|
    requires LevelInv(queue0, finished0, distance0, k, |queue0|) && WidthInv(finished0, distance0, k, |queue0|, width)
    ensures BetweenNodes(|adjacency|, g, Ones(|adjacency|), indegree, queue, distance, finished)
    ensures processed == |finished| && finished0 < finished <= Nodes(|adjacency|)
    ensures LevelInv(queue, finished, distance, k, 0) && WidthInv(finished, distance, k, 0, width)
  {
    ghost var n := |adjacency|;
    ghost var unit := Ones(n);
    indegree, queue, distance, processed, finished := indegree0, queue0, distance0, processed0, finished0;
    for i := 0 to |queue0|
      invariant BetweenNodes(n, g, unit, indegree, queue, distance, finished)
      invariant processed == |finished| && finished0 <= finished && (i > 0 ==> finished0 != finished)
      invariant LevelInv(queue, finished, distance, k, |queue0| - i)
      invariant WidthInv(finished, distance, k, |queue0| - i, width)
    {
      ghost var node;
      indegree, queue, distance, node :=
        ProcessFirst(adjacency, g, indegree, queue, distance, finished, k, |queue0| - i, width);
      finished := finished + {node};
      processed := processed + 1;
    }
  }

  /** Takes the first node of the queue. */
  method ProcessFirst(adjacency: seq<seq<Half>>, ghost g: Graph, indegree0: seq<nat>, queue0: seq<nat>,
                      distance0: seq<nat>, ghost finished0: set<nat>, ghost k: nat, ghost remaining: nat,
                      ghost width: nat)
    returns (indegree: seq<nat>, queue: seq<nat>, distance: seq<nat>, ghost node: nat)
    requires IsAdjacency(|adjacency|, g, adjacency) && remaining > 0
    requires BetweenNodes(|adjacency|, g, Ones(|adjacency|), indegree0, queue0, distance0, finished0)
    requires LevelInv(queue0, finished0, distance0, k, remaining) && WidthInv(finished0, distance0, k, remaining, width)
    ensures node !in finished0 && node < |adjacency|
    ensures BetweenNodes(|adjacency|, g, Ones(|adjacency|), indegree, queue, distance, finished0 + {node})
    ensures LevelInv(queue, finished0 + {node}, distance, k, remaining - 1)
    ensures WidthInv(finished0 + {node}, distance, k, remaining - 1, width)
  {
    node := queue0[0];
    assert queue0[0] in queue0;
    LevelPop(queue0, finished0, distance0, k, remaining);
    WidthPop(finished0, distance0, k, remaining, width, node);
    assert ListsArcsOf(g, node, adjacency[node]);
    indegree, queue, distance :=
      ProcessNode(adjacency[queue0[0]], g, indegree0, queue0, distance0, finished0, k, remaining);
    WidthUnaffected(finished0 + {node}, distance0, distance, k, remaining - 1, width);
  }

  method ProcessNode(list: seq<Half>, ghost g: Graph, indegree0: seq<nat>, queue0: seq<nat>, distance0: seq<nat>,
                     ghost finished: set<nat>, ghost k: nat, ghost remaining: nat)
    returns (indegree: seq<nat>, queue: seq<nat>, distance: seq<nat>)
    requires BetweenNodes(|indegree0|, g, Ones(|indegree0|), indegree0, queue0, distance0, finished)
    requires queue0 != [] && queue0[0] < |indegree0| && ListsArcsOf(g, queue0[0], list)
    requires LevelInv(queue0, finished, distance0, k, remaining) && remaining > 0
    ensures BetweenNodes(|indegree0|, g, Ones(|indegree0|), indegree, queue, distance, finished + {queue0[0]})
    ensures LevelInv(queue, finished + {queue0[0]}, distance, k, remaining - 1)
    ensures AgreeOn(distance, distance0, finished + {queue0[0]})
  {
    ghost var n := |indegree0|;
    var node := queue0[0];
    ghost var unit, after := Ones(n), finished + {node};
    ghost var targets := Targets(list);
    TargetsCountArcs(n, g, node, list);
    StartRelaxing(n, g, unit, indegree0, queue0, distance0, finished, multiset(targets));
    LevelPop(queue0, finished, distance0, k, remaining);
    ghost var settled;
    indegree, queue, distance, settled :=
      RelaxDistances(list, g, indegree0, queue0[1..], distance0, finished, node, OutArcs(g, finished), k,
        remaining - 1);
    StopRelaxing(n, g, unit, indegree, queue, distance, finished, node, settled);
  }

  method RelaxDistances(list: seq<Half>, ghost g: Graph, indegree0: seq<nat>, queue0: seq<nat>, distance0: seq<nat>,
                        ghost finished: set<nat>, node: nat, ghost settled0: set<nat>, ghost k: nat,
                          ghost remaining: nat)
    returns (indegree: seq<nat>, queue: seq<nat>, distance: seq<nat>, ghost settled: set<nat>)
    requires Relaxing(|indegree0|, g, Ones(|indegree0|), indegree0, queue0, distance0, finished, node,
                      multiset(Targets(list)), settled0)
    requires LevelInv(queue0, finished + {node}, distance0, k, remaining)
    requires node < |distance0| && distance0[node] == k + 1
    ensures Relaxing(|indegree0|, g, Ones(|indegree0|), indegree, queue, distance, finished, node, multiset{}, settled)
    ensures LevelInv(queue, finished + {node}, distance, k, remaining)
    ensures AgreeOn(distance, distance0, finished + {node})
  {
    ghost var targets := Targets(list);
    ghost var rest := multiset(targets);
    assert targets[0..] == targets;
    indegree, queue, distance, settled := indegree0, queue0, distance0, settled0;
    for j := 0 to |list|
      invariant Relaxing(|indegree0|, g, Ones(|indegree0|), indegree, queue, distance, finished, node, rest, settled)
      invariant LevelInv(queue, finished + {node}, distance, k, remaining)
      invariant AgreeOn(distance, distance0, finished + {node})
      invariant rest == multiset(targets[j..])
    {
      SliceStep(targets, j);
      indegree, queue, distance :=
        RelaxDistance(g, indegree, queue, distance, finished, node, list[j].node, rest, settled, distance0, k,
          remaining);
      rest, settled := rest - multiset{targets[j]}, settled + ArcsBetween(g, node, targets[j]);
    }
    assert targets[|list|..] == [];
  }

  ghost predicate AgreeOn(a: seq<nat>, b: seq<nat>, nodes: set<nat>) {
    |a| == |b| && forall v :: v in nodes ==> v < |a| && a[v] == b[v]
  }

  method RelaxDistance(ghost g: Graph, indegree: seq<nat>, queue: seq<nat>, distance: seq<nat>,
      ghost finished: set<nat>,
                       node: nat, next: nat, ghost rest: multiset<nat>, ghost settled: set<nat>,
                       ghost distance0: seq<nat>, ghost k: nat, ghost remaining: nat)
    returns (indegree': seq<nat>, queue': seq<nat>, distance': seq<nat>)
    requires Relaxing(|indegree|, g, Ones(|indegree|), indegree, queue, distance, finished, node, rest, settled)
    requires LevelInv(queue, finished + {node}, distance, k, remaining)
    requires AgreeOn(distance, distance0, finished + {node})
    requires next in rest && node < |distance0| && distance0[node] == k + 1
    ensures Relaxing(|indegree|, g, Ones(|indegree|), indegree', queue', distance', finished, node,
                     rest - multiset{next}, settled + ArcsBetween(g, node, next))
    ensures LevelInv(queue', finished + {node}, distance', k, remaining)
    ensures AgreeOn(distance', distance0, finished + {node})
  {
    ghost var n := |indegree|;
    ghost var unit := Ones(n);
    NextTarget(n, g, unit, indegree, queue, distance, finished, node, rest, settled, next);
    assert unit[next] == 1;
    distance' := distance[next := Max(distance[next], distance[node] + 1)];
    indegree' := indegree[next := indegree[next] - 1];
    queue' := if indegree'[next] == 0 then queue + [next] else queue;
    ContinueRelaxing(n, g, unit, indegree, queue, distance, finished, node, rest, settled, next, indegree', queue',
      distance'[next]);
    LevelRelaxed(n, g, queue, distance, finished + {node}, settled, node, next, k, remaining, distance0, queue',
      distance');
  }

  lemma LevelRelaxed(n: nat, g: Graph, queue: seq<nat>, distance: seq<nat>, finished: set<nat>, settled: set<nat>,
                     u: nat, x: nat, k: nat, remaining: nat, distance0: seq<nat>, queue': seq<nat>, distance': seq<nat>)
    requires LongestOn(n, g, Ones(n), distance, settled) && settled <= OutArcs(g, finished)
    requires LevelInv(queue, finished, distance, k, remaining) && AgreeOn(distance, distance0, finished)
    requires u in finished && distance0[u] == k + 1 && x < n && x !in finished && x !in queue
    requires distance' == distance[x := Max(distance[x], distance[u] + 1)]
    requires queue' == queue || queue' == queue + [x]
    ensures LevelInv(queue', finished, distance', k, remaining) && AgreeOn(distance', distance0, finished)
  {
    RelaxedDepth(n, g, distance, settled, finished, u, x, k);
    LevelPush(queue, finished, distance, k, remaining, x, distance'[x], queue');
    AgreeUpdate(distance, distance0, finished, x, distance'[x]);
  }

  /** A node relaxed from depth `k + 1`, with only such depths settled, gets `k + 2`. */
  lemma RelaxedDepth(n: nat, g: Graph, distance: seq<nat>, settled: set<nat>, finished: set<nat>, u: nat, x: nat,
      k: nat)
    requires LongestOn(n, g, Ones(n), distance, settled) && settled <= OutArcs(g, finished)
    requires u < n && x < n && distance[u] == k + 1
    requires forall v :: v in finished ==> v < n && distance[v] <= k + 1
    ensures Max(distance[x], distance[u] + 1) == k + 2
  {
    var unit := Ones(n);
    assert distance[x] == unit[x] || AttainedOn(g, unit, distance, settled, x);
  }

  lemma LevelPush(queue: seq<nat>, finished: set<nat>, distance: seq<nat>, k: nat, remaining: nat, x: nat, d: nat,
      queue': seq<nat>)
    requires LevelInv(queue, finished, distance, k, remaining)
    requires x !in queue && x !in finished && x < |distance|
    requires d == k + 2 && (queue' == queue || queue' == queue + [x])
    ensures LevelInv(queue', finished, distance[x := d], k, remaining)
  {
  }

  lemma AgreeUpdate(a: seq<nat>, b: seq<nat>, nodes: set<nat>, x: nat, d: nat)
    requires AgreeOn(a, b, nodes) && x !in nodes && x < |a|
    ensures AgreeOn(a[x := d], b, nodes)
  {
  }

  // ------------------------------------------------------ critical_path_ms

  function Known(estimates: seq<Option<nat>>): (durations: seq<nat>)
    ensures |durations| == |estimates|
    ensures forall v :: 0 <= v < |estimates| && estimates[v].Some? ==> durations[v] == estimates[v].value
  {
    seq(|estimates|, v requires 0 <= v < |estimates| => if estimates[v].Some? then estimates[v].value else 0)
  }

  /** Source: `critical_path_ms`, which is asked only of acyclic graphs: nothing if there
      are no nodes or some node has no estimate, else the saturated maximum over all paths. */
  method CriticalPath(estimates: seq<Option<nat>>, reverse: seq<seq<Half>>, ghost g: Graph) returns (r: Option<nat>)
    requires |estimates| == |reverse|
    requires forall v :: 0 <= v < |estimates| && estimates[v].Some? ==> estimates[v].value <= U64_MAX
    requires WellFormed(|reverse|, g) && IsAdjacency(|reverse|, Transpose(g), reverse) && Acyclic(|reverse|, g)
    ensures r.None? <==> |reverse| == 0 || exists v :: 0 <= v < |estimates| && estimates[v].None?
    ensures r.Some? ==> exists total ::
      IsCriticalWeight(|reverse|, g, Known(estimates), total) && r.value == Saturate(total)
  {
    for v := 0 to |estimates|
      invariant forall u :: 0 <= u < v ==> estimates[u].Some?
    {
      if estimates[v].None? { return None; }
    }
    r := CriticalWeight(Known(estimates), reverse, g);
  }

  /** The same once every duration is known. */
  method CriticalWeight(durations: seq<nat>, reverse: seq<seq<Half>>, ghost g: Graph) returns (r: Option<nat>)
    requires |durations| == |reverse| && forall v :: 0 <= v < |durations| ==> durations[v] <= U64_MAX
    requires WellFormed(|reverse|, g) && IsAdjacency(|reverse|, Transpose(g), reverse) && Acyclic(|reverse|, g)
    ensures r.None? <==> |reverse| == 0
    ensures r.Some? ==> exists total :: IsCriticalWeight(|reverse|, g, durations, total) && r.value == Saturate(total)
  {
    ghost var n := |reverse|;
    var indegree, queue := InitialQueue(reverse, g);
    var successors := SuccessorsOf(reverse, g);
    var longest := durations;
    ghost var exact: seq<nat>, finished: set<nat> := durations, {};
    while queue != []
      invariant BetweenNodes(n, g, durations, indegree, queue, exact, finished)
      invariant SaturatedCopy(longest, exact)
      decreases Nodes(n) - finished
    {
      var node := queue[0];
      assert node in queue;
      indegree, queue, longest, exact :=
        RelaxSuccessors(successors[node], durations, g, indegree, queue, longest, exact, finished);
      finished := finished + {node};
    }
    DrainedQueue(n, g, indegree, queue, finished);
    FinishedIsLongest(n, g, durations, exact);
    if |longest| == 0 {
      return None;
    }
    var m := MaximumOf(longest);
    r := Some(m);
    ghost var rank := AcyclicHasRanking(n, g);
    ghost var top := GreatestIndex(exact);
    LongestMapIsCritical(n, g, durations, exact, rank, top);
    assert longest[top] == Saturate(exact[top]) && longest[top] in longest;
    assert IsCriticalWeight(n, g, durations, exact[top]) && m == Saturate(exact[top]);
  }

  /** One iteration of the queue loop: pop a node, relax each of its successors. */
  method RelaxSuccessors(successors: seq<nat>, durations: seq<nat>, ghost g: Graph, indegree0: seq<nat>,
      queue0: seq<nat>,
                         longest0: seq<nat>, ghost exact0: seq<nat>, ghost finished: set<nat>)
    returns (indegree: seq<nat>, queue: seq<nat>, longest: seq<nat>, ghost exact: seq<nat>)
    requires BetweenNodes(|indegree0|, g, durations, indegree0, queue0, exact0, finished)
    requires queue0 != [] && queue0[0] < |indegree0|
    requires SaturatedCopy(longest0, exact0)
    requires forall v :: v in multiset(successors) ==> v < |indegree0|
    requires forall v :: 0 <= v < |indegree0| ==> multiset(successors)[v] == ArcCount(g, queue0[0], v)
    ensures BetweenNodes(|indegree0|, g, durations, indegree, queue, exact, finished + {queue0[0]})
    ensures SaturatedCopy(longest, exact)
  {
    ghost var n := |indegree0|;
    var node := queue0[0];
    StartRelaxing(n, g, durations, indegree0, queue0, exact0, finished, multiset(successors));
    ghost var settled;
    indegree, queue, longest, exact, settled :=
      RelaxDurations(successors, durations, g, indegree0, queue0[1..], longest0, exact0, finished, node,
        OutArcs(g, finished));
    StopRelaxing(n, g, durations, indegree, queue, exact, finished, node, settled);
  }

  method RelaxDurations(successors: seq<nat>, durations: seq<nat>, ghost g: Graph, indegree0: seq<nat>,
      queue0: seq<nat>,
                        longest0: seq<nat>, ghost exact0: seq<nat>, ghost finished: set<nat>, node: nat,
                          ghost settled0: set<nat>)
    returns (indegree: seq<nat>, queue: seq<nat>, longest: seq<nat>, ghost exact: seq<nat>, ghost settled: set<nat>)
    requires Relaxing(|indegree0|, g, durations, indegree0, queue0, exact0, finished, node, multiset(successors),
      settled0)
    requires SaturatedCopy(longest0, exact0)
    ensures Relaxing(|indegree0|, g, durations, indegree, queue, exact, finished, node, multiset{}, settled)
    ensures SaturatedCopy(longest, exact)
  {
    ghost var rest := multiset(successors);
    assert successors[0..] == successors;
    indegree, queue, longest, exact, settled := indegree0, queue0, longest0, exact0, settled0;
    for j := 0 to |successors|
      invariant Relaxing(|indegree0|, g, durations, indegree, queue, exact, finished, node, rest, settled)
      invariant rest == multiset(successors[j..])
      invariant SaturatedCopy(longest, exact)
    {
      SliceStep(successors, j);
      indegree, queue, longest, exact :=
        RelaxDuration(durations, g, indegree, queue, longest, exact, finished, node, successors[j], rest, settled);
      rest, settled := rest - multiset{successors[j]}, settled + ArcsBetween(g, node, successors[j]);
    }
    assert successors[|successors|..] == [];
  }

  method RelaxDuration(durations: seq<nat>, ghost g: Graph, indegree: seq<nat>, queue: seq<nat>, longest: seq<nat>,
                       ghost exact: seq<nat>, ghost finished: set<nat>, node: nat, next: nat,
                       ghost rest: multiset<nat>, ghost settled: set<nat>)
    returns (indegree': seq<nat>, queue': seq<nat>, longest': seq<nat>, ghost exact': seq<nat>)
    requires Relaxing(|indegree|, g, durations, indegree, queue, exact, finished, node, rest, settled)
    requires SaturatedCopy(longest, exact) && next in rest
    ensures Relaxing(|indegree|, g, durations, indegree', queue', exact', finished, node,
                     rest - multiset{next}, settled + ArcsBetween(g, node, next))
    ensures SaturatedCopy(longest', exact')
  {
    NextTarget(|indegree|, g, durations, indegree, queue, exact, finished, node, rest, settled, next);
    longest' := longest[next := Max(longest[next], SaturatingAdd(longest[node], durations[next]))];
    exact' := exact[next := Max(exact[next], exact[node] + durations[next])];
    indegree' := indegree[next := indegree[next] - 1];
    queue' := if indegree'[next] == 0 then queue + [next] else queue;
    SaturatedStep(longest, exact, node, next, durations[next]);
    ContinueRelaxing(|indegree|, g, durations, indegree, queue, exact, finished, node, rest, settled, next,
                     indegree', queue', exact'[next]);
  }

  ghost predicate SaturatedCopy(longest: seq<nat>, exact: seq<nat>) {
    |longest| == |exact| && forall v :: 0 <= v < |longest| ==> longest[v] == Saturate(exact[v])
  }

  lemma SaturatedStep(longest: seq<nat>, exact: seq<nat>, u: nat, x: nat, d: nat)
    requires SaturatedCopy(longest, exact) && u < |exact| && x < |exact|
    ensures SaturatedCopy(longest[x := Max(longest[x], SaturatingAdd(longest[u], d))],
                          exact[x := Max(exact[x], exact[u] + d)])
  {
  }

  lemma GreatestIndex(s: seq<nat>) returns (top: nat)
    requires s != []
    ensures top < |s| && forall i :: 0 <= i < |s| ==> s[i] <= s[top]
  {
    if |s| == 1 {
      top := 0;
    } else {
      var t := GreatestIndex(s[..|s| - 1]);
      top := if s[t] < s[|s| - 1] then |s| - 1 else t;
    }
  }

  /** The nested loops that turn predecessor lists back into successor lists. */
  method SuccessorsOf(reverse: seq<seq<Half>>, ghost g: Graph) returns (successors: seq<seq<nat>>)
    requires WellFormed(|reverse|, g) && IsAdjacency(|reverse|, Transpose(g), reverse)
    ensures IsSuccessorTable(|reverse|, g, successors)
  {
    successors := seq(|reverse|, _ => []);
    for to := 0 to |reverse|
      invariant PartialTable(|reverse|, g, successors, to, multiset{})
    {
      successors := AppendSources(reverse[to], g, successors, to, |reverse|);
      AdjacencyIsSuccessorTable(|reverse|, Transpose(g), reverse);
      FinishColumn(|reverse|, g, reverse, successors, to);
    }
  }

  /** Columns below `to` are complete, column `to` holds `seen`, the others nothing. */
  ghost predicate PartialTable(n: nat, g: Graph, successors: seq<seq<nat>>, to: nat, seen: multiset<nat>) {
    && |successors| == n
    && (forall u, j :: 0 <= u < n && 0 <= j < |successors[u]| ==> successors[u][j] < n)
    && (forall u: nat, v: nat :: u < n && v < n ==>
          multiset(successors[u])[v] == if v < to then ArcCount(g, u, v) else if v == to then seen[u] else 0)
  }

  lemma FinishColumn(n: nat, g: Graph, reverse: seq<seq<Half>>, successors: seq<seq<nat>>, to: nat)
    requires |reverse| == n && to < n && PartialTable(n, g, successors, to, multiset(Targets(reverse[to])))
    requires IsSuccessorTable(n, Transpose(g), seq(n, u requires 0 <= u < n => Targets(reverse[u])))
    ensures PartialTable(n, g, successors, to + 1, multiset{})
  {
    forall u: nat | u < n ensures multiset(Targets(reverse[to]))[u] == ArcCount(g, u, to) {
      assert ArcsBetween(Transpose(g), to, u) == ArcsBetween(g, u, to);
        assert multiset(Targets(reverse[to]))[u] == ArcCount(Transpose(g), to, u);
    }
  }

  lemma AppendStep(n: nat, g: Graph, successors: seq<seq<nat>>, to: nat, seen: multiset<nat>, source: nat)
    requires PartialTable(n, g, successors, to, seen) && source < n && to < n
    ensures PartialTable(n, g, successors[source := successors[source] + [to]], to, seen + multiset{source})
  {
    assert multiset(successors[source] + [to]) == multiset(successors[source]) + multiset{to};
  }

  method AppendSources(list: seq<Half>, ghost g: Graph, successors0: seq<seq<nat>>, to: nat, ghost n: nat)
    returns (successors: seq<seq<nat>>)
    requires to < n && PartialTable(n, g, successors0, to, multiset{})
    requires forall i :: 0 <= i < |list| ==> list[i].node < n
    ensures PartialTable(n, g, successors, to, multiset(Targets(list)))
  {
    ghost var sources := Targets(list);
    successors := successors0;
    for i := 0 to |list|
      invariant PartialTable(n, g, successors, to, multiset(sources[..i]))
    {
      SliceStep(sources, i);
      AppendStep(n, g, successors, to, multiset(sources[..i]), list[i].node);
      successors := successors[list[i].node := successors[list[i].node] + [to]];
    }
    assert sources[..|list|] == sources;
  }
}
