/** Directed multigraphs as the linter and the simulator see them.

    A graph on the nodes `0..n` is a map from edge indices to arcs, so parallel
    edges stay distinct and removing one edge is map subtraction.  Paths, cycles
    and longest paths are defined here without reference to any algorithm. */
module Graphs {

  datatype Arc = Arc(from: nat, to: nat)

  type Graph = map<nat, Arc>

  ghost function Nodes(n: nat): (s: set<nat>)
    ensures forall v: nat :: v in s <==> v < n
    ensures |s| == n
  {
    if n == 0 then {} else Nodes(n - 1) + {n - 1}
  }

  ghost predicate WellFormed(n: nat, g: Graph) {
    forall e :: e in g ==> g[e].from < n && g[e].to < n
  }

  ghost predicate Linked(g: Graph, u: nat, v: nat) {
    exists e :: e in g && g[e] == Arc(u, v)
  }

  /** A path lists the nodes it visits; one node alone is a path. */
  ghost predicate IsPath(n: nat, g: Graph, p: seq<nat>) {
    && |p| > 0
    && (forall i :: 0 <= i < |p| ==> p[i] < n)
    && (forall i :: 0 <= i < |p| - 1 ==> Linked(g, p[i], p[i + 1]))
  }

  ghost predicate IsCycle(n: nat, g: Graph, p: seq<nat>) {
    IsPath(n, g, p) && |p| > 1 && p[0] == p[|p| - 1]
  }

  ghost predicate Acyclic(n: nat, g: Graph) {
    forall p :: !IsCycle(n, g, p)
  }

  /** Non-empty reachability: at least one arc is taken. */
  ghost predicate Reaches(n: nat, g: Graph, u: nat, v: nat) {
    exists p :: PathBetween(n, g, p, u, v)
  }

  ghost predicate PathBetween(n: nat, g: Graph, p: seq<nat>, u: nat, v: nat) {
    IsPath(n, g, p) && |p| > 1 && p[0] == u && p[|p| - 1] == v
  }

  lemma PathConcat(n: nat, g: Graph, p: seq<nat>, q: seq<nat>)
    requires IsPath(n, g, p) && IsPath(n, g, q) && p[|p| - 1] == q[0]
    ensures IsPath(n, g, p + q[1..])
    ensures (p + q[1..])[0] == p[0]
    ensures (p + q[1..])[|p + q[1..]| - 1] == q[|q| - 1]
  {
    var r := p + q[1..];
    forall i | 0 <= i < |r| - 1 ensures Linked(g, r[i], r[i + 1]) {
      if i >= |p| - 1 {
        assert r[i] == q[i - (|p| - 1)] && r[i + 1] == q[i + 1 - (|p| - 1)];
      }
    }
  }

  lemma ReachesTransitive(n: nat, g: Graph, u: nat, v: nat, w: nat)
    requires Reaches(n, g, u, v) && Reaches(n, g, v, w)
    ensures Reaches(n, g, u, w)
  {
    var p :| PathBetween(n, g, p, u, v);
    var q :| PathBetween(n, g, q, v, w);
    PathConcat(n, g, p, q);
    assert PathBetween(n, g, p + q[1..], u, w);
  }

  lemma LinkReaches(n: nat, g: Graph, u: nat, v: nat)
    requires u < n && v < n && Linked(g, u, v)
    ensures Reaches(n, g, u, v)
  {
    assert PathBetween(n, g, [u, v], u, v);
  }

  // ---------------------------------------------------------------- counting

  /** The in-arcs of `v` whose source is not in `finished`: what a Kahn-style
      indegree counter has to hold while `finished` is the set of handled nodes. */
  ghost function PendingArcs(g: Graph, v: nat, finished: set<nat>): set<nat> {
    set e | e in g && g[e].to == v && g[e].from !in finished
  }

  ghost function Pending(g: Graph, v: nat, finished: set<nat>): nat {
    |PendingArcs(g, v, finished)|
  }

  ghost function ArcsBetween(g: Graph, u: nat, v: nat): set<nat> {
    set e | e in g && g[e] == Arc(u, v)
  }

  ghost function ArcCount(g: Graph, u: nat, v: nat): nat {
    |ArcsBetween(g, u, v)|
  }

  /** `succ[u]` lists the target of every arc leaving `u`, once per arc. */
  ghost predicate IsSuccessorTable(n: nat, g: Graph, succ: seq<seq<nat>>) {
    && |succ| == n
    && (forall u, j :: 0 <= u < n && 0 <= j < |succ[u]| ==> succ[u][j] < n)
    && (forall u, v :: 0 <= u < n && 0 <= v < n ==> multiset(succ[u])[v] == ArcCount(g, u, v))
  }

  lemma FinishingRemovesArcs(g: Graph, u: nat, v: nat, finished: set<nat>)
    requires u !in finished
    ensures Pending(g, v, finished) == Pending(g, v, finished + {u}) + ArcCount(g, u, v)
  {
    var before, after, gone := PendingArcs(g, v, finished), PendingArcs(g, v, finished + {u}), ArcsBetween(g, u, v);
    assert before == after + gone;
    assert after !! gone;
  }

  lemma NoPendingMeansPredecessorsFinished(g: Graph, v: nat, finished: set<nat>)
    ensures Pending(g, v, finished) == 0 <==> (forall e :: e in g && g[e].to == v ==> g[e].from in finished)
  {
    if Pending(g, v, finished) == 0 {
      forall e | e in g && g[e].to == v ensures g[e].from in finished {
        assert g[e].from !in finished ==> e in PendingArcs(g, v, finished);
      }
    } else {
      var e :| e in PendingArcs(g, v, finished);
      assert e in g && g[e].to == v && g[e].from !in finished;
    }
  }

  // ----------------------------------------------------------------- cycles

  /** Every node of `stuck` has a predecessor in `stuck`: the state in which a
      Kahn pass or the scheduler would make no progress. */
  ghost predicate Stuck(n: nat, g: Graph, stuck: set<nat>) {
    && stuck != {}
    && (forall v :: v in stuck ==> v < n)
    && (forall v {:trigger LinkedFrom(g, stuck, v)} :: v in stuck ==> LinkedFrom(g, stuck, v))
  }

  ghost predicate LinkedFrom(g: Graph, sources: set<nat>, v: nat) {
    exists u :: u in sources && Linked(g, u, v)
  }

  lemma BackwardWalk(n: nat, g: Graph, stuck: set<nat>, k: nat) returns (p: seq<nat>)
    requires Stuck(n, g, stuck) && k > 0
    ensures IsPath(n, g, p) && |p| == k && forall i :: 0 <= i < k ==> p[i] in stuck
  {
    if k == 1 {
      var v :| v in stuck;
      p := [v];
    } else {
      var q := BackwardWalk(n, g, stuck, k - 1);
      assert LinkedFrom(g, stuck, q[0]);
      var u :| u in stuck && Linked(g, u, q[0]);
      p := [u] + q;
    }
  }

  lemma Pigeonhole(n: nat, p: seq<nat>) returns (i: nat, j: nat)
    requires |p| > n && forall k :: 0 <= k < |p| ==> p[k] < n
    ensures i < j < |p| && p[i] == p[j]
  {
    assert n > 0 by { assert p[0] < n; }
    var last := n - 1;
    if a, b :| 0 <= a < b < |p| && p[a] == last == p[b] {
      return a, b;
    }
    if a :| 0 <= a < |p| && p[a] == last {
      var q := p[..a] + p[a + 1..];
      assert forall k :: 0 <= k < |q| ==> q[k] == if k < a then p[k] else p[k + 1];
      assert forall k :: 0 <= k < |q| ==> q[k] < n - 1;
      var i', j' := Pigeonhole(n - 1, q);
      i, j := if i' < a then i' else i' + 1, if j' < a then j' else j' + 1;
    } else {
      i, j := Pigeonhole(n - 1, p);
    }
  }

  /** A stuck set contains a directed cycle. */
  lemma StuckHasCycle(n: nat, g: Graph, stuck: set<nat>)
    requires Stuck(n, g, stuck)
    ensures !Acyclic(n, g)
  {
    var p := BackwardWalk(n, g, stuck, n + 1);
    var i, j := Pigeonhole(n, p);
    var c := p[i..j + 1];
    forall k | 0 <= k < |c| - 1 ensures Linked(g, c[k], c[k + 1]) {
      assert Linked(g, p[i + k], p[i + k + 1]);
    }
    assert IsCycle(n, g, c);
  }

  // --------------------------------------------------- rankings, longest paths

  /** A ranking certifies acyclicity: every arc goes strictly up. */
  ghost predicate IsRanking(n: nat, g: Graph, rank: seq<nat>) {
    |rank| == n && forall e :: e in g && g[e].from < n && g[e].to < n ==> rank[g[e].from] < rank[g[e].to]
  }

  lemma {:induction false} RankGrowsAlongPath(n: nat, g: Graph, rank: seq<nat>, p: seq<nat>)
    requires IsRanking(n, g, rank) && IsPath(n, g, p)
    ensures rank[p[0]] + |p| - 1 <= rank[p[|p| - 1]]
  {
    if |p| > 1 {
      var q := p[..|p| - 1];
      assert forall i :: 0 <= i < |q| - 1 ==> Linked(g, q[i], q[i + 1]) by {
        forall i | 0 <= i < |q| - 1 ensures Linked(g, q[i], q[i + 1]) { assert Linked(g, p[i], p[i + 1]); }
      }
      RankGrowsAlongPath(n, g, rank, q);
      assert Linked(g, p[|p| - 2], p[|p| - 1]);
    }
  }

  lemma RankingIsAcyclic(n: nat, g: Graph, rank: seq<nat>)
    requires IsRanking(n, g, rank)
    ensures Acyclic(n, g)
  {
    forall p ensures !IsCycle(n, g, p) {
      if IsCycle(n, g, p) { RankGrowsAlongPath(n, g, rank, p); }
    }
  }

  /** In an acyclic graph every non-empty set has a member no other member precedes. */
  lemma SourceWithin(n: nat, g: Graph, nodes: set<nat>) returns (v: nat)
    requires WellFormed(n, g) && Acyclic(n, g) && nodes != {} && nodes <= Nodes(n)
    ensures v in nodes && forall e :: e in g && g[e].to == v ==> g[e].from !in nodes
  {
    if Stuck(n, g, nodes) {
      StuckHasCycle(n, g, nodes);
      assert false;
    }
    v :| v in nodes && !LinkedFrom(g, nodes, v);
    forall e | e in g && g[e].to == v ensures g[e].from !in nodes {
      assert g[e] == Arc(g[e].from, v);
      assert Linked(g, g[e].from, v);
    }
  }

  /** The nodes ranked so far are closed under predecessors, and their ranks are below `next`. */
  ghost predicate RankedSoFar(n: nat, g: Graph, rank: seq<nat>, placed: set<nat>, next: nat) {
    && |rank| == n
    && (forall v :: v in placed ==> v < n && rank[v] < next)
    && (forall e :: e in g && g[e].to in placed ==> g[e].from in placed && rank[g[e].from] < rank[g[e].to])
  }

  lemma RankOne(n: nat, g: Graph, rank: seq<nat>, placed: set<nat>, next: nat, v: nat)
    requires RankedSoFar(n, g, rank, placed, next) && v < n && v !in placed
    requires forall e :: e in g && g[e].to == v ==> g[e].from in placed
    ensures RankedSoFar(n, g, rank[v := next], placed + {v}, next + 1)
  {
  }

  /** Every acyclic graph has a ranking. */
  lemma AcyclicHasRanking(n: nat, g: Graph) returns (rank: seq<nat>)
    requires WellFormed(n, g) && Acyclic(n, g)
    ensures IsRanking(n, g, rank)
  {
    var placed: set<nat> := {};
    var todo := Nodes(n);
    var next := 1;
    rank := seq(n, _ => 0);
    while todo != {}
      invariant todo == Nodes(n) - placed && RankedSoFar(n, g, rank, placed, next)
      decreases todo
    {
      var v := SourceWithin(n, g, todo);
      RankOne(n, g, rank, placed, next, v);
      rank := rank[v := next];
      placed, todo, next := placed + {v}, todo - {v}, next + 1;
    }
  }

  function Sum(s: seq<nat>): nat {
    if s == [] then 0 else Sum(s[..|s| - 1]) + s[|s| - 1]
  }

  lemma {:induction false} SumUpdate(s: seq<nat>, i: nat, x: nat)
    requires i < |s|
    ensures Sum(s[i := x]) + s[i] == Sum(s) + x
  {
    if i == |s| - 1 {
      assert s[i := x][..|s| - 1] == s[..|s| - 1];
    } else {
      SumUpdate(s[..|s| - 1], i, x);
      assert s[i := x][..|s| - 1] == s[..|s| - 1][i := x];
    }
  }

  lemma {:induction false} SumMonotone(s: seq<nat>, t: seq<nat>)
    requires |s| == |t| && forall i :: 0 <= i < |s| ==> s[i] <= t[i]
    ensures Sum(s) <= Sum(t)
  {
    if s != [] { SumMonotone(s[..|s| - 1], t[..|t| - 1]); }
  }

  ghost function Weight(w: seq<nat>, p: seq<nat>): nat
    requires forall i :: 0 <= i < |p| ==> p[i] < |w|
  {
    if p == [] then 0 else Weight(w, p[..|p| - 1]) + w[p[|p| - 1]]
  }

  /** `longest[v]` satisfies the longest-path equations for node weights `w`. */
  ghost predicate IsLongestMap(n: nat, g: Graph, w: seq<nat>, longest: seq<nat>) {
    && |w| == n && |longest| == n && WellFormed(n, g)
    && (forall v :: 0 <= v < n ==> w[v] <= longest[v])
    && (forall e :: e in g ==> longest[g[e].from] + w[g[e].to] <= longest[g[e].to])
    && (forall v {:trigger Attained(g, w, longest, v)} :: 0 <= v < n ==>
      longest[v] == w[v] || Attained(g, w, longest, v))
  }

  ghost predicate Attained(g: Graph, w: seq<nat>, longest: seq<nat>, v: nat)
    requires v < |w| && v < |longest|
  {
    exists e :: e in g && g[e].to == v && g[e].from < |longest| && longest[v] == longest[g[e].from] + w[v]
  }

  /** `total` is the greatest weight of any path. */
  ghost predicate IsCriticalWeight(n: nat, g: Graph, w: seq<nat>, total: nat)
    requires |w| == n
  {
    && (exists p :: IsPath(n, g, p) && Weight(w, p) == total)
    && (forall p :: IsPath(n, g, p) ==> Weight(w, p) <= total)
  }

  lemma {:induction false} PathWithinLongest(n: nat, g: Graph, w: seq<nat>, longest: seq<nat>, p: seq<nat>)
    requires IsLongestMap(n, g, w, longest) && IsPath(n, g, p)
    ensures Weight(w, p) <= longest[p[|p| - 1]]
  {
    if |p| == 1 {
      assert p[..0] == [];
    } else {
      var q := p[..|p| - 1];
      forall i | 0 <= i < |q| - 1 ensures Linked(g, q[i], q[i + 1]) { assert Linked(g, p[i], p[i + 1]); }
      PathWithinLongest(n, g, w, longest, q);
      assert Linked(g, p[|p| - 2], p[|p| - 1]);
    }
  }

  lemma {:induction false} LongestIsAttained(n: nat, g: Graph, w: seq<nat>, longest: seq<nat>, rank: seq<nat>, v: nat)
    returns (p: seq<nat>)
    requires IsLongestMap(n, g, w, longest) && IsRanking(n, g, rank) && v < n
    ensures IsPath(n, g, p) && p[|p| - 1] == v && Weight(w, p) == longest[v]
    decreases rank[v]
  {
    if longest[v] == w[v] {
      p := [v];
      assert p[..0] == [];
    } else {
      assert Attained(g, w, longest, v);
      var e :| e in g && g[e].to == v && longest[v] == longest[g[e].from] + w[v];
      var q := LongestIsAttained(n, g, w, longest, rank, g[e].from);
      p := q + [v];
      assert p[..|p| - 1] == q;
      assert g[e] == Arc(q[|q| - 1], v);
    }
  }

  /** The longest-path equations have one solution: the path maxima. */
  lemma LongestMapIsCritical(n: nat, g: Graph, w: seq<nat>, longest: seq<nat>, rank: seq<nat>, top: nat)
    requires IsLongestMap(n, g, w, longest) && IsRanking(n, g, rank)
    requires top < n && forall v :: 0 <= v < n ==> longest[v] <= longest[top]
    ensures IsCriticalWeight(n, g, w, longest[top])
  {
    var p := LongestIsAttained(n, g, w, longest, rank, top);
    forall q | IsPath(n, g, q) ensures Weight(w, q) <= longest[top] {
      PathWithinLongest(n, g, w, longest, q);
    }
  }

  lemma CriticalExists(n: nat, g: Graph, w: seq<nat>) returns (total: nat)
    requires n > 0 && WellFormed(n, g) && Acyclic(n, g) && |w| == n
    ensures IsCriticalWeight(n, g, w, total)
  {
    var rank := AcyclicHasRanking(n, g);
    var longest := LongestMapExists(n, g, w, rank);
    var values := set v | v in Nodes(n) :: longest[v];
    assert longest[0] in values by { assert 0 in Nodes(n); }
    total := Greatest(values);
    var top :| top in Nodes(n) && longest[top] == total;
    assert forall v: nat :: v < n ==> v in Nodes(n) && longest[v] in values;
    LongestMapIsCritical(n, g, w, longest, rank, top);
  }

  ghost function Greatest(s: set<nat>): (m: nat)
    ensures forall x :: x in s ==> x <= m
    ensures s != {} ==> m in s
  {
    if s == {} then 0 else
      var x :| x in s;
      var m := Greatest(s - {x});
      assert s == (s - {x}) + {x};
      if x > m then x else m
  }

  /** Weight of a longest path ending at `v`, by recursion along a ranking. */
  ghost function LongestTo(n: nat, g: Graph, w: seq<nat>, rank: seq<nat>, v: nat): nat
    requires WellFormed(n, g) && IsRanking(n, g, rank) && |w| == n && v < n
    decreases rank[v], 1
  {
    w[v] + Greatest(LongestBefore(n, g, w, rank, v))
  }

  ghost function LongestBefore(n: nat, g: Graph, w: seq<nat>, rank: seq<nat>, v: nat): set<nat>
    requires WellFormed(n, g) && IsRanking(n, g, rank) && |w| == n && v < n
    decreases rank[v], 0
  {
    set e | e in g && g[e].to == v :: LongestTo(n, g, w, rank, g[e].from)
  }

  lemma LongestMapExists(n: nat, g: Graph, w: seq<nat>, rank: seq<nat>) returns (longest: seq<nat>)
    requires WellFormed(n, g) && IsRanking(n, g, rank) && |w| == n
    ensures IsLongestMap(n, g, w, longest)
  {
    longest := seq(n, v requires 0 <= v < n => LongestTo(n, g, w, rank, v));
    forall e | e in g ensures longest[g[e].from] + w[g[e].to] <= longest[g[e].to] {
      assert LongestTo(n, g, w, rank, g[e].from) in LongestBefore(n, g, w, rank, g[e].to);
    }
    forall v | 0 <= v < n ensures longest[v] == w[v] || Attained(g, w, longest, v) {
      var before := LongestBefore(n, g, w, rank, v);
      if before != {} {
        var e :| e in g && g[e].to == v && LongestTo(n, g, w, rank, g[e].from) == Greatest(before);
        assert longest[v] == longest[g[e].from] + w[v];
      }
    }
  }
}
