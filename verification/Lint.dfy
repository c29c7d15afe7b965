/** The linter's view of a topology: node indices, adjacency lists, and the
    pairwise resource-conflict pass. */
module Lint {
  import opened Machine
  import opened Orders
  import opened Topology
  import opened Graphs
  import opened Kahn
  import opened Reachability

  /** Collecting `(node_id, index)` into a map: the last of equal ids wins. */
  function NodeIndex(nodes: seq<TopologyNode>): (m: map<string, nat>)
    ensures forall id :: id in m ==> m[id] < |nodes| && nodes[m[id]].nodeId == id
    ensures forall i :: 0 <= i < |nodes| ==> nodes[i].nodeId in m
  {
    if nodes == [] then map[] else
      var last := |nodes| - 1;
      NodeIndex(nodes[..last])[nodes[last].nodeId := last]
  }

  ghost predicate Resolves(t: ExecutionTopology, e: nat) {
    e < |t.edges| && t.edges[e].from in NodeIndex(t.nodes) && t.edges[e].to in NodeIndex(t.nodes)
  }

  ghost function ArcAt(t: ExecutionTopology, e: nat): Arc
    requires Resolves(t, e)
  {
    Arc(NodeIndex(t.nodes)[t.edges[e].from], NodeIndex(t.nodes)[t.edges[e].to])
  }

  /** `g` holds the arcs of the first `k` edges; an edge with an unknown end has none. */
  ghost predicate ArcsFor(t: ExecutionTopology, k: nat, g: Graph) {
    && (forall e: nat :: e in g <==> e < k && Resolves(t, e))
    && (forall e :: e in g ==> g[e] == ArcAt(t, e))
  }

  ghost function ArcsUpTo(t: ExecutionTopology, k: nat): (g: Graph)
    ensures ArcsFor(t, k, g)
  {
    if k == 0 then map[] else
      var g := ArcsUpTo(t, k - 1);
      ArcsForStep(t, k - 1, g);
      if Resolves(t, k - 1) then g[k - 1 := ArcAt(t, k - 1)] else g
  }

  lemma ArcsForStep(t: ExecutionTopology, k: nat, g: Graph)
    requires ArcsFor(t, k, g)
    ensures ArcsFor(t, k + 1, if Resolves(t, k) then g[k := ArcAt(t, k)] else g)
  {
    var g' := if Resolves(t, k) then g[k := ArcAt(t, k)] else g;
    forall e: nat ensures e in g' <==> e < k + 1 && Resolves(t, e) {
      assert e in g <==> e < k && Resolves(t, e);
    }
  }

  /** The graph of a topology. */
  ghost function ArcsOf(t: ExecutionTopology): (g: Graph)
    ensures ArcsFor(t, |t.edges|, g)
  {
    ArcsUpTo(t, |t.edges|)
  }

  lemma ArcsForUnique(t: ExecutionTopology, g: Graph)
    requires ArcsFor(t, |t.edges|, g)
    ensures g == ArcsOf(t)
  {
    forall e ensures e in g <==> e in ArcsOf(t) {
    }
  }

  lemma ArcsWellFormed(t: ExecutionTopology)
    ensures WellFormed(|t.nodes|, ArcsOf(t))
  {
  }

  lemma UniqueIndex(nodes: seq<TopologyNode>, i: nat)
    requires NodeIdsUnique(nodes) && i < |nodes|
    ensures NodeIndex(nodes)[nodes[i].nodeId] == i
  {
    var j := NodeIndex(nodes)[nodes[i].nodeId];
    assert nodes[j].nodeId == nodes[i].nodeId;
  }

  /** The arc of an edge goes between the nodes it names. */
  lemma ArcByIds(t: ExecutionTopology, e: nat, a: nat, b: nat)
    requires NodeIdsUnique(t.nodes) && a < |t.nodes| && b < |t.nodes|
    ensures e in ArcsOf(t) && ArcsOf(t)[e] == Arc(a, b) <==>
      e < |t.edges| && t.edges[e].from == t.nodes[a].nodeId && t.edges[e].to == t.nodes[b].nodeId
  {
    UniqueIndex(t.nodes, a);
    UniqueIndex(t.nodes, b);
    if e < |t.edges| && t.edges[e].from == t.nodes[a].nodeId && t.edges[e].to == t.nodes[b].nodeId {
      assert Resolves(t, e);
      assert ArcAt(t, e) == Arc(a, b);
    }
    if e in ArcsOf(t) {
      assert Resolves(t, e) && ArcsOf(t)[e] == ArcAt(t, e);
    }
  }

  predicate HalfLeq(a: Half, b: Half) {
    a.node < b.node || (a.node == b.node && a.edge <= b.edge)
  }

  lemma AddArc(n: nat, g: Graph, adjacency: seq<seq<Half>>, e: nat, u: nat, v: nat)
    requires IsAdjacency(n, g, adjacency) && e !in g && u < n
    ensures IsAdjacency(n, g[e := Arc(u, v)], adjacency[u := adjacency[u] + [Half(v, e)]])
  {
    var g', a' := g[e := Arc(u, v)], adjacency[u := adjacency[u] + [Half(v, e)]];
    forall d | d in g' && g'[d].from < n ensures Half(g'[d].to, d) in a'[g'[d].from] {
      if d == e {
        assert a'[u][|adjacency[u]|] == Half(v, e);
      } else {
        var list := adjacency[g[d].from];
        var i :| 0 <= i < |list| && list[i] == Half(g[d].to, d);
        assert a'[g[d].from][i] == list[i];
      }
    }
  }

  lemma SortKeepsLists(n: nat, g: Graph, adjacency: seq<seq<Half>>, sorted: seq<seq<Half>>)
    requires IsAdjacency(n, g, adjacency) && |sorted| == n
    requires forall u :: 0 <= u < n ==> multiset(sorted[u]) == multiset(adjacency[u])
    ensures IsAdjacency(n, g, sorted)
  {
    forall u | 0 <= u < n
      ensures DistinctEdges(sorted[u])
      ensures forall h :: h in sorted[u] <==> h in adjacency[u]
    {
      SameMultiset(sorted[u], adjacency[u]);
      var pi := MultisetGivesMatching(sorted[u], adjacency[u]);
      forall i, j | 0 <= i < j < |sorted[u]| ensures sorted[u][i].edge != sorted[u][j].edge {
        assert pi[i] != pi[j];
      }
    }
    forall u, j | 0 <= u < n && 0 <= j < |sorted[u]|
      ensures sorted[u][j].edge in g && g[sorted[u][j].edge] == Arc(u, sorted[u][j].node)
    {
      assert sorted[u][j] in adjacency[u];
    }
  }

  lemma TransposeUpdate(g: Graph, e: nat, a: Arc)
    ensures Transpose(g[e := a]) == Transpose(g)[e := Arc(a.to, a.from)]
  {
  }

  ghost predicate ListedUpTo(t: ExecutionTopology, k: nat, g: Graph, adjacency: seq<seq<Half>>,
      reverse: seq<seq<Half>>) {
    && ArcsFor(t, k, g)
    && IsAdjacency(|t.nodes|, g, adjacency)
    && IsAdjacency(|t.nodes|, Transpose(g), reverse)
  }

  lemma PushEdge(t: ExecutionTopology, e: nat, g: Graph, adjacency: seq<seq<Half>>, reverse: seq<seq<Half>>,
      from: nat, to: nat)
    requires Resolves(t, e) && ArcAt(t, e) == Arc(from, to)
    requires ListedUpTo(t, e, g, adjacency, reverse) && from < |t.nodes| && to < |t.nodes|
    ensures ListedUpTo(t, e + 1, g[e := Arc(from, to)],
                       adjacency[from := adjacency[from] + [Half(to, e)]], reverse[to := reverse[to] + [Half(from, e)]])
  {
    ArcsForStep(t, e, g);
    TransposeUpdate(g, e, Arc(from, to));
    AddArc(|t.nodes|, g, adjacency, e, from, to);
    AddArc(|t.nodes|, Transpose(g), reverse, e, to, from);
  }

  /** Source: the head of `lint_execution_topology`. */
  method BuildAdjacency(t: ExecutionTopology) returns (adjacency: seq<seq<Half>>, reverse: seq<seq<Half>>)
    ensures |adjacency| == |reverse| == |t.nodes|
    ensures IsAdjacency(|t.nodes|, ArcsOf(t), adjacency)
    ensures IsAdjacency(|t.nodes|, Transpose(ArcsOf(t)), reverse)
    ensures EachSorted(adjacency) && EachSorted(reverse)
  {
    ghost var g;
    adjacency, reverse, g := PushEdges(t);
    ArcsForUnique(t, g);
    adjacency := SortLists(adjacency, g);
    reverse := SortLists(reverse, Transpose(g));
  }

  method PushEdges(t: ExecutionTopology) returns (adjacency: seq<seq<Half>>, reverse: seq<seq<Half>>, ghost g: Graph)
    ensures ListedUpTo(t, |t.edges|, g, adjacency, reverse)
  {
    adjacency, reverse, g := Repeat(|t.nodes|, []), Repeat(|t.nodes|, []), map[];
    NothingListed(t, adjacency);
    for e := 0 to |t.edges|
      invariant ListedUpTo(t, e, g, adjacency, reverse)
    {
      adjacency, reverse, g := PushOne(t, e, g, adjacency, reverse);
    }
  }

  lemma NothingListed(t: ExecutionTopology, lists: seq<seq<Half>>)
    requires |lists| == |t.nodes| && forall u :: 0 <= u < |lists| ==> lists[u] == []
    ensures ListedUpTo(t, 0, map[], lists, lists)
  {
    assert Transpose(map[]) == map[];
  }

  method PushOne(t: ExecutionTopology, e: nat, ghost g: Graph, adjacency: seq<seq<Half>>, reverse: seq<seq<Half>>)
    returns (adjacency': seq<seq<Half>>, reverse': seq<seq<Half>>, ghost g': Graph)
    requires e < |t.edges| && ListedUpTo(t, e, g, adjacency, reverse)
    ensures ListedUpTo(t, e + 1, g', adjacency', reverse')
  {
    adjacency', reverse', g' := adjacency, reverse, g;
    var index, edge := NodeIndex(t.nodes), t.edges[e];
    if edge.from in index && edge.to in index {
      var from, to := index[edge.from], index[edge.to];
      PushEdge(t, e, g, adjacency, reverse, from, to);
      adjacency' := adjacency[from := adjacency[from] + [Half(to, e)]];
      reverse' := reverse[to := reverse[to] + [Half(from, e)]];
      g' := g[e := Arc(from, to)];
    } else {
      ArcsForStep(t, e, g);
    }
  }

  /** Every list is ordered by neighbour, then by edge. */
  ghost predicate EachSorted(lists: seq<seq<Half>>) {
    forall u :: 0 <= u < |lists| ==> Sorted(HalfLeq, lists[u])
  }

  method SortLists(lists: seq<seq<Half>>, ghost g: Graph) returns (sorted: seq<seq<Half>>)
    requires IsAdjacency(|lists|, g, lists)
    ensures |sorted| == |lists| && IsAdjacency(|lists|, g, sorted) && EachSorted(sorted)
  {
    sorted := SortEach(lists);
    SortKeepsLists(|lists|, g, lists, sorted);
  }

  method SortEach(lists: seq<seq<Half>>) returns (sorted: seq<seq<Half>>)
    ensures |sorted| == |lists| && EachSorted(sorted)
    ensures forall u :: 0 <= u < |lists| ==> multiset(sorted[u]) == multiset(lists[u])
  {
    sorted := [];
    for u := 0 to |lists|
      invariant |sorted| == u && forall v :: 0 <= v < u ==> sorted[v] == SortBy(lists[v], HalfLeq)
    {
      sorted := sorted + [SortBy(lists[u], HalfLeq)];
    }
    forall u | 0 <= u < |sorted| ensures Sorted(HalfLeq, sorted[u]) { SortBySorted(lists[u], HalfLeq); }
  }

  // -------------------------------------------------------- resource conflicts

  datatype ConflictCode = UnsafeParallelResourceConflict | IsolatedWorktreeMergeRisk

  datatype ConflictFinding = ConflictFinding(code: ConflictCode, left: nat, right: nat, resource: string)

  predicate ClaimsConflict(l: ResourceMode, r: ResourceMode) {
    l != Read || r != Read
  }

  predicate Contends(l: ResourceClaim, r: ResourceClaim) {
    l.resource == r.resource && ClaimsConflict(l.mode, r.mode)
  }

  predicate IsolatedFile(l: ResourceClaim, r: ResourceClaim) {
    && "file:" <= l.resource
    && l.workspaceStrategy == Some(IsolatedWorktree) && r.workspaceStrategy == Some(IsolatedWorktree)
  }

  ghost predicate Ordered(t: ExecutionTopology, u: nat, v: nat) {
    Reaches(|t.nodes|, ArcsOf(t), u, v) || Reaches(|t.nodes|, ArcsOf(t), v, u)
  }

  /** A direct resource-exclusion edge between the two nodes covers the resource. */
  predicate Protected(t: ExecutionTopology, left: nat, right: nat, resource: string) {
    var index := NodeIndex(t.nodes);
    exists e :: 0 <= e < |t.edges| && t.edges[e].kind == ResourceExclusion && resource in t.edges[e].resourceScope
      && t.edges[e].from in index && t.edges[e].to in index
      && ((index[t.edges[e].from] == left && index[t.edges[e].to] == right)
          || (index[t.edges[e].from] == right && index[t.edges[e].to] == left))
  }

  /** The exclusion-edge exemption can never decide the outcome: such an edge also
      orders the two nodes, and ordered pairs are skipped beforehand. */
  lemma ProtectedIsOrdered(t: ExecutionTopology, left: nat, right: nat, resource: string)
    requires left < |t.nodes| && right < |t.nodes| && Protected(t, left, right, resource)
    ensures Ordered(t, left, right)
  {
    var index, g := NodeIndex(t.nodes), ArcsOf(t);
    var e :| 0 <= e < |t.edges| && t.edges[e].from in index && t.edges[e].to in index
      && ((index[t.edges[e].from] == left && index[t.edges[e].to] == right)
          || (index[t.edges[e].from] == right && index[t.edges[e].to] == left));
    var u, v := index[t.edges[e].from], index[t.edges[e].to];
    assert Resolves(t, e) && e in g && g[e] == Arc(u, v);
    assert Linked(g, u, v);
    LinkReaches(|t.nodes|, g, u, v);
  }

  function FindingFor(l: ResourceClaim, r: ResourceClaim, left: nat, right: nat): ConflictFinding {
    ConflictFinding(if IsolatedFile(l, r) then IsolatedWorktreeMergeRisk
      else UnsafeParallelResourceConflict, left, right, l.resource)
  }

  ghost predicate FromRow(l: ResourceClaim, claims: seq<ResourceClaim>, left: nat, right: nat, f: ConflictFinding) {
    exists j :: 0 <= j < |claims| && Contends(l, claims[j]) && f == FindingFor(l, claims[j], left, right)
  }

  ghost predicate FromPair(ls: seq<ResourceClaim>, rs: seq<ResourceClaim>, left: nat, right: nat, f: ConflictFinding) {
    exists i :: 0 <= i < |ls| && FromRow(ls[i], rs, left, right, f)
  }

  /** What the pass promises to report: contending claims of unordered nodes. */
  ghost predicate Justified(t: ExecutionTopology, f: ConflictFinding) {
    && f.left < f.right < |t.nodes| && !Ordered(t, f.left, f.right)
    && FromPair(t.nodes[f.left].resourceClaims, t.nodes[f.right].resourceClaims, f.left, f.right, f)
  }

  method RowFindings(t: ExecutionTopology, l: ResourceClaim, claims: seq<ResourceClaim>, left: nat, right: nat)
    returns (findings: seq<ConflictFinding>)
    requires left < |t.nodes| && right < |t.nodes| && !Ordered(t, left, right)
    ensures forall f :: f in findings <==> FromRow(l, claims, left, right, f)
  {
    findings := [];
    for j := 0 to |claims|
      invariant forall f :: f in findings <==> FromRow(l, claims[..j], left, right, f)
    {
      var r := claims[j];
      assert claims[..j + 1] == claims[..j] + [r];
      ghost var before := findings;
      if l.resource == r.resource && ClaimsConflict(l.mode, r.mode) {
        if IsolatedFile(l, r) {
          findings := findings + [ConflictFinding(IsolatedWorktreeMergeRisk, left, right, l.resource)];
        } else if !Protected(t, left, right, l.resource) {
          findings := findings + [ConflictFinding(UnsafeParallelResourceConflict, left, right, l.resource)];
        } else {
          ProtectedIsOrdered(t, left, right, l.resource);
          assert false;
        }
      }
      RowGrows(l, claims, j, left, right, before, findings);
    }
    assert claims[..|claims|] == claims;
  }

  lemma RowGrows(l: ResourceClaim, claims: seq<ResourceClaim>, j: nat, left: nat, right: nat,
                 before: seq<ConflictFinding>, after: seq<ConflictFinding>)
    requires j < |claims|
    requires forall f :: f in before <==> FromRow(l, claims[..j], left, right, f)
    requires after == if Contends(l, claims[j]) then before + [FindingFor(l, claims[j], left, right)] else before
    ensures forall f :: f in after <==> FromRow(l, claims[..j + 1], left, right, f)
  {
    var s, s' := claims[..j], claims[..j + 1];
    forall f ensures f in after <==> FromRow(l, s', left, right, f) {
      if FromRow(l, s, left, right, f) {
        var i :| 0 <= i < |s| && Contends(l, s[i]) && f == FindingFor(l, s[i], left, right);
        assert s'[i] == s[i];
      }
      if FromRow(l, s', left, right, f) {
        var i :| 0 <= i < |s'| && Contends(l, s'[i]) && f == FindingFor(l, s'[i], left, right);
        if i < j { assert s[i] == s'[i]; }
      }
      if Contends(l, claims[j]) && f == FindingFor(l, claims[j], left, right) {
        assert s'[j] == claims[j];
      }
    }
  }

  method PairFindings(t: ExecutionTopology, left: nat, right: nat) returns (findings: seq<ConflictFinding>)
    requires left < |t.nodes| && right < |t.nodes| && !Ordered(t, left, right)
    ensures forall f :: f in findings <==>
      FromPair(t.nodes[left].resourceClaims, t.nodes[right].resourceClaims, left, right, f)
  {
    findings := [];
    var ls, rs := t.nodes[left].resourceClaims, t.nodes[right].resourceClaims;
    for i := 0 to |ls|
      invariant forall f :: f in findings <==> exists k :: 0 <= k < i && FromRow(ls[k], rs, left, right, f)
    {
      var row := RowFindings(t, ls[i], rs, left, right);
      findings := findings + row;
    }
  }

  /** Source: `resource_conflicts`.  Both findings are reported exactly. */
  method ResourceConflicts(t: ExecutionTopology, adjacency: seq<seq<Half>>) returns (findings: seq<ConflictFinding>)
    requires |t.edges| <= U64_MAX && |adjacency| == |t.nodes| && IsAdjacency(|t.nodes|, ArcsOf(t), adjacency)
    ensures forall f :: f in findings <==> Justified(t, f)
    ensures forall f :: f in findings <==> Reported(t, f)
  {
    forall f ensures Justified(t, f) <==> Reported(t, f) { JustifiedIsReported(t, f); }
    findings := [];
    for left := 0 to |t.nodes|
      invariant forall f :: f in findings <==> Justified(t, f) && f.left < left
    {
      for right := left + 1 to |t.nodes|
        invariant forall f :: f in findings <==>
          Justified(t, f) && (f.left < left || (f.left == left && f.right < right))
      {
        var pair := UnorderedPairFindings(t, left, right, adjacency);
        findings := findings + pair;
      }
    }
  }

  method UnorderedPairFindings(t: ExecutionTopology, left: nat, right: nat, adjacency: seq<seq<Half>>)
    returns (findings: seq<ConflictFinding>)
    requires left < right < |t.nodes|
    requires |t.edges| <= U64_MAX && |adjacency| == |t.nodes| && IsAdjacency(|t.nodes|, ArcsOf(t), adjacency)
    ensures forall f :: f in findings <==> Justified(t, f) && f.left == left && f.right == right
  {
    ArcsWellFormed(t);
    assert ArcsOf(t) - {U64_MAX} == ArcsOf(t);
    findings := [];
    var forward := ReachableIgnoringEdge(left, right, U64_MAX, adjacency, ArcsOf(t));
    var backward := ReachableIgnoringEdge(right, left, U64_MAX, adjacency, ArcsOf(t));
    if !forward && !backward {
      findings := PairFindings(t, left, right);
    }
  }

  /** No `unsafe_parallel_resource_conflict` is reported. */
  ghost predicate ConflictFree(t: ExecutionTopology) {
    forall f :: Justified(t, f) ==> f.code != UnsafeParallelResourceConflict
  }

  /** What a clean report means for two nodes that may run side by side. */
  lemma ConflictFreeMeaning(t: ExecutionTopology, u: nat, v: nat, l: ResourceClaim, r: ResourceClaim)
    requires ConflictFree(t) && u < |t.nodes| && v < |t.nodes| && u != v && !Ordered(t, u, v)
    requires l in t.nodes[u].resourceClaims && r in t.nodes[v].resourceClaims && Contends(l, r)
    ensures IsolatedFile(l, r)
  {
    var left, right, a, b := if u < v then u else v, if u < v then v else u, if u < v then l else r, if u < v then r
      else l;
    var f := FindingFor(a, b, left, right);
    assert Contends(a, b);
    var i :| 0 <= i < |t.nodes[left].resourceClaims| && t.nodes[left].resourceClaims[i] == a;
    assert FromRow(a, t.nodes[right].resourceClaims, left, right, f);
    assert FromPair(t.nodes[left].resourceClaims, t.nodes[right].resourceClaims, left, right, f);
    assert Justified(t, f);
  }

  // --------------------------------------------- the rule in terms of access modes

  /** Both sides hold the file in a worktree of their own. */
  predicate BothIsolate(l: ResourceClaim, r: ResourceClaim) {
    && |l.resource| >= 5 && l.resource[..5] == "file:"
    && l.workspaceStrategy == Some(IsolatedWorktree) && r.workspaceStrategy == Some(IsolatedWorktree)
  }

  /** Two claims on one resource that may be held at one time. */
  predicate MayShare(l: ResourceClaim, r: ResourceClaim) {
    (l.mode == Read && r.mode == Read) || BothIsolate(l, r)
  }

  lemma ContentionMeaning(l: ResourceClaim, r: ResourceClaim)
    ensures Contends(l, r) <==>
      l.resource == r.resource && (l.mode == Write || l.mode == Exclusive || r.mode == Write || r.mode == Exclusive)
    ensures IsolatedFile(l, r) <==> BothIsolate(l, r)
  {
    assert |"file:"| == 5;
  }

  /** The finding names a resource that two mutually unreachable nodes claim, at least one of
      them to write it or exclusively, and its code says whether both hold the file in worktrees of
      their own. */
  ghost predicate Reported(t: ExecutionTopology, f: ConflictFinding) {
    && f.left < f.right < |t.nodes|
    && !Reaches(|t.nodes|, ArcsOf(t), f.left, f.right) && !Reaches(|t.nodes|, ArcsOf(t), f.right, f.left)
    && exists l, r :: IsConflict(t.nodes[f.left], t.nodes[f.right], l, r, f.resource) && f.code == CodeFor(l, r)
  }

  function CodeFor(l: ResourceClaim, r: ResourceClaim): ConflictCode {
    if BothIsolate(l, r) then IsolatedWorktreeMergeRisk else UnsafeParallelResourceConflict
  }

  ghost predicate IsConflict(a: TopologyNode, b: TopologyNode, l: ResourceClaim, r: ResourceClaim, resource: string) {
    && l in a.resourceClaims && r in b.resourceClaims && l.resource == resource && r.resource == resource
    && (l.mode == Write || l.mode == Exclusive || r.mode == Write || r.mode == Exclusive)
  }

  lemma PairIsConflict(a: TopologyNode, b: TopologyNode, f: ConflictFinding)
    ensures FromPair(a.resourceClaims, b.resourceClaims, f.left, f.right, f) <==>
      exists l, r :: IsConflict(a, b, l, r, f.resource) && f.code == CodeFor(l, r)
  {
    var ls, rs := a.resourceClaims, b.resourceClaims;
    if FromPair(ls, rs, f.left, f.right, f) {
      var i :| 0 <= i < |ls| && FromRow(ls[i], rs, f.left, f.right, f);
      var j :| 0 <= j < |rs| && Contends(ls[i], rs[j]) && f == FindingFor(ls[i], rs[j], f.left, f.right);
      ContentionMeaning(ls[i], rs[j]);
      assert IsConflict(a, b, ls[i], rs[j], f.resource);
    }
    if l, r :| IsConflict(a, b, l, r, f.resource) && f.code == CodeFor(l, r) {
      ContentionMeaning(l, r);
      var i :| 0 <= i < |ls| && ls[i] == l;
      var j :| 0 <= j < |rs| && rs[j] == r;
      assert FromRow(ls[i], rs, f.left, f.right, f);
    }
  }

  lemma JustifiedIsReported(t: ExecutionTopology, f: ConflictFinding)
    ensures Justified(t, f) <==> Reported(t, f)
  {
    if f.left < f.right < |t.nodes| { PairIsConflict(t.nodes[f.left], t.nodes[f.right], f); }
  }

  /** The two nodes share a resource only where both read it or both isolate the file. */
  ghost predicate ShareSafely(a: TopologyNode, b: TopologyNode) {
    forall l, r :: l in a.resourceClaims && r in b.resourceClaims && l.resource == r.resource ==> MayShare(l, r)
  }

  /** Nodes that neither precedes the other share resources safely. */
  ghost predicate UnorderedShareSafely(t: ExecutionTopology) {
    forall u: nat, v: nat {:trigger Ordered(t, u, v)} :: u < |t.nodes| && v < |t.nodes| && u != v && !Ordered(t, u, v)
      ==> ShareSafely(t.nodes[u], t.nodes[v])
  }

  lemma CleanPairShares(t: ExecutionTopology, u: nat, v: nat)
    requires ConflictFree(t) && u < |t.nodes| && v < |t.nodes| && u != v && !Ordered(t, u, v)
    ensures ShareSafely(t.nodes[u], t.nodes[v])
  {
    forall l, r | l in t.nodes[u].resourceClaims && r in t.nodes[v].resourceClaims && l.resource == r.resource
      ensures MayShare(l, r)
    {
      ContentionMeaning(l, r);
      if Contends(l, r) { ConflictFreeMeaning(t, u, v, l, r); }
    }
  }

  lemma SharingIsNoFinding(t: ExecutionTopology, f: ConflictFinding)
    requires Justified(t, f) && ShareSafely(t.nodes[f.left], t.nodes[f.right])
    ensures f.code != UnsafeParallelResourceConflict
  {
    JustifiedIsReported(t, f);
  }

  /** The conflict pass reports no unsafe conflict exactly when unordered nodes share resources
      only as readers or as owners of isolated files. */
  lemma ConflictFreeIffShareSafely(t: ExecutionTopology)
    ensures ConflictFree(t) <==> UnorderedShareSafely(t)
  {
    if ConflictFree(t) {
      forall u: nat, v: nat | u < |t.nodes| && v < |t.nodes| && u != v && !Ordered(t, u, v)
        ensures ShareSafely(t.nodes[u], t.nodes[v]) { CleanPairShares(t, u, v); }
    }
    if UnorderedShareSafely(t) {
      forall f | Justified(t, f) ensures f.code != UnsafeParallelResourceConflict {
        assert !Ordered(t, f.left, f.right);
        SharingIsNoFinding(t, f);
      }
    }
  }
}
