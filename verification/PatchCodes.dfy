/** What each finding about a patch says of the patch and its base. */
module PatchCodes {
  import opened Orders
  import opened Topology
  import opened Patch

  predicate Share(a: seq<string>, b: seq<string>) {
    exists id :: id in a && id in b
  }

  predicate HasEdge(t: ExecutionTopology, id: string) {
    exists i :: 0 <= i < |t.edges| && t.edges[i].edgeId == id
  }

  /** The last of the nodes with the id of `n` is `n` itself. */
  predicate EndsWith(nodes: seq<TopologyNode>, n: TopologyNode) {
    exists i :: 0 <= i < |nodes| && nodes[i] == n && forall j :: i < j < |nodes| ==> nodes[j].nodeId != n.nodeId
  }

  /** The condition that a code reports of the operations on nodes. */
  predicate AppliesToNodes(base: ExecutionTopology, p: TopologyPatch, code: PatchCode) {
    match code
    case EmptyPatchId =>
      || (exists n :: n in p.addedNodes + p.updatedNodes && !Filled(n.nodeId))
      || (exists id :: id in p.removedNodeIds && !Filled(id))
    case DuplicatePatchId => RepeatsNode(p)
    case PatchAdditionExists => exists n :: n in p.addedNodes && NamesNode(base, n.nodeId)
    case PatchTargetMissing =>
      || (exists n :: n in p.updatedNodes && !NamesNode(base, n.nodeId))
      || (exists id :: id in p.removedNodeIds && !NamesNode(base, id))
    case ConflictingPatchOperations =>
      || RepeatsNode(p) || Share(Ids(p.addedNodes, NodeId), Ids(p.updatedNodes, NodeId))
      || Share(Ids(p.addedNodes, NodeId), p.removedNodeIds) || Share(Ids(p.updatedNodes, NodeId), p.removedNodeIds)
    case _ => false
  }

  /** Some operation on nodes names an id twice. */
  predicate RepeatsNode(p: TopologyPatch) {
    NamedTwice(Ids(p.addedNodes, NodeId)) || NamedTwice(Ids(p.updatedNodes, NodeId)) || NamedTwice(p.removedNodeIds)
  }

  /** The condition that a code reports of the operations on edges. */
  predicate AppliesToEdges(base: ExecutionTopology, p: TopologyPatch, code: PatchCode) {
    match code
    case EmptyPatchId =>
      || (exists e :: e in p.addedEdges && !Filled(e.edgeId)) || (exists id :: id in p.removedEdgeIds && !Filled(id))
    case DuplicatePatchId => NamedTwice(Ids(p.addedEdges, EdgeId)) || NamedTwice(p.removedEdgeIds)
    case PatchAdditionExists => exists e :: e in p.addedEdges && HasEdge(base, e.edgeId)
    case PatchTargetMissing => exists id :: id in p.removedEdgeIds && !HasEdge(base, id)
    case ConflictingPatchOperations =>
      || NamedTwice(Ids(p.addedEdges, EdgeId)) || NamedTwice(p.removedEdgeIds)
      || Share(Ids(p.addedEdges, EdgeId), p.removedEdgeIds)
    case _ => false
  }

  /** The condition that a code reports. */
  predicate Applies(base: ExecutionTopology, p: TopologyPatch, code: PatchCode) {
    match code
    case UnsupportedPatchSchema => p.schema != PatchV0
    case NoOpNodeUpdate => exists n :: n in p.updatedNodes && EndsWith(base.nodes, n)
    case EmptyTopologyPatch =>
      |p.addedNodes| + |p.removedNodeIds| + |p.updatedNodes| + |p.addedEdges| + |p.removedEdgeIds| == 0
    case _ => AppliesToNodes(base, p, code) || AppliesToEdges(base, p, code)
  }

  lemma NamesNodeIff(t: ExecutionTopology)
    ensures forall id :: NamesNode(t, id) <==> id in NodesById(t)
  {
  }

  lemma HasEdgeIff(t: ExecutionTopology)
    ensures forall id :: HasEdge(t, id) <==> id in EdgesById(t)
  {
  }

  lemma EndsWithStep(nodes: seq<TopologyNode>, last: TopologyNode, n: TopologyNode)
    ensures EndsWith(nodes + [last], n) <==> if last.nodeId == n.nodeId then last == n else EndsWith(nodes, n)
  {
    var all := nodes + [last];
    assert all[|nodes|] == last;
    if EndsWith(nodes, n) && last.nodeId != n.nodeId {
      var i :| 0 <= i < |nodes| && nodes[i] == n && forall j :: i < j < |nodes| ==> nodes[j].nodeId != n.nodeId;
      assert all[i] == n;
    }
    if EndsWith(all, n) && last.nodeId != n.nodeId {
      var i :| 0 <= i < |all| && all[i] == n && forall j :: i < j < |all| ==> all[j].nodeId != n.nodeId;
      assert nodes[i] == n && forall j :: i < j < |nodes| ==> all[j] == nodes[j];
    }
  }

  lemma {:induction false} IndexIsLast(nodes: seq<TopologyNode>, n: TopologyNode)
    ensures EndsWith(nodes, n) <==> n.nodeId in Index(nodes, NodeId) && Index(nodes, NodeId)[n.nodeId] == n
  {
    if nodes != [] {
      var k := |nodes| - 1;
      IndexIsLast(nodes[..k], n);
      EndsWithStep(nodes[..k], nodes[k], n);
      assert nodes == nodes[..k] + [nodes[k]];
    }
  }

  lemma NoOpIff(base: ExecutionTopology, p: TopologyPatch)
    ensures NoOp(base, p.updatedNodes) <==> exists n :: n in p.updatedNodes && EndsWith(base.nodes, n)
  {
    forall n ensures EndsWith(base.nodes, n) <==> n.nodeId in NodesById(base) && NodesById(base)[n.nodeId] == n {
      IndexIsLast(base.nodes, n);
    }
    if n :| n in p.updatedNodes && EndsWith(base.nodes, n) {
      var i :| 0 <= i < |p.updatedNodes| && p.updatedNodes[i] == n;
    }
  }

  lemma RepeatsIn(a: seq<string>, b: seq<string>)
    ensures NamedTwice(a + b) <==> NamedTwice(a) || NamedTwice(b) || Share(a, b)
  {
    var all := a + b;
    if NamedTwice(a) {
      var i, j :| 0 <= i < j < |a| && a[i] == a[j];
      assert all[i] == all[j];
    }
    if NamedTwice(b) {
      var i, j :| 0 <= i < j < |b| && b[i] == b[j];
      assert all[|a| + i] == all[|a| + j];
    }
    if Share(a, b) {
      var id :| id in a && id in b;
      var i :| 0 <= i < |a| && a[i] == id;
      var j :| 0 <= j < |b| && b[j] == id;
      assert all[i] == all[|a| + j];
    }
    if NamedTwice(all) {
      var i, j :| 0 <= i < j < |all| && all[i] == all[j];
      assert i < |a| <= j ==> all[i] in a && all[i] in b;
      assert j < |a| ==> a[i] == a[j];
      assert |a| <= i ==> b[i - |a|] == b[j - |a|];
    }
  }

  lemma RepeatsInThree(a: seq<string>, b: seq<string>, c: seq<string>)
    ensures !NoRepeats(a + b + c) <==>
      NamedTwice(a) || NamedTwice(b) || NamedTwice(c) || Share(a, b) || Share(a, c) || Share(b, c)
  {
    RepeatsIn(a, b);
    RepeatsIn(a + b, c);
    assert Share(a + b, c) <==> Share(a, c) || Share(b, c);
  }

  /** What each code of one kind of entity reports, from the lists of ids. */
  predicate ListsShow(added: seq<string>, updated: seq<string>, removed: seq<string>, existing: set<string>,
      code: PatchCode) {
    match code
    case EmptyPatchId => exists id :: id in added + updated + removed && !Filled(id)
    case DuplicatePatchId => NamedTwice(added) || NamedTwice(updated) || NamedTwice(removed)
    case PatchAdditionExists => exists id :: id in added && id in existing
    case PatchTargetMissing => exists id :: id in updated + removed && id !in existing
    case ConflictingPatchOperations =>
      || NamedTwice(added) || NamedTwice(updated) || NamedTwice(removed)
      || Share(added, updated) || Share(added, removed) || Share(updated, removed)
    case _ => false
  }

  lemma FilledIff(s: seq<string>)
    ensures AllFilled(s) <==> forall id :: id in s ==> Filled(id)
  {
  }

  lemma OperationsShow(added: seq<string>, updated: seq<string>, removed: seq<string>, existing: set<string>,
      code: PatchCode)
    ensures code in OperationFindings(added, updated, removed, existing) <==>
      ListsShow(added, updated, removed, existing, code)
  {
    FilledIff(added);
    FilledIff(updated);
    FilledIff(removed);
    RepeatsInThree(added, updated, removed);
  }

  lemma NodeIdsIn(nodes: seq<TopologyNode>)
    ensures forall id :: id in Ids(nodes, NodeId) <==> exists n :: n in nodes && n.nodeId == id
  {
    forall id | id in Ids(nodes, NodeId) ensures exists n :: n in nodes && n.nodeId == id {
      var i :| 0 <= i < |nodes| && Ids(nodes, NodeId)[i] == id;
      assert nodes[i] in nodes;
    }
    forall n | n in nodes ensures n.nodeId in Ids(nodes, NodeId) {
      var i :| 0 <= i < |nodes| && nodes[i] == n;
      assert Ids(nodes, NodeId)[i] == n.nodeId;
    }
  }

  lemma EdgeIdsIn(edges: seq<TopologyEdge>)
    ensures forall id :: id in Ids(edges, EdgeId) <==> exists e :: e in edges && e.edgeId == id
  {
    forall id | id in Ids(edges, EdgeId) ensures exists e :: e in edges && e.edgeId == id {
      var i :| 0 <= i < |edges| && Ids(edges, EdgeId)[i] == id;
      assert edges[i] in edges;
    }
    forall e | e in edges ensures e.edgeId in Ids(edges, EdgeId) {
      var i :| 0 <= i < |edges| && edges[i] == e;
      assert Ids(edges, EdgeId)[i] == e.edgeId;
    }
  }

  lemma NodesShow(base: ExecutionTopology, p: TopologyPatch, code: PatchCode)
    ensures var added, updated := Ids(p.addedNodes, NodeId), Ids(p.updatedNodes, NodeId);
      code in OperationFindings(added, updated, p.removedNodeIds, NodesById(base).Keys) <==>
        AppliesToNodes(base, p, code)
  {
    var added, updated := Ids(p.addedNodes, NodeId), Ids(p.updatedNodes, NodeId);
    OperationsShow(added, updated, p.removedNodeIds, NodesById(base).Keys, code);
    NodeIdsIn(p.addedNodes);
    NodeIdsIn(p.updatedNodes);
    NamesNodeIff(base);
  }

  lemma EdgesShow(base: ExecutionTopology, p: TopologyPatch, code: PatchCode)
    ensures code in OperationFindings(Ids(p.addedEdges, EdgeId), [], p.removedEdgeIds, EdgesById(base).Keys) <==>
      AppliesToEdges(base, p, code)
  {
    OperationsShow(Ids(p.addedEdges, EdgeId), [], p.removedEdgeIds, EdgesById(base).Keys, code);
    EdgeIdsIn(p.addedEdges);
    HasEdgeIff(base);
  }

  /** The codes that report neither nodes nor edges by their ids. */
  predicate AppliesToPatch(base: ExecutionTopology, p: TopologyPatch, code: PatchCode) {
    match code
    case UnsupportedPatchSchema => p.schema != PatchV0
    case NoOpNodeUpdate => NoOp(base, p.updatedNodes)
    case EmptyTopologyPatch =>
      |p.addedNodes| + |p.removedNodeIds| + |p.updatedNodes| + |p.addedEdges| + |p.removedEdgeIds| == 0
    case _ => false
  }

  lemma FindingsSplit(base: ExecutionTopology, p: TopologyPatch, code: PatchCode)
    ensures var added, updated := Ids(p.addedNodes, NodeId), Ids(p.updatedNodes, NodeId);
      code in PatchFindings(base, p) <==>
        || code in OperationFindings(added, updated, p.removedNodeIds, NodesById(base).Keys)
        || code in OperationFindings(Ids(p.addedEdges, EdgeId), [], p.removedEdgeIds, EdgesById(base).Keys)
        || AppliesToPatch(base, p, code)
  {
    var nodes := OperationFindings(Ids(p.addedNodes, NodeId), Ids(p.updatedNodes, NodeId), p.removedNodeIds,
      NodesById(base).Keys);
    var edges := OperationFindings(Ids(p.addedEdges, EdgeId), [], p.removedEdgeIds, EdgesById(base).Keys);
    var empty := p.addedNodes == [] && p.removedNodeIds == [] && p.updatedNodes == [] && p.addedEdges == []
      && p.removedEdgeIds == [];
    InFindings(!p.schema.PatchV0?, nodes, edges, NoOp(base, p.updatedNodes), empty, code);
  }

  lemma InFindings(schema: bool, nodes: set<PatchCode>, edges: set<PatchCode>, noOp: bool, empty: bool, code: PatchCode)
    ensures var codes := When(schema, UnsupportedPatchSchema) + nodes + edges + When(noOp, NoOpNodeUpdate)
        + When(empty, EmptyTopologyPatch);
      code in codes <==>
        || code in nodes || code in edges || (schema && code == UnsupportedPatchSchema)
        || (noOp && code == NoOpNodeUpdate) || (empty && code == EmptyTopologyPatch)
  {
  }

  /** A code is reported exactly when its condition applies. */
  lemma CodeMeaning(base: ExecutionTopology, p: TopologyPatch, code: PatchCode)
    ensures code in PatchFindings(base, p) <==> Applies(base, p, code)
  {
    FindingsSplit(base, p, code);
    NodesShow(base, p, code);
    EdgesShow(base, p, code);
    NoOpIff(base, p);
  }
}
