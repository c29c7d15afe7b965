/** Small valid topologies, for statements about what can happen. */
module SmallTopologies {
  import opened Machine
  import opened Topology

  const SOURCE := Provenance("s", "c")

  function NodeNamed(id: string): TopologyNode {
    TopologyNode(id, "w", "p", [], [], NoEffects, [], "x", None, None, "k", Barrier, None, None, SOURCE)
  }

  function EdgeNamed(id: string, from: string, to: string): TopologyEdge {
    TopologyEdge(id, from, to, Control, None, None, None, "p", "w", "r", [], SOURCE)
  }

  function Small(nodes: seq<TopologyNode>, edges: seq<TopologyEdge>): ExecutionTopology {
    ExecutionTopology(EXECUTION_TOPOLOGY_SCHEMA, 0, "t", "s", nodes, edges, [], [], [], SOURCE)
  }

  lemma OneLetter(c: char)
    requires !IsWhitespace(c)
    ensures Filled([c])
  {
    assert [c][0] == c;
  }

  lemma NodeIsValid(t: ExecutionTopology, id: string)
    requires Filled(id)
    ensures ValidNode(t, NodeNamed(id))
  {
    OneLetter('w');
    OneLetter('p');
    OneLetter('x');
    OneLetter('k');
    OneLetter('s');
    OneLetter('c');
  }

  lemma EdgeIsValid(t: ExecutionTopology, id: string, i: nat, j: nat)
    requires Filled(id) && i < |t.nodes| && j < |t.nodes|
    requires Filled(t.nodes[i].nodeId) && Filled(t.nodes[j].nodeId) && t.nodes[i].nodeId != t.nodes[j].nodeId
    ensures ValidEdge(t, EdgeNamed(id, t.nodes[i].nodeId, t.nodes[j].nodeId))
  {
    OneLetter('w');
    OneLetter('p');
    OneLetter('r');
    OneLetter('s');
    OneLetter('c');
    assert ValidEdgeBetween(EdgeNamed(id, t.nodes[i].nodeId, t.nodes[j].nodeId), t.nodes[i], t.nodes[j]);
  }

  predicate EntriesValid(t: ExecutionTopology) {
    && (forall i :: 0 <= i < |t.nodes| ==> ValidNode(t, t.nodes[i]))
    && (forall i :: 0 <= i < |t.edges| ==> ValidEdge(t, t.edges[i]))
  }

  lemma SmallIsValid(t: ExecutionTopology)
    requires t == Small(t.nodes, t.edges) && t.nodes != [] && NodeIdsUnique(t.nodes) && EdgeIdsUnique(t.edges) &&
      EntriesValid(t)
    ensures Valid(t)
  {
    OneLetter('t');
    OneLetter('s');
    OneLetter('c');
  }
}
