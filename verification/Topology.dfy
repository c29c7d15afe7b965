/** The execution-topology contract: its records and its intrinsic validation. */
module Topology {
  import opened Machine
  import opened Orders

  const EXECUTION_TOPOLOGY_SCHEMA := "casegraphen.experimental.execution.topology.v0"

  datatype Provenance = Provenance(source: string, createdBy: string)

  datatype NodeInput = NodeInput(name: string, schemaId: string, artifactSelector: string)

  datatype NodeOutput = NodeOutput(name: string, schemaId: string)

  datatype SideEffects = NoEffects | Workspace | External | WorkspaceAndExternal

  datatype ResourceMode = Read | Write | Exclusive

  datatype WorkspaceStrategy = Shared | IsolatedWorktree | Ephemeral

  datatype ResourceClaim = ResourceClaim(
    resource: string,
    mode: ResourceMode,
    rateLimitGroup: Option<string>,
    workspaceStrategy: Option<WorkspaceStrategy>,
    networkScope: seq<string>,
    secretScope: seq<string>)

  datatype DeliveryMode = Barrier | Streaming

  datatype TopologyNode = TopologyNode(
    nodeId: string,
    workCellId: string,
    purpose: string,
    inputs: seq<NodeInput>,
    outputs: seq<NodeOutput>,
    sideEffects: SideEffects,
    resourceClaims: seq<ResourceClaim>,
    executorClass: string,
    verificationPolicyId: Option<string>,
    budgetPolicyId: Option<string>,
    idempotencyKey: string,
    delivery: DeliveryMode,
    expansionPolicyId: Option<string>,
    estimatedDurationMs: Option<nat>,
    provenance: Provenance)

  datatype EdgeKind = Data | Control | Evidence | ReviewOrAuthority | ResourceExclusion | Temporal

  datatype TopologyEdge = TopologyEdge(
    edgeId: string,
    from: string,
    to: string,
    kind: EdgeKind,
    output: Option<string>,
    input: Option<string>,
    schemaId: Option<string>,
    blockingPredicate: string,
    dependencyWitness: string,
    removalCounterexample: string,
    resourceScope: seq<string>,
    provenance: Provenance)

  datatype ExecutionTopology = ExecutionTopology(
    schema: string,
    schemaVersion: nat,
    topologyId: string,
    caseSpaceId: string,
    nodes: seq<TopologyNode>,
    edges: seq<TopologyEdge>,
    verificationPolicyIds: seq<string>,
    budgetPolicyIds: seq<string>,
    expansionPolicyIds: seq<string>,
    provenance: Provenance)

  // ---------------------------------------------------------------- validation

  predicate IsWhitespace(c: char) {
    var x := c as int;
    9 <= x <= 13 || x == 0x20 || x == 0x85 || x == 0xA0 || x == 0x1680 || 0x2000 <= x <= 0x200A
    || x == 0x2028 || x == 0x2029 || x == 0x202F || x == 0x205F || x == 0x3000
  }

  /** `!value.trim().is_empty()`. */
  predicate Filled(s: string) {
    exists i :: 0 <= i < |s| && !IsWhitespace(s[i])
  }

  predicate IsBlank(text: string) {
    forall c :: c in text ==> IsWhitespace(c)
  }

  lemma BlankIff(text: string)
    ensures Filled(text) <==> !IsBlank(text)
  {
    if i :| 0 <= i < |text| && !IsWhitespace(text[i]) { assert text[i] in text; }
    if c :| c in text && !IsWhitespace(c) { var i :| 0 <= i < |text| && text[i] == c; }
  }

  predicate AllFilled(s: seq<string>) {
    forall i :: 0 <= i < |s| ==> Filled(s[i])
  }

  predicate Declared(reference: Option<string>, known: seq<string>) {
    reference.Some? ==> reference.value in known
  }

  predicate NodeIdsUnique(nodes: seq<TopologyNode>) {
    forall i, j :: 0 <= i < j < |nodes| ==> nodes[i].nodeId != nodes[j].nodeId
  }

  predicate NamesNode(t: ExecutionTopology, id: string) {
    exists u :: 0 <= u < |t.nodes| && t.nodes[u].nodeId == id
  }

  predicate EdgeIdsUnique(edges: seq<TopologyEdge>) {
    forall i, j :: 0 <= i < j < |edges| ==> edges[i].edgeId != edges[j].edgeId
  }

  predicate PortNamesUnique(node: TopologyNode) {
    && (forall i, j :: 0 <= i < j < |node.inputs| ==> node.inputs[i].name != node.inputs[j].name)
    && (forall i, j :: 0 <= i < j < |node.outputs| ==> node.outputs[i].name != node.outputs[j].name)
  }

  predicate ValidClaim(c: ResourceClaim) {
    && Filled(c.resource)
    && (c.rateLimitGroup.Some? ==> Filled(c.rateLimitGroup.value))
    && AllFilled(c.networkScope) && AllFilled(c.secretScope)
  }

  predicate ValidNode(t: ExecutionTopology, node: TopologyNode) {
    && Filled(node.nodeId) && Filled(node.workCellId) && Filled(node.purpose)
    && Filled(node.executorClass) && Filled(node.idempotencyKey)
    && PortNamesUnique(node)
    && (forall i :: 0 <= i < |node.inputs| ==>
          Filled(node.inputs[i].name) && Filled(node.inputs[i].schemaId) && Filled(node.inputs[i].artifactSelector))
    && (forall i :: 0 <= i < |node.outputs| ==> Filled(node.outputs[i].name) && Filled(node.outputs[i].schemaId))
    && (forall i :: 0 <= i < |node.resourceClaims| ==> ValidClaim(node.resourceClaims[i]))
    && Filled(node.provenance.source) && Filled(node.provenance.createdBy)
    && Declared(node.verificationPolicyId, t.verificationPolicyIds)
    && Declared(node.budgetPolicyId, t.budgetPolicyIds)
    && Declared(node.expansionPolicyId, t.expansionPolicyIds)
  }

  predicate ValidDataBinding(edge: TopologyEdge, source: TopologyNode, target: TopologyNode) {
    && edge.output.Some? && edge.input.Some? && edge.schemaId.Some?
    && NodeOutput(edge.output.value, edge.schemaId.value) in source.outputs
    && (exists i :: 0 <= i < |target.inputs| && target.inputs[i].name == edge.input.value
                    && target.inputs[i].schemaId == edge.schemaId.value)
  }

  predicate Claims(node: TopologyNode, resource: string) {
    exists i :: 0 <= i < |node.resourceClaims| && node.resourceClaims[i].resource == resource
  }

  predicate ValidEdgeBetween(edge: TopologyEdge, source: TopologyNode, target: TopologyNode) {
    match edge.kind
    case Data => ValidDataBinding(edge, source, target)
    case ResourceExclusion =>
      && edge.output.None? && edge.input.None? && edge.schemaId.None? && edge.resourceScope != []
      && (forall i :: 0 <= i < |edge.resourceScope| ==>
            Claims(source, edge.resourceScope[i]) && Claims(target, edge.resourceScope[i]))
    case _ => edge.output.None? && edge.input.None? && edge.schemaId.None?
  }

  predicate ValidEdge(t: ExecutionTopology, edge: TopologyEdge) {
    && Filled(edge.edgeId) && Filled(edge.from) && Filled(edge.to) && Filled(edge.blockingPredicate)
    && Filled(edge.dependencyWitness) && Filled(edge.removalCounterexample)
    && Filled(edge.provenance.source) && Filled(edge.provenance.createdBy)
    && AllFilled(edge.resourceScope) && edge.from != edge.to
    && (exists i, j :: 0 <= i < |t.nodes| && 0 <= j < |t.nodes| && t.nodes[i].nodeId == edge.from
                       && t.nodes[j].nodeId == edge.to && ValidEdgeBetween(edge, t.nodes[i], t.nodes[j]))
  }

  /** `validate_execution_topology` reports nothing. */
  predicate Valid(t: ExecutionTopology) {
    && t.schema == EXECUTION_TOPOLOGY_SCHEMA && t.schemaVersion == 0
    && Filled(t.topologyId) && Filled(t.caseSpaceId) && t.nodes != []
    && NoRepeats(t.verificationPolicyIds) && NoRepeats(t.budgetPolicyIds) && NoRepeats(t.expansionPolicyIds)
    && AllFilled(t.verificationPolicyIds) && AllFilled(t.budgetPolicyIds) && AllFilled(t.expansionPolicyIds)
    && Filled(t.provenance.source) && Filled(t.provenance.createdBy)
    && NodeIdsUnique(t.nodes) && EdgeIdsUnique(t.edges)
    && (forall i :: 0 <= i < |t.nodes| ==> ValidNode(t, t.nodes[i]))
    && (forall i :: 0 <= i < |t.edges| ==> ValidEdge(t, t.edges[i]))
  }
}
