/** What validation promises of the edges: each joins two nodes, data edges carry an artifact
    from an output to an input of one schema, exclusion edges order two claimants. */
module Validation {
  import opened Machine
  import opened Orders
  import opened Topology
  import opened Graphs
  import opened Lint
  import opened Timing
  import opened TopologyRuns

  /** One output of the node has this name, and it has this schema. */
  ghost predicate Offers(n: TopologyNode, name: string, schema: string) {
    exists i :: 0 <= i < |n.outputs| && n.outputs[i].name == name && n.outputs[i].schemaId == schema
      && forall j :: 0 <= j < |n.outputs| && j != i ==> n.outputs[j].name != name
  }

  /** One input of the node has this name, and it has this schema. */
  ghost predicate Expects(n: TopologyNode, name: string, schema: string) {
    exists i :: 0 <= i < |n.inputs| && n.inputs[i].name == name && n.inputs[i].schemaId == schema
      && forall j :: 0 <= j < |n.inputs| && j != i ==> n.inputs[j].name != name
  }

  ghost predicate ClaimsAll(n: TopologyNode, resources: seq<string>) {
    forall r :: r in resources ==> exists c :: c in n.resourceClaims && c.resource == r
  }

  /** A data edge names an output, an input and their common schema; no other edge names any;
      an exclusion edge names resources that both of its ends claim. */
  ghost predicate Joins(e: TopologyEdge, source: TopologyNode, target: TopologyNode) {
    && e.from == source.nodeId && e.to == target.nodeId && source.nodeId != target.nodeId
    && (e.kind == Data ==>
         && e.output.Some? && e.input.Some? && e.schemaId.Some?
         && Offers(source, e.output.value, e.schemaId.value) && Expects(target, e.input.value, e.schemaId.value))
    && (e.kind != Data ==> e.output.None? && e.input.None? && e.schemaId.None?)
    && (e.kind == ResourceExclusion ==>
         e.resourceScope != [] && ClaimsAll(source, e.resourceScope) && ClaimsAll(target, e.resourceScope))
  }

  lemma OffersIff(n: TopologyNode, name: string, schema: string)
    requires PortNamesUnique(n)
    ensures Offers(n, name, schema) <==> NodeOutput(name, schema) in n.outputs
  {
    if NodeOutput(name, schema) in n.outputs {
      var i :| 0 <= i < |n.outputs| && n.outputs[i] == NodeOutput(name, schema);
      assert forall j :: 0 <= j < |n.outputs| && j != i ==> n.outputs[j].name != name;
    }
    if Offers(n, name, schema) {
      var i :| 0 <= i < |n.outputs| && n.outputs[i].name == name && n.outputs[i].schemaId == schema;
      assert n.outputs[i] == NodeOutput(name, schema);
    }
  }

  lemma ExpectsIff(n: TopologyNode, name: string, schema: string)
    requires PortNamesUnique(n)
    ensures Expects(n, name, schema) <==>
      exists i :: 0 <= i < |n.inputs| && n.inputs[i].name == name && n.inputs[i].schemaId == schema
  {
    if i :| 0 <= i < |n.inputs| && n.inputs[i].name == name && n.inputs[i].schemaId == schema {
      assert forall j :: 0 <= j < |n.inputs| && j != i ==> n.inputs[j].name != name;
    }
  }

  lemma ClaimsAllIff(n: TopologyNode, resources: seq<string>)
    ensures ClaimsAll(n, resources) <==> forall i :: 0 <= i < |resources| ==> Claims(n, resources[i])
  {
    forall r ensures Claims(n, r) <==> exists c :: c in n.resourceClaims && c.resource == r {
      if c :| c in n.resourceClaims && c.resource == r {
        var i :| 0 <= i < |n.resourceClaims| && n.resourceClaims[i] == c;
      }
      if i :| 0 <= i < |n.resourceClaims| && n.resourceClaims[i].resource == r {
        assert n.resourceClaims[i] in n.resourceClaims;
      }
    }
    forall i | 0 <= i < |resources| ensures resources[i] in resources {
    }
  }

  lemma JoinsIff(e: TopologyEdge, source: TopologyNode, target: TopologyNode)
    requires PortNamesUnique(source) && PortNamesUnique(target)
    ensures Joins(e, source, target) <==>
      e.from == source.nodeId && e.to == target.nodeId && e.from != e.to && ValidEdgeBetween(e, source, target)
  {
    if e.kind == Data && e.output.Some? && e.input.Some? && e.schemaId.Some? {
      OffersIff(source, e.output.value, e.schemaId.value);
      ExpectsIff(target, e.input.value, e.schemaId.value);
    }
    ClaimsAllIff(source, e.resourceScope);
    ClaimsAllIff(target, e.resourceScope);
  }

  /** The texts an edge must carry. */
  predicate Described(e: TopologyEdge) {
    && Filled(e.edgeId) && Filled(e.from) && Filled(e.to) && Filled(e.blockingPredicate)
    && Filled(e.dependencyWitness) && Filled(e.removalCounterexample)
    && Filled(e.provenance.source) && Filled(e.provenance.createdBy)
    && forall r :: r in e.resourceScope ==> Filled(r)
  }

  ghost predicate JoinsSome(t: ExecutionTopology, e: TopologyEdge) {
    exists u, v :: 0 <= u < |t.nodes| && 0 <= v < |t.nodes| && Joins(e, t.nodes[u], t.nodes[v])
  }

  /** What validation has to say about one edge is nothing exactly if the edge is described
      and joins two nodes. */
  lemma EdgeIffJoins(t: ExecutionTopology, e: TopologyEdge)
    requires forall v :: 0 <= v < |t.nodes| ==> PortNamesUnique(t.nodes[v])
    ensures ValidEdge(t, e) <==> Described(e) && JoinsSome(t, e)
  {
    forall i, j | 0 <= i < |t.nodes| && 0 <= j < |t.nodes|
      ensures Joins(e, t.nodes[i], t.nodes[j]) <==> (e.from == t.nodes[i].nodeId && e.to == t.nodes[j].nodeId
        && e.from != e.to && ValidEdgeBetween(e, t.nodes[i], t.nodes[j]))
    {
      JoinsIff(e, t.nodes[i], t.nodes[j]);
    }
  }

  lemma ValidEdgesJoin(t: ExecutionTopology, e: nat)
    requires Valid(t) && e < |t.edges|
    ensures NodeIdsUnique(t.nodes) && JoinsSome(t, t.edges[e])
  {
    assert ValidEdge(t, t.edges[e]);
    forall v | 0 <= v < |t.nodes| ensures PortNamesUnique(t.nodes[v]) {
      assert ValidNode(t, t.nodes[v]);
    }
    EdgeIffJoins(t, t.edges[e]);
  }

  /** The edge joins these two nodes, and no other node has the id of either end. */
  ghost predicate JoinsExactly(t: ExecutionTopology, e: TopologyEdge, u: nat, v: nat) {
    && u < |t.nodes| && v < |t.nodes| && u != v && Joins(e, t.nodes[u], t.nodes[v])
    && forall w :: 0 <= w < |t.nodes| ==>
         (t.nodes[w].nodeId == e.from <==> w == u) && (t.nodes[w].nodeId == e.to <==> w == v)
  }

  lemma EndsAreUnique(t: ExecutionTopology, e: TopologyEdge) returns (u: nat, v: nat)
    requires NodeIdsUnique(t.nodes) && JoinsSome(t, e)
    ensures JoinsExactly(t, e, u, v)
  {
    u, v :| u < |t.nodes| && v < |t.nodes| && Joins(e, t.nodes[u], t.nodes[v]);
  }

  /** Every edge of a valid topology joins exactly two nodes, as its kind requires. */
  lemma EdgesJoin(t: ExecutionTopology, e: nat) returns (u: nat, v: nat)
    requires Valid(t) && e < |t.edges|
    ensures JoinsExactly(t, t.edges[e], u, v)
  {
    ValidEdgesJoin(t, e);
    u, v := EndsAreUnique(t, t.edges[e]);
  }

  /** A data edge of a valid topology runs from the one output of its name to the one input of
      its name, and both have its schema. */
  lemma DataEdgeFits(t: ExecutionTopology, e: nat) returns (u: nat, v: nat)
    requires Valid(t) && e < |t.edges| && t.edges[e].kind == Data
    ensures JoinsExactly(t, t.edges[e], u, v) && t.edges[e].schemaId.Some?
    ensures t.edges[e].output.Some? && Offers(t.nodes[u], t.edges[e].output.value, t.edges[e].schemaId.value)
    ensures t.edges[e].input.Some? && Expects(t.nodes[v], t.edges[e].input.value, t.edges[e].schemaId.value)
  {
    u, v := EdgesJoin(t, e);
  }

  /** The nodes claim every resource in the scope, which is not empty. */
  ghost predicate ClaimScope(t: ExecutionTopology, e: TopologyEdge, u: nat, v: nat) {
    && u < |t.nodes| && v < |t.nodes| && e.resourceScope != []
    && ClaimsAll(t.nodes[u], e.resourceScope) && ClaimsAll(t.nodes[v], e.resourceScope)
  }

  /** An exclusion edge orders two claimants of every resource in its scope, in one direction
      only unless there is a cycle. */
  lemma ExclusionOrders(t: ExecutionTopology, e: nat) returns (u: nat, v: nat)
    requires Valid(t) && e < |t.edges| && t.edges[e].kind == ResourceExclusion
    ensures ClaimScope(t, t.edges[e], u, v) && JoinsExactly(t, t.edges[e], u, v)
    ensures Reaches(|t.nodes|, ArcsOf(t), u, v)
    ensures Acyclic(|t.nodes|, ArcsOf(t)) ==> !Reaches(|t.nodes|, ArcsOf(t), v, u)
  {
    ValidEdgesJoin(t, e);
    u, v := EndsAreUnique(t, t.edges[e]);
    EdgeOrders(t, e, u, v);
  }

  lemma EdgeOrders(t: ExecutionTopology, e: nat, u: nat, v: nat)
    requires NodeIdsUnique(t.nodes) && e < |t.edges| && JoinsExactly(t, t.edges[e], u, v)
    ensures Reaches(|t.nodes|, ArcsOf(t), u, v)
    ensures Acyclic(|t.nodes|, ArcsOf(t)) ==> !Reaches(|t.nodes|, ArcsOf(t), v, u)
  {
    var n, g := |t.nodes|, ArcsOf(t);
    ArcByIds(t, e, u, v);
    assert Linked(g, u, v);
    LinkReaches(n, g, u, v);
    if Reaches(n, g, v, u) { WayBackIsCycle(n, g, u, v); }
  }

  lemma WayBackIsCycle(n: nat, g: Graph, u: nat, v: nat)
    requires Reaches(n, g, u, v) && Reaches(n, g, v, u)
    ensures !Acyclic(n, g)
  {
    ReachesTransitive(n, g, u, v, u);
    var p :| PathBetween(n, g, p, u, u);
    assert IsCycle(n, g, p);
  }

  /** In a run, the claimants that an exclusion edge joins take turns. */
  lemma ExclusionTakesTurns(t: ExecutionTopology, log: Log, e: nat) returns (u: nat, v: nat)
    requires Valid(t) && FollowsEdges(t, log) && e < |t.edges| && t.edges[e].kind == ResourceExclusion
    ensures ClaimScope(t, t.edges[e], u, v)
    ensures |log.start| == |log.finish| == |t.nodes| && log.finish[u] <= log.start[v]
  {
    u, v := EdgesJoin(t, e);
  }

  // ------------------------------------------------------------------- findings

  datatype TopologyCode =
    | UnsupportedSchema | UnsupportedSchemaVersion | EmptyRequiredField | EmptyTopology | DuplicatePolicyId
    | DuplicateNodeId | DuplicateInputName | DuplicateOutputName | UnknownPolicyReference | DuplicateEdgeId
    | UnknownEdgeSource | UnknownEdgeTarget | SelfEdge | IncompleteDataBinding | UnknownOutputBinding
    | UnknownInputBinding | BindingOnNonDataEdge | MissingResourceScope | UnknownResourceScope

  predicate ClaimNeeds(c: ResourceClaim, text: string) {
    text == c.resource || c.rateLimitGroup == Some(text) || text in c.networkScope || text in c.secretScope
  }

  predicate ProvenanceNeeds(p: Provenance, text: string) {
    text == p.source || text == p.createdBy
  }

  predicate NodeNeeds(n: TopologyNode, text: string) {
    || text == n.nodeId || text == n.workCellId || text == n.purpose || text == n.executorClass
    || text == n.idempotencyKey || ProvenanceNeeds(n.provenance, text)
    || (exists x :: x in n.inputs && (text == x.name || text == x.schemaId || text == x.artifactSelector))
    || (exists x :: x in n.outputs && (text == x.name || text == x.schemaId))
    || (exists c :: c in n.resourceClaims && ClaimNeeds(c, text))
  }

  predicate EdgeNeeds(e: TopologyEdge, text: string) {
    || text == e.edgeId || text == e.from || text == e.to || text == e.blockingPredicate
    || text == e.dependencyWitness || text == e.removalCounterexample || ProvenanceNeeds(e.provenance, text)
    || text in e.resourceScope
  }

  /** The text stands in a field that has to be filled. */
  predicate Needs(t: ExecutionTopology, text: string) {
    || text == t.topologyId || text == t.caseSpaceId || ProvenanceNeeds(t.provenance, text)
    || text in t.verificationPolicyIds || text in t.budgetPolicyIds || text in t.expansionPolicyIds
    || (exists n :: n in t.nodes && NodeNeeds(n, text)) || (exists e :: e in t.edges && EdgeNeeds(e, text))
  }

  predicate NamesUndeclared(t: ExecutionTopology, n: TopologyNode) {
    || (n.verificationPolicyId.Some? && n.verificationPolicyId.value !in t.verificationPolicyIds)
    || (n.budgetPolicyId.Some? && n.budgetPolicyId.value !in t.budgetPolicyIds)
    || (n.expansionPolicyId.Some? && n.expansionPolicyId.value !in t.expansionPolicyIds)
  }

  predicate FullyBound(e: TopologyEdge) {
    e.output.Some? && e.input.Some? && e.schemaId.Some?
  }

  predicate Unbound(e: TopologyEdge) {
    e.output.None? && e.input.None? && e.schemaId.None?
  }

  predicate LacksOutput(n: TopologyNode, name: Option<string>, schema: Option<string>) {
    forall x :: x in n.outputs ==> Some(x.name) != name || Some(x.schemaId) != schema
  }

  predicate LacksInput(n: TopologyNode, name: Option<string>, schema: Option<string>) {
    forall x :: x in n.inputs ==> Some(x.name) != name || Some(x.schemaId) != schema
  }

  predicate LacksClaim(n: TopologyNode, resources: seq<string>) {
    exists r :: r in resources && forall c :: c in n.resourceClaims ==> c.resource != r
  }

  ghost predicate EdgeReports(t: ExecutionTopology, e: TopologyEdge, code: TopologyCode) {
    match code
    case UnknownEdgeSource => !NamesNode(t, e.from)
    case UnknownEdgeTarget => !NamesNode(t, e.to)
    case SelfEdge => e.from == e.to
    case IncompleteDataBinding => e.kind == Data && !FullyBound(e)
    case UnknownOutputBinding =>
      && e.kind == Data && FullyBound(e)
      && exists n :: n in t.nodes && n.nodeId == e.from && LacksOutput(n, e.output, e.schemaId)
    case UnknownInputBinding =>
      && e.kind == Data && FullyBound(e)
      && exists n :: n in t.nodes && n.nodeId == e.to && LacksInput(n, e.input, e.schemaId)
    case BindingOnNonDataEdge => e.kind != Data && !Unbound(e)
    case MissingResourceScope => e.kind == ResourceExclusion && Unbound(e) && e.resourceScope == []
    case UnknownResourceScope =>
      && e.kind == ResourceExclusion && Unbound(e) && NamesNode(t, e.from) && NamesNode(t, e.to)
      && exists n :: n in t.nodes && (n.nodeId == e.from || n.nodeId == e.to) && LacksClaim(n, e.resourceScope)
    case _ => false
  }

  /** The condition that a code reports. */
  ghost predicate Reports(t: ExecutionTopology, code: TopologyCode) {
    match code
    case UnsupportedSchema => t.schema != EXECUTION_TOPOLOGY_SCHEMA
    case UnsupportedSchemaVersion => t.schemaVersion != 0
    case EmptyRequiredField => exists text :: Needs(t, text) && IsBlank(text)
    case EmptyTopology => t.nodes == []
    case DuplicatePolicyId =>
      NamedTwice(t.verificationPolicyIds) || NamedTwice(t.budgetPolicyIds) || NamedTwice(t.expansionPolicyIds)
    case DuplicateNodeId => exists i, j :: 0 <= i < j < |t.nodes| && t.nodes[i].nodeId == t.nodes[j].nodeId
    case DuplicateInputName =>
      exists n :: n in t.nodes && exists i, j :: 0 <= i < j < |n.inputs| && n.inputs[i].name == n.inputs[j].name
    case DuplicateOutputName =>
      exists n :: n in t.nodes && exists i, j :: 0 <= i < j < |n.outputs| && n.outputs[i].name == n.outputs[j].name
    case UnknownPolicyReference => exists n :: n in t.nodes && NamesUndeclared(t, n)
    case DuplicateEdgeId => exists i, j :: 0 <= i < j < |t.edges| && t.edges[i].edgeId == t.edges[j].edgeId
    case _ => exists e :: e in t.edges && EdgeReports(t, e, code)
  }

  // ---------------------------------------------------- nothing to report means valid

  lemma ClaimIff(c: ResourceClaim)
    ensures ValidClaim(c) <==> forall text :: ClaimNeeds(c, text) ==> Filled(text)
  {
    FilledIff(c.networkScope);
    FilledIff(c.secretScope);
    if forall text :: ClaimNeeds(c, text) ==> Filled(text) {
      assert ClaimNeeds(c, c.resource);
      assert c.rateLimitGroup.Some? ==> ClaimNeeds(c, c.rateLimitGroup.value);
      assert forall text :: text in c.networkScope || text in c.secretScope ==> ClaimNeeds(c, text);
    }
  }

  lemma FilledIff(s: seq<string>)
    ensures AllFilled(s) <==> forall text :: text in s ==> Filled(text)
  {
  }

  ghost predicate ClaimsFilled(n: TopologyNode) {
    forall i :: 0 <= i < |n.resourceClaims| ==> ValidClaim(n.resourceClaims[i])
  }

  lemma ClaimsIff(n: TopologyNode)
    ensures ClaimsFilled(n) <==> forall c, text :: c in n.resourceClaims && ClaimNeeds(c, text) ==> Filled(text)
  {
    forall i | 0 <= i < |n.resourceClaims|
      ensures ValidClaim(n.resourceClaims[i]) <==> forall text :: ClaimNeeds(n.resourceClaims[i], text) ==> Filled(text)
    {
      ClaimIff(n.resourceClaims[i]);
    }
  }

  lemma NodeIff(t: ExecutionTopology, n: TopologyNode)
    ensures ValidNode(t, n) <==>
      (forall text :: NodeNeeds(n, text) ==> Filled(text)) && PortNamesUnique(n) && !NamesUndeclared(t, n)
  {
    ClaimsIff(n);
    if forall text :: NodeNeeds(n, text) ==> Filled(text) { NeedsOfNode(n); }
  }

  lemma NeedsOfNode(n: TopologyNode)
    requires forall text :: NodeNeeds(n, text) ==> Filled(text)
    ensures Filled(n.nodeId) && Filled(n.workCellId) && Filled(n.purpose) && Filled(n.executorClass)
    ensures Filled(n.idempotencyKey) && Filled(n.provenance.source) && Filled(n.provenance.createdBy)
    ensures forall i :: 0 <= i < |n.inputs| ==>
      Filled(n.inputs[i].name) && Filled(n.inputs[i].schemaId) && Filled(n.inputs[i].artifactSelector)
    ensures forall i :: 0 <= i < |n.outputs| ==> Filled(n.outputs[i].name) && Filled(n.outputs[i].schemaId)
    ensures ClaimsFilled(n)
  {
    ClaimsIff(n);
    assert NodeNeeds(n, n.nodeId) && NodeNeeds(n, n.workCellId) && NodeNeeds(n, n.purpose);
    assert NodeNeeds(n, n.executorClass) && NodeNeeds(n, n.idempotencyKey);
    assert NodeNeeds(n, n.provenance.source) && NodeNeeds(n, n.provenance.createdBy);
    forall i | 0 <= i < |n.inputs|
      ensures Filled(n.inputs[i].name) && Filled(n.inputs[i].schemaId) && Filled(n.inputs[i].artifactSelector)
    {
      var x := n.inputs[i];
      assert NodeNeeds(n, x.name) && NodeNeeds(n, x.schemaId) && NodeNeeds(n, x.artifactSelector);
    }
    forall i | 0 <= i < |n.outputs| ensures Filled(n.outputs[i].name) && Filled(n.outputs[i].schemaId) {
      var x := n.outputs[i];
      assert NodeNeeds(n, x.name) && NodeNeeds(n, x.schemaId);
    }
    forall c, text | c in n.resourceClaims && ClaimNeeds(c, text) ensures Filled(text) {
      assert NodeNeeds(n, text);
    }
  }

  lemma DescribedIff(e: TopologyEdge)
    ensures Described(e) <==> forall text :: EdgeNeeds(e, text) ==> Filled(text)
  {
    if forall text :: EdgeNeeds(e, text) ==> Filled(text) {
      assert EdgeNeeds(e, e.edgeId) && EdgeNeeds(e, e.from) && EdgeNeeds(e, e.to);
      assert EdgeNeeds(e, e.blockingPredicate) && EdgeNeeds(e, e.dependencyWitness);
      assert EdgeNeeds(e, e.removalCounterexample);
      assert EdgeNeeds(e, e.provenance.source) && EdgeNeeds(e, e.provenance.createdBy);
      assert forall r :: r in e.resourceScope ==> EdgeNeeds(e, r);
    }
  }

  lemma LacksOutputIff(n: TopologyNode, name: string, schema: string)
    requires PortNamesUnique(n)
    ensures LacksOutput(n, Some(name), Some(schema)) <==> !Offers(n, name, schema)
  {
    OffersIff(n, name, schema);
    if !LacksOutput(n, Some(name), Some(schema)) {
      var x :| x in n.outputs && x.name == name && x.schemaId == schema;
      assert x == NodeOutput(name, schema);
    }
  }

  lemma LacksInputIff(n: TopologyNode, name: string, schema: string)
    requires PortNamesUnique(n)
    ensures LacksInput(n, Some(name), Some(schema)) <==> !Expects(n, name, schema)
  {
    ExpectsIff(n, name, schema);
    if i :| 0 <= i < |n.inputs| && n.inputs[i].name == name && n.inputs[i].schemaId == schema {
      assert n.inputs[i] in n.inputs;
    }
  }

  lemma LacksClaimIff(n: TopologyNode, resources: seq<string>)
    ensures LacksClaim(n, resources) <==> !ClaimsAll(n, resources)
  {
  }

  /** What is reported of an edge between these two nodes. */
  ghost predicate ReportsBetween(e: TopologyEdge, source: TopologyNode, target: TopologyNode, code: TopologyCode) {
    match code
    case SelfEdge => source.nodeId == target.nodeId
    case IncompleteDataBinding => e.kind == Data && !FullyBound(e)
    case UnknownOutputBinding =>
      e.kind == Data && FullyBound(e) && !Offers(source, e.output.value, e.schemaId.value)
    case UnknownInputBinding => e.kind == Data && FullyBound(e) && !Expects(target, e.input.value, e.schemaId.value)
    case BindingOnNonDataEdge => e.kind != Data && !Unbound(e)
    case MissingResourceScope => e.kind == ResourceExclusion && Unbound(e) && e.resourceScope == []
    case UnknownResourceScope =>
      && e.kind == ResourceExclusion && Unbound(e)
      && !(ClaimsAll(source, e.resourceScope) && ClaimsAll(target, e.resourceScope))
    case _ => false
  }

  ghost predicate EndsAt(t: ExecutionTopology, e: TopologyEdge, u: nat, v: nat) {
    && NodeIdsUnique(t.nodes) && u < |t.nodes| && v < |t.nodes|
    && e.from == t.nodes[u].nodeId && e.to == t.nodes[v].nodeId
    && PortNamesUnique(t.nodes[u]) && PortNamesUnique(t.nodes[v])
  }

  lemma ReportsBetweenIff(t: ExecutionTopology, e: TopologyEdge, u: nat, v: nat, code: TopologyCode)
    requires EndsAt(t, e, u, v)
    ensures EdgeReports(t, e, code) <==> ReportsBetween(e, t.nodes[u], t.nodes[v], code)
  {
    var source, target := t.nodes[u], t.nodes[v];
    assert source in t.nodes && target in t.nodes;
    assert forall n :: n in t.nodes ==> (n.nodeId == e.from <==> n == source) && (n.nodeId == e.to <==> n == target);
    if code.UnknownOutputBinding? && FullyBound(e) { LacksOutputIff(source, e.output.value, e.schemaId.value); }
    if code.UnknownInputBinding? && FullyBound(e) { LacksInputIff(target, e.input.value, e.schemaId.value); }
    if code.UnknownResourceScope? {
      LacksClaimIff(source, e.resourceScope);
      LacksClaimIff(target, e.resourceScope);
    }
  }

  lemma NothingBetweenIff(e: TopologyEdge, source: TopologyNode, target: TopologyNode)
    requires e.from == source.nodeId && e.to == target.nodeId
    ensures (forall code :: !ReportsBetween(e, source, target, code)) <==> Joins(e, source, target)
  {
    if forall code :: !ReportsBetween(e, source, target, code) {
      assert !ReportsBetween(e, source, target, SelfEdge);
      assert !ReportsBetween(e, source, target, IncompleteDataBinding);
      assert !ReportsBetween(e, source, target, UnknownOutputBinding);
      assert !ReportsBetween(e, source, target, UnknownInputBinding);
      assert !ReportsBetween(e, source, target, BindingOnNonDataEdge);
      assert !ReportsBetween(e, source, target, MissingResourceScope);
      assert !ReportsBetween(e, source, target, UnknownResourceScope);
    }
  }

  /** Of an edge nothing is reported exactly if it joins two nodes. */
  lemma EdgeReportsIff(t: ExecutionTopology, e: TopologyEdge)
    requires NodeIdsUnique(t.nodes) && forall v :: 0 <= v < |t.nodes| ==> PortNamesUnique(t.nodes[v])
    ensures (forall code :: !EdgeReports(t, e, code)) <==> JoinsSome(t, e)
  {
    assert EdgeReports(t, e, UnknownEdgeSource) <==> !NamesNode(t, e.from);
    assert EdgeReports(t, e, UnknownEdgeTarget) <==> !NamesNode(t, e.to);
    if NamesNode(t, e.from) && NamesNode(t, e.to) {
      var u: nat :| u < |t.nodes| && t.nodes[u].nodeId == e.from;
      var v: nat :| v < |t.nodes| && t.nodes[v].nodeId == e.to;
      forall code ensures EdgeReports(t, e, code) <==> ReportsBetween(e, t.nodes[u], t.nodes[v], code) {
        ReportsBetweenIff(t, e, u, v, code);
      }
      NothingBetweenIff(e, t.nodes[u], t.nodes[v]);
      assert forall w :: 0 <= w < |t.nodes| ==>
        (t.nodes[w].nodeId == e.from ==> w == u) && (t.nodes[w].nodeId == e.to ==> w == v);
    }
  }

  // ------------------------------------------------------------------ the whole topology

  /** What has to be filled is. */
  ghost predicate Complete(t: ExecutionTopology) {
    forall text :: Needs(t, text) ==> Filled(text)
  }

  /** The fields of the topology itself. */
  ghost predicate HeaderFilled(t: ExecutionTopology) {
    && Filled(t.topologyId) && Filled(t.caseSpaceId) && Filled(t.provenance.source) && Filled(t.provenance.createdBy)
    && AllFilled(t.verificationPolicyIds) && AllFilled(t.budgetPolicyIds) && AllFilled(t.expansionPolicyIds)
  }

  lemma CompleteIff(t: ExecutionTopology)
    ensures Complete(t) <==>
      && HeaderFilled(t) && (forall n, text :: n in t.nodes && NodeNeeds(n, text) ==> Filled(text))
      && (forall e, text :: e in t.edges && EdgeNeeds(e, text) ==> Filled(text))
  {
    FilledIff(t.verificationPolicyIds);
    FilledIff(t.budgetPolicyIds);
    FilledIff(t.expansionPolicyIds);
    if Complete(t) {
      assert Needs(t, t.topologyId) && Needs(t, t.caseSpaceId);
      assert Needs(t, t.provenance.source) && Needs(t, t.provenance.createdBy);
      assert forall text :: text in t.verificationPolicyIds ==> Needs(t, text);
      assert forall text :: text in t.budgetPolicyIds || text in t.expansionPolicyIds ==> Needs(t, text);
      forall n, text | n in t.nodes && NodeNeeds(n, text) ensures Filled(text) { assert Needs(t, text); }
      forall e, text | e in t.edges && EdgeNeeds(e, text) ensures Filled(text) { assert Needs(t, text); }
    }
  }

  lemma EmptyFieldIff(t: ExecutionTopology)
    ensures Reports(t, EmptyRequiredField) <==> !Complete(t)
  {
    forall text ensures Filled(text) <==> !IsBlank(text) { BlankIff(text); }
  }

  /** The codes that report no edge are absent. */
  ghost predicate Orderly(t: ExecutionTopology) {
    && t.schema == EXECUTION_TOPOLOGY_SCHEMA && t.schemaVersion == 0 && t.nodes != []
    && NoRepeats(t.verificationPolicyIds) && NoRepeats(t.budgetPolicyIds) && NoRepeats(t.expansionPolicyIds)
    && NodeIdsUnique(t.nodes) && EdgeIdsUnique(t.edges)
    && (forall n :: n in t.nodes ==> PortNamesUnique(n) && !NamesUndeclared(t, n))
  }

  lemma ValidSplits(t: ExecutionTopology)
    ensures Valid(t) <==> Orderly(t) && Complete(t) && forall e :: e in t.edges ==> JoinsSome(t, e)
  {
    CompleteIff(t);
    forall i | 0 <= i < |t.nodes|
      ensures ValidNode(t, t.nodes[i]) <==>
        && (forall text :: NodeNeeds(t.nodes[i], text) ==> Filled(text))
        && PortNamesUnique(t.nodes[i]) && !NamesUndeclared(t, t.nodes[i])
    {
      NodeIff(t, t.nodes[i]);
    }
    if forall n :: n in t.nodes ==> PortNamesUnique(n) {
      forall i | 0 <= i < |t.edges|
        ensures ValidEdge(t, t.edges[i]) <==>
          (forall text :: EdgeNeeds(t.edges[i], text) ==> Filled(text)) && JoinsSome(t, t.edges[i])
      {
        EdgeIffJoins(t, t.edges[i]);
        DescribedIff(t.edges[i]);
      }
    }
  }

  /** The codes about topology and nodes, apart from empty fields. */
  predicate IsOrderCode(code: TopologyCode) {
    || code.UnsupportedSchema? || code.UnsupportedSchemaVersion? || code.EmptyTopology? || code.DuplicatePolicyId?
    || code.DuplicateNodeId? || code.DuplicateEdgeId? || code.DuplicateInputName? || code.DuplicateOutputName?
    || code.UnknownPolicyReference?
  }

  lemma PortsIff(t: ExecutionTopology)
    ensures (forall n :: n in t.nodes ==> PortNamesUnique(n)) <==>
      !Reports(t, DuplicateInputName) && !Reports(t, DuplicateOutputName)
  {
  }

  lemma ReferencesIff(t: ExecutionTopology)
    ensures (forall n :: n in t.nodes ==> PortNamesUnique(n) && !NamesUndeclared(t, n)) <==>
      (forall n :: n in t.nodes ==> PortNamesUnique(n)) && !Reports(t, UnknownPolicyReference)
  {
  }

  lemma HeaderIff(t: ExecutionTopology)
    ensures (NoRepeats(t.verificationPolicyIds) && NoRepeats(t.budgetPolicyIds) && NoRepeats(t.expansionPolicyIds))
      <==> !Reports(t, DuplicatePolicyId)
    ensures NodeIdsUnique(t.nodes) <==> !Reports(t, DuplicateNodeId)
    ensures EdgeIdsUnique(t.edges) <==> !Reports(t, DuplicateEdgeId)
  {
  }

  lemma OrderlyIff(t: ExecutionTopology)
    ensures Orderly(t) <==> forall code :: IsOrderCode(code) ==> !Reports(t, code)
  {
    PortsIff(t);
    ReferencesIff(t);
    HeaderIff(t);
    if forall code :: IsOrderCode(code) ==> !Reports(t, code) {
      assert !Reports(t, UnsupportedSchema) && !Reports(t, UnsupportedSchemaVersion) && !Reports(t, EmptyTopology);
      assert !Reports(t, DuplicatePolicyId) && !Reports(t, DuplicateNodeId) && !Reports(t, DuplicateEdgeId);
      assert !Reports(t, DuplicateInputName) && !Reports(t, DuplicateOutputName);
      assert !Reports(t, UnknownPolicyReference);
    }
  }

  predicate IsEdgeCode(code: TopologyCode) {
    !IsOrderCode(code) && !code.EmptyRequiredField?
  }

  lemma EdgeCodesIff(t: ExecutionTopology)
    requires NodeIdsUnique(t.nodes) && forall v :: 0 <= v < |t.nodes| ==> PortNamesUnique(t.nodes[v])
    ensures (forall e :: e in t.edges ==> JoinsSome(t, e)) <==> forall code :: IsEdgeCode(code) ==> !Reports(t, code)
  {
    forall e | e in t.edges ensures JoinsSome(t, e) <==> forall code :: !EdgeReports(t, e, code) {
      EdgeReportsIff(t, e);
    }
    forall code | IsEdgeCode(code) ensures Reports(t, code) <==> exists e :: e in t.edges && EdgeReports(t, e, code) {
    }
    forall e, code | e in t.edges && EdgeReports(t, e, code) ensures IsEdgeCode(code) && Reports(t, code) {
    }
  }

  /** A topology is valid exactly if no code has anything to report. */
  lemma ValidIffNothingReported(t: ExecutionTopology)
    ensures Valid(t) <==> forall code :: !Reports(t, code)
  {
    ValidSplits(t);
    OrderlyIff(t);
    EmptyFieldIff(t);
    if Orderly(t) { EdgeCodesIff(t); }
    assert forall code :: IsOrderCode(code) || IsEdgeCode(code) || code == EmptyRequiredField;
  }
}
