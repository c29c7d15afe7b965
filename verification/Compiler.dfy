/** The deterministic graph compiler and the verifier that recompiles.

    File contents are symbolic: `Bytes` is a document together with the layout it is
    written in, layout 0 being the canonical one, so parsing inverts serialization and
    two layouts of one document are different bytes.  A digest is the bytes it covers. */
module Compiler {
  import opened Machine
  import opened Orders
  import opened Topology
  import opened CanonicalForm
  import opened Patch
  import GraphSimulation

  /** The canonical text of a JSON value. */
  type Json = string

  datatype Profile = V0 | V1

  /** The identifiers of the two profiles, the names of the two modes, and any other text. */
  datatype Label =
    | Version(profile: Profile) | InputsSchema(profile: Profile) | Semantics(profile: Profile)
    | ProposalName | ReviewedName
    | OtherLabel(text: string)

  /** A field that should hold the current constant. */
  datatype Fixed = Current | Different(text: string)

  datatype Digest = Sha(bytes: Bytes) | LegacyContracts | OtherDigest(text: string)

  datatype Bytes = Bytes(document: Document, layout: nat)

  datatype ReviewIdentity = ReviewIdentity(version: Label, semantics: Label, inputsSchema: Label, contracts: Digest)

  datatype Binding = Binding(
    claimCellId: string,
    reviewId: string,
    topologyHash: Digest,
    policyManifestHash: Digest,
    caseSpaceId: string,
    baseRevisionId: string,
    expansionProposalId: Option<string>,
    compiler: ReviewIdentity)

  datatype Mode = ProposalMode | Reviewed(binding: Binding)

  datatype Mapping = Mapping(nodeId: string, workerBindingId: string, evidence: seq<string>, transitions: seq<string>)

  datatype Policies = Policies(verification: map<string, Json>, budget: map<string, Json>, expansion: map<string, Json>)

  datatype Spec = Spec(
    caseSpaceId: string,
    baseRevisionId: string,
    planId: string,
    mappings: seq<Mapping>,
    policies: Policies)

  datatype CompilerRequest = CompilerRequest(mode: Mode, spec: Spec)

  /** Profile 0 keeps no compiler identity of the reviewed binding. */
  datatype RetainedModeV0 =
    | RetainedProposal
    | RetainedReviewed(claimCellId: string, reviewId: string, topologyHash: Digest, policyManifestHash: Digest,
                       caseSpaceId: string, baseRevisionId: string, expansionProposalId: Option<string>)

  datatype Inputs =
    | InputsV0(modeV0: RetainedModeV0, spec: Spec)
    | InputsV1(identity: Fixed, contracts: Fixed, modeV1: Mode, spec: Spec)
    | Malformed(text: string)

  datatype Step = Step(stepId: string, workCellId: string, workerBindingId: string, evidence: seq<string>,
      transitions: seq<string>)

  datatype Plan = Plan(planId: string, caseSpaceId: string, baseRevisionId: string, steps: seq<Step>, extraction: Label)

  datatype Report = Report(
    version: Label,
    compiled: bool,
    mode: Label,
    topologyId: string,
    topologyHash: Digest,
    caseSpaceId: string,
    baseRevisionId: string,
    reviewedClaim: Option<string>,
    acceptedReview: Option<string>)

  /** Files of a bundle, in path order. */
  datatype Path =
    | BudgetPolicies | CaseMapping | CompilerInputs | CompilerReport | ExecutionPlan | TopologyFile
    | ExpansionPolicies | AnalysisReport | ResourceManifest | RuntimeDeployment | TopologyHashFile
    | VerificationPolicies
    | OtherPath(text: string)

  datatype Entry = Entry(path: Path, hash: Digest, length: nat)

  datatype Manifest = Manifest(
    version: Label,
    identity: Option<Fixed>,
    contracts: Option<Fixed>,
    topologyId: string,
    topologyHash: Digest,
    caseSpaceId: string,
    baseRevisionId: string,
    mode: Label,
    policyManifestHash: Digest,
    reviewedClaim: Option<string>,
    acceptedReview: Option<string>,
    acceptedRevision: Option<string>,
    entries: seq<Entry>)

  datatype Document =
    | TopologyDoc(topology: ExecutionTopology)
    | HashDoc(digest: Digest)
    | InputsDoc(schema: Label, version: Label, inputs: Inputs)
    | ReportDoc(report: Report)
    | MappingDoc(caseSpaceId: string, baseRevisionId: string, topologyHash: Digest, topology: ExecutionTopology)
    | PlanDoc(plan: Plan)
    | RuntimeDoc(caseSpaceId: string, baseRevisionId: string, topologyHash: Digest, topology: ExecutionTopology)
    | ResourceDoc(topologyHash: Digest, topology: ExecutionTopology)
    | PoliciesDoc(kind: PolicyKind, topologyHash: Digest, policies: map<string, Json>)
    | AnalysisDoc(analysis: Json)
    | ManifestDoc(manifest: Manifest)
    | PolicyManifestDoc(topologyId: string, topologyHash: Digest, manifested: Policies)
    | ContractsDoc(contracts: Fixed)
    | OtherDoc(text: string)

  datatype PolicyKind = Verification | Budget | Expansion

  datatype Artifact = Artifact(path: Path, hash: Digest, bytes: Bytes)

  datatype Bundle = Bundle(artifacts: seq<Artifact>, manifest: Manifest, manifestBytes: Bytes, manifestHash: Digest)

  /** What the compiler calls and this model does not look into: byte lengths, the lint
      passes that read policy documents, the policy and plan validators. */
  datatype Env = Env(
    length: Bytes -> nat,
    policyLints: (ExecutionTopology, map<string, Json>) -> bool,
    analysis: (ExecutionTopology, map<string, Json>) -> Json,
    policyOk: (PolicyKind, string, Json) -> bool,
    planOk: Plan -> bool)

  function Written(d: Document): Bytes {
    Bytes(d, 0)
  }

  function TopologyHash(t: ExecutionTopology): Digest {
    Sha(Written(TopologyDoc(Canonical(t))))
  }

  function PolicyHash(t: ExecutionTopology, policies: Policies): Digest {
    Sha(Written(PolicyManifestDoc(t.topologyId, TopologyHash(t), policies)))
  }

  function IdentityFor(profile: Profile): ReviewIdentity {
    ReviewIdentity(Version(profile), Semantics(profile), InputsSchema(profile),
                   if profile == V0 then LegacyContracts else Sha(Written(ContractsDoc(Current))))
  }

  // ---------------------------------------------------------------- what is accepted

  /** Source: `validate_reviewed_binding` and the manifest hash check after it. */
  predicate BindingOk(profile: Profile, t: ExecutionTopology, r: CompilerRequest) {
    r.mode.Reviewed? ==>
      && r.mode.binding.topologyHash == TopologyHash(t)
      && r.mode.binding.caseSpaceId == r.spec.caseSpaceId
      && r.mode.binding.baseRevisionId == r.spec.baseRevisionId
      && r.mode.binding.compiler == IdentityFor(profile)
      && r.mode.binding.policyManifestHash == PolicyHash(t, r.spec.policies)
  }

  predicate PoliciesMatch(env: Env, kind: PolicyKind, ids: seq<string>, documents: map<string, Json>) {
    NoRepeats(ids) && documents.Keys == SetOf(ids) && forall id :: id in documents ==>
      env.policyOk(kind, id, documents[id])
  }

  /** Source: `validate_policy_documents` and `validate_deployment_policy_manifest`. */
  predicate PoliciesOk(env: Env, t: ExecutionTopology, p: Policies) {
    && PoliciesMatch(env, Verification, t.verificationPolicyIds, p.verification)
    && PoliciesMatch(env, Budget, t.budgetPolicyIds, p.budget)
    && PoliciesMatch(env, Expansion, t.expansionPolicyIds, p.expansion)
  }

  function MappedId(m: Mapping): string { m.nodeId }

  predicate Complete(m: Mapping) {
    Filled(m.workerBindingId) && m.evidence != [] && m.transitions != []
  }

  /** Source: `validate_plan_mappings`: one complete mapping for each node and no other. */
  predicate MappingsOk(nodes: seq<TopologyNode>, mappings: seq<Mapping>) {
    && NoRepeats(Ids(mappings, MappedId))
    && SetOf(Ids(mappings, MappedId)) == SetOf(Ids(nodes, NodeId))
    && forall i :: 0 <= i < |mappings| ==> Complete(mappings[i])
  }

  function StepFor(n: TopologyNode, mappings: map<string, Mapping>): Step {
    if n.nodeId in mappings then
      var m := mappings[n.nodeId];
      Step(n.nodeId, n.workCellId, m.workerBindingId, m.evidence, m.transitions)
    else Step(n.nodeId, n.workCellId, "", [], [])
  }

  function StepsFor(nodes: seq<TopologyNode>, mappings: map<string, Mapping>): (steps: seq<Step>)
    ensures |steps| == |nodes| && forall i :: 0 <= i < |nodes| ==> steps[i] == StepFor(nodes[i], mappings)
  {
    seq(|nodes|, i requires 0 <= i < |nodes| => StepFor(nodes[i], mappings))
  }

  /** Source: `build_execution_plan`. */
  function PlanOf(profile: Profile, t: ExecutionTopology, r: CompilerRequest): Plan {
    Plan(r.spec.planId, r.spec.caseSpaceId, r.spec.baseRevisionId,
         StepsFor(SortBy(t.nodes, NodeLeq), Index(r.spec.mappings, MappedId)), Version(profile))
  }

  /** The request belongs to the topology, is filled in, and meets its review. */
  predicate RequestOk(profile: Profile, c: ExecutionTopology, r: CompilerRequest) {
    && c.caseSpaceId == r.spec.caseSpaceId
    && Filled(r.spec.caseSpaceId) && Filled(r.spec.baseRevisionId) && Filled(r.spec.planId)
    && BindingOk(profile, c, r)
  }

  /** Every check that stands between a canonical topology and its bundle.  The linter's
      own passes are `LintClean`; those that read policy documents are a parameter. */
  ghost predicate Compilable(env: Env, profile: Profile, c: ExecutionTopology, r: CompilerRequest) {
    && GraphSimulation.LintClean(c) && env.policyLints(c, r.spec.policies.verification)
    && RequestOk(profile, c, r) && PoliciesOk(env, c, r.spec.policies)
    && MappingsOk(c.nodes, r.spec.mappings) && env.planOk(PlanOf(profile, c, r))
  }

  // ------------------------------------------------------------------ what is emitted

  function RetainMode(m: Mode): RetainedModeV0 {
    match m
    case ProposalMode => RetainedProposal
    case Reviewed(b) => RetainedReviewed(b.claimCellId, b.reviewId, b.topologyHash, b.policyManifestHash,
      b.caseSpaceId, b.baseRevisionId, b.expansionProposalId)
  }

  /** The reader of profile 0 fills in the identity that profile 0 stood for. */
  function RestoreMode(m: RetainedModeV0): Mode {
    match m
    case RetainedProposal => ProposalMode
    case RetainedReviewed(claim, review, topology, policies, space, revision, proposal) =>
      Reviewed(Binding(claim, review, topology, policies, space, revision, proposal, IdentityFor(V0)))
  }

  predicate MappingLeq(a: Mapping, b: Mapping) {
    StringLeq(a.nodeId, b.nodeId)
  }

  function SortedSpec(spec: Spec): Spec {
    spec.(mappings := SortBy(spec.mappings, MappingLeq))
  }

  /** Source: `retained_compiler_inputs_value`. */
  function InputsOf(profile: Profile, r: CompilerRequest): Document {
    InputsDoc(InputsSchema(profile), Version(profile),
              if profile == V0 then InputsV0(RetainMode(r.mode), SortedSpec(r.spec))
              else InputsV1(Current, Current, r.mode, SortedSpec(r.spec)))
  }

  function ModeName(m: Mode): Label {
    if m.ProposalMode? then ProposalName else ReviewedName
  }

  function ReportOf(profile: Profile, c: ExecutionTopology, r: CompilerRequest, compiled: bool): Report {
    Report(Version(profile), compiled, ModeName(r.mode), c.topologyId, TopologyHash(c), r.spec.caseSpaceId,
      r.spec.baseRevisionId,
           if r.mode.Reviewed? then Some(r.mode.binding.claimCellId) else None,
           if r.mode.Reviewed? then Some(r.mode.binding.reviewId) else None)
  }

  function ArtifactOf(path: Path, d: Document): Artifact {
    Artifact(path, Sha(Written(d)), Written(d))
  }

  const REQUIRED: seq<Path> := [
    BudgetPolicies, CaseMapping, CompilerInputs, CompilerReport, ExecutionPlan, TopologyFile,
    ExpansionPolicies, AnalysisReport, ResourceManifest, RuntimeDeployment, TopologyHashFile, VerificationPolicies]

  /** The content of each file; the report is written once compilation has succeeded. */
  function DocumentAt(env: Env, profile: Profile, c: ExecutionTopology, r: CompilerRequest, path: Path): Document {
    DocumentWith(env, profile, c, r, Canonical(c), TopologyHash(c), ReportOf(profile, c, r, true), path)
  }

  function DocumentWith(env: Env, profile: Profile, c: ExecutionTopology, r: CompilerRequest, filed: ExecutionTopology,
      h: Digest, report: Report, path: Path): Document {
    match path
    case BudgetPolicies => PoliciesDoc(Budget, h, r.spec.policies.budget)
    case CaseMapping => MappingDoc(r.spec.caseSpaceId, r.spec.baseRevisionId, h, c)
    case CompilerInputs => InputsOf(profile, r)
    case CompilerReport => ReportDoc(report)
    case ExecutionPlan => PlanDoc(PlanOf(profile, c, r))
    case TopologyFile => TopologyDoc(filed)
    case ExpansionPolicies => PoliciesDoc(Expansion, h, r.spec.policies.expansion)
    case AnalysisReport => AnalysisDoc(env.analysis(c, r.spec.policies.verification))
    case ResourceManifest => ResourceDoc(h, c)
    case RuntimeDeployment => RuntimeDoc(r.spec.caseSpaceId, r.spec.baseRevisionId, h, c)
    case TopologyHashFile => HashDoc(h)
    case VerificationPolicies => PoliciesDoc(Verification, h, r.spec.policies.verification)
    case OtherPath(text) => OtherDoc(text)
  }

  /** The artifacts, in path order. */
  function Artifacts(env: Env, profile: Profile, c: ExecutionTopology, r: CompilerRequest): (artifacts: seq<Artifact>)
    ensures |artifacts| == |REQUIRED|
    ensures forall i :: 0 <= i < |REQUIRED| ==>
      artifacts[i] == ArtifactOf(REQUIRED[i], DocumentAt(env, profile, c, r, REQUIRED[i]))
  {
    seq(|REQUIRED|, i requires 0 <= i < |REQUIRED| =>
      ArtifactOf(REQUIRED[i], DocumentAt(env, profile, c, r, REQUIRED[i])))
  }

  function EntriesFor(env: Env, artifacts: seq<Artifact>): (entries: seq<Entry>)
    ensures |entries| == |artifacts|
    ensures forall i :: 0 <= i < |artifacts| ==>
      entries[i] == Entry(artifacts[i].path, artifacts[i].hash, env.length(artifacts[i].bytes))
  {
    seq(|artifacts|, i requires 0 <= i < |artifacts| =>
      Entry(artifacts[i].path, artifacts[i].hash, env.length(artifacts[i].bytes)))
  }

  function ManifestOf(env: Env, profile: Profile, c: ExecutionTopology, r: CompilerRequest,
      artifacts: seq<Artifact>): Manifest {
    var report := ReportOf(profile, c, r, true);
    var identity := if profile == V1 then Some(Current) else None;
    var revision := if r.mode.Reviewed? then Some(r.mode.binding.baseRevisionId) else None;
    Manifest(Version(profile), identity, identity, c.topologyId, TopologyHash(c),
             r.spec.caseSpaceId, r.spec.baseRevisionId, ModeName(r.mode), PolicyHash(c, r.spec.policies),
             report.reviewedClaim, report.acceptedReview, revision,
             EntriesFor(env, artifacts))
  }

  function BundleOf(env: Env, profile: Profile, c: ExecutionTopology, r: CompilerRequest): Bundle {
    var artifacts := Artifacts(env, profile, c, r);
    var manifest := ManifestOf(env, profile, c, r, artifacts);
    Bundle(artifacts, manifest, Written(ManifestDoc(manifest)), Sha(Written(ManifestDoc(manifest))))
  }

  /** Source: `compile_execution_topology_with_profile`. */
  ghost function Compile(env: Env, profile: Profile, t: ExecutionTopology, r: CompilerRequest): Option<Bundle> {
    if Compilable(env, profile, Canonical(t), r) then Some(BundleOf(env, profile, Canonical(t), r)) else None
  }

  // ------------------------------------------------------------------- the verifier

  function ArtifactPath(a: Artifact): Path { a.path }

  function EntryPath(e: Entry): Path { e.path }

  function ByPath(artifacts: seq<Artifact>): map<Path, Artifact> {
    Index(artifacts, ArtifactPath)
  }

  /** The two inventories list the same paths, once each, and the required ones. */
  predicate InventoryOk(b: Bundle) {
    && NoRepeats(Ids(b.artifacts, ArtifactPath)) && NoRepeats(Ids(b.manifest.entries, EntryPath))
    && ByPath(b.artifacts).Keys == Index(b.manifest.entries, EntryPath).Keys
    && forall i :: 0 <= i < |REQUIRED| ==> REQUIRED[i] in ByPath(b.artifacts)
  }

  /** Artifact bytes, digest and manifest entry agree. */
  predicate ContentsOk(env: Env, b: Bundle) {
    var entries := Index(b.manifest.entries, EntryPath);
    forall p :: p in ByPath(b.artifacts) && p in entries ==>
      var a := ByPath(b.artifacts)[p];
      a.hash == Sha(a.bytes) && entries[p].hash == Sha(a.bytes) && entries[p].length == env.length(a.bytes)
  }

  predicate EnvelopeOk(env: Env, b: Bundle, expected: Digest) {
    && b.manifestHash == expected && Sha(b.manifestBytes) == expected &&
      b.manifestBytes.document == ManifestDoc(b.manifest)
    && InventoryOk(b) && ContentsOk(env, b)
  }

  /** The topology file, if it parses and belongs to the manifest. */
  function TopologyIn(b: Bundle): Option<ExecutionTopology> {
    if TopologyFile !in ByPath(b.artifacts) then None
    else
      var d := ByPath(b.artifacts)[TopologyFile].bytes.document;
      if && d.TopologyDoc? && Valid(d.topology) && d.topology.topologyId == b.manifest.topologyId
         && d.topology.caseSpaceId == b.manifest.caseSpaceId && TopologyHash(d.topology) == b.manifest.topologyHash
      then Some(d.topology) else None
  }

  /** Source: the `retained_compiler_request` conversions. */
  function Restored(d: Document): Option<(Profile, CompilerRequest)> {
    if !d.InputsDoc? then None
    else if d.schema == InputsSchema(V1) && d.version == Version(V1) then
      if d.inputs.InputsV1? && d.inputs.identity.Current? && d.inputs.contracts.Current?
      then Some((V1, CompilerRequest(d.inputs.modeV1, d.inputs.spec))) else None
    else if d.schema == InputsSchema(V0) && d.version == Version(V0) then
      if d.inputs.InputsV0? then Some((V0, CompilerRequest(RestoreMode(d.inputs.modeV0), d.inputs.spec))) else None
    else None
  }

  function RequestIn(b: Bundle): Option<(Profile, CompilerRequest)> {
    if CompilerInputs !in ByPath(b.artifacts) then None
    else
      var restored := Restored(ByPath(b.artifacts)[CompilerInputs].bytes.document);
      if restored.Some? && b.manifest.version == Version(restored.value.0) then restored else None
  }

  /** Source: `deployment_bundles_match`. */
  predicate Matches(b: Bundle, c: Bundle) {
    && b.manifest == c.manifest && b.manifestBytes == c.manifestBytes && b.manifestHash == c.manifestHash
    && ByPath(b.artifacts) == ByPath(c.artifacts)
  }

  /** Source: `verify_deployment_bundle_internal`: the topology of an accepted bundle. */
  ghost function Verify(env: Env, b: Bundle, expected: Digest): Option<ExecutionTopology> {
    if !EnvelopeOk(env, b, expected) || TopologyIn(b).None? || RequestIn(b).None? then None
    else
      var (profile, request) := RequestIn(b).value;
      var reproduced := Compile(env, profile, TopologyIn(b).value, request);
      if reproduced.Some? && Matches(b, reproduced.value) then TopologyIn(b) else None
  }
}
