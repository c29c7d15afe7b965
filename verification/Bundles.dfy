/** What the files of a deployment bundle say, from the bundle's own side, and exactly when a
    request is compiled. */
module Bundles {
  import opened Machine
  import opened Orders
  import opened Topology
  import opened CanonicalForm
  import opened Patch
  import opened Compiler
  import opened CompilerProofs
  import GraphSimulation

  /** The document is among the files, in canonical layout and under its own hash. */
  predicate Carries(files: seq<Artifact>, path: Path, d: Document) {
    Artifact(path, Sha(Bytes(d, 0)), Bytes(d, 0)) in files
  }

  /** The three policy files hold the three maps, each under its own kind. */
  predicate CarriesPolicies(files: seq<Artifact>, topologyHash: Digest, p: Policies) {
    && Carries(files, VerificationPolicies, PoliciesDoc(Verification, topologyHash, p.verification))
    && Carries(files, BudgetPolicies, PoliciesDoc(Budget, topologyHash, p.budget))
    && Carries(files, ExpansionPolicies, PoliciesDoc(Expansion, topologyHash, p.expansion))
  }

  /** The topology file and the file with its hash. */
  predicate CarriesTopology(files: seq<Artifact>, c: ExecutionTopology) {
    && Carries(files, TopologyFile, TopologyDoc(c))
    && Carries(files, TopologyHashFile, HashDoc(Sha(Bytes(TopologyDoc(c), 0))))
  }

  /** Topology file, hash file and manifest name one canonical topology. */
  predicate SaysTopology(b: Bundle, c: ExecutionTopology) {
    && CarriesTopology(b.artifacts, c) && b.manifest.topologyHash == Sha(Bytes(TopologyDoc(c), 0))
    && b.manifest.topologyId == c.topologyId && b.manifest.caseSpaceId == c.caseSpaceId
  }

  /** The policy files hold these policies, and hashing them with topology id and topology hash
      gives the policy hash of the manifest. */
  predicate SaysPolicies(b: Bundle, p: Policies) {
    && CarriesPolicies(b.artifacts, b.manifest.topologyHash, p)
    && b.manifest.policyManifestHash ==
         Sha(Bytes(PolicyManifestDoc(b.manifest.topologyId, b.manifest.topologyHash, p), 0))
  }

  /** Mapping, runtime, resource, report and analysis files agree with topology and manifest. */
  predicate SaysDeployment(env: Env, b: Bundle, c: ExecutionTopology, verification: map<string, Json>) {
    var m := b.manifest;
    && Carries(b.artifacts, CaseMapping, MappingDoc(m.caseSpaceId, m.baseRevisionId, m.topologyHash, c))
    && Carries(b.artifacts, RuntimeDeployment, RuntimeDoc(m.caseSpaceId, m.baseRevisionId, m.topologyHash, c))
    && Carries(b.artifacts, ResourceManifest, ResourceDoc(m.topologyHash, c))
    && Carries(b.artifacts, CompilerReport, ReportDoc(Report(m.version, true, m.mode, m.topologyId, m.topologyHash,
         m.caseSpaceId, m.baseRevisionId, m.reviewedClaim, m.acceptedReview)))
    && Carries(b.artifacts, AnalysisReport, AnalysisDoc(env.analysis(c, verification)))
  }

  /** The plan has one step per node, in strict order of the ids, with the node's mapping. */
  ghost predicate IsPlan(b: Bundle, c: ExecutionTopology, spec: Spec, plan: Plan) {
    && plan.planId == spec.planId && plan.caseSpaceId == b.manifest.caseSpaceId
    && plan.baseRevisionId == b.manifest.baseRevisionId && plan.extraction == b.manifest.version
    && |plan.steps| == |c.nodes| && Increasing(Ids(plan.steps, StepId))
    && (forall id :: id in Ids(plan.steps, StepId) <==> id in Ids(c.nodes, NodeId))
    && (forall i :: 0 <= i < |plan.steps| ==> IsStepOf(c.nodes, spec.mappings, plan.steps[i]))
  }

  ghost predicate SaysPlan(b: Bundle, c: ExecutionTopology, spec: Spec) {
    exists plan :: Carries(b.artifacts, ExecutionPlan, PlanDoc(plan)) && IsPlan(b, c, spec, plan)
  }

  /** The manifest repeats the request, and names the review if there is one. */
  predicate SaysRequest(b: Bundle, profile: Profile, r: CompilerRequest) {
    var m := b.manifest;
    && m.caseSpaceId == r.spec.caseSpaceId && m.baseRevisionId == r.spec.baseRevisionId
    && m.version == Version(profile)
    && m.identity == (if profile == V1 then Some(Current) else None) && m.contracts == m.identity
    && match r.mode
       case ProposalMode => m.mode == ProposalName && m.reviewedClaim == m.acceptedReview == m.acceptedRevision == None
       case Reviewed(review) =>
         && m.mode == ReviewedName && m.reviewedClaim == Some(review.claimCellId)
         && m.acceptedReview == Some(review.reviewId) && m.acceptedRevision == Some(review.baseRevisionId)
  }

  /** The compiler-inputs file reads back as the request, up to the order of its mappings. */
  ghost predicate SaysInputs(b: Bundle, profile: Profile, r: CompilerRequest) {
    exists d, mappings :: Carries(b.artifacts, CompilerInputs, d) && multiset(mappings) == multiset(r.spec.mappings) &&
      Restored(d) == Some((profile, CompilerRequest(r.mode, r.spec.(mappings := mappings))))
  }

  /** Twelve files, each listed in the manifest with its hash and length, under the hash of the
      manifest. */
  ghost predicate SaysInventory(env: Env, b: Bundle) {
    && |b.artifacts| == |b.manifest.entries| == 12
    && (forall a :: a in b.artifacts ==> Entry(a.path, a.hash, env.length(a.bytes)) in b.manifest.entries)
    && (forall e :: e in b.manifest.entries ==> HasPath(b.artifacts, e.path))
    && b.manifestBytes == Bytes(ManifestDoc(b.manifest), 0) && b.manifestHash == Sha(b.manifestBytes)
  }

  ghost predicate HasPath(artifacts: seq<Artifact>, path: Path) {
    exists a :: a in artifacts && a.path == path
  }

  ghost predicate Says(env: Env, b: Bundle, profile: Profile, c: ExecutionTopology, r: CompilerRequest) {
    && SaysTopology(b, c)
    && SaysPolicies(b, r.spec.policies)
    && SaysDeployment(env, b, c, r.spec.policies.verification) && SaysPlan(b, c, r.spec)
    && SaysRequest(b, profile, r) && SaysInputs(b, profile, r) && SaysInventory(env, b)
  }

  // ---------------------------------------------------------------- what is written

  lemma FileWritten(env: Env, profile: Profile, c: ExecutionTopology, r: CompilerRequest, i: nat)
    requires i < |REQUIRED|
    ensures Carries(Artifacts(env, profile, c, r), REQUIRED[i], DocumentAt(env, profile, c, r, REQUIRED[i]))
  {
    assert Artifacts(env, profile, c, r)[i] in Artifacts(env, profile, c, r);
  }

  lemma AllWritten(env: Env, profile: Profile, c: ExecutionTopology, r: CompilerRequest)
    ensures HoldsAll(env, profile, c, r, Canonical(c), TopologyHash(c), ReportOf(profile, c, r, true),
      Artifacts(env, profile, c, r))
  {
    forall path: Path | !path.OtherPath?
      ensures Carries(Artifacts(env, profile, c, r), path,
        DocumentWith(env, profile, c, r, Canonical(c), TopologyHash(c), ReportOf(profile, c, r, true), path))
    {
      assert REQUIRED[Rank(path)] == path;
      FileWritten(env, profile, c, r, Rank(path));
    }
  }

  /** The document of every path is among the files. */
  ghost predicate HoldsAll(env: Env, profile: Profile, c: ExecutionTopology, r: CompilerRequest,
      filed: ExecutionTopology, h: Digest, report: Report, files: seq<Artifact>)
  {
    forall path: Path :: !path.OtherPath? ==>
      Carries(files, path, DocumentWith(env, profile, c, r, filed, h, report, path))
  }

  lemma TopologyFiles(env: Env, profile: Profile, c: ExecutionTopology, r: CompilerRequest, filed: ExecutionTopology,
      h: Digest, report: Report, files: seq<Artifact>)
    requires HoldsAll(env, profile, c, r, filed, h, report, files)
    ensures Carries(files, TopologyFile, TopologyDoc(filed)) && Carries(files, TopologyHashFile, HashDoc(h))
  {
    assert Carries(files, TopologyFile, DocumentWith(env, profile, c, r, filed, h, report, TopologyFile));
    assert Carries(files, TopologyHashFile, DocumentWith(env, profile, c, r, filed, h, report, TopologyHashFile));
  }

  lemma PolicyFiles(env: Env, profile: Profile, c: ExecutionTopology, r: CompilerRequest, filed: ExecutionTopology,
      h: Digest, report: Report, files: seq<Artifact>)
    requires HoldsAll(env, profile, c, r, filed, h, report, files)
    ensures CarriesPolicies(files, h, r.spec.policies)
  {
    assert Carries(files, VerificationPolicies,
      DocumentWith(env, profile, c, r, filed, h, report, VerificationPolicies));
    assert Carries(files, BudgetPolicies, DocumentWith(env, profile, c, r, filed, h, report, BudgetPolicies));
    assert Carries(files, ExpansionPolicies, DocumentWith(env, profile, c, r, filed, h, report, ExpansionPolicies));
  }

  lemma CaseFiles(env: Env, profile: Profile, c: ExecutionTopology, r: CompilerRequest, filed: ExecutionTopology,
      h: Digest, report: Report, files: seq<Artifact>)
    requires HoldsAll(env, profile, c, r, filed, h, report, files)
    ensures Carries(files, CaseMapping, MappingDoc(r.spec.caseSpaceId, r.spec.baseRevisionId, h, c))
    ensures Carries(files, RuntimeDeployment, RuntimeDoc(r.spec.caseSpaceId, r.spec.baseRevisionId, h, c))
    ensures Carries(files, ResourceManifest, ResourceDoc(h, c))
  {
    assert Carries(files, CaseMapping, DocumentWith(env, profile, c, r, filed, h, report, CaseMapping));
    assert Carries(files, RuntimeDeployment, DocumentWith(env, profile, c, r, filed, h, report, RuntimeDeployment));
    assert Carries(files, ResourceManifest, DocumentWith(env, profile, c, r, filed, h, report, ResourceManifest));
  }

  lemma ReportFiles(env: Env, profile: Profile, c: ExecutionTopology, r: CompilerRequest, filed: ExecutionTopology,
      h: Digest, report: Report, files: seq<Artifact>)
    requires HoldsAll(env, profile, c, r, filed, h, report, files)
    ensures Carries(files, AnalysisReport, AnalysisDoc(env.analysis(c, r.spec.policies.verification)))
    ensures Carries(files, CompilerReport, ReportDoc(report))
  {
    assert Carries(files, AnalysisReport, DocumentWith(env, profile, c, r, filed, h, report, AnalysisReport));
    assert Carries(files, CompilerReport, DocumentWith(env, profile, c, r, filed, h, report, CompilerReport));
  }

  lemma PlanFiles(env: Env, profile: Profile, c: ExecutionTopology, r: CompilerRequest, filed: ExecutionTopology,
      h: Digest, report: Report, files: seq<Artifact>)
    requires HoldsAll(env, profile, c, r, filed, h, report, files)
    ensures Carries(files, ExecutionPlan, PlanDoc(PlanOf(profile, c, r)))
    ensures Carries(files, CompilerInputs, InputsOf(profile, r))
  {
    assert Carries(files, ExecutionPlan, DocumentWith(env, profile, c, r, filed, h, report, ExecutionPlan));
    assert Carries(files, CompilerInputs, DocumentWith(env, profile, c, r, filed, h, report, CompilerInputs));
  }

  lemma FilesWritten(env: Env, profile: Profile, c: ExecutionTopology, r: CompilerRequest)
    requires Canonical(c) == c
    ensures CarriesTopology(Artifacts(env, profile, c, r), c)
    ensures CarriesPolicies(Artifacts(env, profile, c, r), Sha(Bytes(TopologyDoc(c), 0)), r.spec.policies)
  {
    AllWritten(env, profile, c, r);
    TopologyFiles(env, profile, c, r, Canonical(c), TopologyHash(c), ReportOf(profile, c, r, true),
      Artifacts(env, profile, c, r));
    PolicyFiles(env, profile, c, r, Canonical(c), TopologyHash(c), ReportOf(profile, c, r, true),
      Artifacts(env, profile, c, r));
  }

  lemma TopologyWritten(env: Env, profile: Profile, c: ExecutionTopology, r: CompilerRequest)
    requires Canonical(c) == c && c.caseSpaceId == r.spec.caseSpaceId
    ensures SaysTopology(BundleOf(env, profile, c, r), c) && SaysPolicies(BundleOf(env, profile, c, r), r.spec.policies)
  {
    FilesWritten(env, profile, c, r);
  }

  lemma DeploymentWritten(env: Env, profile: Profile, c: ExecutionTopology, r: CompilerRequest)
    ensures SaysDeployment(env, BundleOf(env, profile, c, r), c, r.spec.policies.verification)
  {
    AllWritten(env, profile, c, r);
    CaseFiles(env, profile, c, r, Canonical(c), TopologyHash(c), ReportOf(profile, c, r, true),
      Artifacts(env, profile, c, r));
    ReportFiles(env, profile, c, r, Canonical(c), TopologyHash(c), ReportOf(profile, c, r, true),
      Artifacts(env, profile, c, r));
  }

  lemma PlanWritten(env: Env, profile: Profile, c: ExecutionTopology, r: CompilerRequest)
    requires NodeIdsUnique(c.nodes) && MappingsOk(c.nodes, r.spec.mappings)
    ensures SaysPlan(BundleOf(env, profile, c, r), c, r.spec)
  {
    AllWritten(env, profile, c, r);
    PlanFiles(env, profile, c, r, Canonical(c), TopologyHash(c), ReportOf(profile, c, r, true),
      Artifacts(env, profile, c, r));
    OneStepPerNode(profile, c, r);
    assert IsPlan(BundleOf(env, profile, c, r), c, r.spec, PlanOf(profile, c, r));
  }

  lemma RequestWritten(env: Env, profile: Profile, c: ExecutionTopology, r: CompilerRequest)
    requires BindingOk(profile, c, r)
    ensures SaysRequest(BundleOf(env, profile, c, r), profile, r)
    ensures SaysInputs(BundleOf(env, profile, c, r), profile, r)
  {
    AllWritten(env, profile, c, r);
    PlanFiles(env, profile, c, r, Canonical(c), TopologyHash(c), ReportOf(profile, c, r, true),
      Artifacts(env, profile, c, r));
    RestoredInputs(env, profile, c, r);
    assert SortedSpec(r.spec) == r.spec.(mappings := SortBy(r.spec.mappings, MappingLeq));
  }

  lemma InventoryWritten(env: Env, profile: Profile, c: ExecutionTopology, r: CompilerRequest)
    ensures SaysInventory(env, BundleOf(env, profile, c, r))
  {
    var b := BundleOf(env, profile, c, r);
    RequiredDistinct();
    forall a | a in b.artifacts ensures Entry(a.path, a.hash, env.length(a.bytes)) in b.manifest.entries {
      var i :| 0 <= i < |b.artifacts| && b.artifacts[i] == a;
      assert b.manifest.entries[i] == Entry(a.path, a.hash, env.length(a.bytes));
    }
    forall e | e in b.manifest.entries ensures HasPath(b.artifacts, e.path) {
      var i :| 0 <= i < |b.manifest.entries| && b.manifest.entries[i] == e;
      assert b.artifacts[i] in b.artifacts && b.artifacts[i].path == e.path;
    }
  }

  // ---------------------------------------------------- in any order of the artifacts

  /** The same manifest and the same files, in some order. */
  ghost predicate SameFilesListed(b: Bundle, o: Bundle) {
    && b.manifest == o.manifest && b.manifestBytes == o.manifestBytes && b.manifestHash == o.manifestHash
    && |b.artifacts| == |o.artifacts| && forall a :: a in b.artifacts <==> a in o.artifacts
  }

  lemma PlanForgets(b: Bundle, o: Bundle, c: ExecutionTopology, spec: Spec)
    requires SameFilesListed(b, o) && SaysPlan(o, c, spec)
    ensures SaysPlan(b, c, spec)
  {
    var plan :| Carries(o.artifacts, ExecutionPlan, PlanDoc(plan)) && IsPlan(o, c, spec, plan);
    assert Carries(b.artifacts, ExecutionPlan, PlanDoc(plan)) && IsPlan(b, c, spec, plan);
  }

  lemma InputsForget(b: Bundle, o: Bundle, profile: Profile, r: CompilerRequest)
    requires SameFilesListed(b, o) && SaysInputs(o, profile, r)
    ensures SaysInputs(b, profile, r)
  {
    var d, mappings :| Carries(o.artifacts, CompilerInputs, d) && multiset(mappings) == multiset(r.spec.mappings) &&
      Restored(d) == Some((profile, CompilerRequest(r.mode, r.spec.(mappings := mappings))));
    assert Carries(b.artifacts, CompilerInputs, d);
  }

  lemma InventoryForgets(env: Env, b: Bundle, o: Bundle)
    requires SameFilesListed(b, o) && SaysInventory(env, o)
    ensures SaysInventory(env, b)
  {
    forall e | e in b.manifest.entries ensures HasPath(b.artifacts, e.path) {
      assert HasPath(o.artifacts, e.path);
    }
  }

  lemma SaysForgetsOrder(env: Env, b: Bundle, o: Bundle, profile: Profile, c: ExecutionTopology, r: CompilerRequest)
    requires SameFilesListed(b, o) && Says(env, o, profile, c, r)
    ensures Says(env, b, profile, c, r)
  {
    PlanForgets(b, o, c, r.spec);
    InputsForget(b, o, profile, r);
    InventoryForgets(env, b, o);
  }

  lemma BundleSays(env: Env, profile: Profile, c: ExecutionTopology, r: CompilerRequest)
    requires Canonical(c) == c && c.caseSpaceId == r.spec.caseSpaceId && NodeIdsUnique(c.nodes)
    requires MappingsOk(c.nodes, r.spec.mappings) && BindingOk(profile, c, r)
    ensures Says(env, BundleOf(env, profile, c, r), profile, c, r)
  {
    TopologyWritten(env, profile, c, r);
    DeploymentWritten(env, profile, c, r);
    PlanWritten(env, profile, c, r);
    RequestWritten(env, profile, c, r);
    InventoryWritten(env, profile, c, r);
  }

  /** Every compiled bundle, in any order of its artifacts, says what it was compiled from. */
  lemma CompiledSays(env: Env, profile: Profile, t: ExecutionTopology, r: CompilerRequest, b: Bundle)
    requires Compile(env, profile, t, r).Some? && SameBundle(b, Compile(env, profile, t, r).value)
    ensures Says(env, b, profile, Canonical(t), r)
  {
    var c := Canonical(t);
    CanonicalIdempotent(t);
    BundleSays(env, profile, c, r);
    SameMultiset(b.artifacts, BundleOf(env, profile, c, r).artifacts);
    SaysForgetsOrder(env, b, BundleOf(env, profile, c, r), profile, c, r);
  }

  /** So does every verified bundle, for the topology and the request it carries. */
  lemma VerifiedSays(env: Env, b: Bundle, expected: Digest)
    requires Verify(env, b, expected).Some?
    ensures RequestIn(b).Some?
    ensures Says(env, b, RequestIn(b).value.0, Verify(env, b, expected).value, RequestIn(b).value.1)
  {
    VerifiedIsOutput(env, b, expected);
    VerifiedIsLintClean(env, b, expected);
    CompiledSays(env, RequestIn(b).value.0, TopologyIn(b).value, RequestIn(b).value.1, b);
  }

  lemma OneFilePerPath(b: Bundle, path: Path, d: Document, e: Document)
    requires NoRepeats(Ids(b.artifacts, ArtifactPath)) && Carries(b.artifacts, path, d) && Carries(b.artifacts, path, e)
    ensures d == e
  {
    var i :| 0 <= i < |b.artifacts| && b.artifacts[i] == Artifact(path, Sha(Bytes(d, 0)), Bytes(d, 0));
    var j :| 0 <= j < |b.artifacts| && b.artifacts[j] == Artifact(path, Sha(Bytes(e, 0)), Bytes(e, 0));
    assert Ids(b.artifacts, ArtifactPath)[i] == Ids(b.artifacts, ArtifactPath)[j];
  }

  /** The review of a verified bundle is bound to the policies that its files hold: hashing them
      with the manifest's topology gives the hash that the review accepted. */
  lemma ReviewedPoliciesAreFiled(env: Env, b: Bundle, expected: Digest, p: Policies)
    requires Verify(env, b, expected).Some? && RequestIn(b).Some? && RequestIn(b).value.1.mode.Reviewed?
    requires CarriesPolicies(b.artifacts, b.manifest.topologyHash, p)
    ensures RequestIn(b).value.1.mode.binding.policyManifestHash ==
      Sha(Bytes(PolicyManifestDoc(b.manifest.topologyId, b.manifest.topologyHash, p), 0))
  {
    VerifiedSays(env, b, expected);
    VerifiedFacts(env, b, expected);
    VerifiedReviewIsBound(env, b, expected);
    SamePolicies(b, p, RequestIn(b).value.1.spec.policies);
  }

  lemma SamePolicies(b: Bundle, p: Policies, q: Policies)
    requires NoRepeats(Ids(b.artifacts, ArtifactPath)) && CarriesPolicies(b.artifacts, b.manifest.topologyHash, p)
    requires CarriesPolicies(b.artifacts, b.manifest.topologyHash, q)
    ensures p == q
  {
    var h := b.manifest.topologyHash;
    OneFilePerPath(b, VerificationPolicies, PoliciesDoc(Verification, h, p.verification),
      PoliciesDoc(Verification, h, q.verification));
    OneFilePerPath(b, BudgetPolicies, PoliciesDoc(Budget, h, p.budget), PoliciesDoc(Budget, h, q.budget));
    OneFilePerPath(b, ExpansionPolicies, PoliciesDoc(Expansion, h, p.expansion),
      PoliciesDoc(Expansion, h, q.expansion));
  }

  // ------------------------------------------------------------- what is compiled at all

  /** The documents of one kind are exactly the ones the topology names, once each, and pass. */
  ghost predicate DocumentsFit(env: Env, kind: PolicyKind, ids: seq<string>, documents: map<string, Json>) {
    && (forall i, j :: 0 <= i < j < |ids| ==> ids[i] != ids[j])
    && (forall id :: id in documents <==> id in ids)
    && (forall id :: id in documents ==> env.policyOk(kind, id, documents[id]))
  }

  /** Every node has exactly one mapping, every mapping a node, and each is filled in. */
  ghost predicate MappingsFit(nodes: seq<TopologyNode>, mappings: seq<Mapping>) {
    && (forall i, j :: 0 <= i < j < |mappings| ==> mappings[i].nodeId != mappings[j].nodeId)
    && (forall n :: n in nodes ==> MapsNode(mappings, n.nodeId))
    && (forall m :: m in mappings ==>
         HasNode(nodes, m.nodeId) && Filled(m.workerBindingId) && |m.evidence| > 0 && |m.transitions| > 0)
  }

  predicate MapsNode(mappings: seq<Mapping>, id: string) {
    exists i :: 0 <= i < |mappings| && mappings[i].nodeId == id
  }

  predicate HasNode(nodes: seq<TopologyNode>, id: string) {
    exists i :: 0 <= i < |nodes| && nodes[i].nodeId == id
  }

  /** A review names this topology, case space, revision, compiler and these policies. */
  predicate ReviewFits(profile: Profile, c: ExecutionTopology, r: CompilerRequest) {
    r.mode.Reviewed? ==>
      var review, h := r.mode.binding, Sha(Bytes(TopologyDoc(Canonical(c)), 0));
      && review.topologyHash == h
      && review.caseSpaceId == r.spec.caseSpaceId && review.baseRevisionId == r.spec.baseRevisionId
      && review.policyManifestHash == Sha(Bytes(PolicyManifestDoc(c.topologyId, h, r.spec.policies), 0))
      && review.compiler.version == Version(profile) && review.compiler.semantics == Semantics(profile)
      && review.compiler.inputsSchema == InputsSchema(profile)
      && review.compiler.contracts ==
           (if profile == V0 then LegacyContracts else Sha(Bytes(ContractsDoc(Current), 0)))
  }

  lemma MappingsMeaning(nodes: seq<TopologyNode>, mappings: seq<Mapping>)
    ensures MappingsOk(nodes, mappings) <==> MappingsFit(nodes, mappings)
  {
    var mapped, named := Ids(mappings, MappedId), Ids(nodes, NodeId);
    forall id ensures id in SetOf(mapped) <==> MapsNode(mappings, id) { MapsNodeMeaning(mappings, id); }
    forall id ensures id in SetOf(named) <==> HasNode(nodes, id) { HasNodeMeaning(nodes, id); }
    if MappingsOk(nodes, mappings) {
      forall n | n in nodes ensures MapsNode(mappings, n.nodeId) { assert HasNode(nodes, n.nodeId); }
    }
    if MappingsFit(nodes, mappings) {
      forall id ensures id in SetOf(mapped) <==> id in SetOf(named) {
        if MapsNode(mappings, id) {
          var i :| 0 <= i < |mappings| && mappings[i].nodeId == id;
          assert mappings[i] in mappings;
        }
        if HasNode(nodes, id) {
          var i :| 0 <= i < |nodes| && nodes[i].nodeId == id;
          assert nodes[i] in nodes;
        }
      }
      assert forall i :: 0 <= i < |mappings| ==> mappings[i] in mappings;
    }
  }

  lemma MapsNodeMeaning(mappings: seq<Mapping>, id: string)
    ensures id in SetOf(Ids(mappings, MappedId)) <==> MapsNode(mappings, id)
  {
    var ids := Ids(mappings, MappedId);
    assert forall i :: 0 <= i < |mappings| ==> ids[i] == mappings[i].nodeId;
  }

  lemma HasNodeMeaning(nodes: seq<TopologyNode>, id: string)
    ensures id in SetOf(Ids(nodes, NodeId)) <==> HasNode(nodes, id)
  {
    var ids := Ids(nodes, NodeId);
    assert forall i :: 0 <= i < |nodes| ==> ids[i] == nodes[i].nodeId;
  }

  lemma DocumentsMeaning(env: Env, kind: PolicyKind, ids: seq<string>, documents: map<string, Json>)
    ensures PoliciesMatch(env, kind, ids, documents) <==> DocumentsFit(env, kind, ids, documents)
  {
    assert forall id :: id in documents.Keys <==> id in documents;
    assert (forall id :: id in documents <==> id in ids) <==> documents.Keys == SetOf(ids);
  }

  lemma ReviewMeaning(profile: Profile, c: ExecutionTopology, r: CompilerRequest)
    ensures BindingOk(profile, c, r) <==> ReviewFits(profile, c, r)
  {
  }

  /** A request is compiled exactly when the canonical topology has no deterministic error and
      passes the policy lints, the request is for its case space and filled in, a review fits, the
      policy documents and the mappings fit, and the plan passes its validator. */
  lemma CompiledIff(env: Env, profile: Profile, t: ExecutionTopology, r: CompilerRequest)
    ensures var c := Canonical(t);
      Compile(env, profile, t, r).Some? <==>
        && GraphSimulation.LintClean(c) && env.policyLints(c, r.spec.policies.verification)
        && c.caseSpaceId == r.spec.caseSpaceId
        && Filled(r.spec.caseSpaceId) && Filled(r.spec.baseRevisionId) && Filled(r.spec.planId)
        && ReviewFits(profile, c, r)
        && DocumentsFit(env, Verification, c.verificationPolicyIds, r.spec.policies.verification)
        && DocumentsFit(env, Budget, c.budgetPolicyIds, r.spec.policies.budget)
        && DocumentsFit(env, Expansion, c.expansionPolicyIds, r.spec.policies.expansion)
        && MappingsFit(c.nodes, r.spec.mappings) && env.planOk(PlanOf(profile, c, r))
  {
    var c, p := Canonical(t), r.spec.policies;
    ReviewMeaning(profile, c, r);
    DocumentsMeaning(env, Verification, c.verificationPolicyIds, p.verification);
    DocumentsMeaning(env, Budget, c.budgetPolicyIds, p.budget);
    DocumentsMeaning(env, Expansion, c.expansionPolicyIds, p.expansion);
    MappingsMeaning(c.nodes, r.spec.mappings);
  }
}
