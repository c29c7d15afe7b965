/** Compiling and verifying agree: a bundle is accepted exactly when it is compiler output. */
module CompilerProofs {
  import opened Machine
  import opened Orders
  import opened Topology
  import opened CanonicalForm
  import opened Patch
  import opened Compiler

  // --------------------------------------------------------- what profile 0 forgets

  /** Restoring the mode that profile 0 retained is exact precisely because compilation
      forces the reviewed identity to be the one profile 0 stands for. */
  lemma RetainedModeExact(m: Mode)
    ensures RestoreMode(RetainMode(m)) == m <==> (m.Reviewed? ==> m.binding.compiler == IdentityFor(V0))
  {
  }

  lemma RestoredInputs(env: Env, profile: Profile, c: ExecutionTopology, r: CompilerRequest)
    requires BindingOk(profile, c, r)
    ensures Restored(InputsOf(profile, r)) == Some((profile, CompilerRequest(r.mode, SortedSpec(r.spec))))
  {
    if profile == V0 { RetainedModeExact(r.mode); }
  }

  // -------------------------------------------------------------- order of mappings

  lemma IndexForgetsOrder<T, K>(s: seq<T>, t: seq<T>, id: T -> K)
    requires NoRepeats(Ids(s, id)) && multiset(s) == multiset(t)
    ensures Index(s, id) == Index(t, id) && NoRepeats(Ids(t, id))
  {
    MultisetOfIds(s, t, id);
    NoRepeatsIsMultiset(Ids(s, id), Ids(t, id));
    SameMultiset(s, t);
    forall k | k in Index(s, id) ensures k in Index(t, id) && Index(t, id)[k] == Index(s, id)[k] {
      FoundAgain(s, t, id, k);
    }
    forall k | k in Index(t, id) ensures k in Index(s, id) { FoundAgain(t, s, id, k); }
    assert Index(s, id).Keys == Index(t, id).Keys;
  }

  lemma FoundAgain<T, K>(s: seq<T>, t: seq<T>, id: T -> K, k: K)
    requires NoRepeats(Ids(t, id)) && (forall x :: x in s <==> x in t) && k in Index(s, id)
    ensures k in Index(t, id) && Index(t, id)[k] == Index(s, id)[k]
  {
    var x := Index(s, id)[k];
    var j :| 0 <= j < |t| && t[j] == x;
    IndexFinds(t, id, j);
  }

  /** Two requests that list the same mappings, in any order. */
  ghost predicate SameRequest(r: CompilerRequest, q: CompilerRequest) {
    r.mode == q.mode && r.spec == q.spec.(mappings := r.spec.mappings) &&
      multiset(r.spec.mappings) == multiset(q.spec.mappings)
  }

  lemma StillComplete(s: seq<Mapping>, t: seq<Mapping>)
    requires multiset(s) == multiset(t) && forall i :: 0 <= i < |s| ==> Complete(s[i])
    ensures forall i :: 0 <= i < |t| ==> Complete(t[i])
  {
    SameMultiset(s, t);
    forall i | 0 <= i < |t| ensures Complete(t[i]) {
      assert t[i] in s;
    }
  }

  lemma MappingsForgetOrder(nodes: seq<TopologyNode>, s: seq<Mapping>, t: seq<Mapping>)
    requires MappingsOk(nodes, s) && multiset(s) == multiset(t)
    ensures MappingsOk(nodes, t) && Index(s, MappedId) == Index(t, MappedId) &&
      SortBy(s, MappingLeq) == SortBy(t, MappingLeq)
  {
    IndexForgetsOrder(s, t, MappedId);
    assert SetOf(Ids(t, MappedId)) == SetOf(Ids(s, MappedId)) by {
      IndexKeys(s, MappedId);
      IndexKeys(t, MappedId);
    }
    StillComplete(s, t);
    SortedAlike(s, t, MappedId, MappingLeq);
  }

  lemma PlanForgetsOrder(profile: Profile, c: ExecutionTopology, r: CompilerRequest, q: CompilerRequest)
    requires SameRequest(r, q) && MappingsOk(c.nodes, r.spec.mappings)
    ensures PlanOf(profile, c, r) == PlanOf(profile, c, q) && InputsOf(profile, r) == InputsOf(profile, q)
  {
    MappingsForgetOrder(c.nodes, r.spec.mappings, q.spec.mappings);
    PlanFromIndex(profile, c, r, q);
    InputsFromSorted(profile, r, q);
  }

  lemma PlanFromIndex(profile: Profile, c: ExecutionTopology, r: CompilerRequest, q: CompilerRequest)
    requires r.spec == q.spec.(mappings := r.spec.mappings) &&
      Index(r.spec.mappings, MappedId) == Index(q.spec.mappings, MappedId)
    ensures PlanOf(profile, c, r) == PlanOf(profile, c, q)
  {
  }

  lemma InputsFromSorted(profile: Profile, r: CompilerRequest, q: CompilerRequest)
    requires r.mode == q.mode && r.spec == q.spec.(mappings := r.spec.mappings)
    requires SortBy(r.spec.mappings, MappingLeq) == SortBy(q.spec.mappings, MappingLeq)
    ensures InputsOf(profile, r) == InputsOf(profile, q)
  {
    assert SortedSpec(r.spec) == SortedSpec(q.spec);
  }

  lemma DocumentForgetsOrder(env: Env, profile: Profile, c: ExecutionTopology, r: CompilerRequest,
      q: CompilerRequest, path: Path)
    requires SameRequest(r, q) && PlanOf(profile, c, r) == PlanOf(profile, c, q) &&
      InputsOf(profile, r) == InputsOf(profile, q)
    ensures DocumentAt(env, profile, c, r, path) == DocumentAt(env, profile, c, q, path)
  {
  }

  lemma ArtifactsForgetOrder(env: Env, profile: Profile, c: ExecutionTopology, r: CompilerRequest, q: CompilerRequest)
    requires SameRequest(r, q) && PlanOf(profile, c, r) == PlanOf(profile, c, q) &&
      InputsOf(profile, r) == InputsOf(profile, q)
    ensures Artifacts(env, profile, c, r) == Artifacts(env, profile, c, q)
  {
    var a, b := Artifacts(env, profile, c, r), Artifacts(env, profile, c, q);
    forall i | 0 <= i < |REQUIRED| ensures a[i] == b[i] { DocumentForgetsOrder(env, profile, c, r, q, REQUIRED[i]); }
  }

  lemma BundleForgetsOrder(env: Env, profile: Profile, c: ExecutionTopology, r: CompilerRequest, q: CompilerRequest)
    requires SameRequest(r, q) && MappingsOk(c.nodes, r.spec.mappings)
    ensures BundleOf(env, profile, c, r) == BundleOf(env, profile, c, q)
  {
    PlanForgetsOrder(profile, c, r, q);
    ArtifactsForgetOrder(env, profile, c, r, q);
  }

  lemma CompilableForgetsOrder(env: Env, profile: Profile, c: ExecutionTopology, r: CompilerRequest, q: CompilerRequest)
    requires SameRequest(r, q) && Compilable(env, profile, c, r)
    ensures Compilable(env, profile, c, q)
  {
    MappingsForgetOrder(c.nodes, r.spec.mappings, q.spec.mappings);
    PlanForgetsOrder(profile, c, r, q);
  }

  lemma SameRequestSymmetric(r: CompilerRequest, q: CompilerRequest)
    requires SameRequest(r, q)
    ensures SameRequest(q, r)
  {
  }

  /** Permuting nodes, edges, ports, claims, scopes, policy ids or plan mappings changes
      nothing: the same refusal or the identical bundle. */
  lemma CompileForgetsOrder(env: Env, profile: Profile, t: ExecutionTopology, u: ExecutionTopology,
      r: CompilerRequest, q: CompilerRequest)
    requires TiesHarmless(t) && SameUpToOrder(t, u) && SameRequest(r, q)
    ensures Compile(env, profile, t, r) == Compile(env, profile, u, q)
  {
    CanonicalIffSameUpToOrder(t, u);
    var c := Canonical(t);
    if Compilable(env, profile, c, r) {
      CompilableForgetsOrder(env, profile, c, r, q);
      BundleForgetsOrder(env, profile, c, r, q);
    } else if Compilable(env, profile, c, q) {
      SameRequestSymmetric(r, q);
      CompilableForgetsOrder(env, profile, c, q, r);
      assert false;
    }
  }

  // ------------------------------------------------------------------ the plan

  /** The step joins one node with the mapping given for it. */
  ghost predicate IsStepOf(nodes: seq<TopologyNode>, mappings: seq<Mapping>, step: Step) {
    exists n, m ::
      && n in nodes && m in mappings && n.nodeId == m.nodeId
      && step == Step(n.nodeId, n.workCellId, m.workerBindingId, m.evidence, m.transitions)
  }

  lemma StepCarriesMapping(profile: Profile, c: ExecutionTopology, r: CompilerRequest, i: nat)
    requires MappingsOk(c.nodes, r.spec.mappings) && i < |PlanOf(profile, c, r).steps|
    ensures IsStepOf(c.nodes, r.spec.mappings, PlanOf(profile, c, r).steps[i])
  {
    var nodes := SortBy(c.nodes, NodeLeq);
    SameMultiset(c.nodes, nodes);
    var n := nodes[i];
    assert n in c.nodes;
    MappingFound(c.nodes, r.spec.mappings, n);
    var m := Index(r.spec.mappings, MappedId)[n.nodeId];
    assert MappedId(m) == n.nodeId;
    assert PlanOf(profile, c, r).steps[i] == StepFor(n, Index(r.spec.mappings, MappedId));
  }

  function StepId(s: Step): string { s.stepId }

  lemma StepIds(profile: Profile, c: ExecutionTopology, r: CompilerRequest)
    requires NodeIdsUnique(c.nodes)
    ensures Ids(PlanOf(profile, c, r).steps, StepId) == Ordered(SetOf(Ids(c.nodes, NodeId)))
  {
    var nodes, steps := SortBy(c.nodes, NodeLeq), PlanOf(profile, c, r).steps;
    assert NoRepeats(Ids(c.nodes, NodeId));
    SortedIds(c.nodes, NodeId, NodeLeq);
    assert Ids(steps, StepId) == Ids(nodes, NodeId);
  }

  /** Exactly one step per node: the step ids are the node ids in strictly increasing
      order, and each step carries the one mapping given for its node. */
  lemma OneStepPerNode(profile: Profile, c: ExecutionTopology, r: CompilerRequest)
    requires NodeIdsUnique(c.nodes) && MappingsOk(c.nodes, r.spec.mappings)
    ensures var steps := PlanOf(profile, c, r).steps;
      && |steps| == |c.nodes| == |r.spec.mappings|
      && Increasing(Ids(steps, StepId)) && (forall id :: id in Ids(steps, StepId) <==> id in Ids(c.nodes, NodeId))
      && (forall i :: 0 <= i < |steps| ==> IsStepOf(c.nodes, r.spec.mappings, steps[i]))
  {
    var steps := PlanOf(profile, c, r).steps;
    StepIds(profile, c, r);
    OrderedIncreases(SetOf(Ids(c.nodes, NodeId)));
    SameMultiset(c.nodes, SortBy(c.nodes, NodeLeq));
    forall i | 0 <= i < |steps| ensures IsStepOf(c.nodes, r.spec.mappings, steps[i]) {
      StepCarriesMapping(profile, c, r, i);
    }
    MappingCount(c.nodes, r.spec.mappings);
  }

  lemma MappingFound(nodes: seq<TopologyNode>, mappings: seq<Mapping>, n: TopologyNode)
    requires MappingsOk(nodes, mappings) && n in nodes
    ensures n.nodeId in Index(mappings, MappedId)
  {
    IndexKeys(mappings, MappedId);
    var i :| 0 <= i < |nodes| && nodes[i] == n;
    assert Ids(nodes, NodeId)[i] in SetOf(Ids(nodes, NodeId));
  }

  lemma {:induction false} DistinctCount(s: seq<string>)
    requires NoRepeats(s)
    ensures |SetOf(s)| == |s|
  {
    if s != [] {
      DistinctCount(s[1..]);
      assert s == [s[0]] + s[1..];
      assert SetOf(s) == SetOf(s[1..]) + {s[0]};
    }
  }

  lemma MappingCount(nodes: seq<TopologyNode>, mappings: seq<Mapping>)
    requires MappingsOk(nodes, mappings) && NodeIdsUnique(nodes)
    ensures |nodes| == |mappings|
  {
    assert NoRepeats(Ids(nodes, NodeId));
    DistinctCount(Ids(nodes, NodeId));
    DistinctCount(Ids(mappings, MappedId));
  }

  // ----------------------------------------------------------- compile, then verify

  /** The same bundle with its artifacts listed in some order. */
  ghost predicate SameBundle(b: Bundle, c: Bundle) {
    && b.manifest == c.manifest && b.manifestBytes == c.manifestBytes && b.manifestHash == c.manifestHash
    && multiset(b.artifacts) == multiset(c.artifacts)
  }

  function Rank(p: Path): nat {
    match p
    case BudgetPolicies => 0 case CaseMapping => 1 case CompilerInputs => 2 case CompilerReport => 3
    case ExecutionPlan => 4 case TopologyFile => 5 case ExpansionPolicies => 6 case AnalysisReport => 7
    case ResourceManifest => 8 case RuntimeDeployment => 9 case TopologyHashFile => 10 case VerificationPolicies => 11
    case OtherPath(_) => 12
  }

  lemma RequiredDistinct()
    ensures NoRepeats(REQUIRED) && |REQUIRED| == 12 && REQUIRED[2] == CompilerInputs && REQUIRED[5] == TopologyFile
  {
    forall i, j | 0 <= i < j < |REQUIRED| ensures REQUIRED[i] != REQUIRED[j] {
      assert Rank(REQUIRED[i]) == i && Rank(REQUIRED[j]) == j;
    }
  }

  /** The compiler's own file list: the required paths, once each. */
  lemma OutputPaths(env: Env, profile: Profile, c: ExecutionTopology, r: CompilerRequest)
    ensures var artifacts := Artifacts(env, profile, c, r);
      && Ids(artifacts, ArtifactPath) == REQUIRED && NoRepeats(Ids(artifacts, ArtifactPath))
      && forall i :: 0 <= i < |artifacts| ==> artifacts[i].hash == Sha(artifacts[i].bytes)
  {
    RequiredDistinct();
    assert Ids(Artifacts(env, profile, c, r), ArtifactPath) == REQUIRED;
  }

  lemma OutputFiles(env: Env, profile: Profile, c: ExecutionTopology, r: CompilerRequest)
    ensures var files := ByPath(Artifacts(env, profile, c, r));
      && TopologyFile in files && files[TopologyFile].bytes.document == TopologyDoc(Canonical(c))
      && CompilerInputs in files && files[CompilerInputs].bytes.document == InputsOf(profile, r)
  {
    var artifacts := Artifacts(env, profile, c, r);
    OutputPaths(env, profile, c, r);
    RequiredDistinct();
    IndexFinds(artifacts, ArtifactPath, 2);
    IndexFinds(artifacts, ArtifactPath, 5);
  }

  /** Listing the artifacts in another order leaves the path index as it was. */
  lemma SameIndex(b: Bundle, c: Bundle)
    requires SameBundle(b, c) && NoRepeats(Ids(c.artifacts, ArtifactPath))
    ensures ByPath(b.artifacts) == ByPath(c.artifacts) && NoRepeats(Ids(b.artifacts, ArtifactPath))
  {
    IndexForgetsOrder(c.artifacts, b.artifacts, ArtifactPath);
  }

  /** The manifest written by the compiler lists its artifacts. */
  lemma OutputInventory(env: Env, b: Bundle, artifacts: seq<Artifact>)
    requires b.manifest.entries == EntriesFor(env, artifacts) && NoRepeats(Ids(artifacts, ArtifactPath))
    requires ByPath(b.artifacts) == ByPath(artifacts) && NoRepeats(Ids(b.artifacts, ArtifactPath))
    requires Ids(artifacts, ArtifactPath) == REQUIRED
    ensures InventoryOk(b)
  {
    EntriesNameArtifacts(env, artifacts);
    AllListed(REQUIRED, artifacts);
  }

  lemma EntriesNameArtifacts(env: Env, artifacts: seq<Artifact>)
    ensures Ids(EntriesFor(env, artifacts), EntryPath) == Ids(artifacts, ArtifactPath)
    ensures Index(EntriesFor(env, artifacts), EntryPath).Keys == ByPath(artifacts).Keys
  {
    var entries := EntriesFor(env, artifacts);
    assert Ids(entries, EntryPath) == Ids(artifacts, ArtifactPath);
    IndexKeys(entries, EntryPath);
    IndexKeys(artifacts, ArtifactPath);
  }

  lemma AllListed(paths: seq<Path>, artifacts: seq<Artifact>)
    requires Ids(artifacts, ArtifactPath) == paths
    ensures forall i :: 0 <= i < |paths| ==> paths[i] in ByPath(artifacts)
  {
    IndexKeys(artifacts, ArtifactPath);
    assert forall i :: 0 <= i < |paths| ==> paths[i] in SetOf(paths);
  }

  /** And its entries agree with them. */
  lemma OutputContents(env: Env, b: Bundle, artifacts: seq<Artifact>)
    requires b.manifest.entries == EntriesFor(env, artifacts) && NoRepeats(Ids(artifacts, ArtifactPath))
    requires forall i :: 0 <= i < |artifacts| ==> artifacts[i].hash == Sha(artifacts[i].bytes)
    requires ByPath(b.artifacts) == ByPath(artifacts)
    ensures ContentsOk(env, b)
  {
    forall p | p in ByPath(artifacts)
      ensures ByPath(artifacts)[p].hash == Sha(ByPath(artifacts)[p].bytes)
      ensures p in Index(b.manifest.entries, EntryPath)
      ensures Index(b.manifest.entries, EntryPath)[p] ==
        Entry(p, ByPath(artifacts)[p].hash, env.length(ByPath(artifacts)[p].bytes))
    {
      EntryMatches(env, artifacts, p);
    }
  }

  lemma EntryMatches(env: Env, artifacts: seq<Artifact>, p: Path)
    requires NoRepeats(Ids(artifacts, ArtifactPath)) && p in ByPath(artifacts)
    requires forall i :: 0 <= i < |artifacts| ==> artifacts[i].hash == Sha(artifacts[i].bytes)
    ensures var entries := Index(EntriesFor(env, artifacts), EntryPath); var a := ByPath(artifacts)[p];
      a.hash == Sha(a.bytes) && p in entries && entries[p] == Entry(p, a.hash, env.length(a.bytes))
  {
    var a, entries := ByPath(artifacts)[p], EntriesFor(env, artifacts);
    var i :| 0 <= i < |artifacts| && artifacts[i] == a;
    assert Ids(entries, EntryPath) == Ids(artifacts, ArtifactPath);
    IndexFinds(entries, EntryPath, i);
  }

  /** Recompiling from what the bundle retains reproduces the bundle. */
  lemma Recompiles(env: Env, profile: Profile, c: ExecutionTopology, r: CompilerRequest)
    requires Canonical(c) == c && Compilable(env, profile, c, r)
    ensures Compile(env, profile, c, CompilerRequest(r.mode, SortedSpec(r.spec))) == Some(BundleOf(env, profile, c, r))
  {
    var q := CompilerRequest(r.mode, SortedSpec(r.spec));
    assert SameRequest(r, q);
    CompilableForgetsOrder(env, profile, c, r, q);
    BundleForgetsOrder(env, profile, c, r, q);
  }

  lemma OutputTopology(env: Env, profile: Profile, c: ExecutionTopology, r: CompilerRequest, b: Bundle)
    requires Canonical(c) == c && Compilable(env, profile, c, r)
    requires b.manifest == BundleOf(env, profile, c, r).manifest &&
      ByPath(b.artifacts) == ByPath(Artifacts(env, profile, c, r))
    ensures TopologyIn(b) == Some(c)
    ensures RequestIn(b) == Some((profile, CompilerRequest(r.mode, SortedSpec(r.spec))))
  {
    OutputFiles(env, profile, c, r);
    RestoredInputs(env, profile, c, r);
  }

  lemma OutputEnvelopeOk(env: Env, profile: Profile, c: ExecutionTopology, r: CompilerRequest, b: Bundle)
    requires SameBundle(b, BundleOf(env, profile, c, r))
    ensures EnvelopeOk(env, b, b.manifestHash) && ByPath(b.artifacts) == ByPath(Artifacts(env, profile, c, r))
  {
    OutputPaths(env, profile, c, r);
    SameIndex(b, BundleOf(env, profile, c, r));
    OutputInventory(env, b, Artifacts(env, profile, c, r));
    OutputContents(env, b, Artifacts(env, profile, c, r));
  }

  lemma AcceptsReproduced(env: Env, b: Bundle, profile: Profile, c: ExecutionTopology, q: CompilerRequest, out: Bundle)
    requires EnvelopeOk(env, b, b.manifestHash) && TopologyIn(b) == Some(c) && RequestIn(b) == Some((profile, q))
    requires Compile(env, profile, c, q) == Some(out) && Matches(b, out)
    ensures Verify(env, b, b.manifestHash) == Some(c)
  {
  }

  lemma VerifiesOutput(env: Env, profile: Profile, c: ExecutionTopology, r: CompilerRequest, b: Bundle)
    requires Canonical(c) == c && Compilable(env, profile, c, r) && SameBundle(b, BundleOf(env, profile, c, r))
    ensures Verify(env, b, b.manifestHash) == Some(c)
  {
    OutputEnvelopeOk(env, profile, c, r, b);
    OutputTopology(env, profile, c, r, b);
    Recompiles(env, profile, c, r);
    AcceptsReproduced(env, b, profile, c, CompilerRequest(r.mode, SortedSpec(r.spec)), BundleOf(env, profile, c, r));
  }

  /** Every compiled bundle is accepted, under either profile and whatever the order in
      which its artifacts are handed over; the verified topology is the canonical one. */
  lemma CompileThenVerify(env: Env, profile: Profile, t: ExecutionTopology, r: CompilerRequest, b: Bundle)
    requires Compile(env, profile, t, r).Some? && SameBundle(b, Compile(env, profile, t, r).value)
    ensures Verify(env, b, b.manifestHash) == Some(Canonical(t))
  {
    CanonicalIdempotent(t);
    VerifiesOutput(env, profile, Canonical(t), r, b);
  }

  // ------------------------------------------------------- accepted means compiled

  lemma SameFiles(s: seq<Artifact>, t: seq<Artifact>)
    requires NoRepeats(Ids(s, ArtifactPath)) && NoRepeats(Ids(t, ArtifactPath)) && ByPath(s) == ByPath(t)
    ensures multiset(s) == multiset(t)
  {
    forall a ensures multiset(s)[a] == multiset(t)[a] {
      ListedOnce(s, a);
      ListedOnce(t, a);
    }
  }

  lemma ListedOnce(s: seq<Artifact>, a: Artifact)
    requires NoRepeats(Ids(s, ArtifactPath))
    ensures multiset(s)[a] == if a.path in ByPath(s) && ByPath(s)[a.path] == a then 1 else 0
  {
    forall i, j | 0 <= i < j < |s| ensures s[i] != s[j] {
      assert Ids(s, ArtifactPath)[i] != Ids(s, ArtifactPath)[j];
    }
    CountOnce(s, a);
    assert a in s <==> a in multiset(s);
    if a in s {
      var i :| 0 <= i < |s| && s[i] == a;
      IndexFinds(s, ArtifactPath, i);
    }
  }

  /** A verified bundle is what its own topology and request compile to. */
  lemma VerifiedIsOutput(env: Env, b: Bundle, expected: Digest)
    requires Verify(env, b, expected).Some?
    ensures b.manifestHash == expected && TopologyIn(b).Some? && RequestIn(b).Some?
    ensures IsOutputOf(env, b, RequestIn(b).value.0, TopologyIn(b).value, RequestIn(b).value.1)
  {
    VerifiedFacts(env, b, expected);
    var t := TopologyIn(b).value;
    var (profile, r) := RequestIn(b).value;
    OutputPaths(env, profile, Canonical(t), r);
    SameFiles(b.artifacts, Compile(env, profile, t, r).value.artifacts);
  }

  /** The verifier accepts a bundle under a digest exactly when the digest is the
      bundle's own and the bundle is compiler output, up to the order of its artifacts. */
  lemma VerifiedIffCompiled(env: Env, b: Bundle, expected: Digest)
    ensures Verify(env, b, expected).Some? <==> b.manifestHash == expected && IsOutput(env, b)
  {
    if Verify(env, b, expected).Some? { VerifiedIsOutput(env, b, expected); }
    if IsOutput(env, b) {
      var profile, t, r :| IsOutputOf(env, b, profile, t, r);
      CompileThenVerify(env, profile, t, r, b);
    }
  }

  ghost predicate IsOutputOf(env: Env, b: Bundle, profile: Profile, t: ExecutionTopology, r: CompilerRequest) {
    Compile(env, profile, t, r).Some? && SameBundle(b, Compile(env, profile, t, r).value)
  }

  ghost predicate IsOutput(env: Env, b: Bundle) {
    exists profile, t, r :: IsOutputOf(env, b, profile, t, r)
  }

  /** The two bundles carry the same file at this path. */
  predicate SameFile(a: Bundle, b: Bundle, path: Path) {
    path in ByPath(a.artifacts) && path in ByPath(b.artifacts) &&
      ByPath(a.artifacts)[path].bytes == ByPath(b.artifacts)[path].bytes
  }

  lemma VerifiedFacts(env: Env, b: Bundle, expected: Digest)
    requires Verify(env, b, expected).Some?
    ensures TopologyIn(b).Some? && RequestIn(b).Some? && NoRepeats(Ids(b.artifacts, ArtifactPath)) &&
      b.manifestHash == expected
    ensures var out := Compile(env, RequestIn(b).value.0, TopologyIn(b).value, RequestIn(b).value.1);
      out.Some? && Matches(b, out.value)
  {
  }

  lemma SourcesAgree(a: Bundle, b: Bundle)
    requires TopologyIn(a).Some? && TopologyIn(b).Some? && RequestIn(a).Some? && RequestIn(b).Some?
    requires SameFile(a, b, TopologyFile) && SameFile(a, b, CompilerInputs)
    ensures TopologyIn(a) == TopologyIn(b) && RequestIn(a) == RequestIn(b)
  {
  }

  /** Two accepted bundles whose topology and compiler-input files agree are the same
      bundle: nothing else in them is free. */
  lemma VerifiedAgree(env: Env, a: Bundle, b: Bundle, x: Digest, y: Digest)
    requires Verify(env, a, x).Some? && Verify(env, b, y).Some?
    requires SameFile(a, b, TopologyFile) && SameFile(a, b, CompilerInputs)
    ensures SameBundle(a, b) && x == y
  {
    VerifiedFacts(env, a, x);
    VerifiedFacts(env, b, y);
    SourcesAgree(a, b);
    SameFiles(a.artifacts, b.artifacts);
  }

  /** A verified reviewed bundle carries exactly what the review accepted: topology,
      policies, case space, revision and compiler identity. */
  lemma VerifiedReviewIsBound(env: Env, b: Bundle, expected: Digest)
    requires Verify(env, b, expected).Some? && RequestIn(b).Some? && RequestIn(b).value.1.mode.Reviewed?
    ensures var (profile, r) := RequestIn(b).value; var review := r.mode.binding;
      && review.topologyHash == b.manifest.topologyHash && review.policyManifestHash == b.manifest.policyManifestHash
      && review.caseSpaceId == b.manifest.caseSpaceId && review.baseRevisionId == b.manifest.baseRevisionId
      && review.compiler == IdentityFor(profile) && b.manifest.version == Version(profile)
      && b.manifest.acceptedReview == Some(review.reviewId) && b.manifest.reviewedClaim == Some(review.claimCellId)
  {
    VerifiedFacts(env, b, expected);
    var t, r := TopologyIn(b).value, RequestIn(b).value.1;
    assert BindingOk(RequestIn(b).value.0, Canonical(t), r);
  }

  /** The topology of a verified bundle is in canonical form and free of deterministic lint
      errors: valid, acyclic, free of unsafe conflicts and budgeted. */
  lemma VerifiedIsLintClean(env: Env, b: Bundle, expected: Digest)
    requires Verify(env, b, expected).Some?
    ensures var t := Verify(env, b, expected).value; Canonical(t) == t && GraphSimulation.LintClean(t)
  {
    VerifiedFacts(env, b, expected);
    var t, r, profile := TopologyIn(b).value, RequestIn(b).value.1, RequestIn(b).value.0;
    OutputFiles(env, profile, Canonical(t), r);
    CanonicalIdempotent(t);
  }
}
