/** The compiler's loops: checking the plan mappings, and building the artifact list by
    pushing, replacing the report and sorting. */
module CompilerSteps {
  import opened Machine
  import opened Orders
  import opened Topology
  import opened CanonicalForm
  import opened Patch
  import opened Compiler
  import opened CompilerProofs
  import opened Bundles

  // ------------------------------------------------------------------ plan mappings

  /** The first `i` mappings name known nodes and are complete. */
  ghost predicate EachOk(ids: set<string>, mappings: seq<Mapping>, i: nat)
    requires i <= |mappings|
  {
    forall k :: 0 <= k < i ==> mappings[k].nodeId in ids && Complete(mappings[k])
  }

  lemma DistinctStep(mappings: seq<Mapping>, i: nat)
    requires i < |mappings|
    ensures NoRepeats(Ids(mappings[..i + 1], MappedId)) <==>
      NoRepeats(Ids(mappings[..i], MappedId)) && mappings[i].nodeId !in Index(mappings[..i], MappedId)
    ensures Index(mappings[..i + 1], MappedId) == Index(mappings[..i], MappedId)[mappings[i].nodeId := mappings[i]]
  {
    assert mappings[..i + 1][..i] == mappings[..i];
    assert Ids(mappings[..i + 1], MappedId) == Ids(mappings[..i], MappedId) + [mappings[i].nodeId];
    IndexKeys(mappings[..i], MappedId);
    AppendDistinct(Ids(mappings[..i], MappedId), mappings[i].nodeId);
  }

  /** Nothing was wrong with the first `i` mappings. */
  ghost predicate PrefixOk(ids: set<string>, mappings: seq<Mapping>, i: nat)
    requires i <= |mappings|
  {
    EachOk(ids, mappings, i) && NoRepeats(Ids(mappings[..i], MappedId))
  }

  lemma PrefixStep(ids: set<string>, mappings: seq<Mapping>, i: nat)
    requires i < |mappings|
    ensures PrefixOk(ids, mappings, i + 1) ==
      (PrefixOk(ids, mappings, i) && mappings[i].nodeId in ids &&
        mappings[i].nodeId !in Index(mappings[..i], MappedId) && Complete(mappings[i]))
    ensures Index(mappings[..i + 1], MappedId) == Index(mappings[..i], MappedId)[mappings[i].nodeId := mappings[i]]
  {
    DistinctStep(mappings, i);
    EachStep(ids, mappings, i);
  }

  lemma EachStep(ids: set<string>, mappings: seq<Mapping>, i: nat)
    requires i < |mappings|
    ensures EachOk(ids, mappings, i + 1) ==
      (EachOk(ids, mappings, i) && mappings[i].nodeId in ids && Complete(mappings[i]))
  {
  }

  lemma AppendDistinct(s: seq<string>, k: string)
    ensures NoRepeats(s + [k]) <==> NoRepeats(s) && k !in s
  {
    var t := s + [k];
    if NoRepeats(t) {
      assert forall i :: 0 <= i < |s| ==> t[i] == s[i] && t[i] != t[|s|];
    }
  }

  /** Source: `validate_plan_mappings`. */
  method ValidateMappings(nodes: seq<TopologyNode>, mappings: seq<Mapping>) returns (ok: bool,
      index: map<string, Mapping>)
    ensures ok <==> MappingsOk(nodes, mappings)
    ensures index == Index(mappings, MappedId)
  {
    var ids := SetOf(Ids(nodes, NodeId));
    ok, index := true, map[];
    for i := 0 to |mappings|
      invariant ok == PrefixOk(ids, mappings, i)
      invariant index == Index(mappings[..i], MappedId)
    {
      PrefixStep(ids, mappings, i);
      var m := mappings[i];
      if m.nodeId !in ids || m.nodeId in index || !Complete(m) { ok := false; }
      index := index[m.nodeId := m];
    }
    assert mappings[..|mappings|] == mappings;
    ChecksAreExact(nodes, mappings);
    if !(ids <= index.Keys) { ok := false; }
  }

  lemma ChecksAreExact(nodes: seq<TopologyNode>, mappings: seq<Mapping>)
    ensures var ids := SetOf(Ids(nodes, NodeId));
      MappingsOk(nodes, mappings) ==
      (EachOk(ids, mappings, |mappings|) && NoRepeats(Ids(mappings, MappedId)) && ids <= Index(mappings, MappedId).Keys)
  {
    var ids, names := SetOf(Ids(nodes, NodeId)), SetOf(Ids(mappings, MappedId));
    KeysAreIds(mappings);
    EachNamesNode(ids, mappings);
    SameSetIff(names, ids);
  }

  lemma SameSetIff(a: set<string>, b: set<string>)
    ensures a == b <==> a <= b && b <= a
  {
  }

  lemma KeysAreIds(mappings: seq<Mapping>)
    ensures Index(mappings, MappedId).Keys == SetOf(Ids(mappings, MappedId))
  {
    IndexKeys(mappings, MappedId);
  }

  lemma EachNamesNode(ids: set<string>, mappings: seq<Mapping>)
    ensures EachOk(ids, mappings, |mappings|) <==>
      SetOf(Ids(mappings, MappedId)) <= ids && forall k :: 0 <= k < |mappings| ==> Complete(mappings[k])
  {
    var names := Ids(mappings, MappedId);
    assert forall k :: 0 <= k < |mappings| ==> names[k] == mappings[k].nodeId && names[k] in SetOf(names);
  }

  // -------------------------------------------------------------- the artifact list

  /** The order in which files are pushed: the sorted map of JSON values, then the
      topology and its hash, which are numbers 5 and 10 in path order. */
  function PushOrder(paths: seq<Path>): seq<Path>
    requires |paths| == 12
  {
    paths[..5] + paths[6..10] + paths[11..] + [paths[5]] + [paths[10]]
  }

  lemma PushOrderIsPermutation(paths: seq<Path>)
    requires |paths| == 12
    ensures multiset(PushOrder(paths)) == multiset(paths)
  {
    assert paths == paths[..5] + [paths[5]] + paths[6..10] + [paths[10]] + paths[11..];
  }

  predicate RankLeq(a: Path, b: Path) { Rank(a) <= Rank(b) }

  predicate PathLeq(a: Artifact, b: Artifact) { Rank(a.path) <= Rank(b.path) }

  function Final(env: Env, profile: Profile, c: ExecutionTopology, r: CompilerRequest): Path -> Artifact {
    (p: Path) => ArtifactOf(p, DocumentAt(env, profile, c, r, p))
  }

  /** While compilation is under way the report still says it was refused. */
  function Draft(env: Env, profile: Profile, c: ExecutionTopology, r: CompilerRequest): Path -> Artifact {
    (p: Path) => if p == CompilerReport then ArtifactOf(p, ReportDoc(ReportOf(profile, c, r, false)))
                 else ArtifactOf(p, DocumentAt(env, profile, c, r, p))
  }

  /** `retain`: everything but the report. */
  function Kept(s: seq<Path>): seq<Path> {
    if s == [] then [] else Kept(s[..|s| - 1]) + if s[|s| - 1] == CompilerReport then [] else [s[|s| - 1]]
  }

  lemma {:induction false} KeptMultiset(s: seq<Path>)
    ensures multiset(Kept(s)) == multiset(s)[CompilerReport := 0]
  {
    if s != [] {
      KeptMultiset(s[..|s| - 1]);
      assert s == s[..|s| - 1] + [s[|s| - 1]];
    }
  }

  lemma RankIsPreorder()
    ensures TotalPreorder(RankLeq)
  {
  }

  /** Strictly increasing in path order. */
  predicate Ranked(paths: seq<Path>) {
    forall i, j :: 0 <= i < j < |paths| ==> Rank(paths[i]) < Rank(paths[j])
  }

  lemma RequiredRanked()
    ensures Ranked(REQUIRED)
  {
    forall i | 0 <= i < |REQUIRED| ensures Rank(REQUIRED[i]) == i {
    }
  }

  lemma SortedPaths(s: seq<Path>, ranked: seq<Path>)
    requires multiset(s) == multiset(ranked) && Ranked(ranked)
    ensures SortBy(s, RankLeq) == ranked
  {
    RankIsPreorder();
    SortBySorted(s, RankLeq);
    assert Sorted(RankLeq, ranked);
    assert TiesAreEqual(RankLeq, ranked);
    SortedIsUnique(ranked, SortBy(s, RankLeq), RankLeq);
  }

  lemma ReportReplaced(s: seq<Path>)
    requires NoRepeats(s) && CompilerReport in s
    ensures multiset(Kept(s) + [CompilerReport]) == multiset(s)
  {
    KeptMultiset(s);
    CountOnce(s, CompilerReport);
    assert CompilerReport in multiset(s);
  }

  lemma SortedFiles(f: Path -> Artifact, s: seq<Path>, ranked: seq<Path>)
    requires (forall p :: f(p).path == p) && multiset(s) == multiset(ranked) && Ranked(ranked)
    ensures SortBy(MapSeq(f, s), PathLeq) == MapSeq(f, ranked)
  {
    SortedPaths(s, ranked);
    MapSort(f, s, RankLeq, PathLeq);
  }

  method PushAll(f: Path -> Artifact, paths: seq<Path>) returns (artifacts: seq<Artifact>)
    ensures artifacts == MapSeq(f, paths)
  {
    artifacts := [];
    for i := 0 to |paths|
      invariant artifacts == MapSeq(f, paths[..i])
    {
      artifacts := artifacts + [f(paths[i])];
    }
    assert paths[..|paths|] == paths;
  }

  lemma KeepNext(f: Path -> Artifact, paths: seq<Path>, i: nat)
    requires i < |paths|
    ensures MapSeq(f, Kept(paths[..i + 1])) ==
      MapSeq(f, Kept(paths[..i])) + if paths[i] == CompilerReport then [] else [f(paths[i])]
  {
    assert paths[..i + 1][..i] == paths[..i];
  }

  /** Source: `replace_compiler_report`. */
  method ReplaceReport(artifacts: seq<Artifact>, report: Artifact, ghost paths: seq<Path>, ghost f: Path -> Artifact)
    returns (replaced: seq<Artifact>)
    requires |artifacts| == |paths| && f(CompilerReport) == report
    requires forall i :: 0 <= i < |paths| ==>
      artifacts[i].path == paths[i] && (paths[i] != CompilerReport ==> artifacts[i] == f(paths[i]))
    ensures replaced == MapSeq(f, Kept(paths) + [CompilerReport])
  {
    replaced := [];
    for i := 0 to |artifacts|
      invariant replaced == MapSeq(f, Kept(paths[..i]))
    {
      KeepNext(f, paths, i);
      if artifacts[i].path != CompilerReport { replaced := replaced + [artifacts[i]]; }
    }
    assert paths[..|paths|] == paths;
    replaced := replaced + [report];
  }

  /** Push in one order, sort, swap in the final report, sort again. */
  method Assemble(draft: Path -> Artifact, final: Path -> Artifact, paths: seq<Path>) returns (artifacts: seq<Artifact>)
    requires AlikeButReport(draft, final) && FileOrder(paths)
    ensures artifacts == MapSeq(final, paths)
  {
    artifacts := PushAll(draft, PushOrder(paths));
    PushOrderIsPermutation(paths);
    SortedFiles(draft, PushOrder(paths), paths);
    artifacts := SortBy(artifacts, PathLeq);
    artifacts := ReplaceReport(artifacts, final(CompilerReport), paths, final);
    ReportReplaced(paths);
    SortedFiles(final, Kept(paths) + [CompilerReport], paths);
    artifacts := SortBy(artifacts, PathLeq);
  }

  lemma FinalIsArtifacts(env: Env, profile: Profile, c: ExecutionTopology, r: CompilerRequest)
    ensures MapSeq(Final(env, profile, c, r), REQUIRED) == Artifacts(env, profile, c, r)
  {
    var f := Final(env, profile, c, r);
    forall i | 0 <= i < |REQUIRED| ensures MapSeq(f, REQUIRED)[i] == Artifacts(env, profile, c, r)[i] {
    }
  }

  /** Two ways to fill the files, alike but for the report. */
  ghost predicate AlikeButReport(draft: Path -> Artifact, final: Path -> Artifact) {
    forall p :: draft(p).path == p && final(p).path == p && (p != CompilerReport ==> draft(p) == final(p))
  }

  lemma DraftIsAlike(env: Env, profile: Profile, c: ExecutionTopology, r: CompilerRequest)
    ensures AlikeButReport(Draft(env, profile, c, r), Final(env, profile, c, r))
  {
  }

  ghost predicate FileOrder(paths: seq<Path>) {
    |paths| == 12 && Ranked(paths) && NoRepeats(paths) && CompilerReport in paths
  }

  lemma RequiredInOrder()
    ensures FileOrder(REQUIRED)
  {
    RequiredDistinct();
    RequiredRanked();
    assert REQUIRED[3] == CompilerReport;
  }

  /** Source: the artifact vector of `compile_execution_topology_with_profile`. */
  method EmitArtifacts(env: Env, profile: Profile, c: ExecutionTopology,
      r: CompilerRequest) returns (artifacts: seq<Artifact>)
    ensures artifacts == Artifacts(env, profile, c, r)
    ensures Canonical(c) == c ==> CarriesTopology(artifacts, c) && CarriesPolicies(artifacts,
      Sha(Bytes(TopologyDoc(c), 0)), r.spec.policies)
  {
    if Canonical(c) == c { FilesWritten(env, profile, c, r); }
    DraftIsAlike(env, profile, c, r);
    RequiredInOrder();
    FinalIsArtifacts(env, profile, c, r);
    artifacts := Assemble(Draft(env, profile, c, r), Final(env, profile, c, r), REQUIRED);
  }

  // --------------------------------------------------------------- policy documents

  /** Source: `validate_bindings` and one kind of `validate_policy_documents`. */
  method ValidatePolicies(env: Env, kind: PolicyKind, ids: seq<string>, documents: map<string, Json>) returns (ok: bool)
    ensures ok == PoliciesMatch(env, kind, ids, documents)
  {
    SizeShowsRepeats(ids);
    ok := |SetOf(ids)| == |ids| && documents.Keys == SetOf(ids);
    var todo := documents.Keys;
    while todo != {}
      invariant todo <= documents.Keys
      invariant ok == (NoRepeats(ids) && documents.Keys == SetOf(ids) && AllOkBut(env, kind, documents, todo))
      decreases |todo|
    {
      var id :| id in todo;
      if !env.policyOk(kind, id, documents[id]) { ok := false; }
      todo := todo - {id};
    }
  }

  predicate AllOkBut(env: Env, kind: PolicyKind, documents: map<string, Json>, todo: set<string>) {
    forall id :: id in documents && id !in todo ==> env.policyOk(kind, id, documents[id])
  }

  lemma {:induction false} SizeShowsRepeats(s: seq<string>)
    ensures |SetOf(s)| <= |s| && (|SetOf(s)| == |s| <==> NoRepeats(s))
  {
    if s != [] {
      SizeShowsRepeats(s[1..]);
      HeadRepeats(s);
    }
  }

  lemma HeadRepeats(s: seq<string>)
    requires s != []
    ensures SetOf(s) == SetOf(s[1..]) + {s[0]} && (NoRepeats(s) <==> NoRepeats(s[1..]) && s[0] !in SetOf(s[1..]))
  {
    assert s == [s[0]] + s[1..];
    if NoRepeats(s[1..]) && s[0] !in SetOf(s[1..]) {
      forall i, j | 0 <= i < j < |s| ensures s[i] != s[j] {
        assert s[j] == s[1..][j - 1] && s[1..][j - 1] in s[1..];
        if i > 0 { assert s[i] == s[1..][i - 1]; }
      }
    }
    if NoRepeats(s) {
      forall j | 0 <= j < |s[1..]| ensures s[1..][j] != s[0] { assert s[1..][j] == s[j + 1]; }
    }
  }

  // ---------------------------------------------------------------- compile and verify

  method CheckPolicies(env: Env, c: ExecutionTopology, p: Policies) returns (ok: bool)
    ensures ok == PoliciesOk(env, c, p)
  {
    var verification := ValidatePolicies(env, Verification, c.verificationPolicyIds, p.verification);
    var budget := ValidatePolicies(env, Budget, c.budgetPolicyIds, p.budget);
    var expansion := ValidatePolicies(env, Expansion, c.expansionPolicyIds, p.expansion);
    ok := verification && budget && expansion;
  }

  /** The gate of the compiler, check by check. */
  method Gate(env: Env, profile: Profile, c: ExecutionTopology, r: CompilerRequest) returns (ok: bool)
    requires |c.edges| <= U64_MAX
    ensures ok == Compilable(env, profile, c, r)
  {
    var errors := GraphSimulation.HasDeterministicErrors(c);
    var policies := CheckPolicies(env, c, r.spec.policies);
    var mapped, index := ValidateMappings(c.nodes, r.spec.mappings);
    var plan := Plan(r.spec.planId, r.spec.caseSpaceId, r.spec.baseRevisionId,
      StepsFor(SortBy(c.nodes, NodeLeq), index), Version(profile));
    ok := !errors && env.policyLints(c, r.spec.policies.verification) && RequestOk(profile, c, r) && policies &&
      mapped && env.planOk(plan);
  }

  lemma CanonicalEdgeCount(t: ExecutionTopology)
    ensures |Canonical(t).edges| == |t.edges|
  {
    SameMultiset(t.edges, SortBy(t.edges, EdgeLeq));
  }

  /** Source: `compile_execution_topology_with_profile`. */
  method CompileTopology(env: Env, profile: Profile, t: ExecutionTopology,
      r: CompilerRequest) returns (bundle: Option<Bundle>)
    requires |t.edges| <= U64_MAX
    ensures bundle == Compile(env, profile, t, r)
    ensures bundle.Some? ==> Says(env, bundle.value, profile, Canonical(t), r)
  {
    if Compile(env, profile, t, r).Some? { CompiledSays(env, profile, t, r, Compile(env, profile, t, r).value); }
    var c := Normalize(t);
    CanonicalEdgeCount(t);
    var ok := Gate(env, profile, c, r);
    if !ok { return None; }
    var artifacts := EmitArtifacts(env, profile, c, r);
    var manifest := ManifestOf(env, profile, c, r, artifacts);
    bundle := Some(Bundle(artifacts, manifest, Written(ManifestDoc(manifest)), Sha(Written(ManifestDoc(manifest)))));
  }

  /** Source: `verify_deployment_bundle_internal`. */
  method VerifyBundle(env: Env, b: Bundle, expected: Digest) returns (topology: Option<ExecutionTopology>)
    requires TopologyIn(b).Some? ==> |TopologyIn(b).value.edges| <= U64_MAX
    ensures topology == Verify(env, b, expected)
    ensures topology.Some? ==>
      RequestIn(b).Some? && Says(env, b, RequestIn(b).value.0, topology.value, RequestIn(b).value.1)
  {
    topology := VerifySteps(env, b, expected);
    if topology.Some? { VerifiedSays(env, b, expected); }
  }

  method VerifySteps(env: Env, b: Bundle, expected: Digest) returns (topology: Option<ExecutionTopology>)
    requires TopologyIn(b).Some? ==> |TopologyIn(b).value.edges| <= U64_MAX
    ensures topology == Verify(env, b, expected)
  {
    if !EnvelopeOk(env, b, expected) || TopologyIn(b).None? || RequestIn(b).None? { return None; }
    var (profile, request) := RequestIn(b).value;
    var reproduced := CompileTopology(env, profile, TopologyIn(b).value, request);
    topology := if reproduced.Some? && Matches(b, reproduced.value) then TopologyIn(b) else None;
  }

  /** A verified topology is never refused by the simulator on lint grounds. */
  method SimulateVerified(env: Env, b: Bundle, expected: Digest, request: GraphSimulation.SimulationRequest,
      latency: seq<nat>)
    returns (r: GraphSimulation.Outcome)
    requires Verify(env, b, expected).Some? && |Verify(env, b, expected).value.edges| <= U64_MAX
    requires |latency| == |Verify(env, b, expected).value.nodes|
    ensures r.Refused? <==>
      !(GraphSimulation.ValidRequest(request) && GraphSimulation.NamesContent(request, Verify(env, b, expected).value))
  {
    VerifiedTopology(env, b, expected);
    ghost var plan, log, rounds;
    r, plan, log, rounds := GraphSimulation.SimulateTopology(TopologyIn(b).value, request, latency);
  }

  lemma VerifiedTopology(env: Env, b: Bundle, expected: Digest)
    requires Verify(env, b, expected).Some?
    ensures Verify(env, b, expected) == TopologyIn(b) && GraphSimulation.LintClean(Verify(env, b, expected).value)
  {
    VerifiedFacts(env, b, expected);
    VerifiedIsLintClean(env, b, expected);
  }
}
