/** The expansion controller over execution topologies: fingerprints, proposals,
    rounds, and the review that accepts one. */
module Expansion {
  import opened Machine
  import opened Orders
  import opened Topology
  import opened CanonicalForm
  import opened Patch
  import opened PatchTargets
  import opened PatchApplication
  import opened Budget
  import opened Rounds
  import opened BudgetRuns
  import opened ExpansionController
  import GraphSimulation
  import LintOrder

  type Fingerprint = map<string, string>

  datatype Policy = Policy(
    supported: bool,
    expansionPolicyId: string,
    candidateSchemaId: string,
    dedupeKey: seq<string>,
    limits: Limits,
    costCurrency: string,
    provenance: Provenance)

  /** `validate_expansion_policy` finds nothing. */
  predicate ValidPolicy(p: Policy) {
    && p.supported
    && Filled(p.expansionPolicyId) && Filled(p.candidateSchemaId) && Filled(p.costCurrency)
    && Filled(p.provenance.source) && Filled(p.provenance.createdBy)
    && p.dedupeKey != [] && AllFilled(p.dedupeKey) && NoRepeats(p.dedupeKey)
    && Positive(p.limits)
  }

  /** Something about the policy is not as it must be: its version, a text, a key or a limit. */
  ghost predicate Misstates(p: Policy) {
    || !p.supported || |p.dedupeKey| == 0 || NamedTwice(p.dedupeKey)
    || (exists text :: IsBlank(text) && (text in p.dedupeKey || text in [p.expansionPolicyId, p.candidateSchemaId,
          p.costCurrency, p.provenance.source, p.provenance.createdBy]))
    || p.limits.dryRoundsRequired == 0 || p.limits.maxIterations == 0 || p.limits.maxSpawnedNodes == 0
    || p.limits.maxCost <= 0.0 || p.limits.maxLatencyMs == 0
  }

  lemma PolicyIff(p: Policy)
    ensures ValidPolicy(p) <==> !Misstates(p)
  {
    forall text ensures Filled(text) <==> !IsBlank(text) { BlankIff(text); }
  }

  datatype Candidate = Candidate(schemaId: string, dedupeValues: map<string, string>, wish: Wish, patch: TopologyPatch)

  /** A proposal id covers the content of the base and the canonical patch. */
  datatype ProposalId = ProposalId(base: ExecutionTopology, patch: TopologyPatch)

  datatype Proposal = Proposal(proposed: ExecutionTopology, diff: PatchDiff)

  // --------------------------------------------------------------- fingerprints

  predicate Fingerprinted(policy: Policy, c: Candidate) {
    && c.schemaId == policy.candidateSchemaId
    && forall k :: k in policy.dedupeKey ==> k in c.dedupeValues && c.dedupeValues[k] != ""
  }

  /** Source: `fingerprint`; the digest of the selected fields is the fields themselves. */
  function FingerprintOf(policy: Policy, c: Candidate): Option<Fingerprint> {
    if Fingerprinted(policy, c) then Some(map k | k in policy.dedupeKey :: c.dedupeValues[k]) else None
  }

  /** A candidate has a fingerprint exactly if it names the policy's schema and has a value for
      every dedupe key, and the fingerprint is these values. */
  lemma FingerprintMeaning(policy: Policy, c: Candidate)
    ensures FingerprintOf(policy, c).Some? <==>
      (c.schemaId == policy.candidateSchemaId && forall i :: 0 <= i < |policy.dedupeKey| ==>
        policy.dedupeKey[i] in c.dedupeValues && |c.dedupeValues[policy.dedupeKey[i]]| > 0)
    ensures FingerprintOf(policy, c).Some? ==>
      var f := FingerprintOf(policy, c).value;
      (forall k :: k in f <==> k in policy.dedupeKey) && forall k :: k in f ==> f[k] == c.dedupeValues[k]
  {
    assert forall i :: 0 <= i < |policy.dedupeKey| ==> policy.dedupeKey[i] in policy.dedupeKey;
  }

  /** Two candidates share a fingerprint exactly when they agree on every dedupe key. */
  lemma FingerprintIsDedupeKey(policy: Policy, a: Candidate, b: Candidate)
    requires Fingerprinted(policy, a) && Fingerprinted(policy, b)
    ensures FingerprintOf(policy, a) == FingerprintOf(policy, b) <==>
      forall k :: k in policy.dedupeKey ==> a.dedupeValues[k] == b.dedupeValues[k]
  {
    var x, y := FingerprintOf(policy, a).value, FingerprintOf(policy, b).value;
    assert forall k :: k in policy.dedupeKey ==>
      k in x && k in y && x[k] == a.dedupeValues[k] && y[k] == b.dedupeValues[k];
    if x != y {
      assert x.Keys == y.Keys;
      assert exists k :: k in x && x[k] != y[k];
    }
  }

  // ------------------------------------------------------------------ proposals

  ghost predicate Proposable(base: ExecutionTopology, patch: TopologyPatch) {
    Accepted(base, patch) && Valid(Patched(base, CanonicalPatch(patch)))
  }

  /** Source: `proposal`. */
  ghost function ItemOf(base: ExecutionTopology, patch: TopologyPatch): Option<Item<ProposalId, Proposal>> {
    if Proposable(base, patch) then
      var canonical := CanonicalPatch(patch);
      var diff := Diff(base, Patched(base, canonical));
      Some(Item(ProposalId(Canonical(base), canonical), |diff.addedNodeIds|,
        Proposal(Canonical(Patched(base, canonical)), diff)))
    else None
  }

  /** A proposal exists for an accepted patch with a valid result.  It carries that result in
      canonical form and what the patch announces, counts the nodes that the patch adds, and is
      filed under the content of the base and the canonical patch. */
  lemma ItemMeaning(base: ExecutionTopology, patch: TopologyPatch)
    ensures ItemOf(base, patch).Some? <==> Accepted(base, patch) && Valid(Patched(base, CanonicalPatch(patch)))
    ensures ItemOf(base, patch).Some? ==>
      var item := ItemOf(base, patch).value;
      && item.id.base == Canonical(base) && item.id.patch == CanonicalPatch(patch)
      && item.proposal.proposed == Canonical(Patched(base, CanonicalPatch(patch)))
      && item.proposal.diff == Announced(CanonicalPatch(patch)) && item.added == |patch.addedNodes|
  {
    if Proposable(base, patch) {
      DiffIsPatch(base, patch);
      SameMultiset(patch.addedNodes, CanonicalPatch(patch).addedNodes);
    }
  }

  method ProposeItem(base: ExecutionTopology, patch: TopologyPatch) returns (item: Option<Item<ProposalId, Proposal>>)
    ensures item == ItemOf(base, patch)
  {
    var applied := ApplyPatch(base, patch);
    if !applied.Applied? { return None; }
    DiffIsPatch(base, patch);
    item := Some(Item(ProposalId(Canonical(base), CanonicalPatch(patch)), |applied.diff.addedNodeIds|,
                      Proposal(Canonical(applied.after), applied.diff)));
  }

  ghost function OfferOf(policy: Policy, base: ExecutionTopology, c: Candidate): Offer<Fingerprint, ProposalId,
      Proposal> {
    Offer(FingerprintOf(policy, c), c.wish, ItemOf(base, c.patch))
  }

  ghost function OffersOf(policy: Policy, base: ExecutionTopology,
      cs: seq<Candidate>): (r: seq<Offer<Fingerprint, ProposalId, Proposal>>)
    ensures |r| == |cs| && forall i :: 0 <= i < |cs| ==> r[i] == OfferOf(policy, base, cs[i])
  {
    seq(|cs|, i requires 0 <= i < |cs| => OfferOf(policy, base, cs[i]))
  }

  /** The permutation of a patch's lists changes neither the proposal nor its id. */
  lemma ItemForgetsOrder(base: ExecutionTopology, p: TopologyPatch, q: TopologyPatch)
    requires SamePatch(p, q)
    ensures ItemOf(base, p) == ItemOf(base, q)
  {
    FindingsForgetOrder(base, p, q);
    if Accepted(base, p) { CanonicalPatchForgetsOrder(base, p, q); }
  }

  /** Against one base, proposals have the same id exactly when they have the same result,
      list for list. */
  lemma IdIsResult(base: ExecutionTopology, p: TopologyPatch, q: TopologyPatch)
    requires Proposable(base, p) && Proposable(base, q)
    ensures ItemOf(base, p).value.id == ItemOf(base, q).value.id <==>
      Patched(base, CanonicalPatch(p)) == Patched(base, CanonicalPatch(q))
  {
    if Patched(base, CanonicalPatch(p)) == Patched(base, CanonicalPatch(q)) { PatchIsDetermined(base, p, q); }
  }

  /** They have the same content hash exactly when their results are rearrangements of each
      other; patches do not sort lists inside nodes, so results that differ only there share
      a hash and have different ids. */
  lemma HashIsResultUpToOrder(base: ExecutionTopology, p: TopologyPatch, q: TopologyPatch)
    requires Proposable(base, p) && Proposable(base, q)
    ensures ItemOf(base, p).value.proposal.proposed == ItemOf(base, q).value.proposal.proposed <==>
      SameUpToOrder(Patched(base, CanonicalPatch(p)), Patched(base, CanonicalPatch(q)))
  {
    ResultIsHarmless(base, p);
    CanonicalIffSameUpToOrder(Patched(base, CanonicalPatch(p)), Patched(base, CanonicalPatch(q)));
  }

  // ------------------------------------------------------ when one hash means one id

  ghost predicate NormalNodes(nodes: seq<TopologyNode>) {
    forall n :: n in nodes ==> CanonicalNode(n) == n
  }

  ghost predicate NormalEdges(edges: seq<TopologyEdge>) {
    forall e :: e in edges ==> CanonicalEdge(e) == e
  }

  /** The lists inside all nodes and edges named by the base and the patch are in order. */
  ghost predicate Normal(base: ExecutionTopology, p: TopologyPatch) {
    && NormalNodes(base.nodes) && NormalNodes(p.addedNodes) && NormalNodes(p.updatedNodes)
    && NormalEdges(base.edges) && NormalEdges(p.addedEdges)
  }

  lemma ListedFixed<T(!new)>(m: map<string, T>, id: T -> string, leq: (T, T) -> bool, f: T -> T)
    requires Keyed(m, id) && (forall a, b :: StringLeq(id(a), id(b)) == leq(a, b)) && forall k :: k in m ==>
      f(m[k]) == m[k]
    ensures MapSeq(f, SortBy(Listed(m), leq)) == Listed(m)
  {
    ListedIsSorted(m, id, leq);
  }

  lemma SortedMembers<T>(s: seq<T>, t: seq<T>, x: T)
    requires multiset(s) == multiset(t) && x in t
    ensures x in s
  {
    SameMultiset(s, t);
  }

  lemma PatchedNodesFixed(base: ExecutionTopology, p: TopologyPatch)
    requires Normal(base, p)
    ensures Canonical(Patched(base, CanonicalPatch(p))).nodes == Patched(base, CanonicalPatch(p)).nodes
  {
    var c, m := CanonicalPatch(p), NodesById(base);
    EditEntries(m, c.removedNodeIds, c.updatedNodes, c.addedNodes, NodeId);
    var a := Edit(m, c.removedNodeIds, c.updatedNodes, c.addedNodes, NodeId);
    forall k | k in a ensures CanonicalNode(a[k]) == a[k] {
      if a[k] in c.updatedNodes {
        SortedMembers(p.updatedNodes, c.updatedNodes, a[k]);
      } else if a[k] in c.addedNodes {
        SortedMembers(p.addedNodes, c.addedNodes, a[k]);
      }
    }
    ListedFixed(a, NodeId, NodeLeq, CanonicalNode);
  }

  lemma PatchedEdgesFixed(base: ExecutionTopology, p: TopologyPatch)
    requires Normal(base, p)
    ensures Canonical(Patched(base, CanonicalPatch(p))).edges == Patched(base, CanonicalPatch(p)).edges
  {
    var c, m := CanonicalPatch(p), EdgesById(base);
    EditEntries(m, c.removedEdgeIds, [], c.addedEdges, EdgeId);
    var a := Edit(m, c.removedEdgeIds, [], c.addedEdges, EdgeId);
    forall k | k in a ensures CanonicalEdge(a[k]) == a[k] {
      if a[k] in c.addedEdges { SortedMembers(p.addedEdges, c.addedEdges, a[k]); }
    }
    ListedFixed(a, EdgeId, EdgeLeq, CanonicalEdge);
  }

  /** Where the lists inside nodes and edges are in canonical order, which can be seen
      before proposing, one content hash means one id. */
  lemma NormalIdIsHash(base: ExecutionTopology, p: TopologyPatch, q: TopologyPatch)
    requires Proposable(base, p) && Proposable(base, q) && Normal(base, p) && Normal(base, q)
    ensures ItemOf(base, p).value.id == ItemOf(base, q).value.id <==>
      ItemOf(base, p).value.proposal.proposed == ItemOf(base, q).value.proposal.proposed
  {
    IdIsResult(base, p, q);
    PatchedNodesFixed(base, p);
    PatchedNodesFixed(base, q);
    PatchedEdgesFixed(base, p);
    PatchedEdgesFixed(base, q);
  }

  // ------------------------------------------------------------------ the controller

  /** The part of the candidate loop that does not depend on the controller's counters. */
  method MakeOffers(policy: Policy, base: ExecutionTopology,
      cs: seq<Candidate>) returns (offers: seq<Offer<Fingerprint, ProposalId, Proposal>>)
    ensures offers == OffersOf(policy, base, cs)
  {
    offers := [];
    for i := 0 to |cs|
      invariant |offers| == i && forall k :: 0 <= k < i ==> offers[k] == OfferOf(policy, base, cs[k])
    {
      var item := ProposeItem(base, cs[i].patch);
      offers := offers + [Offer(FingerprintOf(policy, cs[i]), cs[i].wish, item)];
    }
  }

  /** Source: `ExpansionController::new`. */
  method NewController(policy: Policy) returns (c: Option<ExpansionController<Fingerprint, ProposalId, Proposal>>)
    ensures c.Some? <==> ValidPolicy(policy)
    ensures c.None? <==> Misstates(policy)
    ensures c.Some? ==> c.value.limits == policy.limits && c.value.View() == Controller(None, Initial())
    ensures c.Some? ==> c.value.View().state == State(0, 0, 0, 0.0, 0, {}, map[])
  {
    PolicyIff(policy);
    if !ValidPolicy(policy) { return None; }
    var made := new ExpansionController<Fingerprint, ProposalId, Proposal>(policy.limits);
    c := Some(made);
  }

  /** Source: `begin_attempt`. */
  method StartAttempt(c: ExpansionController<Fingerprint, ProposalId, Proposal>, policy: Policy,
      base: ExecutionTopology,
                      attemptId: string, topology: ExecutionTopology)
    returns (ok: bool)
    requires c.limits == policy.limits
    modifies c`attempt
    ensures Handle(policy.limits, old(c.View()), CallOf(policy, base, Begin(attemptId, topology))) == (c.View(), None)
    ensures ok <==>
      && Canonical(topology) == Canonical(base) && Filled(attemptId)
      && (old(c.attempt).None? || old(c.attempt) == Some(attemptId))
  {
    ok := c.Begin(attemptId, Canonical(topology) == Canonical(base) && Filled(attemptId));
  }

  /** Source: `process_round` on the candidates themselves. */
  method ProcessCandidates(c: ExpansionController<Fingerprint, ProposalId, Proposal>, policy: Policy,
      base: ExecutionTopology,
                           attemptId: string, candidates: seq<Candidate>, cost: real, latency: nat)
    returns (result: Option<RoundResult<Fingerprint, ProposalId, Proposal>>)
    requires c.limits == policy.limits
    modifies c
    ensures Handle(policy.limits, old(c.View()), CallOf(policy, base,
      Process(attemptId, candidates, cost, latency))) == (c.View(), result)
    ensures IsProcessed(policy.limits, old(c.View()), attemptId, OffersOf(policy, base, candidates), cost, latency,
      c.View(), result)
  {
    var offers := MakeOffers(policy, base, candidates);
    result := c.Process(attemptId, offers, cost, latency);
  }

  // ------------------------------------------------------------------------ runs

  datatype Request =
    | Begin(attemptId: string, topology: ExecutionTopology)
    | Finish(attemptId: string)
    | Process(attemptId: string, candidates: seq<Candidate>, cost: real, latency: nat)

  ghost function CallOf(policy: Policy, base: ExecutionTopology, r: Request): Call<Fingerprint, ProposalId, Proposal> {
    match r
    case Begin(id, topology) => BeginAttempt(id, Canonical(topology) == Canonical(base) && Filled(id))
    case Finish(id) => FinishAttempt(id)
    case Process(id, cs, cost, latency) => ProcessRound(id, OffersOf(policy, base, cs), cost, latency)
  }

  ghost function CallsOf(policy: Policy, base: ExecutionTopology,
      rs: seq<Request>): (r: seq<Call<Fingerprint, ProposalId, Proposal>>)
    ensures |r| == |rs| && forall i :: 0 <= i < |rs| ==> r[i] == CallOf(policy, base, rs[i])
  {
    seq(|rs|, i requires 0 <= i < |rs| => CallOf(policy, base, rs[i]))
  }

  ghost function Stored(policy: Policy, base: ExecutionTopology, rs: seq<Request>): map<ProposalId,
      Item<ProposalId, Proposal>> {
    Run(policy.limits, CallsOf(policy, base, rs)).controller.state.proposals
  }

  /** Every stored proposal is the proposal of some acceptable patch, filed under its id. */
  lemma StoredIsProposed(policy: Policy, base: ExecutionTopology, rs: seq<Request>,
      id: ProposalId) returns (patch: TopologyPatch)
    requires id in Stored(policy, base, rs)
    ensures Proposable(base, patch) && ItemOf(base, patch) == Some(Stored(policy, base, rs)[id]) &&
      Stored(policy, base, rs)[id].id == id
  {
    var calls := CallsOf(policy, base, rs);
    var item := Stored(policy, base, rs)[id];
    RunIsSound(policy.limits, calls);
    assert item in AllCreated(Run(policy.limits, calls).history);
    StoredWereOffered(policy.limits, calls, item);
    var c, i := OfferedAt(calls, item);
    patch := rs[c].candidates[i].patch;
  }

  // ---------------------------------------------------------------------- review

  datatype ReviewBinding = ReviewBinding(proposalId: ProposalId, reviewed: ExecutionTopology)

  /** Source: `review_accepted`; content hashes are canonical topologies. */
  ghost predicate ReviewAccepted(base: ExecutionTopology, proposals: map<ProposalId, Item<ProposalId, Proposal>>,
      id: ProposalId,
                           reviewed: ExecutionTopology, binding: ReviewBinding)
  {
    && id in proposals
    && binding.proposalId == id && binding.reviewed == Canonical(reviewed)
    && reviewed.topologyId == base.topologyId && reviewed.caseSpaceId == base.caseSpaceId
    && Canonical(reviewed) == proposals[id].proposal.proposed
    && GraphSimulation.LintClean(reviewed)
    && Canonical(reviewed) != Canonical(base)
  }

  /** An accepted review is for exactly the patched base, up to list order, of a patch
      this controller was offered, and it really changes the topology. */
  lemma ReviewIsForTheProposal(policy: Policy, base: ExecutionTopology, rs: seq<Request>, id: ProposalId,
                               reviewed: ExecutionTopology, binding: ReviewBinding) returns (patch: TopologyPatch)
    requires ReviewAccepted(base, Stored(policy, base, rs), id, reviewed, binding)
    ensures Proposable(base, patch) && id == ProposalId(Canonical(base), CanonicalPatch(patch))
    ensures SameUpToOrder(Patched(base, CanonicalPatch(patch)), reviewed) && Canonical(reviewed) != Canonical(base)
  {
    patch := StoredIsProposed(policy, base, rs, id);
    ResultIsHarmless(base, patch);
    CanonicalIffSameUpToOrder(Patched(base, CanonicalPatch(patch)), reviewed);
  }

  /** A stored proposal can be accepted at all exactly when the patched base is lint-clean and
      differs from the base in more than list order.  A patch that only reorders lists inside
      nodes is admitted as a proposal, and no review of it is ever accepted. */
  lemma ReviewableIff(policy: Policy, base: ExecutionTopology, rs: seq<Request>,
      id: ProposalId) returns (patch: TopologyPatch)
    requires id in Stored(policy, base, rs)
    ensures Proposable(base, patch) && id == ProposalId(Canonical(base), CanonicalPatch(patch))
    ensures (exists reviewed, binding :: ReviewAccepted(base, Stored(policy, base, rs), id, reviewed, binding)) <==>
      (GraphSimulation.LintClean(Patched(base, CanonicalPatch(patch))) &&
       !SameUpToOrder(Patched(base, CanonicalPatch(patch)), base))
  {
    patch := StoredIsProposed(policy, base, rs, id);
    var stored, result := Stored(policy, base, rs), Patched(base, CanonicalPatch(patch));
    ResultIsHarmless(base, patch);
    CanonicalIffSameUpToOrder(result, base);
    if reviewed, binding :| ReviewAccepted(base, stored, id, reviewed, binding) {
      CanonicalIffSameUpToOrder(result, reviewed);
      LintOrder.LintForgetsOrder(result, reviewed);
    }
    if GraphSimulation.LintClean(result) && !SameUpToOrder(result, base) {
      assert ReviewAccepted(base, stored, id, result, ReviewBinding(id, Canonical(result)));
    }
  }

  lemma ResultIsHarmless(base: ExecutionTopology, patch: TopologyPatch)
    requires Proposable(base, patch)
    ensures TiesHarmless(Patched(base, CanonicalPatch(patch)))
  {
    ValidKeysUnique(Patched(base, CanonicalPatch(patch)));
    UniqueKeysAreHarmless(Patched(base, CanonicalPatch(patch)));
  }
}
