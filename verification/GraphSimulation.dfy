/** `simulate_execution_topology` for one sampled iteration: the lint gate, the
    construction of the scheduling problem from a topology, and what the gate
    guarantees about the run. */
module GraphSimulation {
  import opened Machine
  import opened Orders
  import opened Topology
  import CanonicalForm
  import opened Graphs
  import opened Kahn
  import opened Lint
  import opened Schedule
  import opened Timing
  import opened Simulation
  import opened TopologyRuns

  /** The scheduling part of a simulation request, with the content hash it names. */
  datatype SimulationRequest = SimulationRequest(
    topologyHash: ExecutionTopology,
    maxParallelism: nat,
    resourceCapacities: map<string, nat>,
    fanInPenaltyMsPerInput: nat)

  /** `validate_request` has nothing to say about these fields. */
  predicate ValidRequest(r: SimulationRequest) {
    && r.maxParallelism > 0
    && forall key :: key in r.resourceCapacities ==> Filled(key) && r.resourceCapacities[key] > 0
  }

  /** The request names the content of this topology; a hash is represented by the canonical form. */
  predicate NamesContent(r: SimulationRequest, t: ExecutionTopology) {
    r.topologyHash == CanonicalForm.Canonical(t)
  }

  // --------------------------------------------------------- SimulationGraph::new

  ghost predicate CountedUpTo(n: nat, g: Graph, successors: seq<seq<nat>>, indegree: seq<nat>) {
    && IsSuccessorTable(n, g, successors) && |indegree| == n
    && (forall v: nat :: v < n ==> indegree[v] == Pending(g, v, {}))
  }

  lemma CountArc(n: nat, g: Graph, successors: seq<seq<nat>>, indegree: seq<nat>, e: nat, from: nat, to: nat)
    requires CountedUpTo(n, g, successors, indegree) && e !in g && from < n && to < n
    ensures CountedUpTo(n, g[e := Arc(from, to)], successors[from := successors[from] + [to]],
      indegree[to := indegree[to] + 1])
  {
    var g', s' := g[e := Arc(from, to)], successors[from := successors[from] + [to]];
    forall u: nat, v: nat | u < n && v < n ensures multiset(s'[u])[v] == ArcCount(g', u, v) {
      OneMoreArc(g, e, from, to, u, v);
      assert multiset(successors[from] + [to]) == multiset(successors[from]) + multiset{to};
    }
    forall v: nat | v < n ensures Pending(g', v, {}) == Pending(g, v, {}) + if v == to then 1 else 0 {
      OneMorePending(g, e, from, to, v);
    }
  }

  lemma OneMoreArc(g: Graph, e: nat, from: nat, to: nat, u: nat, v: nat)
    requires e !in g
    ensures ArcCount(g[e := Arc(from, to)], u, v) == ArcCount(g, u, v) + if u == from && v == to then 1 else 0
  {
    var g' := g[e := Arc(from, to)];
    var before, after := ArcsBetween(g, u, v), ArcsBetween(g', u, v);
    forall d: nat | d != e ensures d in after <==> d in before {
    }
    if u == from && v == to {
      assert e in after && after == before + {e};
    } else {
      assert e !in after && after == before;
    }
  }

  lemma OneMorePending(g: Graph, e: nat, from: nat, to: nat, v: nat)
    requires e !in g
    ensures Pending(g[e := Arc(from, to)], v, {}) == Pending(g, v, {}) + if v == to then 1 else 0
  {
    assert PendingArcs(g[e := Arc(from, to)], v, {}) == PendingArcs(g, v, {}) + if v == to then {e} else {};
  }

  lemma NothingCounted(n: nat)
    ensures CountedUpTo(n, map[], Repeat<seq<nat>>(n, []), Repeat(n, 0))
  {
    var g: Graph := map[];
    forall u: nat, v: nat | u < n && v < n ensures multiset(Repeat<seq<nat>>(n, [])[u])[v] == ArcCount(g, u, v) {
      assert ArcsBetween(g, u, v) == {};
    }
    forall v: nat | v < n ensures Pending(g, v, {}) == 0 {
      assert PendingArcs(g, v, {}) == {};
    }
  }

  /** Source: `SimulationGraph::new`. */
  method NewGraph(t: ExecutionTopology) returns (successors: seq<seq<nat>>, indegree: seq<nat>)
    ensures CountedUpTo(|t.nodes|, ArcsOf(t), successors, indegree)
  {
    var index := NodeIndex(t.nodes);
    successors, indegree := Repeat(|t.nodes|, []), Repeat(|t.nodes|, 0);
    NothingCounted(|t.nodes|);
    ghost var g: Graph := map[];
    for e := 0 to |t.edges|
      invariant ArcsFor(t, e, g) && CountedUpTo(|t.nodes|, g, successors, indegree)
    {
      successors, indegree, g := CountEdge(t, e, g, index, successors, indegree);
    }
    ArcsForUnique(t, g);
    successors := SortTable(successors, ArcsOf(t), |t.nodes|);
  }

  method CountEdge(t: ExecutionTopology, e: nat, ghost g: Graph, index: map<string, nat>, successors: seq<seq<nat>>,
      indegree: seq<nat>)
    returns (successors': seq<seq<nat>>, indegree': seq<nat>, ghost g': Graph)
    requires e < |t.edges| && index == NodeIndex(t.nodes)
    requires ArcsFor(t, e, g) && CountedUpTo(|t.nodes|, g, successors, indegree)
    ensures ArcsFor(t, e + 1, g') && CountedUpTo(|t.nodes|, g', successors', indegree')
  {
    successors', indegree', g' := successors, indegree, g;
    var edge := t.edges[e];
    ArcsForStep(t, e, g);
    if edge.from in index && edge.to in index {
      var from, to := index[edge.from], index[edge.to];
      assert Resolves(t, e) && ArcAt(t, e) == Arc(from, to);
      CountArc(|t.nodes|, g, successors, indegree, e, from, to);
      successors' := successors[from := successors[from] + [to]];
      indegree' := indegree[to := indegree[to] + 1];
      g' := g[e := Arc(from, to)];
    }
  }

  method SortTable(table: seq<seq<nat>>, ghost g: Graph, ghost n: nat) returns (sorted: seq<seq<nat>>)
    requires IsSuccessorTable(n, g, table)
    ensures IsSuccessorTable(n, g, sorted)
  {
    sorted := [];
    for u := 0 to |table|
      invariant |sorted| == u && forall v :: 0 <= v < u ==> multiset(sorted[v]) == multiset(table[v])
    {
      sorted := sorted + [SortBy(table[u], NatLeq)];
    }
    forall u, j | 0 <= u < n && 0 <= j < |sorted[u]| ensures sorted[u][j] < n {
      SameMultiset(sorted[u], table[u]);
      assert sorted[u][j] in table[u];
    }
  }

  // ----------------------------------------------------------------- the gate

  predicate Budgeted(t: ExecutionTopology) {
    forall i :: 0 <= i < |t.nodes| ==> (t.nodes[i].expansionPolicyId.Some? ==> t.nodes[i].budgetPolicyId.Some?)
  }

  /** The linter reports no deterministic error. */
  ghost predicate LintClean(t: ExecutionTopology) {
    Valid(t) && Acyclic(|t.nodes|, ArcsOf(t)) && ConflictFree(t) && Budgeted(t)
  }

  /** Valid, without cycles, with unordered nodes sharing resources only as readers or as owners
      of isolated files, and with a budget wherever there is an expansion. */
  ghost predicate Admissible(t: ExecutionTopology) {
    && Valid(t) && Acyclic(|t.nodes|, ArcsOf(t)) && UnorderedShareSafely(t)
    && forall v :: 0 <= v < |t.nodes| && t.nodes[v].expansionPolicyId.Some? ==> t.nodes[v].budgetPolicyId.Some?
  }

  lemma CleanIffAdmissible(t: ExecutionTopology)
    ensures LintClean(t) <==> Admissible(t)
  {
    ConflictFreeIffShareSafely(t);
  }

  method HasDeterministicErrors(t: ExecutionTopology) returns (errors: bool)
    requires |t.edges| <= U64_MAX
    ensures errors <==> !LintClean(t)
    ensures errors <==> !Admissible(t)
  {
    CleanIffAdmissible(t);
    var adjacency, reverse := BuildAdjacency(t);
    ArcsWellFormed(t);
    var acyclic := IsAcyclic(adjacency, reverse, ArcsOf(t));
    var findings := ResourceConflicts(t, adjacency);
    var unsafe := false;
    for i := 0 to |findings|
      invariant unsafe <==> exists j :: 0 <= j < i && findings[j].code == UnsafeParallelResourceConflict
    {
      unsafe := unsafe || findings[i].code == UnsafeParallelResourceConflict;
    }
    UnsafeMeansConflict(t, findings);
    errors := !(Valid(t) && acyclic && !unsafe && Budgeted(t));
  }

  lemma UnsafeMeansConflict(t: ExecutionTopology, findings: seq<ConflictFinding>)
    requires forall f :: f in findings <==> Justified(t, f)
    ensures (exists j :: 0 <= j < |findings| && findings[j].code == UnsafeParallelResourceConflict) <==>
      !ConflictFree(t)
  {
    if j :| 0 <= j < |findings| && findings[j].code == UnsafeParallelResourceConflict {
      assert findings[j] in findings;
    }
    if !ConflictFree(t) {
      var f :| Justified(t, f) && f.code == UnsafeParallelResourceConflict;
      assert f in findings;
    }
  }

  /** Whoever runs at the same time does not contend for a resource, except for
      files that both sides hold in isolated worktrees. */
  ghost predicate NoContention(t: ExecutionTopology, running: set<nat>) {
    forall u, v, l, r {:trigger Contends(l, r), u in running, v in running} ::
      u in running && v in running && u < |t.nodes| && v < |t.nodes| && u != v
      && l in t.nodes[u].resourceClaims && r in t.nodes[v].resourceClaims && Contends(l, r)
      ==> IsolatedFile(l, r)
  }

  /** A lint-clean topology is conflict-free in time, whatever the capacities. */
  lemma CleanRoundsDoNotContend(t: ExecutionTopology, p: Plan, round: Round)
    requires ConflictFree(t) && p.Size() == |t.nodes| && SafeRound(p, ArcsOf(t), round)
    ensures NoContention(t, round.running)
  {
    forall u, v, l, r | u in round.running && v in round.running && u < |t.nodes| && v < |t.nodes| && u != v
      && l in t.nodes[u].resourceClaims && r in t.nodes[v].resourceClaims && Contends(l, r)
      ensures IsolatedFile(l, r)
    {
      ConflictFreeMeaning(t, u, v, l, r);
    }
  }

  /** Slots, capacities and precedence are respected by these nodes, and none contend. */
  ghost predicate SafeTogether(t: ExecutionTopology, p: Plan, round: Round) {
    SafeRound(p, ArcsOf(t), round) && NoContention(t, round.running)
  }

  /** Whatever the simulator holds active together is safe together, in every round and so
      for nodes of no duration too, and so is whatever runs at any instant between. */
  ghost predicate SafeThroughout(t: ExecutionTopology, p: Plan, log: Log, rounds: seq<Round>) {
    && Samples(p.Size(), log, rounds, Nodes(p.Size()))
    && (forall i :: 0 <= i < |rounds| ==> SafeTogether(t, p, rounds[i]))
    && (forall x: nat :: SafeTogether(t, p, Round(x, RunningAt(p.Size(), log, x))))
  }

  /** A wait is counted for each node that a round could have started but for a resource. */
  ghost predicate WaitsExactly(t: ExecutionTopology, p: Plan, rounds: seq<Round>, waits: nat) {
    waits == Saturate(TotalRefused(p, ArcsOf(t), rounds)) && RefusalsHeldUp(p, ArcsOf(t), rounds)
  }

  datatype Outcome = Refused | Simulated(elapsedMs: nat, maximumParallelism: nat, resourceWaitEvents: nat)

  /** The plan the simulator runs for these inputs. */
  ghost predicate PlanFor(t: ExecutionTopology, request: SimulationRequest, latency: seq<nat>, p: Plan) {
    && p.Size() == |t.nodes| && p.latency == latency && p.keys == NodeKeys(t.nodes)
    && p.capacities == request.resourceCapacities && p.slots == request.maxParallelism
    && p.penalty == request.fanInPenaltyMsPerInput && WellPosed(p, ArcsOf(t))
  }

  /** In every round and at every instant the limits of the request hold, and nodes that run
      together share resources only as readers or as owners of isolated files. */
  ghost predicate KeepsLimits(t: ExecutionTopology, request: SimulationRequest, log: Log, rounds: seq<Round>) {
    && |log.start| == |t.nodes| == |log.finish|
    && (forall i :: 0 <= i < |rounds| ==> LimitsHold(t, request, rounds[i].running))
    && (forall x: nat :: LimitsHold(t, request, RunningAt(|t.nodes|, log, x)))
  }

  ghost predicate LimitsHold(t: ExecutionTopology, request: SimulationRequest, running: set<nat>) {
    WithinLimits(t, request.resourceCapacities, request.maxParallelism, running) && RunningShareSafely(t, running)
  }

  /** Every wait is for something that running nodes hold to its limit. */
  ghost predicate RefusalsExplained(t: ExecutionTopology, request: SimulationRequest, p: Plan, rounds: seq<Round>) {
    forall i, v {:trigger LacksSomething(t, request.resourceCapacities, rounds[i].running, v)} ::
      0 <= i < |rounds| && v in RefusedIn(p, ArcsOf(t), rounds[..i], rounds[i]) ==>
        LacksSomething(t, request.resourceCapacities, rounds[i].running, v)
  }

  lemma PlanServes(t: ExecutionTopology, request: SimulationRequest, latency: seq<nat>, p: Plan)
    requires PlanFor(t, request, latency, p) && NodeIdsUnique(t.nodes)
    ensures Serves(p, t)
  {
  }

  lemma LimitsMeant(t: ExecutionTopology, request: SimulationRequest, p: Plan, round: Round)
    requires ConflictFree(t) && p.Size() == |t.nodes| && p.keys == NodeKeys(t.nodes)
    requires p.capacities == request.resourceCapacities && p.slots == request.maxParallelism
    requires SafeRound(p, ArcsOf(t), round)
    ensures LimitsHold(t, request, round.running)
  {
    LimitsMeaning(t, p, round);
    SharingMeaning(t, p, round);
  }

  lemma LimitsKept(t: ExecutionTopology, request: SimulationRequest, p: Plan, log: Log, rounds: seq<Round>)
    requires ConflictFree(t) && p.Size() == |t.nodes| && p.keys == NodeKeys(t.nodes)
    requires p.capacities == request.resourceCapacities && p.slots == request.maxParallelism
    requires SafeThroughout(t, p, log, rounds)
    ensures KeepsLimits(t, request, log, rounds)
  {
    forall i | 0 <= i < |rounds| ensures LimitsHold(t, request, rounds[i].running) {
      assert SafeTogether(t, p, rounds[i]);
      LimitsMeant(t, request, p, rounds[i]);
    }
    forall x: nat ensures LimitsHold(t, request, RunningAt(|t.nodes|, log, x)) {
      assert SafeTogether(t, p, Round(x, RunningAt(p.Size(), log, x)));
      LimitsMeant(t, request, p, Round(x, RunningAt(p.Size(), log, x)));
    }
  }

  lemma RefusalsMeant(t: ExecutionTopology, request: SimulationRequest, p: Plan, rounds: seq<Round>)
    requires p.keys == NodeKeys(t.nodes) && p.capacities == request.resourceCapacities
    requires RefusalsHeldUp(p, ArcsOf(t), rounds)
    ensures RefusalsExplained(t, request, p, rounds)
  {
    forall i, v | 0 <= i < |rounds| && v in RefusedIn(p, ArcsOf(t), rounds[..i], rounds[i])
      ensures LacksSomething(t, request.resourceCapacities, rounds[i].running, v)
    {
      assert RoundHoldsUp(p, rounds[i].running, RefusedIn(p, ArcsOf(t), rounds[..i], rounds[i]));
      RefusalMeaning(t, p, rounds[i].running, v);
    }
  }

  /** What the run is for topology and request, without the plan's own terms. */
  lemma RunMeant(t: ExecutionTopology, request: SimulationRequest, latency: seq<nat>, p: Plan, log: Log,
      rounds: seq<Round>, elapsed: nat)
    requires PlanFor(t, request, latency, p) && NodeIdsUnique(t.nodes) && t.nodes != []
    requires IsSchedule(p, ArcsOf(t), log, elapsed) && Samples(p.Size(), log, rounds, Nodes(p.Size()))
    requires Clockwork(log, rounds, elapsed)
    ensures EndsOnTime(t, latency, request.fanInPenaltyMsPerInput, log) && FollowsEdges(t, log)
    ensures IsLatestEnd(log, elapsed)
    ensures ChargesEachEdge(t, latency, request.fanInPenaltyMsPerInput, Durations(p))
  {
    PlanServes(t, request, latency, p);
    EndsMeaning(t, p, log, elapsed);
    EdgesMeaning(t, p, log, elapsed);
    DurationsMeaning(t, p);
    LatestEnd(p, ArcsOf(t), log, rounds, elapsed);
  }

  /** Some capacity is zero or declared for a blank name. */
  predicate MisdeclaresCapacity(capacities: map<string, nat>) {
    exists key :: key in capacities && (capacities[key] == 0 || IsBlank(key))
  }

  /** At least one slot, capacities that can be declared, and the content of an admissible topology. */
  ghost predicate Acceptable(request: SimulationRequest, t: ExecutionTopology) {
    && request.maxParallelism >= 1 && !MisdeclaresCapacity(request.resourceCapacities)
    && request.topologyHash == CanonicalForm.Canonical(t) && Admissible(t)
  }

  lemma ValidRequestIff(request: SimulationRequest)
    ensures ValidRequest(request) <==> request.maxParallelism >= 1 && !MisdeclaresCapacity(request.resourceCapacities)
  {
    forall key ensures Filled(key) <==> !IsBlank(key) { BlankIff(key); }
  }

  lemma AcceptableIff(request: SimulationRequest, t: ExecutionTopology)
    ensures Acceptable(request, t) <==> ValidRequest(request) && NamesContent(request, t) && LintClean(t)
  {
    CleanIffAdmissible(t);
    ValidRequestIff(request);
  }

  /** Source: `simulate_execution_topology`, one iteration with known latencies.
      It refuses exactly the requests and topologies that do not check out, and
      otherwise never gets stuck. */
  method SimulateTopology(t: ExecutionTopology, request: SimulationRequest, latency: seq<nat>)
    returns (r: Outcome, ghost p: Plan, ghost log: Log, ghost rounds: seq<Round>)
    requires |latency| == |t.nodes| && |t.edges| <= U64_MAX
    ensures r.Refused? <==> !(ValidRequest(request) && NamesContent(request, t) && LintClean(t))
    ensures r.Refused? <==> !Acceptable(request, t)
    ensures r.Simulated? ==> PlanFor(t, request, latency, p)
    ensures r.Simulated? ==> EndsOnTime(t, latency, request.fanInPenaltyMsPerInput, log) && FollowsEdges(t, log)
    ensures r.Simulated? ==> IsLatestEnd(log, r.elapsedMs) && KeepsLimits(t, request, log, rounds)
    ensures r.Simulated? ==> RefusalsExplained(t, request, p, rounds)
    ensures r.Simulated? ==> ChargesEachEdge(t, latency, request.fanInPenaltyMsPerInput, Durations(p))
    ensures r.Simulated? ==> IsSchedule(p, ArcsOf(t), log, r.elapsedMs) && MeetsBounds(p, ArcsOf(t), r.elapsedMs)
    ensures r.Simulated? ==> SafeThroughout(t, p, log, rounds) && Clockwork(log, rounds, r.elapsedMs)
    ensures r.Simulated? ==> IsPeak(rounds, r.maximumParallelism) && r.maximumParallelism <= request.maxParallelism
    ensures r.Simulated? ==> WaitsExactly(t, p, rounds, r.resourceWaitEvents)
    ensures r.Simulated? && NeverBlocks(p) ==> r.resourceWaitEvents == 0
  {
    p, log, rounds := Plan([], [], [], [], map[], 0, 0), Log([], [], [], 0), [];
    AcceptableIff(request, t);
    r := Refused;
    var errors := HasDeterministicErrors(t);
    if !errors && ValidRequest(request) && NamesContent(request, t) {
      var plan := PreparePlan(t, request, latency);
      r, log, rounds := RunPlan(t, plan);
      RunMeant(t, request, latency, plan, log, rounds, r.elapsedMs);
      LimitsKept(t, request, plan, log, rounds);
      RefusalsMeant(t, request, plan, rounds);
      p := plan;
    }
  }

  method PreparePlan(t: ExecutionTopology, request: SimulationRequest, latency: seq<nat>) returns (p: Plan)
    requires |latency| == |t.nodes| && ValidRequest(request) && Acyclic(|t.nodes|, ArcsOf(t))
    ensures PlanFor(t, request, latency, p)
  {
    var successors, fanIn := NewGraph(t);
    p := Plan(successors, fanIn, latency, NodeKeys(t.nodes), request.resourceCapacities,
              request.maxParallelism, request.fanInPenaltyMsPerInput);
    PlanIsPosed(t, request, p);
  }

  lemma PlanIsPosed(t: ExecutionTopology, request: SimulationRequest, p: Plan)
    requires |p.latency| == |t.nodes| && ValidRequest(request) && Acyclic(|t.nodes|, ArcsOf(t))
    requires IsSuccessorTable(|t.nodes|, ArcsOf(t), p.successors) && p.Size() == |t.nodes| == |p.fanIn|
    requires forall v: nat :: v < |t.nodes| ==> p.fanIn[v] == Pending(ArcsOf(t), v, {})
    requires p.keys == NodeKeys(t.nodes) && p.capacities == request.resourceCapacities
    requires p.slots == request.maxParallelism && p.penalty == request.fanInPenaltyMsPerInput
    ensures PlanFor(t, request, p.latency, p)
  {
    ArcsWellFormed(t);
  }

  method RunPlan(t: ExecutionTopology, p: Plan) returns (r: Outcome, ghost log: Log, ghost rounds: seq<Round>)
    requires ConflictFree(t) && p.Size() == |t.nodes| && WellPosed(p, ArcsOf(t))
    ensures r.Simulated? && IsSchedule(p, ArcsOf(t), log, r.elapsedMs) && MeetsBounds(p, ArcsOf(t), r.elapsedMs)
    ensures SafeThroughout(t, p, log, rounds) && IsPeak(rounds, r.maximumParallelism)
    ensures Clockwork(log, rounds, r.elapsedMs)
    ensures WaitsExactly(t, p, rounds, r.resourceWaitEvents)
    ensures r.maximumParallelism <= p.slots && (NeverBlocks(p) ==> r.resourceWaitEvents == 0)
  {
    var elapsed, peak, waits;
    elapsed, peak, waits, log, rounds := Simulate(p, ArcsOf(t));
    forall i | 0 <= i < |rounds| ensures SafeTogether(t, p, rounds[i]) {
      CleanRoundsDoNotContend(t, p, rounds[i]);
    }
    forall x: nat ensures SafeTogether(t, p, Round(x, RunningAt(p.Size(), log, x))) {
      CleanRoundsDoNotContend(t, p, Round(x, RunningAt(p.Size(), log, x)));
    }
    r := Simulated(elapsed, peak, waits);
  }

  // ------------------------------------------------ agreement with the linter

  /** No resource key is held by two nodes. */
  ghost predicate Unshared(p: Plan) {
    forall u: nat, v: nat, key: string :: u < v < |p.keys| && key in p.keys[u] ==> key !in p.keys[v]
  }

  lemma UnsharedNeverBlocks(p: Plan)
    requires Unshared(p) && |p.keys| == p.Size() && forall key: string :: p.Capacity(key) > 0
    ensures NeverBlocks(p)
  {
    forall key: string ensures |HoldersAmong(p, Nodes(p.Size()), key)| <= p.Capacity(key) {
      var h := HoldersAmong(p, Nodes(p.Size()), key);
      if v :| v in h {
        forall u | u in h ensures u == v {
          assert u < v || v < u || u == v;
        }
        assert h == {v};
      } else {
        assert h == {};
      }
    }
  }

  function Estimates(nodes: seq<TopologyNode>): (estimates: seq<Option<nat>>)
    ensures |estimates| == |nodes| && forall v :: 0 <= v < |nodes| ==> estimates[v] == nodes[v].estimatedDurationMs
  {
    seq(|nodes|, v requires 0 <= v < |nodes| => nodes[v].estimatedDurationMs)
  }

  ghost predicate IsLinterCritical(t: ExecutionTopology, critical: nat) {
    exists total :: IsCriticalWeight(|t.nodes|, ArcsOf(t), Known(Estimates(t.nodes)), total) &&
      critical == Saturate(total)
  }

  ghost predicate Estimated(nodes: seq<TopologyNode>) {
    forall v :: 0 <= v < |nodes| ==> nodes[v].estimatedDurationMs.Some? && nodes[v].estimatedDurationMs.value <= U64_MAX
  }

  /** The linter's `critical_path_ms` metric. */
  method LinterCritical(t: ExecutionTopology) returns (critical: nat)
    requires Acyclic(|t.nodes|, ArcsOf(t)) && t.nodes != [] && Estimated(t.nodes)
    ensures IsLinterCritical(t, critical)
  {
    var adjacency, reverse := BuildAdjacency(t);
    ArcsWellFormed(t);
    var c := CriticalPath(Estimates(t.nodes), reverse, ArcsOf(t));
    critical := c.value;
  }

  /** No two nodes hold a common resource key. */
  ghost predicate KeysUnshared(nodes: seq<TopologyNode>) {
    forall u: nat, v: nat, key: string :: u < v < |nodes| && HoldsKey(nodes[u].resourceClaims, key) ==>
      !HoldsKey(nodes[v].resourceClaims, key)
  }

  lemma BoundsGiveCritical(t: ExecutionTopology, request: SimulationRequest, p: Plan, elapsed: nat, critical: nat)
    requires PlanFor(t, request, Known(Estimates(t.nodes)), p) && MeetsBounds(p, ArcsOf(t), elapsed)
    requires Estimated(t.nodes) && KeysUnshared(t.nodes) && IsLinterCritical(t, critical)
    requires request.fanInPenaltyMsPerInput == 0 && |t.nodes| <= request.maxParallelism
    ensures elapsed == critical
  {
    assert Unshared(p);
    UnsharedNeverBlocks(p);
    ZeroPenalty(p);
  }

  /** Runs the linter's critical path and the simulator on the nodes' own estimates. */
  method CompareWithLinter(t: ExecutionTopology, request: SimulationRequest) returns (elapsed: nat, critical: nat)
    requires ValidRequest(request) && NamesContent(request, t) && LintClean(t) && |t.edges| <= U64_MAX
    requires Estimated(t.nodes) && KeysUnshared(t.nodes)
    requires request.fanInPenaltyMsPerInput == 0 && |t.nodes| <= request.maxParallelism
    ensures elapsed == critical && IsLinterCritical(t, critical)
  {
    critical := LinterCritical(t);
    var r; ghost var p, log, rounds;
    r, p, log, rounds := SimulateTopology(t, request, Known(Estimates(t.nodes)));
    elapsed := r.elapsedMs;
    BoundsGiveCritical(t, request, p, elapsed, critical);
  }

  lemma ZeroPenalty(p: Plan)
    requires p.penalty == 0 && |p.fanIn| == p.Size() && |p.latency| == p.Size()
    requires forall v :: 0 <= v < |p.latency| ==> p.latency[v] <= U64_MAX
    ensures Durations(p) == p.latency
  {
    forall v: nat | v < p.Size() ensures p.Duration(v) == p.latency[v] {
      assert p.penalty * p.fanIn[v] == 0;
    }
  }
}
