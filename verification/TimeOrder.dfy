/** The simulated time under a rearrangement of the topology: the same where nothing is scarce,
    and in general not. */
module TimeOrder {
  import opened Machine
  import opened Orders
  import opened Topology
  import opened CanonicalForm
  import opened Rearrangement
  import opened SmallTopologies
  import opened Graphs
  import opened Renumbering
  import opened Lint
  import opened LintOrder
  import opened Schedule
  import opened Timing
  import opened Simulation
  import opened TopologyRuns
  import opened GraphSimulation

  /** Latencies go with node ids. */
  ghost predicate SameLatencies(t: ExecutionTopology, u: ExecutionTopology, latency: seq<nat>, latency': seq<nat>) {
    && |latency| == |t.nodes| && |latency'| == |u.nodes|
    && forall i, j :: 0 <= i < |t.nodes| && 0 <= j < |u.nodes| && t.nodes[i].nodeId == u.nodes[j].nodeId ==>
         latency[i] == latency'[j]
  }

  lemma FanInBound(t: ExecutionTopology, u: ExecutionTopology, pi: seq<nat>, sigma: seq<nat>, v: nat)
    requires NodeIdsUnique(t.nodes) && NodeIdsUnique(u.nodes) && NodesMatch(t, u, pi) && EdgesMatch(t, u, sigma)
    requires v < |t.nodes|
    ensures Pending(ArcsOf(t), v, {}) <= Pending(ArcsOf(u), pi[v], {})
  {
    var a, b := PendingArcs(ArcsOf(t), v, {}), PendingArcs(ArcsOf(u), pi[v], {});
    forall e | e in a ensures e < |sigma| && sigma[e] in b { ArcMoved(t, u, pi, sigma, e); }
    InjectionBounds(a, b, sigma);
  }

  /** A node keeps its number of incoming edges. */
  lemma FanInKept(t: ExecutionTopology, u: ExecutionTopology, pi: seq<nat>, back: seq<nat>, v: nat)
    requires SameUpToOrder(t, u) && NodeIdsUnique(t.nodes) && NodeIdsUnique(u.nodes) && SameGraph(t, u, pi, back)
    requires v < |t.nodes|
    ensures Pending(ArcsOf(t), v, {}) == Pending(ArcsOf(u), pi[v], {})
  {
    var sigma, sigmaBack := MatchEdges(t, u);
    FanInBound(t, u, pi, sigma, v);
    FanInBound(u, t, back, sigmaBack, pi[v]);
  }

  lemma KeyBack(a: TopologyNode, b: TopologyNode, key: string)
    requires SameNode(a, b) && HoldsKey(b.resourceClaims, key)
    ensures HoldsKey(a.resourceClaims, key)
  {
    var back := RearrangedBack(a.resourceClaims, b.resourceClaims, SameClaim);
    var j :| 0 <= j < |b.resourceClaims| && ClaimHolds(b.resourceClaims[j], key);
    assert ClaimHolds(a.resourceClaims[back[j]], key);
  }

  /** The plan reserves the resource keys of these nodes. */
  ghost predicate ReservesFor(p: Plan, nodes: seq<TopologyNode>) {
    p.Size() == |nodes| && p.keys == NodeKeys(nodes)
  }

  lemma HolderIff(p: Plan, nodes: seq<TopologyNode>, key: string, v: nat)
    requires ReservesFor(p, nodes)
    ensures v in HoldersAmong(p, Nodes(p.Size()), key) <==> v < |nodes| && HoldsKey(nodes[v].resourceClaims, key)
  {
  }

  lemma HolderMoves(p: Plan, q: Plan, a: seq<TopologyNode>, b: seq<TopologyNode>, back: seq<nat>, key: string)
    requires ReservesFor(p, a) && ReservesFor(q, b) && |a| == |b| == |back| && IsMatching(|back|, back)
    requires forall j :: 0 <= j < |b| ==> SameNode(a[back[j]], b[j])
    ensures |HoldersAmong(q, Nodes(q.Size()), key)| <= |HoldersAmong(p, Nodes(p.Size()), key)|
  {
    var of_q, of_p := HoldersAmong(q, Nodes(q.Size()), key), HoldersAmong(p, Nodes(p.Size()), key);
    forall v | v in of_q ensures v < |back| && back[v] in of_p {
      HolderIff(q, b, key, v);
      KeyBack(a[back[v]], b[v], key);
      HolderIff(p, a, key, back[v]);
    }
    InjectionBounds(of_q, of_p, back);
  }

  /** If resources never block one listing of the topology they never block another. */
  lemma NeverBlocksKept(p: Plan, q: Plan, a: seq<TopologyNode>, b: seq<TopologyNode>)
    requires ReservesFor(p, a) && ReservesFor(q, b) && Rearranged(a, b, SameNode)
    requires NeverBlocks(p) && q.capacities == p.capacities
    ensures NeverBlocks(q)
  {
    var back := RearrangedBack(a, b, SameNode);
    forall key: string ensures |HoldersAmong(q, Nodes(q.Size()), key)| <= q.Capacity(key) {
      HolderMoves(p, q, a, b, back, key);
      assert q.Capacity(key) == p.Capacity(key);
    }
  }

  lemma DurationKept(t: ExecutionTopology, u: ExecutionTopology, request: SimulationRequest, latency: seq<nat>,
      latency': seq<nat>, p: Plan, q: Plan, v: nat, w: nat)
    requires PlanFor(t, request, latency, p) && PlanFor(u, request, latency', q)
    requires SameLatencies(t, u, latency, latency')
    requires v < |t.nodes| && w < |u.nodes| && t.nodes[v].nodeId == u.nodes[w].nodeId
    requires Pending(ArcsOf(t), v, {}) == Pending(ArcsOf(u), w, {})
    ensures q.Duration(w) == p.Duration(v)
  {
  }

  lemma DurationsKept(t: ExecutionTopology, u: ExecutionTopology, request: SimulationRequest, latency: seq<nat>,
      latency': seq<nat>, p: Plan, q: Plan, pi: seq<nat>, back: seq<nat>)
    requires SameUpToOrder(t, u) && NodeIdsUnique(t.nodes) && NodeIdsUnique(u.nodes) && SameGraph(t, u, pi, back)
    requires PlanFor(t, request, latency, p) && PlanFor(u, request, latency', q)
    requires SameLatencies(t, u, latency, latency')
    ensures forall v :: 0 <= v < p.Size() ==> Durations(q)[pi[v]] == Durations(p)[v]
  {
    forall v | 0 <= v < p.Size() ensures Durations(q)[pi[v]] == Durations(p)[v] {
      FanInKept(t, u, pi, back, v);
      assert SameNode(t.nodes[v], u.nodes[pi[v]]);
      DurationKept(t, u, request, latency, latency', p, q, v, pi[v]);
    }
  }

  /** Where resources never block and every node has a slot, the simulated time does not depend
      on the order in which the topology lists its parts. */
  lemma ElapsedForgetsOrder(t: ExecutionTopology, u: ExecutionTopology, request: SimulationRequest,
      latency: seq<nat>, latency': seq<nat>, p: Plan, q: Plan, elapsed: nat, elapsed': nat)
    requires SameUpToOrder(t, u) && Valid(t)
    requires PlanFor(t, request, latency, p) && PlanFor(u, request, latency', q)
    requires SameLatencies(t, u, latency, latency')
    requires NeverBlocks(p) && |t.nodes| <= request.maxParallelism
    requires MeetsBounds(p, ArcsOf(t), elapsed) && MeetsBounds(q, ArcsOf(u), elapsed')
    ensures elapsed == elapsed'
  {
    ValidForgetsOrder(t, u);
    var pi, back := Renumber(t, u);
    NeverBlocksKept(p, q, t.nodes, u.nodes);
    DurationsKept(t, u, request, latency, latency', p, q, pi, back);
    var total := CriticalExists(p.Size(), ArcsOf(t), Durations(p));
    CriticalCarried(p.Size(), ArcsOf(t), ArcsOf(u), pi, back, Durations(p), Durations(q), total);
  }

  /** A request that the simulator accepts for one listing of a topology it accepts for all. */
  lemma AcceptanceForgetsOrder(t: ExecutionTopology, u: ExecutionTopology, request: SimulationRequest)
    requires SameUpToOrder(t, u)
    ensures NamesContent(request, t) && LintClean(t) <==> NamesContent(request, u) && LintClean(u)
  {
    LintForgetsOrder(t, u);
    if LintClean(t) {
      ValidKeysUnique(t);
      UniqueKeysAreHarmless(t);
      CanonicalIffSameUpToOrder(t, u);
    }
  }

  // ------------------------------------------------------------ when order shows

  /** Three nodes without arcs or resource keys, two slots. */
  ghost predicate ThreeFree(p: Plan, g: Graph) {
    && p.Size() == |p.fanIn| == |p.latency| == |p.keys| == 3 && p.slots == 2 && g == map[]
    && (forall v :: 0 <= v < 3 ==> p.keys[v] == [])
  }

  /** Everything the simulator says about its run. */
  ghost predicate IsRun(p: Plan, g: Graph, log: Log, rounds: seq<Round>, elapsed: nat)
    requires |p.fanIn| == p.Size() && |p.latency| == p.Size()
  {
    && IsSchedule(p, g, log, elapsed) && Samples(p.Size(), log, rounds, Nodes(p.Size()))
    && (forall i :: 0 <= i < |rounds| ==> SafeRound(p, g, rounds[i]))
    && Clockwork(log, rounds, elapsed) && RefusalsHeldUp(p, g, rounds)
  }

  /** In such a plan a round leaves a node unstarted only if both slots are taken, by smaller
      indices where it starts anything. */
  lemma NothingRefused(p: Plan, g: Graph, rounds: seq<Round>, i: nat, v: nat)
    requires ThreeFree(p, g) && RefusalsHeldUp(p, g, rounds) && i < |rounds|
    requires v < 3 && v !in Seen(rounds[..i]) && v !in rounds[i].running
    ensures |rounds[i].running| >= 2 && forall u :: u in rounds[i].running && u !in Seen(rounds[..i]) ==> u <= v
  {
    var earlier, running := rounds[..i], rounds[i].running;
    assert RoundHoldsUp(p, running, RefusedIn(p, g, earlier, rounds[i]));
    assert PendingArcs(g, v, Seen(earlier) - running) == {};
    assert !HeldUp(p, running, v);
    assert v !in RefusedIn(p, g, earlier, rounds[i]);
  }

  /** Two slots and smallest index first: the pair is 0 and 1. */
  lemma Pair(s: set<nat>)
    requires |s| <= 2 && s <= Nodes(3)
    requires forall v: nat :: v < 3 && v !in s ==> |s| >= 2 && forall u :: u in s ==> u <= v
    ensures s == {0, 1}
  {
    if 2 in s {
      assert 0 in s && 1 in s;
      SubsetSizes({0, 1, 2}, s);
      assert false;
    }
    assert s <= {0, 1};
    SubsetSizes(s, {0, 1});
  }

  lemma {:induction false} SubsetSizes(a: set<nat>, b: set<nat>)
    requires a <= b
    ensures |a| <= |b| && (|a| == |b| ==> a == b)
  {
    if x :| x in a {
      SubsetSizes(a - {x}, b - {x});
    } else {
      assert a == {};
    }
  }

  /** The first round starts nodes 0 and 1. */
  lemma FirstPair(p: Plan, g: Graph, rounds: seq<Round>)
    requires ThreeFree(p, g) && rounds != [] && SafeRound(p, g, rounds[0]) && RefusalsHeldUp(p, g, rounds)
    ensures rounds[0].running == {0, 1}
  {
    assert Seen(rounds[..0]) == {};
    forall v: nat | v < 3 && v !in rounds[0].running
      ensures |rounds[0].running| >= 2 && forall u :: u in rounds[0].running ==> u <= v
    {
      NothingRefused(p, g, rounds, 0, v);
    }
    Pair(rounds[0].running);
  }

  /** The second round starts node 2, since node 1 has left by then. */
  lemma SecondStarts(p: Plan, g: Graph, rounds: seq<Round>)
    requires ThreeFree(p, g) && |rounds| > 1 && SafeRound(p, g, rounds[1]) && RefusalsHeldUp(p, g, rounds)
    requires rounds[0].running == {0, 1} && 1 !in rounds[1].running
    ensures 2 in rounds[1].running
  {
    assert rounds[..1] == [rounds[0]] && [rounds[0]][..0] == [];
    assert Seen(rounds[..1]) == {0, 1};
    if 2 !in rounds[1].running {
      NothingRefused(p, g, rounds, 1, 2);
      SubsetSizes(rounds[1].running, {0});
      assert false;
    }
  }

  /** A node is seen in some round, and shown only inside its interval. */
  lemma Shown(n: nat, log: Log, rounds: seq<Round>, v: nat) returns (i: nat)
    requires Samples(n, log, rounds, Nodes(n)) && v < n
    ensures i < |rounds| && v in rounds[i].running && rounds[i].at == log.start[v]
  {
    assert v in Nodes(n);
    assert StartsIn(log, rounds, v);
    i :| 0 <= i < |rounds| && v in rounds[i].running && rounds[i].at == log.start[v];
  }

  lemma FirstFinish(log: Log, d0: nat, d1: nat, x: nat)
    requires |log.finish| == 3 && log.finish[0] == d0 && log.finish[1] == d1 && d1 <= d0
    requires IsEarliest(log, {0, 1}, x)
    ensures x == d1
  {
  }

  /** When the second round begins node 1 has just finished, and node 2 starts. */
  lemma SecondRound(p: Plan, g: Graph, log: Log, rounds: seq<Round>, now: nat, d0: nat, d1: nat)
    requires ThreeFree(p, g) && |rounds| > 1 && SafeRound(p, g, rounds[1]) && RefusalsHeldUp(p, g, rounds)
    requires Clockwork(log, rounds, now) && rounds[0].running == {0, 1}
    requires |log.finish| == 3 && log.finish[0] == d0 && log.finish[1] == d1 && d1 <= d0
    ensures rounds[1].at == d1 && 2 in rounds[1].running
  {
    assert IsEarliest(log, rounds[0].running, NextAt(rounds, 0, now));
    FirstFinish(log, d0, d1, rounds[1].at);
    assert EndsAfter(log, rounds[0], rounds[1]);
    SecondStarts(p, g, rounds);
  }

  /** A node that runs in the second round and not in the first starts with the second. */
  lemma ThirdStart(log: Log, rounds: seq<Round>, k: nat)
    requires Samples(3, log, rounds, Nodes(3)) && 0 < k < |rounds| && 2 in rounds[1].running
    requires rounds[k].at == log.start[2]
    ensures log.start[2] == rounds[1].at
  {
    assert ShowsLog(3, log, rounds[1]);
    if k > 1 { assert StaysRunning(3, log, rounds[1], rounds[k]); }
  }

  lemma FirstStarts(log: Log, rounds: seq<Round>)
    requires Samples(3, log, rounds, Nodes(3)) && rounds != [] && rounds[0] == Round(0, {0, 1})
    ensures log.start[0] == 0 && log.start[1] == 0
  {
    assert ShowsLog(3, log, rounds[0]);
  }

  /** The start times of the run. */
  lemma StartsOf(p: Plan, g: Graph, log: Log, rounds: seq<Round>, now: nat) returns (k: nat)
    requires ThreeFree(p, g) && Samples(3, log, rounds, Nodes(3)) && Clockwork(log, rounds, now)
    requires (forall i :: 0 <= i < |rounds| ==> SafeRound(p, g, rounds[i])) && RefusalsHeldUp(p, g, rounds)
    requires forall v :: 0 <= v < 3 ==> log.finish[v] == SaturatingAdd(log.start[v], p.Duration(v))
    requires 0 < p.Duration(1) <= p.Duration(0) <= U64_MAX
    ensures log.start[0] == 0 && log.start[1] == 0 && log.start[2] == p.Duration(1)
  {
    k := Shown(3, log, rounds, 2);
    FirstPair(p, g, rounds);
    FirstStarts(log, rounds);
    assert k > 0;
    SecondRound(p, g, log, rounds, now, p.Duration(0), p.Duration(1));
    ThirdStart(log, rounds, k);
  }

  lemma LastFinish(log: Log, rounds: seq<Round>, now: nat) returns (v: nat)
    requires Samples(3, log, rounds, Nodes(3)) && Clockwork(log, rounds, now)
    ensures v < 3 && log.finish[v] == now
  {
    var k := Shown(3, log, rounds, 0);
    var last := |rounds| - 1;
    assert IsEarliest(log, rounds[last].running, NextAt(rounds, last, now));
    v :| v in rounds[last].running && v < |log.finish| && log.finish[v] == now;
  }

  /** If the second node finishes first, the third starts then, and the run ends when the
      first and the third are done. */
  lemma ThreeFreeElapsed(p: Plan, g: Graph, log: Log, rounds: seq<Round>, elapsed: nat)
    requires ThreeFree(p, g) && IsRun(p, g, log, rounds, elapsed)
    requires 0 < p.Duration(1) <= p.Duration(0) <= U64_MAX && p.Duration(1) + p.Duration(2) <= U64_MAX
    ensures elapsed == Max(p.Duration(0), p.Duration(1) + p.Duration(2))
  {
    var k := StartsOf(p, g, log, rounds, elapsed);
    var v := LastFinish(log, rounds, elapsed);
    assert v == 0 || v == 1 || v == 2;
    assert log.finish[0] <= elapsed && log.finish[2] <= elapsed;
  }

  /** Three bare nodes. */
  function Trio(a: string, b: string, c: string): ExecutionTopology {
    Small([NodeNamed(a), NodeNamed(b), NodeNamed(c)], [])
  }

  /** Three nodes that claim nothing, and no edges. */
  ghost predicate IsTrio(t: ExecutionTopology) {
    && |t.nodes| == 3 && t.edges == []
    && forall v :: 0 <= v < 3 ==> t.nodes[v].resourceClaims == [] && t.nodes[v].expansionPolicyId.None?
  }

  lemma TrioEntries(t: ExecutionTopology, a: string, b: string, c: string)
    requires t == Trio(a, b, c) && Filled(a) && Filled(b) && Filled(c)
    ensures EntriesValid(t) && IsTrio(t)
  {
    NodeIsValid(t, a);
    NodeIsValid(t, b);
    NodeIsValid(t, c);
    assert t.nodes == [NodeNamed(a), NodeNamed(b), NodeNamed(c)] && t.edges == [];
  }

  lemma TrioIsValid(t: ExecutionTopology, a: string, b: string, c: string)
    requires t == Trio(a, b, c) && Filled(a) && Filled(b) && Filled(c) && a != b && a != c && b != c
    ensures IsTrio(t) && Valid(t)
  {
    TrioEntries(t, a, b, c);
    assert t.nodes[0].nodeId == a && t.nodes[1].nodeId == b && t.nodes[2].nodeId == c;
    SmallIsValid(t);
  }

  lemma TrioIsClean(t: ExecutionTopology)
    requires IsTrio(t) && Valid(t)
    ensures LintClean(t) && ArcsOf(t) == map[]
  {
    var none: Graph := map[];
    assert ArcsOf(t) == none;
    assert IsRanking(3, none, [0, 0, 0]);
    RankingIsAcyclic(3, none, [0, 0, 0]);
    ConflictFreeIffShareSafely(t);
  }

  lemma TrioIsReady(t: ExecutionTopology, a: string, b: string, c: string)
    requires t == Trio(a, b, c) && Filled(a) && Filled(b) && Filled(c) && a != b && a != c && b != c
    ensures IsTrio(t) && LintClean(t)
  {
    TrioIsValid(t, a, b, c);
    TrioIsClean(t);
  }

  function TwoSlots(t: ExecutionTopology): SimulationRequest {
    SimulationRequest(Canonical(t), 2, map[], 0)
  }

  lemma TrioRun(t: ExecutionTopology, latency: seq<nat>, p: Plan)
    requires IsTrio(t) && PlanFor(t, TwoSlots(t), latency, p) && ArcsOf(t) == map[]
    requires forall v :: 0 <= v < |latency| ==> latency[v] <= U64_MAX
    ensures ThreeFree(p, map[]) && forall v :: 0 <= v < 3 ==> p.Duration(v) == latency[v]
  {
    ZeroPenalty(p);
    assert forall v :: 0 <= v < 3 ==> p.Duration(v) == Durations(p)[v];
  }

  lemma TrioRearranged(a: string, b: string, c: string)
    ensures SameUpToOrder(Trio(a, b, c), Trio(c, a, b))
  {
    var t, u := Trio(a, b, c), Trio(c, a, b);
    assert multiset([NodeNamed(a), NodeNamed(b), NodeNamed(c)]) == multiset([NodeNamed(c), NodeNamed(a), NodeNamed(b)]);
    SameUpToOrderLists(t, u.nodes, u.edges);
  }

  lemma TrioLatencies(t: ExecutionTopology, u: ExecutionTopology, a: string, b: string, c: string)
    requires t == Trio(a, b, c) && u == Trio(c, a, b) && a != b && a != c && b != c
    ensures SameLatencies(t, u, [1, 1, 2], [2, 1, 1])
  {
    assert t.nodes[0].nodeId == a && t.nodes[1].nodeId == b && t.nodes[2].nodeId == c;
    assert u.nodes[0].nodeId == c && u.nodes[1].nodeId == a && u.nodes[2].nodeId == b;
  }

  /** Simulates three bare nodes on two slots. */
  method SimulateTrio(t: ExecutionTopology, latency: seq<nat>) returns (elapsed: nat)
    requires IsTrio(t) && LintClean(t) && |latency| == 3 && 0 < latency[1] <= latency[0] <= U64_MAX
    requires latency[1] + latency[2] <= U64_MAX
    ensures elapsed == Max(latency[0], latency[1] + latency[2])
  {
    TrioIsClean(t);
    var r; ghost var p, log, rounds;
    r, p, log, rounds := SimulateTopology(t, TwoSlots(t), latency);
    elapsed := r.elapsedMs;
    Bounded(latency);
    TrioElapsed(t, latency, p, log, rounds, elapsed, r.resourceWaitEvents);
  }

  lemma Bounded(s: seq<nat>)
    requires |s| == 3 && s[0] <= U64_MAX && s[1] + s[2] <= U64_MAX
    ensures forall v :: 0 <= v < |s| ==> s[v] <= U64_MAX
  {
  }

  lemma TrioElapsed(t: ExecutionTopology, latency: seq<nat>, p: Plan, log: Log, rounds: seq<Round>, elapsed: nat,
      waits: nat)
    requires IsTrio(t) && PlanFor(t, TwoSlots(t), latency, p) && ArcsOf(t) == map[]
    requires 0 < latency[1] <= latency[0] && latency[1] + latency[2] <= U64_MAX
    requires forall v :: 0 <= v < |latency| ==> latency[v] <= U64_MAX
    requires IsSchedule(p, ArcsOf(t), log, elapsed) && SafeThroughout(t, p, log, rounds)
    requires Clockwork(log, rounds, elapsed) && WaitsExactly(t, p, rounds, waits)
    ensures elapsed == Max(latency[0], latency[1] + latency[2])
  {
    TrioRun(t, latency, p);
    SafeIsRun(t, p, log, rounds, elapsed, waits);
    ThreeFreeElapsed(p, ArcsOf(t), log, rounds, elapsed);
  }

  lemma SafeIsRun(t: ExecutionTopology, p: Plan, log: Log, rounds: seq<Round>, elapsed: nat, waits: nat)
    requires |p.fanIn| == p.Size() && |p.latency| == p.Size()
    requires IsSchedule(p, ArcsOf(t), log, elapsed) && SafeThroughout(t, p, log, rounds)
    requires Clockwork(log, rounds, elapsed) && WaitsExactly(t, p, rounds, waits)
    ensures IsRun(p, ArcsOf(t), log, rounds, elapsed)
  {
    forall i | 0 <= i < |rounds| ensures SafeRound(p, ArcsOf(t), rounds[i]) {
      assert SafeTogether(t, p, rounds[i]);
    }
  }

  lemma TriosCompare(a: string, b: string, c: string)
    requires Filled(a) && Filled(b) && Filled(c) && a != b && a != c && b != c
    ensures SameUpToOrder(Trio(a, b, c), Trio(c, a, b)) && LintClean(Trio(a, b, c)) && LintClean(Trio(c, a, b))
    ensures SameLatencies(Trio(a, b, c), Trio(c, a, b), [1, 1, 2], [2, 1, 1])
    ensures IsTrio(Trio(a, b, c)) && IsTrio(Trio(c, a, b))
  {
    TrioIsReady(Trio(a, b, c), a, b, c);
    TrioIsReady(Trio(c, a, b), c, a, b);
    TrioRearranged(a, b, c);
    TrioLatencies(Trio(a, b, c), Trio(c, a, b), a, b, c);
  }

  /** One topology in two arrangements, with the same latencies by node: ready nodes are tried
      in list order, so the simulated times are 3 and 2. */
  method OrderShows(a: string, b: string, c: string) returns (elapsed: nat, elapsed': nat)
    requires Filled(a) && Filled(b) && Filled(c) && a != b && a != c && b != c
    ensures SameUpToOrder(Trio(a, b, c), Trio(c, a, b)) && LintClean(Trio(a, b, c)) && LintClean(Trio(c, a, b))
    ensures SameLatencies(Trio(a, b, c), Trio(c, a, b), [1, 1, 2], [2, 1, 1])
    ensures elapsed == 3 && elapsed' == 2
  {
    var t, u := Trio(a, b, c), Trio(c, a, b);
    TriosCompare(a, b, c);
    elapsed := SimulateTrio(t, [1, 1, 2]);
    elapsed' := SimulateTrio(u, [2, 1, 1]);
  }
}
