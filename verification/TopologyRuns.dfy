/** What a run of the simulator means for the topology it runs: resource keys, durations,
    precedence and occupancy, in terms of nodes, edges and claims. */
module TopologyRuns {
  import opened Machine
  import opened Orders
  import opened Topology
  import opened Graphs
  import opened Lint
  import opened Schedule
  import opened Timing
  import opened Simulation

  // ------------------------------------------------------------- resource keys

  /** Insertion into an ordered set of keys. */
  function InsertKey(key: string, keys: seq<string>): (r: seq<string>)
    requires NoRepeats(keys)
    ensures NoRepeats(r) && forall k :: k in r <==> k == key || k in keys
  {
    if key in keys then keys else
      var r := Insert(key, keys, StringLeq);
      InsertIsDistinct(key, keys);
      r
  }

  lemma InsertIsDistinct(key: string, keys: seq<string>)
    requires NoRepeats(keys) && key !in keys
    ensures NoRepeats(Insert(key, keys, StringLeq))
    ensures forall k :: k in Insert(key, keys, StringLeq) <==> k == key || k in keys
  {
    var r, all := Insert(key, keys, StringLeq), [key] + keys;
    assert multiset(all) == multiset{key} + multiset(keys);
    SameMultiset(r, all);
    var pi := MultisetGivesMatching(r, all);
    forall i, j | 0 <= i < j < |r| ensures r[i] != r[j] {
      assert pi[i] != pi[j] && all[pi[i]] == r[i] && all[pi[j]] == r[j];
    }
  }

  predicate ClaimHolds(c: ResourceClaim, key: string) {
    || (c.mode != Read && c.resource == key)
    || (c.rateLimitGroup.Some? && key == "rate_limit_group:" + c.rateLimitGroup.value)
  }

  predicate HoldsKey(claims: seq<ResourceClaim>, key: string) {
    exists i :: 0 <= i < |claims| && ClaimHolds(claims[i], key)
  }

  function AddClaimKeys(c: ResourceClaim, keys: seq<string>): (r: seq<string>)
    requires NoRepeats(keys)
    ensures NoRepeats(r) && forall k :: k in r <==> k in keys || ClaimHolds(c, k)
  {
    var keys := if c.mode != Read then InsertKey(c.resource, keys) else keys;
    if c.rateLimitGroup.Some? then InsertKey("rate_limit_group:" + c.rateLimitGroup.value, keys) else keys
  }

  /** `resource_keys`: non-read resources and rate-limit groups, each once. */
  function ResourceKeys(claims: seq<ResourceClaim>): (keys: seq<string>)
    ensures NoRepeats(keys)
    ensures forall k :: k in keys <==> HoldsKey(claims, k)
  {
    if claims == [] then [] else
      HoldsKeySplit(claims);
      AddClaimKeys(claims[|claims| - 1], ResourceKeys(claims[..|claims| - 1]))
  }

  lemma HoldsKeySplit(claims: seq<ResourceClaim>)
    requires claims != []
    ensures forall k :: HoldsKey(claims, k) <==>
      HoldsKey(claims[..|claims| - 1], k) || ClaimHolds(claims[|claims| - 1], k)
  {
    var front := claims[..|claims| - 1];
    forall k ensures HoldsKey(claims, k) <==> HoldsKey(front, k) || ClaimHolds(claims[|claims| - 1], k) {
      if HoldsKey(claims, k) {
        var i :| 0 <= i < |claims| && ClaimHolds(claims[i], k);
        assert i < |front| ==> front[i] == claims[i];
      }
      if HoldsKey(front, k) {
        var i :| 0 <= i < |front| && ClaimHolds(front[i], k);
        assert claims[i] == front[i];
      }
    }
  }

  function NodeKeys(nodes: seq<TopologyNode>): (keys: seq<seq<string>>)
    ensures |keys| == |nodes| && forall v :: 0 <= v < |nodes| ==> keys[v] == ResourceKeys(nodes[v].resourceClaims)
  {
    if nodes == [] then [] else NodeKeys(nodes[..|nodes| - 1]) + [ResourceKeys(nodes[|nodes| - 1].resourceClaims)]
  }

  // ------------------------------------------------------------ durations, precedence

  /** The edges that end at node `v` and start at some node. */
  ghost function IncomingEdges(t: ExecutionTopology, v: nat): set<nat>
    requires v < |t.nodes|
  {
    set e | 0 <= e < |t.edges| && t.edges[e].to == t.nodes[v].nodeId && NamesNode(t, t.edges[e].from)
  }

  /** `x` is the number, or the largest 64-bit number if that is less. */
  predicate IsCapped(x: nat, number: int) {
    x == if number < 0x1_0000_0000_0000_0000 then number else 0xFFFF_FFFF_FFFF_FFFF
  }

  /** The duration of each node is its latency plus the penalty for each incoming edge. */
  ghost predicate ChargesEachEdge(t: ExecutionTopology, latency: seq<nat>, penalty: nat, durations: seq<nat>) {
    && |latency| == |t.nodes| && |durations| == |t.nodes|
    && forall v {:trigger durations[v]} :: 0 <= v < |t.nodes| ==>
         IsCapped(durations[v], latency[v] + penalty * |IncomingEdges(t, v)|)
  }

  /** Each node ends its latency and the penalty for each incoming edge after its start. */
  ghost predicate EndsOnTime(t: ExecutionTopology, latency: seq<nat>, penalty: nat, log: Log) {
    && |latency| == |t.nodes| && |log.start| == |t.nodes| && |log.finish| == |t.nodes|
    && forall v {:trigger log.finish[v]} :: 0 <= v < |t.nodes| ==>
         IsCapped(log.finish[v], log.start[v] + latency[v] + penalty * |IncomingEdges(t, v)|)
  }

  /** Every edge's source ends before its target starts. */
  ghost predicate FollowsEdges(t: ExecutionTopology, log: Log) {
    && |log.start| == |t.nodes| && |log.finish| == |t.nodes|
    && forall e, u, v | 0 <= e < |t.edges| && 0 <= u < |t.nodes| && 0 <= v < |t.nodes| ::
         t.edges[e].from == t.nodes[u].nodeId && t.edges[e].to == t.nodes[v].nodeId ==> log.finish[u] <= log.start[v]
  }

  /** `x` is the latest end. */
  ghost predicate IsLatestEnd(log: Log, x: nat) {
    && (forall v :: 0 <= v < |log.finish| ==> log.finish[v] <= x)
    && exists v :: 0 <= v < |log.finish| && log.finish[v] == x
  }

  lemma IncomingArcs(t: ExecutionTopology, v: nat)
    requires NodeIdsUnique(t.nodes) && v < |t.nodes|
    ensures PendingArcs(ArcsOf(t), v, {}) == IncomingEdges(t, v)
  {
    forall e ensures e in PendingArcs(ArcsOf(t), v, {}) <==> e in IncomingEdges(t, v) { IncomingArc(t, v, e); }
  }

  lemma IncomingArc(t: ExecutionTopology, v: nat, e: nat)
    requires NodeIdsUnique(t.nodes) && v < |t.nodes|
    ensures e in PendingArcs(ArcsOf(t), v, {}) <==> e in IncomingEdges(t, v)
  {
    if e in PendingArcs(ArcsOf(t), v, {}) {
      ArcsWellFormed(t);
      ArcByIds(t, e, ArcsOf(t)[e].from, v);
    }
    if e in IncomingEdges(t, v) {
      var u :| 0 <= u < |t.nodes| && t.nodes[u].nodeId == t.edges[e].from;
      ArcByIds(t, e, u, v);
    }
  }

  lemma DurationMeaning(t: ExecutionTopology, p: Plan, v: nat)
    requires NodeIdsUnique(t.nodes) && v < |t.nodes| && v < |p.latency| && v < |p.fanIn|
    requires p.fanIn[v] == Pending(ArcsOf(t), v, {})
    ensures IsCapped(p.Duration(v), p.latency[v] + p.penalty * |IncomingEdges(t, v)|)
    ensures forall s: nat :: IsCapped(SaturatingAdd(s, p.Duration(v)),
      s + p.latency[v] + p.penalty * |IncomingEdges(t, v)|)
  {
    IncomingArcs(t, v);
  }

  /** The plan is for this topology. */
  ghost predicate Serves(p: Plan, t: ExecutionTopology) {
    && NodeIdsUnique(t.nodes) && p.Size() == |t.nodes| && |p.latency| == p.Size() && |p.fanIn| == p.Size()
    && (forall v: nat :: v < p.Size() ==> p.fanIn[v] == Pending(ArcsOf(t), v, {}))
    && p.keys == NodeKeys(t.nodes)
  }

  lemma DurationsMeaning(t: ExecutionTopology, p: Plan)
    requires Serves(p, t)
    ensures ChargesEachEdge(t, p.latency, p.penalty, Durations(p))
  {
    forall v | 0 <= v < |t.nodes|
      ensures IsCapped(Durations(p)[v], p.latency[v] + p.penalty * |IncomingEdges(t, v)|) { DurationMeaning(t, p, v); }
  }

  lemma EndsMeaning(t: ExecutionTopology, p: Plan, log: Log, elapsed: nat)
    requires Serves(p, t) && IsSchedule(p, ArcsOf(t), log, elapsed)
    ensures EndsOnTime(t, p.latency, p.penalty, log)
  {
    forall v | 0 <= v < |t.nodes|
      ensures IsCapped(log.finish[v], log.start[v] + p.latency[v] + p.penalty * |IncomingEdges(t, v)|) {
      DurationMeaning(t, p, v);
    }
  }

  lemma EdgesMeaning(t: ExecutionTopology, p: Plan, log: Log, elapsed: nat)
    requires Serves(p, t) && IsSchedule(p, ArcsOf(t), log, elapsed)
    ensures FollowsEdges(t, log)
  {
    forall e, u, v | 0 <= e < |t.edges| && 0 <= u < |t.nodes| && 0 <= v < |t.nodes| &&
      t.edges[e].from == t.nodes[u].nodeId && t.edges[e].to == t.nodes[v].nodeId
      ensures log.finish[u] <= log.start[v]
    {
      ArcByIds(t, e, u, v);
    }
  }

  lemma LatestEnd(p: Plan, g: Graph, log: Log, rounds: seq<Round>, elapsed: nat)
    requires |p.fanIn| == p.Size() && |p.latency| == p.Size() && p.Size() > 0
    requires IsSchedule(p, g, log, elapsed) && Samples(p.Size(), log, rounds, Nodes(p.Size()))
    requires Clockwork(log, rounds, elapsed)
    ensures IsLatestEnd(log, elapsed)
  {
    assert 0 in Nodes(p.Size());
    assert StartsIn(log, rounds, 0);
    var last := |rounds| - 1;
    assert IsEarliest(log, rounds[last].running, NextAt(rounds, last, elapsed));
  }

  // -------------------------------------------------------------------- occupancy

  /** The running nodes with a claim that writes the resource or holds it exclusively. */
  ghost function WritersOf(t: ExecutionTopology, running: set<nat>, resource: string): set<nat> {
    set v | v in running && v < |t.nodes| && Writes(t.nodes[v], resource)
  }

  predicate Writes(n: TopologyNode, resource: string) {
    exists i :: 0 <= i < |n.resourceClaims| && n.resourceClaims[i].resource == resource &&
      (n.resourceClaims[i].mode == Write || n.resourceClaims[i].mode == Exclusive)
  }

  /** The running nodes with a claim in the rate-limit group. */
  ghost function MembersOf(t: ExecutionTopology, running: set<nat>, group: string): set<nat> {
    set v | v in running && v < |t.nodes| && InGroup(t.nodes[v], group)
  }

  predicate InGroup(n: TopologyNode, group: string) {
    exists i :: 0 <= i < |n.resourceClaims| && n.resourceClaims[i].rateLimitGroup == Some(group)
  }

  /** The declared number of holders, or one. */
  function Allowed(capacities: map<string, nat>, key: string): nat {
    if key in capacities then capacities[key] else 1
  }

  /** No more nodes than slots, writers than a resource admits, members than a group admits. */
  ghost predicate WithinLimits(t: ExecutionTopology, capacities: map<string, nat>, slots: nat, running: set<nat>) {
    && |running| <= slots
    && (forall resource :: |WritersOf(t, running, resource)| <= Allowed(capacities, resource))
    && (forall group :: |MembersOf(t, running, group)| <= Allowed(capacities, "rate_limit_group:" + group))
  }

  /** Nodes that run together share resources only as readers or as owners of isolated files. */
  ghost predicate RunningShareSafely(t: ExecutionTopology, running: set<nat>) {
    forall u, v :: u in running && v in running && u < |t.nodes| && v < |t.nodes| && u != v ==>
      ShareSafely(t.nodes[u], t.nodes[v])
  }

  lemma WritersHold(t: ExecutionTopology, p: Plan, running: set<nat>, key: string)
    requires p.keys == NodeKeys(t.nodes)
    ensures WritersOf(t, running, key) <= HoldersAmong(p, running, key)
  {
    forall v | v in WritersOf(t, running, key) ensures v in HoldersAmong(p, running, key) {
      var i :| 0 <= i < |t.nodes[v].resourceClaims| && t.nodes[v].resourceClaims[i].resource == key &&
        (t.nodes[v].resourceClaims[i].mode == Write || t.nodes[v].resourceClaims[i].mode == Exclusive);
      assert ClaimHolds(t.nodes[v].resourceClaims[i], key);
    }
  }

  lemma MembersHold(t: ExecutionTopology, p: Plan, running: set<nat>, group: string, key: string)
    requires p.keys == NodeKeys(t.nodes) && key == "rate_limit_group:" + group
    ensures MembersOf(t, running, group) <= HoldersAmong(p, running, key)
  {
    forall v | v in MembersOf(t, running, group) ensures v in HoldersAmong(p, running, key) {
      var i :| 0 <= i < |t.nodes[v].resourceClaims| && t.nodes[v].resourceClaims[i].rateLimitGroup == Some(group);
      assert ClaimHolds(t.nodes[v].resourceClaims[i], key);
    }
  }

  lemma LimitsMeaning(t: ExecutionTopology, p: Plan, round: Round)
    requires p.keys == NodeKeys(t.nodes) && SafeRound(p, ArcsOf(t), round)
    ensures WithinLimits(t, p.capacities, p.slots, round.running)
  {
    forall resource ensures |WritersOf(t, round.running, resource)| <= Allowed(p.capacities, resource) {
      WritersHold(t, p, round.running, resource);
      SubsetCount(WritersOf(t, round.running, resource), HoldersAmong(p, round.running, resource));
      assert Allowed(p.capacities, resource) == p.Capacity(resource);
    }
    forall group
      ensures |MembersOf(t, round.running, group)| <= Allowed(p.capacities, "rate_limit_group:" + group)
    {
      var key := "rate_limit_group:" + group;
      MembersHold(t, p, round.running, group, key);
      SubsetCount(MembersOf(t, round.running, group), HoldersAmong(p, round.running, key));
      assert Allowed(p.capacities, key) == p.Capacity(key);
    }
  }

  lemma SharingMeaning(t: ExecutionTopology, p: Plan, round: Round)
    requires ConflictFree(t) && p.Size() == |t.nodes| && SafeRound(p, ArcsOf(t), round)
    ensures RunningShareSafely(t, round.running)
  {
    forall u, v | u in round.running && v in round.running && u < |t.nodes| && v < |t.nodes| && u != v
      ensures ShareSafely(t.nodes[u], t.nodes[v])
    {
      CleanPairShares(t, u, v);
    }
  }

  // ------------------------------------------------------------------------ refusals

  /** The running nodes that hold the key, by a writing claim or by a rate-limit group. */
  ghost function OccupantsOf(t: ExecutionTopology, running: set<nat>, key: string): set<nat> {
    set v | v in running && v < |t.nodes| && Occupies(t.nodes[v], key)
  }

  predicate Occupies(n: TopologyNode, key: string) {
    exists i :: 0 <= i < |n.resourceClaims| && Takes(n.resourceClaims[i], key)
  }

  predicate Takes(c: ResourceClaim, key: string) {
    || ((c.mode == Write || c.mode == Exclusive) && c.resource == key)
    || (c.rateLimitGroup.Some? && key == "rate_limit_group:" + c.rateLimitGroup.value)
  }

  /** Something the node takes is held by as many running nodes as it admits. */
  ghost predicate LacksSomething(t: ExecutionTopology, capacities: map<string, nat>, running: set<nat>, v: nat) {
    && v < |t.nodes|
    && exists key :: Occupies(t.nodes[v], key) && |OccupantsOf(t, running, key)| >= Allowed(capacities, key)
  }

  lemma TakesMeaning(c: ResourceClaim, key: string)
    ensures Takes(c, key) <==> ClaimHolds(c, key)
  {
  }

  lemma OccupiesMeaning(t: ExecutionTopology, v: nat, key: string)
    requires v < |t.nodes|
    ensures Occupies(t.nodes[v], key) <==> key in NodeKeys(t.nodes)[v]
  {
    var claims := t.nodes[v].resourceClaims;
    forall i | 0 <= i < |claims| ensures Takes(claims[i], key) <==> ClaimHolds(claims[i], key) {
      TakesMeaning(claims[i], key);
    }
  }

  lemma RefusalMeaning(t: ExecutionTopology, p: Plan, running: set<nat>, v: nat)
    requires p.keys == NodeKeys(t.nodes) && HeldUp(p, running, v)
    ensures LacksSomething(t, p.capacities, running, v)
  {
    var i :| 0 <= i < |p.keys[v]| && |HoldersAmong(p, running, p.keys[v][i])| >= p.Capacity(p.keys[v][i]);
    var key := p.keys[v][i];
    OccupiesMeaning(t, v, key);
    forall u: nat ensures u in HoldersAmong(p, running, key) <==> u in OccupantsOf(t, running, key) {
      if u < |t.nodes| { OccupiesMeaning(t, u, key); }
    }
    assert HoldersAmong(p, running, key) == OccupantsOf(t, running, key);
  }
}
