/** `SimulationGraph::simulate`: the event loop itself, proved to run to the end,
    to stay within every limit, and to meet the makespan bounds. */
module Simulation {
  import opened Machine
  import opened Orders
  import opened Graphs
  import opened Schedule
  import opened Timing

  // ------------------------------------------------------------ usage counters

  method Reserve(usage0: map<string, nat>, keys: seq<string>) returns (usage: map<string, nat>)
    requires NoRepeats(keys)
    ensures Reserved(usage0, usage, keys)
  {
    usage := usage0;
    for i := 0 to |keys|
      invariant forall key: string :: Used(usage, key) == Used(usage0, key) + if key in keys[..i] then 1 else 0
    {
      assert keys[..i + 1] == keys[..i] + [keys[i]];
      usage := usage[keys[i] := Used(usage, keys[i]) + 1];
    }
    assert keys[..|keys|] == keys;
  }

  /** Every key is present with a positive count, so the decrement cannot fail. */
  method Return(usage0: map<string, nat>, keys: seq<string>) returns (usage: map<string, nat>)
    requires NoRepeats(keys) && forall i :: 0 <= i < |keys| ==> Used(usage0, keys[i]) > 0
    ensures Returned(usage0, usage, keys)
  {
    usage := usage0;
    for i := 0 to |keys|
      invariant forall key: string :: Used(usage, key) + (if key in keys[..i] then 1 else 0) == Used(usage0, key)
    {
      assert keys[..i + 1] == keys[..i] + [keys[i]];
      assert keys[i] !in keys[..i];
      assert Used(usage, keys[i]) > 0;
      usage := usage[keys[i] := usage[keys[i]] - 1];
    }
    assert keys[..|keys|] == keys;
  }

  method AnyExhausted(p: Plan, usage: map<string, nat>, v: nat) returns (blocked: bool)
    requires v < |p.keys|
    ensures blocked <==> Blocked(p, usage, v)
  {
    for i := 0 to |p.keys[v]|
      invariant forall j :: 0 <= j < i ==> Used(usage, p.keys[v][j]) < p.Capacity(p.keys[v][j])
    {
      if Used(usage, p.keys[v][i]) >= p.Capacity(p.keys[v][i]) {
        return true;
      }
    }
    blocked := false;
  }

  // ------------------------------------------------------------ starting nodes

  method Launch(p: Plan, ghost g: Graph, s: Sim, ghost done: set<nat>, ghost log: Log, ghost longest: seq<nat>, v: nat)
    returns (s': Sim, ghost log': Log)
    requires WellPosed(p, g) && IsLongestMap(p.Size(), g, Durations(p), longest)
    requires Inv(p, g, s, done) && Timed(p, g, longest, s, done, log)
    requires v in s.ready && v < p.Size() && |s.active| < p.slots && !Blocked(p, s.usage, v)
    ensures Inv(p, g, s', done) && Timed(p, g, longest, s', done, log')
    ensures s'.now == s.now && s'.waits == s.waits && s'.ready == s.ready - {v} && |s'.active| == |s.active| + 1
    ensures s'.peak == Max(s.peak, |s'.active|) && Reserved(s.usage, s'.usage, p.keys[v])
    ensures LogGrows(log, log', done, s.active, s'.active)
    ensures ActiveNodes(s'.active) == ActiveNodes(s.active) + {v} && v !in ActiveNodes(s.active)
  {
    var usage := Reserve(s.usage, p.keys[v]);
    var a := Entry(SaturatingAdd(s.now, p.Duration(v)), v, p.keys[v]);
    s' := s.(ready := s.ready - {v}, usage := usage, active := s.active + [a], peak := Max(s.peak, |s.active| + 1));
    log' := Begin(log, v, s.now, a.finish);
    LaunchInv(p, g, s, done, v, a, s');
    LaunchTimed(p, g, longest, s, done, log, a, s');
    LaunchGrows(p, g, s, done, log, a);
    NodesAppend(s.active, a);
  }

  /** Nodes already started keep their times, and no work is booked. */
  ghost predicate LogGrows(log: Log, log': Log, done: set<nat>, active: seq<Entry>, active': seq<Entry>) {
    && log'.spent == log.spent && |log'.start| == |log.start| && |log'.finish| == |log.finish|
    && ActiveNodes(active) <= ActiveNodes(active')
    && KeepsTimes(log, log', done + ActiveNodes(active))
  }

  ghost predicate KeepsTimes(log: Log, log': Log, nodes: set<nat>) {
    forall v :: v in nodes && v < |log.start| && v < |log'.start| && v < |log.finish| && v < |log'.finish| ==>
      log'.start[v] == log.start[v] && log'.finish[v] == log.finish[v]
  }

  lemma LaunchGrows(p: Plan, g: Graph, s: Sim, done: set<nat>, log: Log, a: Entry)
    requires Inv(p, g, s, done) && a.node in s.ready && a.node < |log.start| && a.node < |log.finish|
    ensures LogGrows(log, Begin(log, a.node, s.now, a.finish), done, s.active, s.active + [a])
  {
    assert a.node !in done && a.node !in ActiveNodes(s.active);
    NodesAppend(s.active, a);
  }

  lemma GrowsTransitive(a: Log, b: Log, c: Log, done: set<nat>, x: seq<Entry>, y: seq<Entry>, z: seq<Entry>)
    requires LogGrows(a, b, done, x, y) && LogGrows(b, c, done, y, z)
    ensures LogGrows(a, c, done, x, z)
  {
  }

  lemma LaunchInv(p: Plan, g: Graph, s: Sim, done: set<nat>, v: nat, a: Entry, s': Sim)
    requires Inv(p, g, s, done) && |p.keys| == p.Size()
    requires v in s.ready && v < p.Size() && |s.active| < p.slots && !Blocked(p, s.usage, v)
    requires a.node == v && a.resources == p.keys[v]
    requires s'.ready == s.ready - {v} && s'.active == s.active + [a] && s'.indegree == s.indegree &&
      s'.completed == s.completed
    requires Reserved(s.usage, s'.usage, p.keys[v])
    ensures Inv(p, g, s', done)
  {
    StartCausal(p, g, s, done, v, a);
    StartSlotted(p, s.active, a);
    StartMetered(p, s.active, s.usage, s'.usage, a);
  }

  lemma LaunchTimed(p: Plan, g: Graph, longest: seq<nat>, s: Sim, done: set<nat>, log: Log, a: Entry, s': Sim)
    requires WellPosed(p, g) && IsLongestMap(p.Size(), g, Durations(p), longest)
    requires Inv(p, g, s, done) && Timed(p, g, longest, s, done, log) && a.node in s.ready && a.node < p.Size()
    requires a.finish == SaturatingAdd(s.now, p.Duration(a.node))
    requires s'.now == s.now && s'.active == s.active + [a]
    ensures Timed(p, g, longest, s', done, Begin(log, a.node, s.now, a.finish))
  {
    var v := a.node;
    assert v !in done && v !in ActiveNodes(s.active) && Pending(g, v, done) == 0;
    NoPendingMeansPredecessorsFinished(g, v, done);
    NodesAppend(s.active, a);
    StartClocked(p, s, done, log, a, s');
    StartPrecedence(p, g, s, done, log, v, a.finish);
    StartNotEarly(p, g, longest, s, done, log, v);
    StartCovered(p, longest, s, done, log, v, a.finish, s');
  }

  lemma StartCovered(p: Plan, longest: seq<nat>, s: Sim, done: set<nat>, log: Log, v: nat, finish: nat, s': Sim)
    requires |p.fanIn| == p.Size() && |p.latency| == p.Size()
    requires Covered(p, longest, s, done, log) && v < |log.start| && v < |log.finish|
    ensures Covered(p, longest, s', done, Begin(log, v, s.now, finish))
  {
  }

  /** The counters are exact and the clock agrees with the log and the longest paths. */
  ghost predicate Steady(p: Plan, g: Graph, s: Sim, done: set<nat>, log: Log)
    requires WellPosed(p, g)
  {
    exists longest :: IsLongestMap(p.Size(), g, Durations(p), longest) && Inv(p, g, s, done) &&
      Timed(p, g, longest, s, done, log)
  }

  /** The start loop before candidate `v`: the counters and the log are right, started nodes
      keep their times, and the waits are tallied. */
  ghost predicate Starting(p: Plan, g: Graph, s0: Sim, done: set<nat>, log0: Log, v: nat, s: Sim, log: Log, limit: nat)
    requires WellPosed(p, g)
  {
    exists longest ::
      && IsLongestMap(p.Size(), g, Durations(p), longest)
      && Inv(p, g, s, done) && Timed(p, g, longest, s, done, log)
      && s.now == s0.now && s.peak == Max(s0.peak, |s.active|) && (NeverBlocks(p) ==> s.waits == s0.waits)
      && LogGrows(log0, log, done, s0.active, s.active)
      && Tally(p, s0.waits, s0.active, s, v, limit)
  }

  lemma StartingBegins(p: Plan, g: Graph, longest: seq<nat>, s: Sim, done: set<nat>, log: Log)
    requires WellPosed(p, g) && IsLongestMap(p.Size(), g, Durations(p), longest)
    requires Inv(p, g, s, done) && Timed(p, g, longest, s, done, log) && s.peak >= |s.active| && s.waits <= U64_MAX
    ensures Starting(p, g, s, done, log, 0, s, log, 0)
  {
    TallyStarts(p, s);
  }

  /** The `for node_index in candidates` loop, in ascending index order. */
  method StartReady(p: Plan, ghost g: Graph, s0: Sim, ghost done: set<nat>, ghost log0: Log)
    returns (s: Sim, ghost log: Log, ghost limit: nat)
    requires WellPosed(p, g) && Starting(p, g, s0, done, log0, 0, s0, log0, 0)
    ensures Starting(p, g, s0, done, log0, p.Size(), s, log, limit)
  {
    s, log, limit := s0, log0, 0;
    for v := 0 to p.Size()
      invariant Starting(p, g, s0, done, log0, v, s, log, limit)
    {
      s, log, limit := Candidate(p, g, s0, done, log0, v, s, log, limit);
    }
  }

  method Candidate(p: Plan, ghost g: Graph, ghost s0: Sim, ghost done: set<nat>, ghost log0: Log, v: nat, s: Sim,
      ghost log: Log, ghost limit: nat)
    returns (s': Sim, ghost log': Log, ghost limit': nat)
    requires WellPosed(p, g) && v < p.Size() && Starting(p, g, s0, done, log0, v, s, log, limit)
    ensures Starting(p, g, s0, done, log0, v + 1, s', log', limit')
  {
    if v in s.ready && |s.active| < p.slots {
      s', log' := StartCandidate(p, g, s0, done, log0, v, s, log, limit);
      limit' := v + 1;
    } else {
      limit' := if |s.active| < p.slots then v + 1 else limit;
      SkipCandidate(p, g, s0, done, log0, v, s, log, limit);
      s', log' := s, log;
    }
  }

  lemma SkipCandidate(p: Plan, g: Graph, s0: Sim, done: set<nat>, log0: Log, v: nat, s: Sim, log: Log, limit: nat)
    requires WellPosed(p, g) && Starting(p, g, s0, done, log0, v, s, log, limit) &&
      (v in s.ready ==> |s.active| >= p.slots)
    ensures Starting(p, g, s0, done, log0, v + 1, s, log, if |s.active| < p.slots then v + 1 else limit)
  {
    var longest :|
      && IsLongestMap(p.Size(), g, Durations(p), longest)
      && Inv(p, g, s, done) && Timed(p, g, longest, s, done, log)
      && s.now == s0.now && s.peak == Max(s0.peak, |s.active|) && (NeverBlocks(p) ==> s.waits == s0.waits)
      && LogGrows(log0, log, done, s0.active, s.active)
      && Tally(p, s0.waits, s0.active, s, v, limit);
    if |s.active| < p.slots { TallySkips(p, s0.waits, s0.active, s, v); }
      else { TallyStays(p, s0.waits, s0.active, s, v, limit); }
  }

  method StartCandidate(p: Plan, ghost g: Graph, ghost s0: Sim, ghost done: set<nat>, ghost log0: Log, v: nat,
      s: Sim, ghost log: Log, ghost limit: nat)
    returns (s': Sim, ghost log': Log)
    requires WellPosed(p, g) && v < p.Size() && Starting(p, g, s0, done, log0, v, s, log, limit)
    requires v in s.ready && |s.active| < p.slots
    ensures Starting(p, g, s0, done, log0, v + 1, s', log', v + 1)
  {
    var blocked := AnyExhausted(p, s.usage, v);
    if blocked {
      s', log' := s.(waits := SaturatingAdd(s.waits, 1)), log;
      RefuseCandidate(p, g, s0, done, log0, v, s, log, limit, s');
    } else {
      s', log' := LaunchCandidate(p, g, s0, done, log0, v, s, log, limit);
    }
  }

  lemma RefuseCandidate(p: Plan, g: Graph, s0: Sim, done: set<nat>, log0: Log, v: nat, s: Sim, log: Log, limit: nat,
      s': Sim)
    requires WellPosed(p, g) && v < p.Size() && Starting(p, g, s0, done, log0, v, s, log, limit)
    requires v in s.ready && |s.active| < p.slots && Blocked(p, s.usage, v) &&
      s' == s.(waits := SaturatingAdd(s.waits, 1))
    ensures Starting(p, g, s0, done, log0, v + 1, s', log, v + 1)
  {
    var longest :|
      && IsLongestMap(p.Size(), g, Durations(p), longest)
      && Inv(p, g, s, done) && Timed(p, g, longest, s, done, log)
      && s.now == s0.now && s.peak == Max(s0.peak, |s.active|) && (NeverBlocks(p) ==> s.waits == s0.waits)
      && LogGrows(log0, log, done, s0.active, s.active)
      && Tally(p, s0.waits, s0.active, s, v, limit);
    if NeverBlocks(p) {
      NotBlocked(p, s.active, s.usage, v);
      assert false;
    }
    WaitKeeps(p, g, longest, s, done, log, v, s');
    TallyRefuses(p, s0.waits, s0.active, s, v, s');
  }

  method LaunchCandidate(p: Plan, ghost g: Graph, ghost s0: Sim, ghost done: set<nat>, ghost log0: Log, v: nat,
      s: Sim, ghost log: Log, ghost limit: nat)
    returns (s': Sim, ghost log': Log)
    requires WellPosed(p, g) && v < p.Size() && Starting(p, g, s0, done, log0, v, s, log, limit)
    requires v in s.ready && |s.active| < p.slots && !Blocked(p, s.usage, v)
    ensures Starting(p, g, s0, done, log0, v + 1, s', log', v + 1)
  {
    ghost var longest :|
      && IsLongestMap(p.Size(), g, Durations(p), longest)
      && Inv(p, g, s, done) && Timed(p, g, longest, s, done, log)
      && s.now == s0.now && s.peak == Max(s0.peak, |s.active|) && (NeverBlocks(p) ==> s.waits == s0.waits)
      && LogGrows(log0, log, done, s0.active, s.active)
      && Tally(p, s0.waits, s0.active, s, v, limit);
    s', log' := Launch(p, g, s, done, log, longest, v);
    LaunchKeepsBlocked(p, s, s', v);
    GrowsTransitive(log0, log, log', done, s0.active, s.active, s'.active);
    TallyLaunches(p, s0.waits, s0.active, s, v, s');
  }

  /** Every ready node below `v` has been refused for want of a resource. */
  ghost predicate BlockedBelow(p: Plan, s: Sim, v: nat) {
    forall u :: u in s.ready && u < v && u < |p.keys| ==> Blocked(p, s.usage, u)
  }

  ghost function ReadyBelow(ready: set<nat>, limit: nat): set<nat> {
    set u | u in ready && u < limit
  }

  /** After the candidates below `v`: each of those below `limit` that is still ready was
      counted as a wait; the loop has stopped looking once the last slot was taken. */
  ghost predicate Tally(p: Plan, waits0: nat, active0: seq<Entry>, s: Sim, v: nat, limit: nat) {
    && s.waits == SaturatingAdd(waits0, |ReadyBelow(s.ready, limit)|) && BlockedBelow(p, s, limit) && limit <= v
    && (forall u :: u in ActiveNodes(s.active) && u !in ActiveNodes(active0) ==> u < limit)
    && (if |s.active| < p.slots then limit == v
        else limit == 0 || (limit - 1 in ActiveNodes(s.active) && limit - 1 !in ActiveNodes(active0)))
  }

  lemma TallyStarts(p: Plan, s: Sim)
    requires s.waits <= U64_MAX
    ensures Tally(p, s.waits, s.active, s, 0, 0)
  {
    assert ReadyBelow(s.ready, 0) == {};
  }

  lemma TallySkips(p: Plan, waits0: nat, active0: seq<Entry>, s: Sim, v: nat)
    requires Tally(p, waits0, active0, s, v, v) && v !in s.ready && |s.active| < p.slots
    ensures Tally(p, waits0, active0, s, v + 1, v + 1)
  {
    assert ReadyBelow(s.ready, v + 1) == ReadyBelow(s.ready, v);
  }

  lemma TallyStays(p: Plan, waits0: nat, active0: seq<Entry>, s: Sim, v: nat, limit: nat)
    requires Tally(p, waits0, active0, s, v, limit) && |s.active| >= p.slots
    ensures Tally(p, waits0, active0, s, v + 1, limit)
  {
  }

  lemma TallyRefuses(p: Plan, waits0: nat, active0: seq<Entry>, s: Sim, v: nat, s': Sim)
    requires Tally(p, waits0, active0, s, v, v) && v in s.ready && |s.active| < p.slots && BlockedBelow(p, s', v + 1)
    requires s' == s.(waits := SaturatingAdd(s.waits, 1))
    ensures Tally(p, waits0, active0, s', v + 1, v + 1)
  {
    assert ReadyBelow(s.ready, v + 1) == ReadyBelow(s.ready, v) + {v};
  }

  lemma TallyLaunches(p: Plan, waits0: nat, active0: seq<Entry>, s: Sim, v: nat, s': Sim)
    requires Tally(p, waits0, active0, s, v, v) && |s.active| < p.slots && BlockedBelow(p, s', v + 1)
    requires s'.waits == s.waits && s'.ready == s.ready - {v}
    requires ActiveNodes(s'.active) == ActiveNodes(s.active) + {v} && v !in ActiveNodes(active0)
    ensures Tally(p, waits0, active0, s', v + 1, v + 1)
  {
    assert ReadyBelow(s'.ready, v + 1) == ReadyBelow(s.ready, v);
  }

  lemma AllBlocked(p: Plan, g: Graph, s: Sim, done: set<nat>, waits0: nat, active0: seq<Entry>, limit: nat)
    requires Inv(p, g, s, done) && |p.keys| == p.Size() && Tally(p, waits0, active0, s, p.Size(), limit)
    ensures Saturated(p, s)
  {
  }

  lemma WaitKeeps(p: Plan, g: Graph, longest: seq<nat>, s: Sim, done: set<nat>, log: Log, v: nat, s': Sim)
    requires |p.fanIn| == p.Size() && |p.latency| == p.Size() && v < |p.keys|
    requires Inv(p, g, s, done) && Timed(p, g, longest, s, done, log)
    requires BlockedBelow(p, s, v) && Blocked(p, s.usage, v) && s' == s.(waits := s'.waits)
    ensures Inv(p, g, s', done) && Timed(p, g, longest, s', done, log) && BlockedBelow(p, s', v + 1)
  {
    assert s'.active == s.active && s'.ready == s.ready && s'.usage == s.usage && s'.now == s.now;
    WaitKeepsBlocked(p, s, v, s');
  }

  lemma WaitKeepsBlocked(p: Plan, s: Sim, v: nat, s': Sim)
    requires v < |p.keys| && BlockedBelow(p, s, v) && Blocked(p, s.usage, v) && s' == s.(waits := s'.waits)
    ensures BlockedBelow(p, s', v + 1)
  {
  }

  lemma LaunchKeepsBlocked(p: Plan, s: Sim, s': Sim, v: nat)
    requires v < |p.keys| && BlockedBelow(p, s, v) && s'.ready == s.ready - {v} &&
      Reserved(s.usage, s'.usage, p.keys[v])
    ensures BlockedBelow(p, s', v + 1)
  {
    forall u | u in s'.ready && u < v + 1 && u < |p.keys| ensures Blocked(p, s'.usage, u) {
      BlockedStays(p, s.usage, s'.usage, p.keys[v], u);
    }
  }

  // ---------------------------------------------------------- completing nodes

  method EarliestFinish(active: seq<Entry>) returns (next: nat)
    requires active != []
    ensures exists i :: 0 <= i < |active| && active[i].finish == next
    ensures forall i :: 0 <= i < |active| ==> next <= active[i].finish
  {
    next := active[0].finish;
    for i := 0 to |active|
      invariant exists j :: 0 <= j < |active| && active[j].finish == next
      invariant forall j :: 0 <= j < i ==> next <= active[j].finish
    {
      next := Min(next, active[i].finish);
    }
  }

  /** Ascending positions whose entry finishes at `next`. */
  method FinishedPositions(active: seq<Entry>, next: nat) returns (positions: seq<nat>)
    ensures DuePositions(active, positions, next)
  {
    positions := [];
    for k := 0 to |active|
      invariant forall i :: 0 <= i < |positions| ==> positions[i] < k && active[positions[i]].finish == next
      invariant forall i, j :: 0 <= i < j < |positions| ==> positions[i] < positions[j]
      invariant forall j :: 0 <= j < k && active[j].finish == next ==> j in positions
    {
      if active[k].finish == next {
        positions := positions + [k];
      }
    }
  }

  method ReleaseOne(ghost n: nat, ghost g: Graph, indegree: seq<nat>, ready: set<nat>, ghost running: set<nat>,
      ghost done: set<nat>,
                    x: nat, ghost rest: multiset<nat>)
    returns (indegree': seq<nat>, ready': set<nat>)
    requires Releasing(n, g, indegree, ready, running, done, rest) && x in rest
    ensures Releasing(n, g, indegree', ready', running, done, rest - multiset{x})
  {
    assert rest[x] > 0;
    indegree' := indegree[x := indegree[x] - 1];
    ready' := if indegree'[x] == 0 then ready + {x} else ready;
    ReleaseStep(n, g, indegree, ready, running, done, rest, x, indegree', ready');
  }

  method Release(successors: seq<nat>, ghost n: nat, ghost g: Graph, indegree0: seq<nat>, ready0: set<nat>,
                 ghost running: set<nat>, ghost done: set<nat>)
    returns (indegree: seq<nat>, ready: set<nat>)
    requires Releasing(n, g, indegree0, ready0, running, done, multiset(successors))
    ensures Counters(n, g, indegree, ready, running, done)
  {
    indegree, ready := indegree0, ready0;
    assert successors[0..] == successors;
    for j := 0 to |successors|
      invariant Releasing(n, g, indegree, ready, running, done, multiset(successors[j..]))
    {
      SliceStep(successors, j);
      indegree, ready := ReleaseOne(n, g, indegree, ready, running, done, successors[j], multiset(successors[j..]));
    }
    assert successors[|successors|..] == [];
    EndRelease(n, g, indegree, ready, running, done);
  }

  method CompleteOne(p: Plan, ghost g: Graph, s: Sim, ghost done: set<nat>, ghost log: Log, ghost longest: seq<nat>,
      position: nat)
    returns (s': Sim)
    requires WellPosed(p, g) && Inv(p, g, s, done) && Timed(p, g, longest, s, done, log)
    requires position < |s.active| && s.active[position].finish == s.now
    ensures Inv(p, g, s', done + {s.active[position].node})
    ensures Timed(p, g, longest, s', done + {s.active[position].node}, log)
    ensures s'.now == s.now && s'.peak == s.peak && s'.waits == s.waits && s'.active == SwapRemove(s.active, position)
  {
    ghost var node := s.active[position].node;
    var usage, indegree, ready := Retire(p, g, s, done, position);
    s' := s.(active := SwapRemove(s.active, position), usage := usage, indegree := indegree, ready := ready,
      completed := s.completed + 1);
    CompleteInv(p, g, s, done, position, s');
    CompleteTimed(p, g, longest, s, done, log, position, s');
  }

  /** Hands the reserved keys back and releases the successors. */
  method Retire(p: Plan, ghost g: Graph, s: Sim, ghost done: set<nat>, position: nat)
    returns (usage: map<string, nat>, indegree: seq<nat>, ready: set<nat>)
    requires WellPosed(p, g) && Inv(p, g, s, done) && position < |s.active|
    ensures Returned(s.usage, usage, s.active[position].resources)
    ensures Counters(p.Size(), g, indegree, ready, ActiveNodes(s.active) - {s.active[position].node},
      done + {s.active[position].node})
  {
    var entry := s.active[position];
    var node := entry.node;
    assert node in ActiveNodes(s.active) && node < p.Size() && entry.resources == p.keys[node];
    HeldIsUsed(p, s.active, s.usage, position);
    usage := Return(s.usage, entry.resources);
    SuccessorCounts(p, g, node);
    BeginRelease(p.Size(), g, s.indegree, s.ready, ActiveNodes(s.active), done, node, multiset(p.successors[node]));
    indegree, ready := Release(p.successors[node], p.Size(), g, s.indegree, s.ready, ActiveNodes(s.active) - {node},
      done + {node});
  }

  lemma SuccessorCounts(p: Plan, g: Graph, u: nat)
    requires IsSuccessorTable(p.Size(), g, p.successors) && u < p.Size()
    ensures forall v: nat :: v < p.Size() ==> multiset(p.successors[u])[v] == ArcCount(g, u, v)
    ensures forall v :: v in multiset(p.successors[u]) ==> v < p.Size()
  {
    forall v | v in multiset(p.successors[u]) ensures v < p.Size() {
      assert v in p.successors[u];
    }
  }

  lemma HeldIsUsed(p: Plan, active: seq<Entry>, usage: map<string, nat>, i: nat)
    requires Metered(p, active, usage) && i < |active|
    ensures forall j :: 0 <= j < |active[i].resources| ==> Used(usage, active[i].resources[j]) > 0
  {
    forall j | 0 <= j < |active[i].resources| ensures Used(usage, active[i].resources[j]) > 0 {
      SwapRemoveHolders(active, i, active[i].resources[j]);
    }
  }

  lemma CompleteInv(p: Plan, g: Graph, s: Sim, done: set<nat>, i: nat, s': Sim)
    requires Inv(p, g, s, done) && i < |s.active| && s'.active == SwapRemove(s.active, i)
    requires Returned(s.usage, s'.usage, s.active[i].resources) && s'.completed == s.completed + 1
    requires Counters(p.Size(), g, s'.indegree, s'.ready, ActiveNodes(s.active) - {s.active[i].node},
      done + {s.active[i].node})
    ensures Inv(p, g, s', done + {s.active[i].node})
  {
    assert s.active[i].node in ActiveNodes(s.active);
    SwapRemoveNodes(s.active, i);
    CompleteCausal(p.Size(), g, ActiveNodes(s.active), done, s.active[i].node);
    CompleteSlotted(p, s.active, i);
    CompleteMetered(p, s.active, s.usage, s'.usage, i);
  }

  ghost function FinishedAt(active: seq<Entry>, next: nat): set<nat> {
    set i | 0 <= i < |active| && active[i].finish == next :: active[i].node
  }

  /** Entries below `bound` are untouched; above it nothing finishes at `next`. */
  ghost predicate SweepInv(active0: seq<Entry>, active: seq<Entry>, bound: nat, next: nat) {
    && bound <= |active| <= |active0|
    && (forall j :: 0 <= j < bound ==> active[j] == active0[j])
    && (forall j :: bound <= j < |active| ==> active[j].finish != next)
  }

  lemma SweepStep(active0: seq<Entry>, active: seq<Entry>, bound: nat, next: nat, i: nat)
    requires SweepInv(active0, active, bound, next) && i < bound
    requires forall j :: i < j < bound ==> active0[j].finish != next
    ensures SweepInv(active0, SwapRemove(active, i), i, next)
  {
  }

  /** The reversed `swap_remove` loop: exactly the entries due now leave. */
  method CompleteDue(p: Plan, ghost g: Graph, s0: Sim, ghost done0: set<nat>, ghost log: Log, ghost longest: seq<nat>)
    returns (s: Sim, ghost done: set<nat>)
    requires WellPosed(p, g) && Inv(p, g, s0, done0) && Timed(p, g, longest, s0, done0, log)
    ensures Inv(p, g, s, done) && Timed(p, g, longest, s, done, log)
    ensures done == done0 + FinishedAt(s0.active, s0.now)
    ensures done + ActiveNodes(s.active) == done0 + ActiveNodes(s0.active)
    ensures forall i :: 0 <= i < |s.active| ==> s.active[i].finish != s0.now
    ensures s.now == s0.now && s.peak == s0.peak && s.waits == s0.waits && |s.active| <= |s0.active|
  {
    var positions := FinishedPositions(s0.active, s0.now);
    s, done := s0, done0;
    var k := |positions|;
    SweepStarts(s0.active, positions, s0.now, done0);
    while k > 0
      invariant 0 <= k <= |positions|
      invariant Inv(p, g, s, done) && Timed(p, g, longest, s, done, log)
      invariant s.now == s0.now && s.peak == s0.peak && s.waits == s0.waits
      invariant Sweeping(s0.active, s.active, positions, k, s0.now, done0, done)
      invariant done + ActiveNodes(s.active) == done0 + ActiveNodes(s0.active)
    {
      k := k - 1;
      SweepNext(s0.active, s.active, positions, k, s0.now, done0, done);
      ghost var node := s.active[positions[k]].node;
      StartedStays(p, s.active, positions[k], done);
      s := CompleteOne(p, g, s, done, log, longest, positions[k]);
      done := done + {node};
    }
    SweepEnds(s0.active, s.active, positions, s0.now, done0, done);
  }

  lemma StartedStays(p: Plan, active: seq<Entry>, i: nat, done: set<nat>)
    requires Slotted(p, active) && i < |active|
    ensures done + {active[i].node} + ActiveNodes(SwapRemove(active, i)) == done + ActiveNodes(active)
  {
    SwapRemoveNodes(active, i);
    assert active[i].node in ActiveNodes(active);
  }

  ghost predicate DuePositions(active: seq<Entry>, positions: seq<nat>, next: nat) {
    && (forall i :: 0 <= i < |positions| ==> positions[i] < |active| && active[positions[i]].finish == next)
    && (forall i, j :: 0 <= i < j < |positions| ==> positions[i] < positions[j])
    && (forall k :: 0 <= k < |active| && active[k].finish == next ==> k in positions)
  }

  /** `positions[k..]` have been swept, highest first. */
  ghost predicate Sweeping(active0: seq<Entry>, active: seq<Entry>, positions: seq<nat>, k: nat, next: nat,
                           done0: set<nat>, done: set<nat>)
  {
    && k <= |positions| && DuePositions(active0, positions, next)
    && SweepInv(active0, active, if k == |positions| then |active0| else positions[k], next)
    && done == done0 + Swept(active0, positions[k..])
  }

  lemma SweepStarts(active: seq<Entry>, positions: seq<nat>, next: nat, done: set<nat>)
    requires DuePositions(active, positions, next)
    ensures Sweeping(active, active, positions, |positions|, next, done, done)
  {
    assert Swept(active, positions[|positions|..]) == {};
  }

  lemma SweepNext(active0: seq<Entry>, active: seq<Entry>, positions: seq<nat>, k: nat, next: nat, done0: set<nat>,
      done: set<nat>)
    requires k < |positions| && Sweeping(active0, active, positions, k + 1, next, done0, done)
    ensures positions[k] < |active| && active[positions[k]] == active0[positions[k]] &&
      active[positions[k]].finish == next
    ensures Sweeping(active0, SwapRemove(active, positions[k]), positions, k, next, done0,
      done + {active[positions[k]].node})
  {
    var bound := if k + 1 == |positions| then |active0| else positions[k + 1];
    NoDueBetween(active0, positions, k, bound, next);
    SweepStep(active0, active, bound, next, positions[k]);
    SweptGrows(active0, positions, k);
  }

  lemma SweepEnds(active0: seq<Entry>, active: seq<Entry>, positions: seq<nat>, next: nat, done0: set<nat>,
      done: set<nat>)
    requires Sweeping(active0, active, positions, 0, next, done0, done)
    ensures done == done0 + FinishedAt(active0, next) && |active| <= |active0|
    ensures forall j :: 0 <= j < |active| ==> active[j].finish != next
  {
    assert positions[0..] == positions;
    SweptAll(active0, positions, next);
    SweepDone(active0, active, positions, if positions == [] then |active0| else positions[0], next);
  }

  ghost function Swept(active: seq<Entry>, positions: seq<nat>): set<nat> {
    set i | 0 <= i < |positions| && positions[i] < |active| :: active[positions[i]].node
  }

  lemma SweptGrows(active: seq<Entry>, positions: seq<nat>, k: nat)
    requires k < |positions| && positions[k] < |active|
    ensures Swept(active, positions[k..]) == Swept(active, positions[k + 1..]) + {active[positions[k]].node}
  {
    var a, b := positions[k..], positions[k + 1..];
    assert forall i :: 0 <= i < |b| ==> b[i] == a[i + 1];
    forall v | v in Swept(active, b) ensures v in Swept(active, a) {
      var i :| 0 <= i < |b| && b[i] < |active| && active[b[i]].node == v;
      assert a[i + 1] == b[i];
    }
    forall v | v in Swept(active, a) ensures v in Swept(active, b) + {active[positions[k]].node} {
      var i :| 0 <= i < |a| && a[i] < |active| && active[a[i]].node == v;
      if i > 0 { assert b[i - 1] == a[i]; }
    }
    assert a[0] == positions[k];
  }

  lemma NoDueBetween(active: seq<Entry>, positions: seq<nat>, k: nat, bound: nat, next: nat)
    requires k < |positions| && bound <= |active|
    requires forall i, j :: 0 <= i < j < |positions| ==> positions[i] < positions[j]
    requires forall j :: 0 <= j < |active| && active[j].finish == next ==> j in positions
    requires bound == if k + 1 == |positions| then |active| else positions[k + 1]
    ensures forall j :: positions[k] < j < bound ==> active[j].finish != next
  {
    forall j | positions[k] < j < bound ensures active[j].finish != next {
      assert forall i :: 0 <= i < |positions| ==> positions[i] != j;
      assert j !in positions;
    }
  }

  lemma SweptAll(active: seq<Entry>, positions: seq<nat>, next: nat)
    requires forall i :: 0 <= i < |positions| ==> positions[i] < |active| && active[positions[i]].finish == next
    requires forall j :: 0 <= j < |active| && active[j].finish == next ==> j in positions
    ensures Swept(active, positions) == FinishedAt(active, next)
  {
  }

  lemma SweepDone(active0: seq<Entry>, active: seq<Entry>, positions: seq<nat>, bound: nat, next: nat)
    requires SweepInv(active0, active, bound, next)
    requires forall i, j :: 0 <= i < j < |positions| ==> positions[i] < positions[j]
    requires forall j :: 0 <= j < |active0| && active0[j].finish == next ==> j in positions
    requires bound == if positions == [] then |active0| else positions[0]
    ensures forall j :: 0 <= j < |active| ==> active[j].finish != next
  {
    forall j | 0 <= j < |active| ensures active[j].finish != next {
      assert j < bound ==> j !in positions;
    }
  }

  // ------------------------------------------------------------- the event loop

  /** Every node is started and finished once, in an order that respects the arcs. */
  ghost predicate IsSchedule(p: Plan, g: Graph, log: Log, elapsed: nat)
    requires |p.fanIn| == p.Size() && |p.latency| == p.Size()
  {
    && |log.start| == p.Size() && |log.finish| == p.Size()
    && (forall v: nat :: v < p.Size() ==>
          log.finish[v] == SaturatingAdd(log.start[v], p.Duration(v)) && log.finish[v] <= elapsed)
    && (forall e :: e in g ==>
          g[e].from < p.Size() && g[e].to < p.Size() && log.finish[g[e].from] <= log.start[g[e].to])
  }

  ghost predicate IsPeak(rounds: seq<Round>, peak: nat) {
    && (forall i :: 0 <= i < |rounds| ==> |rounds[i].running| <= peak)
    && (peak == 0 || exists i :: 0 <= i < |rounds| && |rounds[i].running| == peak)
  }

  method InitialState(p: Plan, ghost g: Graph, ghost longest: seq<nat>) returns (s: Sim, ghost log: Log)
    requires WellPosed(p, g) && IsLongestMap(p.Size(), g, Durations(p), longest)
    ensures Inv(p, g, s, {}) && Timed(p, g, longest, s, {}, log) && s.now == 0 && s.active == [] && s.peak == 0 &&
      s.waits == 0
  {
    var ready: set<nat> := {};
    for v := 0 to p.Size()
      invariant forall u: nat :: u in ready <==> u < v && Pending(g, u, {}) == 0
    {
      if p.fanIn[v] == 0 {
        ready := ready + {v};
      }
    }
    s := Sim(0, ready, [], map[], p.fanIn, 0, 0, 0);
    log := Log(Repeat(p.Size(), 0), Repeat(p.Size(), 0), Repeat(p.Size(), 0), 0);
    SumZeros(p.Size());
    assert ActiveNodes(s.active) == {};
    forall key: string ensures Used(s.usage, key) == Holders(s.active, key) &&
      Holders(s.active, key) <= p.Capacity(key) {
    }
  }

  lemma {:induction false} SumZeros(n: nat)
    ensures Sum(Repeat<nat>(n, 0)) == 0
  {
    if n > 0 {
      SumZeros(n - 1);
      assert Repeat<nat>(n, 0)[..n - 1] == Repeat<nat>(n - 1, 0);
    }
  }

  /** The state between the start loop and the clock. */
  ghost predicate Launched(p: Plan, g: Graph, longest: seq<nat>, s: Sim, done: set<nat>, log: Log)
    requires WellPosed(p, g)
  {
    && IsLongestMap(p.Size(), g, Durations(p), longest) && Inv(p, g, s, done) && Timed(p, g, longest, s, done, log)
    && Saturated(p, s) && s.active != []
  }

  /** What the start loop of a round did: who runs now, who was refused, and the peak. */
  ghost predicate RoundTold(p: Plan, g: Graph, s0: Sim, done: set<nat>, log0: Log, s: Sim, log: Log, round: Round) {
    && SafeRound(p, g, round) && round.at == s0.now && s.peak == Max(s0.peak, |round.running|)
    && (NeverBlocks(p) ==> s.waits == s0.waits)
    && RoundFits(p.Size(), log0, log, done, ActiveNodes(s0.active), round)
    && WaitsCounted(p, g, done, ActiveNodes(s0.active), round.running, s0.waits, s.waits)
  }

  /** The first half of a pass: start what can be started. */
  method LaunchRound(p: Plan, ghost g: Graph, s0: Sim, ghost done: set<nat>, ghost log0: Log)
    returns (s: Sim, ghost log: Log, ghost longest: seq<nat>)
    requires WellPosed(p, g) && Starting(p, g, s0, done, log0, 0, s0, log0, 0) && |done| < p.Size()
    ensures Launched(p, g, longest, s, done, log) && s.now == s0.now && s.peak >= |s.active|
    ensures RoundTold(p, g, s0, done, log0, s, log, Round(s.now, ActiveNodes(s.active)))
  {
    ghost var limit;
    s, log, limit := StartReady(p, g, s0, done, log0);
    longest := StartingFacts(p, g, s0, done, log0, s, log, limit);
    Progress(p, g, s, done);
    RoundIsFit(p, g, s0, done, log0, s, log);
    InvGivesSafeRound(p, g, s, done);
    DistinctNodeCount(s.active);
  }

  /** `x` is the earliest finish time of the running nodes. */
  ghost predicate IsEarliest(log: Log, running: set<nat>, x: nat) {
    && (forall v :: v in running ==> v < |log.finish| && x <= log.finish[v])
    && (exists v :: v in running && v < |log.finish| && log.finish[v] == x)
  }

  /** What the clock does after a round: it goes to the earliest finish, and exactly the
      nodes due then leave. */
  ghost predicate RoundClosed(s0: Sim, done0: set<nat>, log0: Log, s: Sim, done: set<nat>, log: Log) {
    && log.start == log0.start && log.finish == log0.finish && s.peak == s0.peak && s.waits == s0.waits
    && s0.now <= s.now && IsEarliest(log, ActiveNodes(s0.active), s.now) && StillBusy(log, s)
    && done + ActiveNodes(s.active) == done0 + ActiveNodes(s0.active) && |s.active| <= |s0.active|
  }

  /** Every running node finishes later than now. */
  ghost predicate StillBusy(log: Log, s: Sim) {
    forall v :: v in ActiveNodes(s.active) ==> v < |log.finish| && s.now < log.finish[v]
  }

  /** The second half of a pass: advance the clock, complete what is due. */
  method CloseRound(p: Plan, ghost g: Graph, ghost longest: seq<nat>, s0: Sim, ghost done0: set<nat>, ghost log0: Log)
    returns (s: Sim, ghost done: set<nat>, ghost log: Log)
    requires WellPosed(p, g) && Launched(p, g, longest, s0, done0, log0)
    ensures Steady(p, g, s, done, log) && RoundClosed(s0, done0, log0, s, done, log)
    ensures done0 < done <= Nodes(p.Size())
  {
    var next := EarliestFinish(s0.active);
    NextInRange(p, s0, done0, log0, next);
    AdvanceTimed(p, g, longest, s0, done0, log0, next);
    NextIsEarliest(p, s0, done0, log0, next);
    log := Advance(log0, s0, next);
    DueIsRunning(s0.active, next);
    s, done := CompleteDue(p, g, s0.(now := next), done0, log, longest);
    LeftAreBusy(p, s, done, log);
  }

  lemma NextIsEarliest(p: Plan, s: Sim, done: set<nat>, log: Log, next: nat)
    requires |p.fanIn| == p.Size() && |p.latency| == p.Size() && Clocked(p, s, done, log)
    requires exists i :: 0 <= i < |s.active| && s.active[i].finish == next
    requires forall i :: 0 <= i < |s.active| ==> next <= s.active[i].finish
    ensures IsEarliest(log, ActiveNodes(s.active), next)
  {
    var i :| 0 <= i < |s.active| && s.active[i].finish == next;
    assert s.active[i].node in ActiveNodes(s.active);
    assert Running(p, s.now, s.active[i], log);
    forall v | v in ActiveNodes(s.active) ensures v < |log.finish| && next <= log.finish[v] {
      var j :| 0 <= j < |s.active| && s.active[j].node == v;
      assert Running(p, s.now, s.active[j], log);
    }
  }

  lemma LeftAreBusy(p: Plan, s: Sim, done: set<nat>, log: Log)
    requires |p.fanIn| == p.Size() && |p.latency| == p.Size() && Clocked(p, s, done, log)
    requires forall i :: 0 <= i < |s.active| ==> s.active[i].finish != s.now
    ensures StillBusy(log, s)
  {
    forall v | v in ActiveNodes(s.active) ensures v < |log.finish| && s.now < log.finish[v] {
      var j :| 0 <= j < |s.active| && s.active[j].node == v;
      assert Running(p, s.now, s.active[j], log);
    }
  }

  /** Everything a pass of the outer loop does, apart from keeping its invariant. */
  ghost predicate RoundDone(p: Plan, g: Graph, s0: Sim, done0: set<nat>, log0: Log, s: Sim, done: set<nat>, log: Log,
      round: Round)
  {
    && RoundTold(p, g, s0, done0, log0, s, log, round)
    && s0.now <= s.now && IsEarliest(log, round.running, s.now) && StillBusy(log, s)
    && done + ActiveNodes(s.active) == done0 + round.running && s.peak >= |s.active|
  }

  /** One pass of the outer loop: start, advance the clock, complete. */
  method RunRound(p: Plan, ghost g: Graph, s0: Sim, ghost done0: set<nat>, ghost log0: Log)
    returns (s: Sim, ghost done: set<nat>, ghost log: Log, ghost round: Round)
    requires WellPosed(p, g) && Starting(p, g, s0, done0, log0, 0, s0, log0, 0) && |done0| < p.Size()
    ensures Steady(p, g, s, done, log) && RoundDone(p, g, s0, done0, log0, s, done, log, round)
    ensures done0 < done <= Nodes(p.Size())
  {
    var s1;
    ghost var log1, longest;
    s1, log1, longest := LaunchRound(p, g, s0, done0, log0);
    round := Round(s1.now, ActiveNodes(s1.active));
    s, done, log := CloseRound(p, g, longest, s1, done0, log1);
    RoundCloses(p, g, s0, done0, log0, s1, log1, s, done, log);
  }

  lemma RoundCloses(p: Plan, g: Graph, s0: Sim, done0: set<nat>, log0: Log, s1: Sim, log1: Log, s: Sim, done: set<nat>,
      log: Log)
    requires s1.now == s0.now && s1.peak >= |s1.active| && RoundClosed(s1, done0, log1, s, done, log)
    requires RoundTold(p, g, s0, done0, log0, s1, log1, Round(s1.now, ActiveNodes(s1.active)))
    ensures RoundDone(p, g, s0, done0, log0, s, done, log, Round(s1.now, ActiveNodes(s1.active)))
  {
    FitAdvances(p.Size(), log0, log1, log, done0, ActiveNodes(s0.active), Round(s1.now, ActiveNodes(s1.active)));
  }

  /** The nodes refused in a round: all whose predecessors are done and that neither run nor
      are done, as far as the loop looked, which is up to the node that took the last slot. */
  ghost function RefusedNow(p: Plan, g: Graph, done: set<nat>, active: set<nat>, running: set<nat>): set<nat> {
    set v | v in Nodes(p.Size()) && v !in done && v !in running && Pending(g, v, done) == 0 &&
            (|running| < p.slots || exists u :: u in running && u !in active && v < u)
  }

  /** One of the node's keys is used up by the running nodes. */
  ghost predicate HeldUp(p: Plan, running: set<nat>, v: nat) {
    v < |p.keys| && exists i ::
      0 <= i < |p.keys[v]| && |HoldersAmong(p, running, p.keys[v][i])| >= p.Capacity(p.keys[v][i])
  }

  ghost predicate WaitsCounted(p: Plan, g: Graph, done: set<nat>, active: set<nat>, running: set<nat>, waits0: nat,
      waits: nat) {
    var refused := RefusedNow(p, g, done, active, running);
    waits == SaturatingAdd(waits0, |refused|) && forall v :: v in refused ==> HeldUp(p, running, v)
  }

  lemma TallyIsExact(p: Plan, g: Graph, s0: Sim, s: Sim, done: set<nat>, limit: nat)
    requires Inv(p, g, s, done) && |p.keys| == p.Size() && Tally(p, s0.waits, s0.active, s, p.Size(), limit)
    ensures WaitsCounted(p, g, done, ActiveNodes(s0.active), ActiveNodes(s.active), s0.waits, s.waits)
  {
    TallyIsRefused(p, g, s0, s, done, limit);
    forall v | v in ReadyBelow(s.ready, limit)
      ensures HeldUp(p, ActiveNodes(s.active), v) { BlockedIsHeldUp(p, s.active, s.usage, v); }
  }

  lemma TallyIsRefused(p: Plan, g: Graph, s0: Sim, s: Sim, done: set<nat>, limit: nat)
    requires Inv(p, g, s, done) && Tally(p, s0.waits, s0.active, s, p.Size(), limit)
    ensures ReadyBelow(s.ready, limit) == RefusedNow(p, g, done, ActiveNodes(s0.active), ActiveNodes(s.active))
  {
    var running, active := ActiveNodes(s.active), ActiveNodes(s0.active);
    DistinctNodeCount(s.active);
    forall v | v in s.ready ensures v < limit <==>
      |running| < p.slots || exists u :: u in running && u !in active && v < u {
      if |running| >= p.slots && v < limit {
        assert limit - 1 in running && limit - 1 !in active && v != limit - 1;
      }
    }
  }

  lemma BlockedIsHeldUp(p: Plan, active: seq<Entry>, usage: map<string, nat>, v: nat)
    requires Slotted(p, active) && Metered(p, active, usage) && v < |p.keys| && Blocked(p, usage, v)
    ensures HeldUp(p, ActiveNodes(active), v)
  {
    var i :| 0 <= i < |p.keys[v]| && Used(usage, p.keys[v][i]) >= p.Capacity(p.keys[v][i]);
    HoldersAreNodes(p, active, p.keys[v][i]);
  }

  /** How the log after a round relates to the log before it: running nodes are inside
      their interval, started nodes keep theirs, new ones start now. */
  ghost predicate RoundFits(n: nat, log0: Log, log: Log, done: set<nat>, active: set<nat>, round: Round) {
    && |log0.start| == |log0.finish| == |log.start| == |log.finish| == n
    && KeepsTimes(log0, log, done + active) && active <= round.running && done !! round.running
    && (forall v :: v in round.running ==> v < n && log.start[v] <= round.at <= log.finish[v])
    && (forall v :: v in round.running && v !in active ==> log.start[v] == round.at)
    && (forall v :: v in done ==> v < n && log.finish[v] <= round.at)
  }

  lemma FitAdvances(n: nat, log0: Log, log: Log, log': Log, done: set<nat>, active: set<nat>, round: Round)
    requires RoundFits(n, log0, log, done, active, round) && log'.start == log.start && log'.finish == log.finish
    ensures RoundFits(n, log0, log', done, active, round)
  {
  }

  lemma RoundIsFit(p: Plan, g: Graph, s0: Sim, done: set<nat>, log0: Log, s: Sim, log: Log)
    requires WellPosed(p, g) && Starting(p, g, s0, done, log0, 0, s0, log0, 0)
    requires Clocked(p, s, done, log) && s.now == s0.now && ActiveNodes(s.active) !! done
    requires LogGrows(log0, log, done, s0.active, s.active)
    ensures RoundFits(p.Size(), log0, log, done, ActiveNodes(s0.active), Round(s.now, ActiveNodes(s.active)))
  {
    forall v | v in ActiveNodes(s.active)
      ensures v < p.Size() && log.start[v] <= s.now <= log.finish[v] &&
        (v !in ActiveNodes(s0.active) ==> log.start[v] == s.now)
    {
      var i :| 0 <= i < |s.active| && s.active[i].node == v;
      assert Running(p, s.now, s.active[i], log);
    }
    forall v | v in done ensures v < p.Size() && log.finish[v] <= s.now { assert Completed(p, s.now, v, log); }
  }

  /** What the start loop leaves behind. */
  lemma StartingFacts(p: Plan, g: Graph, s0: Sim, done: set<nat>, log0: Log, s: Sim, log: Log,
      limit: nat) returns (longest: seq<nat>)
    requires WellPosed(p, g) && Starting(p, g, s0, done, log0, p.Size(), s, log, limit)
    ensures IsLongestMap(p.Size(), g, Durations(p), longest) && Inv(p, g, s, done) && Timed(p, g, longest, s, done, log)
    ensures s.now == s0.now && s.peak == Max(s0.peak, |s.active|) && (NeverBlocks(p) ==> s.waits == s0.waits) &&
      Saturated(p, s)
    ensures LogGrows(log0, log, done, s0.active, s.active)
    ensures WaitsCounted(p, g, done, ActiveNodes(s0.active), ActiveNodes(s.active), s0.waits, s.waits)
  {
    longest :|
      && IsLongestMap(p.Size(), g, Durations(p), longest) && Inv(p, g, s, done) && Timed(p, g, longest, s, done, log)
      && LogGrows(log0, log, done, s0.active, s.active) && Tally(p, s0.waits, s0.active, s, p.Size(), limit);
    AllBlocked(p, g, s, done, s0.waits, s0.active, limit);
    TallyIsExact(p, g, s0, s, done, limit);
  }

  lemma NextInRange(p: Plan, s: Sim, done: set<nat>, log: Log, next: nat)
    requires |p.fanIn| == p.Size() && |p.latency| == p.Size() && Clocked(p, s, done, log)
    requires exists i :: 0 <= i < |s.active| && s.active[i].finish == next
    ensures s.now <= next <= U64_MAX
  {
    var i :| 0 <= i < |s.active| && s.active[i].finish == next;
    assert Running(p, s.now, s.active[i], log);
  }

  lemma DueIsRunning(active: seq<Entry>, next: nat)
    requires exists i :: 0 <= i < |active| && active[i].finish == next
    ensures FinishedAt(active, next) != {} && FinishedAt(active, next) <= ActiveNodes(active)
  {
    var i :| 0 <= i < |active| && active[i].finish == next;
    assert active[i].node in FinishedAt(active, next);
  }

  /** Source: `SimulationGraph::simulate`.  The loop ends with every node completed;
      the ghost log and rounds describe the whole run. */
  method Simulate(p: Plan, ghost g: Graph)
    returns (elapsed: nat, peak: nat, waits: nat, ghost log: Log, ghost rounds: seq<Round>)
    requires WellPosed(p, g)
    // the schedule
    ensures IsSchedule(p, g, log, elapsed)
    ensures forall i :: 0 <= i < |rounds| ==> SafeRound(p, g, rounds[i])
    ensures Samples(p.Size(), log, rounds, Nodes(p.Size())) && Clockwork(log, rounds, elapsed)
    ensures forall x: nat :: SafeRound(p, g, Round(x, RunningAt(p.Size(), log, x)))
    ensures IsPeak(rounds, peak) && peak <= p.slots
    // the makespan
    ensures forall q :: IsPath(p.Size(), g, q) ==> Saturate(Weight(Durations(p), q)) <= elapsed
    ensures elapsed <= Saturate(Sum(Durations(p)))
    // the waits
    ensures waits == Saturate(TotalRefused(p, g, rounds)) && RefusalsHeldUp(p, g, rounds)
    ensures NeverBlocks(p) ==> waits == 0
    ensures NeverBlocks(p) ==> forall critical :: IsCriticalWeight(p.Size(), g, Durations(p), critical) ==>
      p.slots * elapsed <= Sum(Durations(p)) + (p.slots - 1) * critical
    ensures NeverBlocks(p) && p.Size() <= p.slots ==>
      forall critical :: IsCriticalWeight(p.Size(), g, Durations(p), critical) ==> elapsed == Saturate(critical)
  {
    ghost var rank := AcyclicHasRanking(p.Size(), g);
    ghost var longest := LongestMapExists(p.Size(), g, Durations(p), rank);
    var s;
    s, log, rounds := RunAll(p, g, longest);
    elapsed, peak, waits := s.now, s.peak, s.waits;
    forall x: nat ensures SafeRound(p, g, Round(x, RunningAt(p.Size(), log, x))) {
      SafeAtEveryInstant(p, g, log, rounds, x); }
  }

  /** The rounds so far describe the state. */
  ghost predicate Told(p: Plan, g: Graph, s: Sim, done: set<nat>, log: Log, rounds: seq<Round>) {
    && RoundsInv(p, g, rounds, s.peak) && s.peak >= |s.active|
    && Samples(p.Size(), log, rounds, done + ActiveNodes(s.active)) && Past(rounds, s.now)
    && WaitsSoFar(p, g, rounds, done + ActiveNodes(s.active), s.waits) && (NeverBlocks(p) ==> s.waits == 0)
    && Clockwork(log, rounds, s.now) && StillBusy(log, s)
  }

  method RunAll(p: Plan, ghost g: Graph, ghost longest: seq<nat>) returns (s: Sim, ghost log: Log,
      ghost rounds: seq<Round>)
    requires WellPosed(p, g) && IsLongestMap(p.Size(), g, Durations(p), longest)
    ensures IsSchedule(p, g, log, s.now) && MeetsBounds(p, g, s.now)
    ensures RoundsInv(p, g, rounds, s.peak) && Samples(p.Size(), log, rounds, Nodes(p.Size()))
    ensures Clockwork(log, rounds, s.now)
    ensures s.waits == Saturate(TotalRefused(p, g, rounds)) && RefusalsHeldUp(p, g, rounds)
    ensures NeverBlocks(p) ==> s.waits == 0
  {
    s, log := FirstState(p, g, longest);
    ghost var done: set<nat> := {};
    rounds := [];
    while s.completed < p.Size()
      invariant Steady(p, g, s, done, log) && s.completed == |done|
      invariant Told(p, g, s, done, log, rounds)
      decreases Nodes(p.Size()) - done
    {
      s, done, log, rounds := NextRound(p, g, s, done, log, rounds);
    }
    RunEnds(p, g, s, done, log, rounds);
  }

  method FirstState(p: Plan, ghost g: Graph, ghost longest: seq<nat>) returns (s: Sim, ghost log: Log)
    requires WellPosed(p, g) && IsLongestMap(p.Size(), g, Durations(p), longest)
    ensures Steady(p, g, s, {}, log) && Told(p, g, s, {}, log, []) && s.completed == 0
  {
    s, log := InitialState(p, g, longest);
  }

  method NextRound(p: Plan, ghost g: Graph, s0: Sim, ghost done0: set<nat>, ghost log0: Log, ghost rounds0: seq<Round>)
    returns (s: Sim, ghost done: set<nat>, ghost log: Log, ghost rounds: seq<Round>)
    requires WellPosed(p, g) && Steady(p, g, s0, done0, log0) && Told(p, g, s0, done0, log0, rounds0)
    requires |done0| < p.Size()
    ensures Steady(p, g, s, done, log) && Told(p, g, s, done, log, rounds)
    ensures done0 < done <= Nodes(p.Size())
  {
    ghost var round;
    SteadyStarts(p, g, s0, done0, log0);
    s, done, log, round := RunRound(p, g, s0, done0, log0);
    ToldStep(p, g, s0, done0, log0, rounds0, s, done, log, round);
    rounds := rounds0 + [round];
  }

  lemma SteadyStarts(p: Plan, g: Graph, s: Sim, done: set<nat>, log: Log)
    requires WellPosed(p, g) && Steady(p, g, s, done, log) && s.peak >= |s.active| && s.waits <= U64_MAX
    ensures Starting(p, g, s, done, log, 0, s, log, 0)
  {
    var longest :| IsLongestMap(p.Size(), g, Durations(p), longest) && Inv(p, g, s, done) &&
      Timed(p, g, longest, s, done, log);
    StartingBegins(p, g, longest, s, done, log);
  }

  lemma ToldStep(p: Plan, g: Graph, s0: Sim, done0: set<nat>, log0: Log, rounds0: seq<Round>, s: Sim, done: set<nat>,
      log: Log, round: Round)
    requires Told(p, g, s0, done0, log0, rounds0) && RoundDone(p, g, s0, done0, log0, s, done, log, round)
    ensures Told(p, g, s, done, log, rounds0 + [round])
  {
    RoundsStep(p, g, rounds0, s0.peak, round);
    SampleStep(p.Size(), log0, log, rounds0, done0, ActiveNodes(s0.active), round);
    PastStep(rounds0, round, s.now);
    WaitsStep(p, g, rounds0, done0, ActiveNodes(s0.active), round, s0.waits, s.waits);
    ClockStep(p.Size(), log0, log, rounds0, done0, ActiveNodes(s0.active), round, s.now);
  }

  lemma RunEnds(p: Plan, g: Graph, s: Sim, done: set<nat>, log: Log, rounds: seq<Round>)
    requires WellPosed(p, g) && Steady(p, g, s, done, log) && Told(p, g, s, done, log, rounds) &&
      s.completed >= p.Size()
    ensures IsSchedule(p, g, log, s.now) && MeetsBounds(p, g, s.now) && Samples(p.Size(), log, rounds, Nodes(p.Size()))
  {
    var longest :| IsLongestMap(p.Size(), g, Durations(p), longest) && Inv(p, g, s, done) &&
      Timed(p, g, longest, s, done, log);
    AllDone(p, g, s, done);
    NoneLeft(p, g, s, done);
    Conclude(p, g, longest, s, log);
  }

  /** The nodes seen running in some round. */
  ghost function Seen(rounds: seq<Round>): set<nat> {
    if rounds == [] then {} else Seen(rounds[..|rounds| - 1]) + rounds[|rounds| - 1].running
  }

  /** The nodes refused in a round that follows `earlier`: nodes seen before that no longer
      run are done, and nodes not seen before are the ones the round started. */
  ghost function RefusedIn(p: Plan, g: Graph, earlier: seq<Round>, round: Round): set<nat> {
    RefusedNow(p, g, Seen(earlier) - round.running, Seen(earlier) * round.running, round.running)
  }

  ghost function TotalRefused(p: Plan, g: Graph, rounds: seq<Round>): nat {
    if rounds == [] then 0
    else TotalRefused(p, g, rounds[..|rounds| - 1]) + |RefusedIn(p, g, rounds[..|rounds| - 1], rounds[|rounds| - 1])|
  }

  /** Every refused node lacks a resource that the running nodes hold. */
  ghost predicate RefusalsHeldUp(p: Plan, g: Graph, rounds: seq<Round>) {
    forall i :: 0 <= i < |rounds| ==> RoundHoldsUp(p, rounds[i].running, RefusedIn(p, g, rounds[..i], rounds[i]))
  }

  ghost predicate RoundHoldsUp(p: Plan, running: set<nat>, refused: set<nat>) {
    forall v :: v in refused ==> HeldUp(p, running, v)
  }

  ghost predicate WaitsSoFar(p: Plan, g: Graph, rounds: seq<Round>, started: set<nat>, waits: nat) {
    Seen(rounds) == started && waits == Saturate(TotalRefused(p, g, rounds)) && RefusalsHeldUp(p, g, rounds)
  }

  lemma WaitsStep(p: Plan, g: Graph, rounds: seq<Round>, done: set<nat>, active: set<nat>, round: Round, waits0: nat,
      waits: nat)
    requires WaitsSoFar(p, g, rounds, done + active, waits0) && active <= round.running && done !! round.running
    requires WaitsCounted(p, g, done, active, round.running, waits0, waits)
    ensures WaitsSoFar(p, g, rounds + [round], done + round.running, waits)
  {
    var all := rounds + [round];
    assert all[..|rounds|] == rounds;
    assert Seen(rounds) - round.running == done && Seen(rounds) * round.running == active;
    forall i | 0 <= i < |all| ensures RoundHoldsUp(p, all[i].running, RefusedIn(p, g, all[..i], all[i])) {
      if i < |rounds| { assert all[..i] == rounds[..i]; }
    }
  }

  ghost predicate RoundsInv(p: Plan, g: Graph, rounds: seq<Round>, peak: nat) {
    (forall i :: 0 <= i < |rounds| ==> SafeRound(p, g, rounds[i])) && IsPeak(rounds, peak) && peak <= p.slots
  }

  lemma RoundsStep(p: Plan, g: Graph, rounds: seq<Round>, peak: nat, round: Round)
    requires RoundsInv(p, g, rounds, peak) && SafeRound(p, g, round)
    ensures RoundsInv(p, g, rounds + [round], Max(peak, |round.running|))
  {
    var all := rounds + [round];
    assert all[|rounds|] == round;
    if peak > |round.running| {
      var i :| 0 <= i < |rounds| && |rounds[i].running| == peak;
      assert all[i] == rounds[i];
    }
  }

  /** Some round catches the node at its start. */
  ghost predicate StartsIn(log: Log, rounds: seq<Round>, v: nat)
    requires v < |log.start|
  {
    exists i :: 0 <= i < |rounds| && v in rounds[i].running && rounds[i].at == log.start[v]
  }

  /** A round shows only nodes inside their interval. */
  ghost predicate ShowsLog(n: nat, log: Log, round: Round)
    requires |log.start| == n && |log.finish| == n
  {
    forall v :: v in round.running ==> v < n && log.start[v] <= round.at <= log.finish[v]
  }

  /** A node seen running is seen in every later round before its finish time. */
  ghost predicate StaysRunning(n: nat, log: Log, earlier: Round, later: Round)
    requires |log.finish| == n
  {
    earlier.at <= later.at && forall v :: v in earlier.running && v < n && later.at < log.finish[v] ==>
      v in later.running
  }

  /** The rounds are the schedule seen at successive clock values. */
  ghost predicate Samples(n: nat, log: Log, rounds: seq<Round>, started: set<nat>) {
    && |log.start| == n && |log.finish| == n
    && (forall i :: 0 <= i < |rounds| ==> rounds[i].running <= started && ShowsLog(n, log, rounds[i]))
    && (forall i, j {:trigger StaysRunning(n, log, rounds[i], rounds[j])} :: 0 <= i < j < |rounds| ==>
          StaysRunning(n, log, rounds[i], rounds[j]))
    && (forall v {:trigger StartsIn(log, rounds, v)} :: v in started ==> v < n && StartsIn(log, rounds, v))
  }

  /** The clock value after round `i`. */
  function NextAt(rounds: seq<Round>, i: nat, now: nat): nat
    requires i < |rounds|
  {
    if i + 1 < |rounds| then rounds[i + 1].at else now
  }

  /** The clock starts at zero and goes from each round to the earliest finish of what runs
      in it; a node that still runs in a later round finishes after it. */
  ghost predicate Clockwork(log: Log, rounds: seq<Round>, now: nat) {
    && (if rounds == [] then now == 0 else rounds[0].at == 0)
    && (forall i :: 0 <= i < |rounds| ==> IsEarliest(log, rounds[i].running, NextAt(rounds, i, now)))
    && (forall i, j {:trigger EndsAfter(log, rounds[i], rounds[j])} :: 0 <= i < j < |rounds| ==>
          EndsAfter(log, rounds[i], rounds[j]))
  }

  ghost predicate EndsAfter(log: Log, earlier: Round, later: Round) {
    forall v :: v in earlier.running && v in later.running ==> v < |log.finish| && later.at < log.finish[v]
  }

  lemma ClockStep(n: nat, log0: Log, log: Log, rounds: seq<Round>, done: set<nat>, active: set<nat>, round: Round,
      now: nat)
    requires Clockwork(log0, rounds, round.at) && Samples(n, log0, rounds, done + active)
    requires RoundFits(n, log0, log, done, active, round) && IsEarliest(log, round.running, now)
    requires forall v :: v in active ==> v < n && round.at < log0.finish[v]
    ensures Clockwork(log, rounds + [round], now)
  {
    var all := rounds + [round];
    forall i | 0 <= i < |all| ensures IsEarliest(log, all[i].running, NextAt(all, i, now)) {
      if i < |rounds| {
        assert rounds[i].running <= done + active && NextAt(all, i, now) == NextAt(rounds, i, round.at);
        SameEarliest(n, log0, log, done + active, rounds[i].running, NextAt(all, i, now));
      }
    }
    forall i, j | 0 <= i < j < |all| ensures EndsAfter(log, all[i], all[j]) {
      assert rounds[i].running <= done + active;
      if j < |rounds| { assert EndsAfter(log0, rounds[i], rounds[j]); }
    }
  }

  lemma SameEarliest(n: nat, log0: Log, log: Log, started: set<nat>, running: set<nat>, x: nat)
    requires IsEarliest(log0, running, x) && running <= started && KeepsTimes(log0, log, started)
    requires |log0.start| == |log0.finish| == |log.start| == |log.finish| == n
    ensures IsEarliest(log, running, x)
  {
    var v :| v in running && v < |log0.finish| && log0.finish[v] == x;
    assert log.finish[v] == x;
  }

  ghost predicate Past(rounds: seq<Round>, now: nat) {
    forall i :: 0 <= i < |rounds| ==> rounds[i].at <= now
  }

  lemma PastStep(rounds: seq<Round>, round: Round, now: nat)
    requires Past(rounds, round.at) && round.at <= now
    ensures Past(rounds + [round], now)
  {
  }

  lemma SampleStep(n: nat, log0: Log, log: Log, rounds: seq<Round>, done: set<nat>, active: set<nat>, round: Round)
    requires Samples(n, log0, rounds, done + active) && Past(rounds, round.at) &&
      RoundFits(n, log0, log, done, active, round)
    ensures Samples(n, log, rounds + [round], done + round.running)
  {
    var all, started := rounds + [round], done + round.running;
    forall i | 0 <= i < |all| ensures all[i].running <= started && ShowsLog(n, log, all[i]) {
      if i < |rounds| { assert ShowsLog(n, log0, rounds[i]); }
    }
    forall i, j | 0 <= i < j < |all| ensures StaysRunning(n, log, all[i], all[j]) {
      assert rounds[i].running <= done + active;
      if j < |rounds| { assert StaysRunning(n, log0, rounds[i], rounds[j]); }
    }
    forall v | v in started ensures v < n && StartsIn(log, all, v) {
      if v in done + active {
        assert StartsIn(log0, rounds, v);
        var i :| 0 <= i < |rounds| && v in rounds[i].running && rounds[i].at == log0.start[v];
        assert all[i] == rounds[i];
      } else {
        assert all[|rounds|] == round;
      }
    }
  }

  // ------------------------------------------------------------- at every instant

  /** The nodes whose interval contains time `x`. */
  ghost function RunningAt(n: nat, log: Log, x: nat): set<nat>
    requires |log.start| == n && |log.finish| == n
  {
    set v | v in Nodes(n) && log.start[v] <= x < log.finish[v]
  }

  /** What runs at an instant is part of what the last round up to it shows. */
  lemma InstantIsShown(n: nat, log: Log, rounds: seq<Round>, x: nat, u: nat) returns (k: nat)
    requires Samples(n, log, rounds, Nodes(n)) && u in RunningAt(n, log, x)
    ensures k < |rounds| && RunningAt(n, log, x) <= rounds[k].running
  {
    assert StartsIn(log, rounds, u);
    k := LastUpTo(n, log, rounds, x, u);
    forall v | v in RunningAt(n, log, x) ensures v in rounds[k].running { StillShown(n, log, rounds, x, k, v); }
  }

  lemma StillShown(n: nat, log: Log, rounds: seq<Round>, x: nat, k: nat, v: nat)
    requires Samples(n, log, rounds, Nodes(n)) && v < n && log.start[v] <= x < log.finish[v] && k < |rounds|
    requires rounds[k].at <= x && forall i :: k < i < |rounds| ==> rounds[i].at > x
    ensures v in rounds[k].running
  {
    assert v in Nodes(n);
    assert StartsIn(log, rounds, v);
    var i :| 0 <= i < |rounds| && v in rounds[i].running && rounds[i].at == log.start[v];
    assert i <= k;
    if i < k { assert StaysRunning(n, log, rounds[i], rounds[k]); }
  }

  lemma LastUpTo(n: nat, log: Log, rounds: seq<Round>, x: nat, u: nat) returns (k: nat)
    requires u < |log.start| && log.start[u] <= x && StartsIn(log, rounds, u)
    ensures k < |rounds| && rounds[k].at <= x && forall i :: k < i < |rounds| ==> rounds[i].at > x
  {
    var i :| 0 <= i < |rounds| && u in rounds[i].running && rounds[i].at == log.start[u];
    k := |rounds| - 1;
    while rounds[k].at > x
      invariant i <= k < |rounds| && forall j :: k < j < |rounds| ==> rounds[j].at > x
      decreases k
    {
      k := k - 1;
    }
  }

  lemma {:induction false} SubsetCount(a: set<nat>, b: set<nat>)
    requires a <= b
    ensures |a| <= |b|
  {
    if a != b { SubsetSize(a, b); }
  }

  lemma SmallerRoundIsSafe(p: Plan, g: Graph, big: Round, small: Round)
    requires SafeRound(p, g, big) && small.running <= big.running
    ensures SafeRound(p, g, small)
  {
    SubsetCount(small.running, big.running);
    forall key: string ensures |HoldersAmong(p, small.running, key)| <= p.Capacity(key) {
      SubsetCount(HoldersAmong(p, small.running, key), HoldersAmong(p, big.running, key));
    }
  }

  /** The schedule is safe at every instant, not only when the simulator looks. */
  lemma SafeAtEveryInstant(p: Plan, g: Graph, log: Log, rounds: seq<Round>, x: nat)
    requires Samples(p.Size(), log, rounds, Nodes(p.Size())) && forall i :: 0 <= i < |rounds| ==>
      SafeRound(p, g, rounds[i])
    ensures SafeRound(p, g, Round(x, RunningAt(p.Size(), log, x)))
  {
    var now := RunningAt(p.Size(), log, x);
    if now == {} {
      forall key: string ensures |HoldersAmong(p, now, key)| <= p.Capacity(key) { assert HoldersAmong(p, now, key) ==
        {}; }
    } else {
      var u :| u in now;
      var k := InstantIsShown(p.Size(), log, rounds, x, u);
      SmallerRoundIsSafe(p, g, rounds[k], Round(x, now));
    }
  }

  lemma NoneLeft(p: Plan, g: Graph, s: Sim, done: set<nat>)
    requires Inv(p, g, s, done) && done == Nodes(p.Size())
    ensures done + ActiveNodes(s.active) == Nodes(p.Size())
  {
  }

  lemma AllDone(p: Plan, g: Graph, s: Sim, done: set<nat>)
    requires Inv(p, g, s, done) && s.completed >= p.Size()
    ensures done == Nodes(p.Size())
  {
    if done != Nodes(p.Size()) {
      SubsetSize(done, Nodes(p.Size()));
    }
  }

  /** The makespan bounds that hold of every run. */
  ghost predicate MeetsBounds(p: Plan, g: Graph, elapsed: nat)
    requires |p.fanIn| == p.Size() && |p.latency| == p.Size()
  {
    && (forall q :: IsPath(p.Size(), g, q) ==> Saturate(Weight(Durations(p), q)) <= elapsed)
    && elapsed <= Saturate(Sum(Durations(p)))
    && (NeverBlocks(p) ==> forall critical :: IsCriticalWeight(p.Size(), g, Durations(p), critical) ==>
          p.slots * elapsed <= Sum(Durations(p)) + (p.slots - 1) * critical)
    && (NeverBlocks(p) && p.Size() <= p.slots ==>
          forall critical :: IsCriticalWeight(p.Size(), g, Durations(p), critical) ==> elapsed == Saturate(critical))
  }

  lemma Conclude(p: Plan, g: Graph, longest: seq<nat>, s: Sim, log: Log)
    requires WellPosed(p, g) && IsLongestMap(p.Size(), g, Durations(p), longest)
    requires Timed(p, g, longest, s, Nodes(p.Size()), log)
    ensures IsSchedule(p, g, log, s.now) && MeetsBounds(p, g, s.now)
  {
    ConcludeSchedule(p, g, longest, s, log);
    FinalSandwich(p, g, longest, s, log);
    if NeverBlocks(p) {
      forall critical | IsCriticalWeight(p.Size(), g, Durations(p), critical)
        ensures p.slots * s.now <= Sum(Durations(p)) + (p.slots - 1) * critical
        ensures p.Size() <= p.slots ==> s.now == Saturate(critical)
      {
        FinalGraham(p, g, longest, s, log, critical);
        if p.Size() <= p.slots { FinalExact(p, g, longest, s, log, critical); }
      }
    }
  }

  lemma ConcludeSchedule(p: Plan, g: Graph, longest: seq<nat>, s: Sim, log: Log)
    requires WellPosed(p, g) && Timed(p, g, longest, s, Nodes(p.Size()), log)
    ensures IsSchedule(p, g, log, s.now)
  {
    forall v: nat | v < p.Size() ensures log.finish[v] == SaturatingAdd(log.start[v], p.Duration(v)) &&
      log.finish[v] <= s.now {
      assert Completed(p, s.now, v, log);
    }
    forall e | e in g ensures log.finish[g[e].from] <= log.start[g[e].to] {
      assert g[e].to in Nodes(p.Size()) + ActiveNodes(s.active);
    }
  }
}
