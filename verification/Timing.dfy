/** Time accounting for the simulator: a ghost log of starts, finishes and work
    done, and the potential argument behind the makespan bounds. */
module Timing {
  import opened Machine
  import opened Graphs
  import opened Schedule

  /** Per node its start and finish time and the time it has run so far; `drained`
      is the total time during which no node was waiting ready. */
  datatype Log = Log(start: seq<nat>, finish: seq<nat>, spent: seq<nat>, drained: nat)

  /** Reservations can never refuse a node: each key has room for all its holders. */
  ghost predicate NeverBlocks(p: Plan) {
    forall key: string :: |HoldersAmong(p, Nodes(p.Size()), key)| <= p.Capacity(key)
  }

  /** The log agrees with the clock. */
  ghost predicate Clocked(p: Plan, s: Sim, done: set<nat>, log: Log)
    requires |p.fanIn| == p.Size() && |p.latency| == p.Size()
  {
    && |log.start| == p.Size() && |log.finish| == p.Size() && |log.spent| == p.Size() && s.now <= U64_MAX
    && (forall i :: 0 <= i < |s.active| ==> s.active[i].node < p.Size() && Running(p, s.now, s.active[i], log))
    && (forall v :: v in done ==> v < p.Size() && Completed(p, s.now, v, log))
    && (forall v: nat :: v < p.Size() && v !in done && v !in ActiveNodes(s.active) ==> log.spent[v] == 0)
  }

  ghost predicate Running(p: Plan, now: nat, a: Entry, log: Log)
    requires a.node < |p.fanIn| && a.node < |p.latency|
    requires a.node < |log.start| && a.node < |log.finish| && a.node < |log.spent|
  {
    && a.finish == log.finish[a.node] == SaturatingAdd(log.start[a.node], p.Duration(a.node))
    && log.start[a.node] + log.spent[a.node] == now <= a.finish
  }

  ghost predicate Completed(p: Plan, now: nat, v: nat, log: Log)
    requires v < |p.fanIn| && v < |p.latency| && v < |log.start| && v < |log.finish| && v < |log.spent|
  {
    && log.finish[v] == SaturatingAdd(log.start[v], p.Duration(v))
    && log.start[v] + log.spent[v] == log.finish[v] <= now
  }

  /** Successors start after their predecessors finish. */
  ghost predicate Precedence(g: Graph, started: set<nat>, log: Log) {
    && (forall e :: e in g ==> g[e].from < |log.finish| && g[e].to < |log.start|)
    && (forall e :: e in g && g[e].to in started ==> log.finish[g[e].from] <= log.start[g[e].to])
  }

  /** Nothing finishes before its longest incoming path allows. */
  ghost predicate NotEarly(longest: seq<nat>, started: set<nat>, log: Log) {
    forall v :: v in started ==> v < |longest| && v < |log.finish| && Saturate(longest[v]) <= log.finish[v]
  }

  /** Drained time is covered by the longest path into every unfinished node. */
  ghost predicate Covered(p: Plan, longest: seq<nat>, s: Sim, done: set<nat>, log: Log)
    requires |p.fanIn| == p.Size() && |p.latency| == p.Size()
  {
    && |longest| == p.Size() && |log.spent| == p.Size()
    && (forall v: nat :: v < p.Size() && v !in done ==> log.drained + p.Duration(v) <= longest[v] + log.spent[v])
    && (log.drained == 0 || exists v: nat :: v < p.Size() && log.drained <= longest[v])
  }

  /** Work done pays for elapsed time: one unit per unit, `slots` while nodes wait. */
  ghost predicate Paid(p: Plan, now: nat, log: Log) {
    && log.drained <= now <= Sum(log.spent)
    && (NeverBlocks(p) ==> SlotBudget(p.slots, now, Sum(log.spent), log.drained))
    && (NeverBlocks(p) && p.Size() <= p.slots ==> log.drained == now)
  }

  /** `slots * now <= work + (slots - 1) * drained`. */
  ghost predicate SlotBudget(slots: nat, now: nat, work: nat, drained: nat) {
    slots > 0 && slots * now <= work + (slots - 1) * drained
  }

  ghost predicate Timed(p: Plan, g: Graph, longest: seq<nat>, s: Sim, done: set<nat>, log: Log)
    requires |p.fanIn| == p.Size() && |p.latency| == p.Size()
  {
    && Clocked(p, s, done, log)
    && Precedence(g, done + ActiveNodes(s.active), log)
    && NotEarly(longest, done + ActiveNodes(s.active), log)
    && Covered(p, longest, s, done, log)
    && p.slots > 0 && Paid(p, s.now, log)
  }

  // --------------------------------------------------------------- starting

  function Begin(log: Log, v: nat, now: nat, finish: nat): Log
    requires v < |log.start| && v < |log.finish|
  {
    log.(start := log.start[v := now], finish := log.finish[v := finish])
  }

  lemma StartClocked(p: Plan, s: Sim, done: set<nat>, log: Log, a: Entry, s': Sim)
    requires |p.fanIn| == p.Size() && |p.latency| == p.Size()
    requires Clocked(p, s, done, log) && a.node < p.Size() && a.node !in done && a.node !in ActiveNodes(s.active)
    requires a.finish == SaturatingAdd(s.now, p.Duration(a.node))
    requires s'.now == s.now && s'.active == s.active + [a]
    ensures Clocked(p, s', done, Begin(log, a.node, s.now, a.finish))
  {
    var log' := Begin(log, a.node, s.now, a.finish);
    NodesAppend(s.active, a);
    assert log.spent[a.node] == 0;
    forall i | 0 <= i < |s'.active| ensures s'.active[i].node < p.Size() && Running(p, s'.now, s'.active[i], log') {
      if i < |s.active| {
        assert s'.active[i] == s.active[i] && Running(p, s.now, s.active[i], log);
        assert s.active[i].node in ActiveNodes(s.active);
      }
    }
    forall v | v in done ensures Completed(p, s'.now, v, log') {
      assert Completed(p, s.now, v, log);
    }
  }

  lemma StartPrecedence(p: Plan, g: Graph, s: Sim, done: set<nat>, log: Log, v: nat, finish: nat)
    requires |p.fanIn| == p.Size() && |p.latency| == p.Size() && WellFormed(p.Size(), g)
    requires Clocked(p, s, done, log) && v < p.Size() && v !in done && v !in ActiveNodes(s.active)
    requires Precedence(g, done + ActiveNodes(s.active), log)
    requires forall e :: e in g && (g[e].to in done || g[e].to in ActiveNodes(s.active) || g[e].to == v) ==>
      g[e].from in done
    ensures Precedence(g, done + (ActiveNodes(s.active) + {v}), Begin(log, v, s.now, finish))
  {
    forall e | e in g && g[e].to in done + (ActiveNodes(s.active) + {v})
      ensures Begin(log, v, s.now, finish).finish[g[e].from] <= Begin(log, v, s.now, finish).start[g[e].to]
    {
      assert Completed(p, s.now, g[e].from, log);
    }
  }

  lemma StartNotEarly(p: Plan, g: Graph, longest: seq<nat>, s: Sim, done: set<nat>, log: Log, v: nat)
    requires |p.fanIn| == p.Size() && |p.latency| == p.Size()
    requires IsLongestMap(p.Size(), g, Durations(p), longest)
    requires Clocked(p, s, done, log) && v < p.Size() && v !in done && v !in ActiveNodes(s.active)
    requires NotEarly(longest, done + ActiveNodes(s.active), log)
    requires forall e :: e in g && g[e].to == v ==> g[e].from in done
    ensures NotEarly(longest, done + (ActiveNodes(s.active) + {v}),
      Begin(log, v, s.now, SaturatingAdd(s.now, p.Duration(v))))
  {
    if longest[v] != p.Duration(v) {
      assert Attained(g, Durations(p), longest, v);
      var e :| e in g && g[e].to == v && longest[v] == longest[g[e].from] + p.Duration(v);
      assert Completed(p, s.now, g[e].from, log);
      assert Saturate(longest[g[e].from]) <= s.now;
    }
  }

  // -------------------------------------------------------------- advancing

  /** Every running node works for `d` more units. */
  ghost function Spend(spent: seq<nat>, active: seq<Entry>, d: nat): (r: seq<nat>)
    requires forall i :: 0 <= i < |active| ==> active[i].node < |spent|
    ensures |r| == |spent|
  {
    if active == [] then spent else
      var a := active[|active| - 1].node;
      var r := Spend(spent, active[..|active| - 1], d);
      r[a := r[a] + d]
  }

  lemma {:induction false} SpendSum(spent: seq<nat>, active: seq<Entry>, d: nat)
    requires forall i :: 0 <= i < |active| ==> active[i].node < |spent|
    ensures Sum(Spend(spent, active, d)) == Sum(spent) + |active| * d
  {
    if active != [] {
      var front, a := active[..|active| - 1], active[|active| - 1].node;
      SpendSum(spent, front, d);
      var r := Spend(spent, front, d);
      SumUpdate(r, a, r[a] + d);
      OneMore(|front|, d);
    }
  }

  lemma OneMore(k: nat, d: nat)
    ensures (k + 1) * d == k * d + d
  {
  }

  lemma {:induction false} SpendAt(spent: seq<nat>, active: seq<Entry>, d: nat, v: nat)
    requires forall i :: 0 <= i < |active| ==> active[i].node < |spent|
    requires forall i, j :: 0 <= i < j < |active| ==> active[i].node != active[j].node
    requires v < |spent|
    ensures Spend(spent, active, d)[v] == spent[v] + if v in ActiveNodes(active) then d else 0
  {
    if active != [] {
      SpendAt(spent, active[..|active| - 1], d, v);
      SplitLast(active);
    }
  }

  ghost function Advance(log: Log, s: Sim, next: nat): Log
    requires s.now <= next && forall i :: 0 <= i < |s.active| ==> s.active[i].node < |log.spent|
  {
    log.(spent := Spend(log.spent, s.active, next - s.now),
         drained := if s.ready == {} then log.drained + (next - s.now) else log.drained)
  }

  lemma AdvanceClocked(p: Plan, s: Sim, done: set<nat>, log: Log, next: nat)
    requires |p.fanIn| == p.Size() && |p.latency| == p.Size()
    requires Clocked(p, s, done, log) && Slotted(p, s.active) && ActiveNodes(s.active) !! done
    requires s.now <= next <= U64_MAX && forall i :: 0 <= i < |s.active| ==> next <= s.active[i].finish
    ensures Clocked(p, s.(now := next), done, Advance(log, s, next))
  {
    var log', d := Advance(log, s, next), next - s.now;
    forall v: nat | v < p.Size() ensures log'.spent[v] == log.spent[v] + if v in ActiveNodes(s.active) then d else 0 {
      SpendAt(log.spent, s.active, d, v);
    }
    forall i | 0 <= i < |s.active| ensures Running(p, next, s.active[i], log') {
      assert Running(p, s.now, s.active[i], log) && s.active[i].node in ActiveNodes(s.active);
    }
    forall v | v in done ensures Completed(p, next, v, log') {
      assert Completed(p, s.now, v, log);
    }
  }

  ghost predicate WaitsOn(g: Graph, done: set<nat>, v: nat) {
    exists e :: e in g && g[e].to == v && g[e].from !in done
  }

  /** With nothing ready, an unstarted node waits for a running ancestor, whose
      whole run the longest path into the node includes. */
  lemma {:induction false} WaitingIsCovered(n: nat, g: Graph, w: seq<nat>, longest: seq<nat>, rank: seq<nat>,
                                            running: set<nat>, done: set<nat>, x: nat, v: nat)
    requires IsLongestMap(n, g, w, longest) && IsRanking(n, g, rank)
    requires forall u :: u in running ==> u < n && x <= longest[u]
    requires forall u: nat {:trigger WaitsOn(g, done, u)} :: u < n && u !in done && u !in running ==>
      WaitsOn(g, done, u)
    requires v < n && v !in done && v !in running
    ensures x + w[v] <= longest[v]
    decreases rank[v]
  {
    assert WaitsOn(g, done, v);
    var e :| e in g && g[e].to == v && g[e].from !in done;
    if g[e].from !in running {
      WaitingIsCovered(n, g, w, longest, rank, running, done, x, g[e].from);
    }
  }

  lemma NothingReadyMeansWaiting(n: nat, g: Graph, indegree: seq<nat>, ready: set<nat>, running: set<nat>,
      done: set<nat>, v: nat)
    requires Counters(n, g, indegree, ready, running, done) && ready == {}
    requires v < n && v !in done && v !in running
    ensures WaitsOn(g, done, v)
  {
    assert v !in ready;
    NoPendingMeansPredecessorsFinished(g, v, done);
  }

  lemma RunningIsCovered(p: Plan, longest: seq<nat>, s: Sim, done: set<nat>, log: Log, next: nat, u: nat)
    requires |p.fanIn| == p.Size() && |p.latency| == p.Size()
    requires Clocked(p, s, done, log) && Covered(p, longest, s, done, log) && ActiveNodes(s.active) !! done
    requires s.now <= next && forall i :: 0 <= i < |s.active| ==> next <= s.active[i].finish
    requires u in ActiveNodes(s.active)
    ensures u < p.Size() && log.drained + (next - s.now) <= longest[u]
  {
    var i :| 0 <= i < |s.active| && s.active[i].node == u;
    assert Running(p, s.now, s.active[i], log);
  }

  lemma AdvanceCovered(p: Plan, g: Graph, longest: seq<nat>, s: Sim, done: set<nat>, log: Log, next: nat)
    requires WellPosed(p, g) && Inv(p, g, s, done) && Clocked(p, s, done, log) && Covered(p, longest, s, done, log)
    requires IsLongestMap(p.Size(), g, Durations(p), longest) && s.active != []
    requires s.now <= next && forall i :: 0 <= i < |s.active| ==> next <= s.active[i].finish
    ensures Covered(p, longest, s.(now := next), done, Advance(log, s, next))
  {
    var rank := AcyclicHasRanking(p.Size(), g);
    var running := ActiveNodes(s.active);
    forall u | u in running ensures u < p.Size() && log.drained + (next - s.now) <= longest[u] {
      RunningIsCovered(p, longest, s, done, log, next, u);
    }
    forall v: nat | s.ready == {} && v < p.Size() && v !in done && v !in running
      ensures log.drained + (next - s.now) + p.Duration(v) <= longest[v]
    {
      forall u: nat | u < p.Size() && u !in done && u !in running ensures WaitsOn(g, done, u) {
        NothingReadyMeansWaiting(p.Size(), g, s.indegree, s.ready, running, done, u);
      }
      WaitingIsCovered(p.Size(), g, Durations(p), longest, rank, running, done, log.drained + (next - s.now), v);
    }
    AdvanceCoveredStep(p, longest, s, done, log, next);
  }

  lemma AdvanceCoveredStep(p: Plan, longest: seq<nat>, s: Sim, done: set<nat>, log: Log, next: nat)
    requires |p.fanIn| == p.Size() && |p.latency| == p.Size() && |p.keys| == p.Size()
    requires Covered(p, longest, s, done, log) && Slotted(p, s.active) && s.active != [] && s.now <= next
    requires forall u :: u in ActiveNodes(s.active) ==> u < p.Size() && log.drained + (next - s.now) <= longest[u]
    requires forall v: nat :: s.ready == {} && v < p.Size() && v !in done && v !in ActiveNodes(s.active) ==>
      log.drained + (next - s.now) + p.Duration(v) <= longest[v]
    ensures Covered(p, longest, s.(now := next), done, Advance(log, s, next))
  {
    var log', d := Advance(log, s, next), next - s.now;
    forall v: nat | v < p.Size() && v !in done ensures log'.drained + p.Duration(v) <= longest[v] + log'.spent[v] {
      SpendAt(log.spent, s.active, d, v);
    }
    assert s.active[0].node in ActiveNodes(s.active);
    assert log'.drained <= longest[s.active[0].node];
  }

  /** If nothing ever blocks, waiting nodes mean that all slots are taken. */
  lemma WaitingMeansFull(p: Plan, g: Graph, s: Sim, done: set<nat>)
    requires WellPosed(p, g) && Inv(p, g, s, done) && Saturated(p, s) && NeverBlocks(p) && s.ready != {}
    ensures |s.active| == p.slots < p.Size()
  {
    var v :| v in s.ready;
    var running := ActiveNodes(s.active);
    if |s.active| < p.slots {
      NotBlocked(p, s.active, s.usage, v);
      assert false;
    }
    DistinctNodeCount(s.active);
    assert running < Nodes(p.Size());
    SubsetSize(running, Nodes(p.Size()));
  }

  lemma SubsetSize(a: set<nat>, b: set<nat>)
    requires a < b
    ensures |a| < |b|
  {
    assert b == a + (b - a) && b - a != {};
    assert |b| == |a| + |b - a|;
  }

  lemma NotBlocked(p: Plan, active: seq<Entry>, usage: map<string, nat>, v: nat)
    requires NeverBlocks(p) && Slotted(p, active) && Metered(p, active, usage) && |p.keys| == p.Size()
    requires v < p.Size() && v !in ActiveNodes(active)
    ensures !Blocked(p, usage, v)
  {
    forall i | 0 <= i < |p.keys[v]| ensures Used(usage, p.keys[v][i]) < p.Capacity(p.keys[v][i]) {
      var key := p.keys[v][i];
      HoldersAreNodes(p, active, key);
      var some, all := HoldersAmong(p, ActiveNodes(active), key), HoldersAmong(p, Nodes(p.Size()), key);
      assert v in all && v !in some && some <= all;
      SubsetSize(some, all);
    }
  }

  lemma PaidStep(slots: nat, running: nat, now: nat, d: nat, work: nat, drained: nat)
    requires running == slots && SlotBudget(slots, now, work, drained)
    ensures SlotBudget(slots, now + d, work + running * d, drained)
  {
    assert slots * (now + d) == slots * now + slots * d;
  }

  lemma PaidDrainedStep(slots: nat, running: nat, now: nat, d: nat, work: nat, drained: nat)
    requires running > 0 && SlotBudget(slots, now, work, drained)
    ensures SlotBudget(slots, now + d, work + running * d, drained + d)
  {
    assert slots * (now + d) == slots * now + slots * d;
    assert (slots - 1) * (drained + d) == (slots - 1) * drained + (slots - 1) * d;
    assert running * d >= d by { assert (running - 1) * d >= 0; assert running * d == (running - 1) * d + d; }
    assert slots * d == (slots - 1) * d + d;
  }

  lemma AtLeastOnce(running: nat, d: nat)
    requires running > 0
    ensures d <= running * d
  {
    assert running * d == (running - 1) * d + d && (running - 1) * d >= 0;
  }

  lemma AdvancePaid(p: Plan, s: Sim, log: Log, next: nat)
    requires Paid(p, s.now, log) && s.now <= next && s.active != [] && p.slots > 0
    requires forall i :: 0 <= i < |s.active| ==> s.active[i].node < |log.spent|
    requires NeverBlocks(p) && s.ready != {} ==> |s.active| == p.slots < p.Size()
    ensures Paid(p, next, Advance(log, s, next))
  {
    SpendSum(log.spent, s.active, next - s.now);
    PaidAdvance(p, s.now, next - s.now, |s.active|, log, Advance(log, s, next));
  }

  lemma PaidAdvance(p: Plan, now: nat, d: nat, running: nat, log: Log, log': Log)
    requires Paid(p, now, log) && running > 0 && p.slots > 0 && Sum(log'.spent) == Sum(log.spent) + running * d
    requires log'.drained == log.drained + d
      || (log'.drained == log.drained && (NeverBlocks(p) ==> running == p.slots < p.Size()))
    ensures Paid(p, now + d, log')
  {
    AtLeastOnce(running, d);
    if NeverBlocks(p) {
      if log'.drained == log.drained + d {
        PaidDrainedStep(p.slots, running, now, d, Sum(log.spent), log.drained);
      } else {
        PaidStep(p.slots, running, now, d, Sum(log.spent), log.drained);
      }
    }
  }

  lemma AdvanceTimed(p: Plan, g: Graph, longest: seq<nat>, s: Sim, done: set<nat>, log: Log, next: nat)
    requires WellPosed(p, g) && Inv(p, g, s, done) && Saturated(p, s) && s.active != []
    requires Timed(p, g, longest, s, done, log) && IsLongestMap(p.Size(), g, Durations(p), longest)
    requires s.now <= next <= U64_MAX && forall i :: 0 <= i < |s.active| ==> next <= s.active[i].finish
    ensures Timed(p, g, longest, s.(now := next), done, Advance(log, s, next))
  {
    AdvanceClocked(p, s, done, log, next);
    AdvanceCovered(p, g, longest, s, done, log, next);
    if NeverBlocks(p) && s.ready != {} {
      WaitingMeansFull(p, g, s, done);
    }
    AdvancePaid(p, s, log, next);
  }

  // ------------------------------------------------------------- completing

  lemma CompleteTimed(p: Plan, g: Graph, longest: seq<nat>, s: Sim, done: set<nat>, log: Log, i: nat, s': Sim)
    requires |p.fanIn| == p.Size() && |p.latency| == p.Size()
    requires Timed(p, g, longest, s, done, log) && Slotted(p, s.active) && i < |s.active| && s.active[i].finish == s.now
    requires s'.now == s.now && s'.active == SwapRemove(s.active, i)
    ensures Timed(p, g, longest, s', done + {s.active[i].node}, log)
  {
    var v := s.active[i].node;
    SwapRemoveNodes(s.active, i);
    assert v in ActiveNodes(s.active);
    assert Running(p, s.now, s.active[i], log);
    assert (done + {v}) + ActiveNodes(s'.active) == done + ActiveNodes(s.active);
    CompleteClocked(p, s, done, log, i, s');
  }

  lemma CompleteClocked(p: Plan, s: Sim, done: set<nat>, log: Log, i: nat, s': Sim)
    requires |p.fanIn| == p.Size() && |p.latency| == p.Size()
    requires Clocked(p, s, done, log) && Slotted(p, s.active) && i < |s.active| && s.active[i].finish == s.now
    requires s'.now == s.now && s'.active == SwapRemove(s.active, i)
    ensures Clocked(p, s', done + {s.active[i].node}, log)
  {
    var v := s.active[i].node;
    SwapRemoveNodes(s.active, i);
    assert Running(p, s.now, s.active[i], log);
    forall j | 0 <= j < |s'.active| ensures s'.active[j].node < p.Size() && Running(p, s'.now, s'.active[j], log) {
      var k := if j == i then |s.active| - 1 else j;
      assert s'.active[j] == s.active[k] && Running(p, s.now, s.active[k], log);
    }
    forall u | u in done + {v} ensures u < p.Size() && Completed(p, s'.now, u, log) {
      if u in done { assert Completed(p, s.now, u, log); }
    }
  }

  // ---------------------------------------------------------- final accounting

  lemma AllSpent(p: Plan, s: Sim, log: Log)
    requires |p.fanIn| == p.Size() && |p.latency| == p.Size()
    requires Clocked(p, s, Nodes(p.Size()), log)
    ensures Sum(log.spent) <= Sum(Durations(p))
  {
    forall v: nat | v < p.Size() ensures log.spent[v] <= p.Duration(v) {
      assert Completed(p, s.now, v, log);
    }
    SumMonotone(log.spent, Durations(p));
  }

  lemma FinalSandwich(p: Plan, g: Graph, longest: seq<nat>, s: Sim, log: Log)
    requires WellPosed(p, g) && IsLongestMap(p.Size(), g, Durations(p), longest)
    requires Timed(p, g, longest, s, Nodes(p.Size()), log)
    ensures forall q :: IsPath(p.Size(), g, q) ==> Saturate(Weight(Durations(p), q)) <= s.now
    ensures s.now <= Saturate(Sum(Durations(p)))
  {
    AllSpent(p, s, log);
    forall q | IsPath(p.Size(), g, q) ensures Saturate(Weight(Durations(p), q)) <= s.now {
      var v := q[|q| - 1];
      PathWithinLongest(p.Size(), g, Durations(p), longest, q);
      assert v in Nodes(p.Size()) + ActiveNodes(s.active);
      assert Completed(p, s.now, v, log);
    }
  }

  lemma DrainedWithinCritical(p: Plan, g: Graph, longest: seq<nat>, drained: nat, critical: nat)
    requires WellPosed(p, g) && IsLongestMap(p.Size(), g, Durations(p), longest)
    requires drained == 0 || exists v: nat :: v < p.Size() && drained <= longest[v]
    requires IsCriticalWeight(p.Size(), g, Durations(p), critical)
    ensures drained <= critical
  {
    if drained > 0 {
      var v: nat :| v < p.Size() && drained <= longest[v];
      var rank := AcyclicHasRanking(p.Size(), g);
      var q := LongestIsAttained(p.Size(), g, Durations(p), longest, rank, v);
    }
  }

  lemma GrahamArithmetic(slots: nat, now: nat, work: nat, total: nat, drained: nat, critical: nat)
    requires work <= total && drained <= critical && SlotBudget(slots, now, work, drained)
    ensures slots * now <= total + (slots - 1) * critical
  {
    MulMonotone(slots - 1, drained, critical);
  }

  lemma MulMonotone(k: nat, a: nat, b: nat)
    requires a <= b
    ensures k * a <= k * b
  {
    assert k * (b - a) >= 0;
    assert k * b == k * a + k * (b - a);
  }

  /** Graham's list-scheduling bound. */
  lemma FinalGraham(p: Plan, g: Graph, longest: seq<nat>, s: Sim, log: Log, critical: nat)
    requires WellPosed(p, g) && IsLongestMap(p.Size(), g, Durations(p), longest)
    requires Timed(p, g, longest, s, Nodes(p.Size()), log) && NeverBlocks(p)
    requires IsCriticalWeight(p.Size(), g, Durations(p), critical)
    ensures p.slots * s.now <= Sum(Durations(p)) + (p.slots - 1) * critical
  {
    AllSpent(p, s, log);
    DrainedWithinCritical(p, g, longest, log.drained, critical);
    GrahamArithmetic(p.slots, s.now, Sum(log.spent), Sum(Durations(p)), log.drained, critical);
  }

  /** With a slot for every node the makespan is the critical path, saturated. */
  lemma FinalExact(p: Plan, g: Graph, longest: seq<nat>, s: Sim, log: Log, critical: nat)
    requires WellPosed(p, g) && IsLongestMap(p.Size(), g, Durations(p), longest)
    requires Timed(p, g, longest, s, Nodes(p.Size()), log) && NeverBlocks(p) && p.Size() <= p.slots
    requires IsCriticalWeight(p.Size(), g, Durations(p), critical)
    ensures s.now == Saturate(critical)
  {
    DrainedWithinCritical(p, g, longest, log.drained, critical);
    assert s.now <= critical && s.now <= U64_MAX;
    FinalSandwich(p, g, longest, s, log);
    var q :| IsPath(p.Size(), g, q) && Weight(Durations(p), q) == critical;
    assert Saturate(Weight(Durations(p), q)) <= s.now;
  }
}
