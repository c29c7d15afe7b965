/** Schedules of a plan: the state the simulator keeps, what each of its steps
    preserves, and the time accounting behind the makespan bounds. */
module Schedule {
  import opened Machine
  import opened Orders
  import opened Graphs

  /** What `simulate` reads: the graph in list form, one sampled latency per node,
      the resource keys each node reserves, capacities, and the slot limit. */
  datatype Plan = Plan(
    successors: seq<seq<nat>>,
    fanIn: seq<nat>,
    latency: seq<nat>,
    keys: seq<seq<string>>,
    capacities: map<string, nat>,
    slots: nat,
    penalty: nat)
  {
    function Size(): nat { |successors| }

    /** Latency plus the fan-in penalty, both saturating. */
    function Duration(v: nat): nat
      requires v < |latency| && v < |fanIn|
    {
      SaturatingAdd(latency[v], SaturatingMul(penalty, fanIn[v]))
    }

    /** A resource without a declared capacity admits one holder. */
    function Capacity(key: string): nat {
      if key in capacities then capacities[key] else 1
    }
  }

  ghost predicate WellPosed(p: Plan, g: Graph) {
    && |p.fanIn| == p.Size() && |p.latency| == p.Size() && |p.keys| == p.Size()
    && WellFormed(p.Size(), g) && Acyclic(p.Size(), g) && IsSuccessorTable(p.Size(), g, p.successors)
    && (forall v: nat :: v < p.Size() ==> p.fanIn[v] == Pending(g, v, {}))
    && (forall v: nat :: v < p.Size() ==> NoRepeats(p.keys[v]))
    && p.slots > 0 && (forall key: string :: p.Capacity(key) > 0)
  }

  ghost function Durations(p: Plan): (w: seq<nat>)
    requires |p.fanIn| == p.Size() && |p.latency| == p.Size()
    ensures |w| == p.Size() && forall v: nat :: v < p.Size() ==> w[v] == p.Duration(v)
  {
    seq(p.Size(), v requires 0 <= v < p.Size() => p.Duration(v))
  }

  /** One running node: its finish time, its index, the keys it holds. */
  datatype Entry = Entry(finish: nat, node: nat, resources: seq<string>)

  datatype Sim = Sim(
    now: nat,
    ready: set<nat>,
    active: seq<Entry>,
    usage: map<string, nat>,
    indegree: seq<nat>,
    completed: nat,
    peak: nat,
    waits: nat)

  function Used(usage: map<string, nat>, key: string): nat {
    if key in usage then usage[key] else 0
  }

  ghost function ActiveNodes(active: seq<Entry>): (s: set<nat>)
    ensures forall v :: v in s <==> exists i :: 0 <= i < |active| && active[i].node == v
  {
    set i | 0 <= i < |active| :: active[i].node
  }

  ghost function Holders(active: seq<Entry>, key: string): nat {
    if active == [] then 0
    else Holders(active[..|active| - 1], key) + if key in active[|active| - 1].resources then 1 else 0
  }

  // ------------------------------------------------------------ state invariants

  /** Indegree counters are exact; ready is exactly what may start. */
  ghost predicate Counters(n: nat, g: Graph, indegree: seq<nat>, ready: set<nat>, running: set<nat>, done: set<nat>) {
    && |indegree| == n
    && (forall v: nat :: v < n ==> indegree[v] == Pending(g, v, done))
    && (forall v: nat :: v in ready <==> v < n && v !in done && v !in running && Pending(g, v, done) == 0)
  }

  /** Nothing has started before all its predecessors completed. */
  ghost predicate Causal(n: nat, g: Graph, running: set<nat>, done: set<nat>) {
    && running <= Nodes(n) && done <= Nodes(n) && running !! done
    && (forall e :: e in g && (g[e].to in done || g[e].to in running) ==> g[e].from in done)
  }

  /** Running entries are distinct nodes within the slot limit, holding their own keys. */
  ghost predicate Slotted(p: Plan, active: seq<Entry>) {
    && |active| <= p.slots
    && (forall i :: 0 <= i < |active| ==> active[i].node < |p.keys| && active[i].resources == p.keys[active[i].node])
    && (forall i, j :: 0 <= i < j < |active| ==> active[i].node != active[j].node)
  }

  /** Usage counters are exact and within capacity. */
  ghost predicate Metered(p: Plan, active: seq<Entry>, usage: map<string, nat>) {
    forall key: string :: Used(usage, key) == Holders(active, key) && Holders(active, key) <= p.Capacity(key)
  }

  ghost predicate Inv(p: Plan, g: Graph, s: Sim, done: set<nat>) {
    && Counters(p.Size(), g, s.indegree, s.ready, ActiveNodes(s.active), done)
    && Causal(p.Size(), g, ActiveNodes(s.active), done)
    && Slotted(p, s.active)
    && Metered(p, s.active, s.usage)
    && s.completed == |done|
  }

  // ----------------------------------------------------------- holder counting

  lemma {:induction false} HoldersConcat(a: seq<Entry>, b: seq<Entry>, key: string)
    ensures Holders(a + b, key) == Holders(a, key) + Holders(b, key)
  {
    if b == [] {
      assert a + b == a;
    } else {
      HoldersConcat(a, b[..|b| - 1], key);
      assert (a + b)[..|a + b| - 1] == a + b[..|b| - 1];
    }
  }

  function SwapRemove<T>(s: seq<T>, i: nat): (r: seq<T>)
    requires i < |s|
    ensures |r| == |s| - 1
    ensures forall j :: 0 <= j < |r| ==> r[j] == if j == i then s[|s| - 1] else s[j]
  {
    s[i := s[|s| - 1]][..|s| - 1]
  }

  lemma SwapRemoveParts<T>(s: seq<T>, i: nat)
    requires i < |s| - 1
    ensures var front, back, last := s[..i], s[i + 1..|s| - 1], s[|s| - 1];
      s == front + [s[i]] + back + [last] && SwapRemove(s, i) == front + [last] + back
  {
  }

  lemma HoldersInParts(front: seq<Entry>, x: Entry, back: seq<Entry>, key: string)
    ensures Holders(front + [x] + back, key) == Holders(front, key) + Holders([x], key) + Holders(back, key)
  {
    HoldersConcat(front, [x], key);
    HoldersConcat(front + [x], back, key);
  }

  lemma HoldersOfOne(x: Entry, key: string)
    ensures Holders([x], key) == if key in x.resources then 1 else 0
  {
    assert [x][..0] == [];
  }

  lemma SwapRemoveHolders(s: seq<Entry>, i: nat, key: string)
    requires i < |s|
    ensures Holders(SwapRemove(s, i), key) + (if key in s[i].resources then 1 else 0) == Holders(s, key)
  {
    HoldersOfOne(s[i], key);
    if i < |s| - 1 {
      var front, back, last := s[..i], s[i + 1..|s| - 1], s[|s| - 1];
      SwapRemoveParts(s, i);
      HoldersInParts(front, s[i], back, key);
      HoldersConcat(front + [s[i]] + back, [last], key);
      HoldersInParts(front, last, back, key);
    } else {
      assert s == s[..i] + [s[i]] && SwapRemove(s, i) == s[..i];
      HoldersConcat(s[..i], [s[i]], key);
    }
  }

  lemma SwapRemoveNodes(s: seq<Entry>, i: nat)
    requires i < |s| && forall j, k :: 0 <= j < k < |s| ==> s[j].node != s[k].node
    ensures ActiveNodes(SwapRemove(s, i)) == ActiveNodes(s) - {s[i].node}
    ensures forall j, k :: 0 <= j < k < |SwapRemove(s, i)| ==> SwapRemove(s, i)[j].node != SwapRemove(s, i)[k].node
  {
    var r := SwapRemove(s, i);
    forall v | v in ActiveNodes(r) ensures v in ActiveNodes(s) - {s[i].node} {
      var j :| 0 <= j < |r| && r[j].node == v;
      var k := if j == i then |s| - 1 else j;
      assert s[k].node == v && k != i;
    }
    forall v | v in ActiveNodes(s) - {s[i].node} ensures v in ActiveNodes(r) {
      var k :| 0 <= k < |s| && s[k].node == v;
      var j := if k == |s| - 1 then i else k;
      assert r[j].node == v;
    }
  }

  /** The running nodes that hold `key`. */
  ghost function HoldersAmong(p: Plan, nodes: set<nat>, key: string): set<nat> {
    set v | v in nodes && v < |p.keys| && key in p.keys[v]
  }

  lemma {:induction false} HoldersAreNodes(p: Plan, active: seq<Entry>, key: string)
    requires Slotted(p, active)
    ensures Holders(active, key) == |HoldersAmong(p, ActiveNodes(active), key)|
  {
    if active == [] {
      assert HoldersAmong(p, ActiveNodes(active), key) == {};
    } else {
      var front, last := active[..|active| - 1], active[|active| - 1];
      HoldersAreNodes(p, front, key);
      SplitLast(active);
      HoldersGrow(p, ActiveNodes(front), last.node, key);
    }
  }

  lemma HoldersGrow(p: Plan, nodes: set<nat>, v: nat, key: string)
    requires v !in nodes && v < |p.keys|
    ensures |HoldersAmong(p, nodes + {v}, key)| == |HoldersAmong(p, nodes, key)| + if key in p.keys[v] then 1 else 0
  {
    assert HoldersAmong(p, nodes + {v}, key) == HoldersAmong(p, nodes, key) + if key in p.keys[v] then {v} else {};
  }

  lemma SplitLast(active: seq<Entry>)
    requires active != [] && forall i, j :: 0 <= i < j < |active| ==> active[i].node != active[j].node
    ensures ActiveNodes(active) == ActiveNodes(active[..|active| - 1]) + {active[|active| - 1].node}
    ensures active[|active| - 1].node !in ActiveNodes(active[..|active| - 1])
  {
    assert active == active[..|active| - 1] + [active[|active| - 1]];
    NodesAppend(active[..|active| - 1], active[|active| - 1]);
  }

  lemma NodesAppend(active: seq<Entry>, a: Entry)
    ensures ActiveNodes(active + [a]) == ActiveNodes(active) + {a.node}
  {
    var all := active + [a];
    forall v | v in ActiveNodes(active) ensures v in ActiveNodes(all) {
      var i :| 0 <= i < |active| && active[i].node == v;
      assert all[i].node == v;
    }
    assert all[|active|].node == a.node;
  }

  lemma {:induction false} DistinctNodeCount(active: seq<Entry>)
    requires forall i, j :: 0 <= i < j < |active| ==> active[i].node != active[j].node
    ensures |ActiveNodes(active)| == |active|
  {
    if active != [] {
      DistinctNodeCount(active[..|active| - 1]);
      SplitLast(active);
    }
  }

  // ------------------------------------------------------------- starting a node

  ghost predicate Blocked(p: Plan, usage: map<string, nat>, v: nat)
    requires v < |p.keys|
  {
    exists i :: 0 <= i < |p.keys[v]| && Used(usage, p.keys[v][i]) >= p.Capacity(p.keys[v][i])
  }

  lemma StartCausal(p: Plan, g: Graph, s: Sim, done: set<nat>, v: nat, a: Entry)
    requires Inv(p, g, s, done) && v in s.ready && a.node == v
    ensures Causal(p.Size(), g, ActiveNodes(s.active + [a]), done)
    ensures Counters(p.Size(), g, s.indegree, s.ready - {v}, ActiveNodes(s.active + [a]), done)
  {
    NodesAppend(s.active, a);
    NoPendingMeansPredecessorsFinished(g, v, done);
  }

  lemma StartSlotted(p: Plan, active: seq<Entry>, a: Entry)
    requires Slotted(p, active) && |active| < p.slots
    requires a.node < |p.keys| && a.resources == p.keys[a.node] && a.node !in ActiveNodes(active)
    ensures Slotted(p, active + [a])
  {
    forall i | 0 <= i < |active| ensures active[i].node != a.node {
      assert active[i].node in ActiveNodes(active);
    }
  }

  /** Each of the keys gained one. */
  ghost predicate Reserved(usage: map<string, nat>, usage': map<string, nat>, keys: seq<string>) {
    forall key: string :: Used(usage', key) == Used(usage, key) + if key in keys then 1 else 0
  }

  lemma StartMetered(p: Plan, active: seq<Entry>, usage: map<string, nat>, usage': map<string, nat>, a: Entry)
    requires Metered(p, active, usage) && Reserved(usage, usage', a.resources)
    requires a.node < |p.keys| && a.resources == p.keys[a.node] && !Blocked(p, usage, a.node)
    ensures Metered(p, active + [a], usage')
  {
    forall key: string
      ensures Used(usage', key) == Holders(active + [a], key) && Holders(active + [a], key) <= p.Capacity(key)
    {
      HoldersConcat(active, [a], key);
      assert Holders([a], key) == if key in a.resources then 1 else 0 by {
        assert [a][..0] == [];
      }
      if key in a.resources {
        var i :| 0 <= i < |a.resources| && a.resources[i] == key;
        assert Used(usage, p.keys[a.node][i]) < p.Capacity(p.keys[a.node][i]);
      }
    }
  }

  lemma BlockedStays(p: Plan, usage: map<string, nat>, usage': map<string, nat>, keys: seq<string>, v: nat)
    requires v < |p.keys| && Blocked(p, usage, v) && Reserved(usage, usage', keys)
    ensures Blocked(p, usage', v)
  {
    var i :| 0 <= i < |p.keys[v]| && Used(usage, p.keys[v][i]) >= p.Capacity(p.keys[v][i]);
    assert Used(usage', p.keys[v][i]) >= p.Capacity(p.keys[v][i]);
  }

  /** After the start loop: a free slot means that everything ready is blocked. */
  ghost predicate Saturated(p: Plan, s: Sim) {
    |s.active| >= p.slots || forall v :: v in s.ready ==> v < |p.keys| && Blocked(p, s.usage, v)
  }

  lemma IdleBlocksNobody(p: Plan, usage: map<string, nat>, v: nat)
    requires Metered(p, [], usage) && v < |p.keys| && forall key: string :: p.Capacity(key) > 0
    ensures !Blocked(p, usage, v)
  {
    forall i | 0 <= i < |p.keys[v]| ensures Used(usage, p.keys[v][i]) < p.Capacity(p.keys[v][i]) {
      assert Holders([], p.keys[v][i]) == 0;
    }
  }

  lemma SomethingReady(p: Plan, g: Graph, s: Sim, done: set<nat>)
    requires WellPosed(p, g) && Inv(p, g, s, done) && s.active == [] && |done| < p.Size()
    ensures s.ready != {}
  {
    var todo := Nodes(p.Size()) - done;
    assert done <= Nodes(p.Size()) && done != Nodes(p.Size());
    assert ActiveNodes(s.active) == {};
    var v := SourceWithin(p.Size(), g, todo);
    NoPendingMeansPredecessorsFinished(g, v, done);
    assert v in s.ready;
  }

  /** The simulator's "always makes progress" expectation. */
  lemma Progress(p: Plan, g: Graph, s: Sim, done: set<nat>)
    requires WellPosed(p, g) && Inv(p, g, s, done) && Saturated(p, s) && |done| < p.Size()
    ensures s.active != []
  {
    if s.active == [] {
      SomethingReady(p, g, s, done);
      var v :| v in s.ready;
      IdleBlocksNobody(p, s.usage, v);
      assert false;
    }
  }

  // ---------------------------------------------------------- completing a node

  /** Part way through the successor list of a node that just completed. */
  ghost predicate Releasing(n: nat, g: Graph, indegree: seq<nat>, ready: set<nat>, running: set<nat>, done: set<nat>,
      rest: multiset<nat>) {
    && |indegree| == n
    && (forall v: nat :: v < n ==> indegree[v] == Pending(g, v, done) + rest[v])
    && (forall v: nat :: v in ready <==> v < n && v !in done && v !in running && indegree[v] == 0)
    && (forall v :: v in rest ==> v < n && v !in done && v !in running)
  }

  lemma BeginRelease(n: nat, g: Graph, indegree: seq<nat>, ready: set<nat>, running: set<nat>, done: set<nat>,
      u: nat, rest: multiset<nat>)
    requires Counters(n, g, indegree, ready, running, done) && Causal(n, g, running, done) && WellFormed(n, g)
    requires u in running && forall v: nat :: v < n ==> rest[v] == ArcCount(g, u, v)
    requires forall v :: v in rest ==> v < n
    ensures Releasing(n, g, indegree, ready, running - {u}, done + {u}, rest)
  {
    NoPendingMeansPredecessorsFinished(g, u, done);
    forall v: nat | v < n ensures indegree[v] == Pending(g, v, done + {u}) + rest[v] {
      FinishingRemovesArcs(g, u, v, done);
    }
    forall v | v in rest ensures v !in done + {u} && v !in running {
      assert rest[v] == ArcCount(g, u, v) > 0;
      var e :| e in ArcsBetween(g, u, v);
      assert g[e] == Arc(u, v);
    }
    forall v: nat ensures v in ready <==> v < n && v !in done + {u} && v !in running - {u} && indegree[v] == 0 {
    }
  }

  lemma ReleaseStep(n: nat, g: Graph, indegree: seq<nat>, ready: set<nat>, running: set<nat>, done: set<nat>,
      rest: multiset<nat>,
                    x: nat, indegree': seq<nat>, ready': set<nat>)
    requires Releasing(n, g, indegree, ready, running, done, rest) && x in rest && indegree[x] > 0
    requires indegree' == indegree[x := indegree[x] - 1]
    requires ready' == if indegree'[x] == 0 then ready + {x} else ready
    ensures Releasing(n, g, indegree', ready', running, done, rest - multiset{x})
  {
  }

  lemma EndRelease(n: nat, g: Graph, indegree: seq<nat>, ready: set<nat>, running: set<nat>, done: set<nat>)
    requires Releasing(n, g, indegree, ready, running, done, multiset{})
    ensures Counters(n, g, indegree, ready, running, done)
  {
  }

  lemma CompleteCausal(n: nat, g: Graph, running: set<nat>, done: set<nat>, u: nat)
    requires Causal(n, g, running, done) && u in running
    ensures Causal(n, g, running - {u}, done + {u})
  {
  }

  lemma CompleteSlotted(p: Plan, active: seq<Entry>, i: nat)
    requires Slotted(p, active) && i < |active|
    ensures Slotted(p, SwapRemove(active, i))
  {
    SwapRemoveNodes(active, i);
  }

  /** Each of the keys lost one. */
  ghost predicate Returned(usage: map<string, nat>, usage': map<string, nat>, keys: seq<string>) {
    forall key: string :: Used(usage', key) + (if key in keys then 1 else 0) == Used(usage, key)
  }

  lemma CompleteMetered(p: Plan, active: seq<Entry>, usage: map<string, nat>, usage': map<string, nat>, i: nat)
    requires Metered(p, active, usage) && i < |active| && Returned(usage, usage', active[i].resources)
    ensures Metered(p, SwapRemove(active, i), usage')
  {
    forall key: string
      ensures Used(usage', key) == Holders(SwapRemove(active, i), key) &&
        Holders(SwapRemove(active, i), key) <= p.Capacity(key)
    {
      SwapRemoveHolders(active, i, key);
    }
  }

  // ---------------------------------------------------------- rounds and safety

  /** The running set between two clock values. */
  datatype Round = Round(at: nat, running: set<nat>)

  /** At most `slots` nodes run, no key is over capacity, none precedes another. */
  ghost predicate SafeRound(p: Plan, g: Graph, r: Round) {
    && |r.running| <= p.slots && r.running <= Nodes(p.Size())
    && (forall key: string :: |HoldersAmong(p, r.running, key)| <= p.Capacity(key))
    && (forall u, v :: u in r.running && v in r.running ==> !Reaches(p.Size(), g, u, v))
  }

  lemma {:induction false} AncestorsDone(n: nat, g: Graph, running: set<nat>, done: set<nat>, q: seq<nat>)
    requires Causal(n, g, running, done) && IsPath(n, g, q) && |q| > 1
    requires q[|q| - 1] in running || q[|q| - 1] in done
    ensures q[0] in done
  {
    var u, v := q[|q| - 2], q[|q| - 1];
    assert Linked(g, u, v);
    assert u in done;
    if |q| > 2 {
      var front := q[..|q| - 1];
      forall i | 0 <= i < |front| - 1 ensures Linked(g, front[i], front[i + 1]) { assert Linked(g, q[i], q[i + 1]); }
      AncestorsDone(n, g, running, done, front);
    }
  }

  lemma InvGivesSafeRound(p: Plan, g: Graph, s: Sim, done: set<nat>)
    requires Inv(p, g, s, done)
    ensures SafeRound(p, g, Round(s.now, ActiveNodes(s.active)))
  {
    var running := ActiveNodes(s.active);
    DistinctNodeCount(s.active);
    forall key: string ensures |HoldersAmong(p, running, key)| <= p.Capacity(key) {
      HoldersAreNodes(p, s.active, key);
    }
    forall u, v | u in running && v in running ensures !Reaches(p.Size(), g, u, v) {
      if Reaches(p.Size(), g, u, v) {
        var q :| PathBetween(p.Size(), g, q, u, v);
        AncestorsDone(p.Size(), g, running, done, q);
        assert false;
      }
    }
  }
}
