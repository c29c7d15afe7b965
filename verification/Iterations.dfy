/** The iterations of a simulation: each samples every node and runs the simulator, and the
    report sums them up. Its range of elapsed times lies between the bounds for the least and
    the greatest latencies that can be drawn. */
module Iterations {
  import opened Machine
  import opened Orders
  import opened Topology
  import opened Graphs
  import opened Lint
  import opened Schedule
  import opened Timing
  import opened Simulation
  import opened TopologyRuns
  import opened GraphSimulation
  import opened Sampling

  // -------------------------------------------------------------- wider plans, wider bounds

  /** The plan with other latencies. */
  function WithLatency(p: Plan, latency: seq<nat>): Plan {
    p.(latency := latency)
  }

  ghost predicate Below(a: seq<nat>, b: seq<nat>) {
    |a| == |b| && forall v :: 0 <= v < |a| ==> a[v] <= b[v]
  }

  lemma DurationsBelow(p: Plan, a: seq<nat>, b: seq<nat>)
    requires |p.fanIn| == p.Size() == |a| && Below(a, b)
    ensures Below(Durations(WithLatency(p, a)), Durations(WithLatency(p, b)))
  {
  }

  lemma {:induction false} WeightBelow(a: seq<nat>, b: seq<nat>, p: seq<nat>)
    requires Below(a, b) && forall i :: 0 <= i < |p| ==> p[i] < |a|
    ensures Weight(a, p) <= Weight(b, p)
  {
    if p != [] { WeightBelow(a, b, p[..|p| - 1]); }
  }

  lemma CriticalBelow(n: nat, g: Graph, a: seq<nat>, b: seq<nat>, x: nat, y: nat)
    requires |a| == n && Below(a, b) && IsCriticalWeight(n, g, a, x) && IsCriticalWeight(n, g, b, y)
    ensures x <= y
  {
    var p :| IsPath(n, g, p) && Weight(a, p) == x;
    WeightBelow(a, b, p);
  }

  lemma OtherLatency(p: Plan, g: Graph, latency: seq<nat>)
    requires WellPosed(p, g) && |latency| == p.Size()
    ensures WellPosed(WithLatency(p, latency), g)
  {
    assert forall key: string :: WithLatency(p, latency).Capacity(key) == p.Capacity(key);
  }

  lemma LatencyDoesNotBlock(p: Plan, latency: seq<nat>)
    ensures NeverBlocks(WithLatency(p, latency)) <==> NeverBlocks(p)
  {
    var w := WithLatency(p, latency);
    forall key: string ensures HoldersAmong(w, Nodes(w.Size()), key) == HoldersAmong(p, Nodes(p.Size()), key) {
    }
    assert forall key: string :: w.Capacity(key) == p.Capacity(key);
  }

  /** An elapsed time on `slots` slots is between what the least and the greatest durations
      allow; the upper bounds by critical paths hold if nothing ever blocks. */
  ghost predicate Between(n: nat, g: Graph, slots: nat, free: bool, least: seq<nat>, most: seq<nat>, elapsed: nat)
    requires |least| == |most| == n
  {
    && (forall q :: IsPath(n, g, q) ==> Saturate(Weight(least, q)) <= elapsed)
    && elapsed <= Saturate(Sum(most))
    && (free ==> forall critical :: IsCriticalWeight(n, g, most, critical) ==>
         slots * elapsed <= Sum(most) + (slots - 1) * critical && (n <= slots ==> elapsed <= Saturate(critical)))
  }

  /** The same, from the least and the greatest latencies. */
  ghost predicate Bracketed(p: Plan, g: Graph, low: seq<nat>, high: seq<nat>, elapsed: nat) {
    && |p.fanIn| == p.Size() == |low| == |high|
    && Between(p.Size(), g, p.slots, NeverBlocks(p), Durations(WithLatency(p, low)), Durations(WithLatency(p, high)),
         elapsed)
  }

  lemma RunIsBracketed(p: Plan, g: Graph, low: seq<nat>, latency: seq<nat>, high: seq<nat>, elapsed: nat)
    requires WellPosed(p, g) && p.Size() > 0 && |latency| == p.Size() && Below(low, latency) && Below(latency, high)
    requires MeetsBounds(WithLatency(p, latency), g, elapsed)
    ensures Bracketed(p, g, low, high, elapsed)
  {
    DurationsBelow(p, low, latency);
    DurationsBelow(p, latency, high);
    LatencyDoesNotBlock(p, latency);
    BoundsAreBetween(WithLatency(p, latency), g, NeverBlocks(p), Durations(WithLatency(p, low)),
      Durations(WithLatency(p, high)), elapsed);
  }

  lemma BoundsAreBetween(p: Plan, g: Graph, free: bool, least: seq<nat>, most: seq<nat>, elapsed: nat)
    requires p.Size() > 0 && p.slots > 0 && |p.fanIn| == p.Size() == |p.latency| && (free ==> NeverBlocks(p))
    requires WellFormed(p.Size(), g) && Acyclic(p.Size(), g) && MeetsBounds(p, g, elapsed)
    requires Below(least, Durations(p)) && Below(Durations(p), most)
    ensures Between(p.Size(), g, p.slots, free, least, most, elapsed)
  {
    var own := Durations(p);
    forall q | IsPath(p.Size(), g, q) ensures Saturate(Weight(least, q)) <= elapsed { WeightBelow(least, own, q); }
    SumMonotone(own, most);
    if free { CriticalBounds(p, g, own, most, elapsed); }
  }

  lemma CriticalBounds(p: Plan, g: Graph, own: seq<nat>, most: seq<nat>, elapsed: nat)
    requires p.Size() > 0 && p.slots > 0 && |own| == p.Size() && Below(own, most) && Sum(own) <= Sum(most)
    requires WellFormed(p.Size(), g) && Acyclic(p.Size(), g)
    requires forall critical :: IsCriticalWeight(p.Size(), g, own, critical) ==>
      p.slots * elapsed <= Sum(own) + (p.slots - 1) * critical
    requires p.Size() <= p.slots ==> forall critical :: IsCriticalWeight(p.Size(), g, own, critical) ==>
      elapsed == Saturate(critical)
    ensures forall critical :: IsCriticalWeight(p.Size(), g, most, critical) ==>
      p.slots * elapsed <= Sum(most) + (p.slots - 1) * critical &&
      (p.Size() <= p.slots ==> elapsed <= Saturate(critical))
  {
    var x := CriticalExists(p.Size(), g, own);
    forall critical | IsCriticalWeight(p.Size(), g, most, critical)
      ensures p.slots * elapsed <= Sum(most) + (p.slots - 1) * critical
      ensures p.Size() <= p.slots ==> elapsed <= Saturate(critical)
    {
      CriticalBelow(p.Size(), g, own, most, x, critical);
      ProductMonotone(p.slots - 1, x, p.slots - 1, critical);
    }
  }

  // --------------------------------------------------------------------- iterations

  datatype Summary = Summary(minimum: nat, p50: nat, maximum: nat)

  /** The least, the lower median and the greatest of the samples in order. */
  ghost predicate IsSummary(s: Summary, samples: seq<nat>) {
    exists sorted: seq<nat> :: InOrder(sorted, samples) && s.minimum == sorted[0]
      && s.p50 == sorted[(|samples| - 1) / 2] && s.maximum == sorted[|samples| - 1]
  }

  /** The samples from the least to the greatest. */
  ghost predicate InOrder(sorted: seq<nat>, samples: seq<nat>) {
    && |sorted| == |samples| > 0 && multiset(sorted) == multiset(samples)
    && forall i, j :: 0 <= i < j < |sorted| ==> sorted[i] <= sorted[j]
  }

  /** Source: `summarize`. */
  method Summarize(samples: seq<nat>) returns (s: Option<Summary>)
    ensures s.None? <==> samples == []
    ensures s.Some? ==> IsSummary(s.value, samples)
  {
    if samples == [] { return None; }
    var sorted := SortBy(samples, NatLeq);
    SortBySorted(samples, NatLeq);
    SameMultiset(samples, sorted);
    forall i, j | 0 <= i < j < |sorted| ensures sorted[i] <= sorted[j] {
      assert NatLeq(sorted[i], sorted[j]);
    }
    s := Some(Summary(sorted[0], sorted[(|samples| - 1) / 2], sorted[|sorted| - 1]));
    assert InOrder(sorted, samples);
  }

  /** A summary reports samples only, and the least and the greatest of them. */
  lemma SummaryMeaning(s: Summary, samples: seq<nat>)
    requires IsSummary(s, samples)
    ensures s.minimum in samples && s.p50 in samples && s.maximum in samples && s.minimum <= s.p50 <= s.maximum
    ensures forall x :: x in samples ==> s.minimum <= x <= s.maximum
  {
    var sorted: seq<nat> :| InOrder(sorted, samples) && s.minimum == sorted[0]
      && s.p50 == sorted[(|samples| - 1) / 2] && s.maximum == sorted[|samples| - 1];
    forall x ensures x in samples <==> x in sorted {
      assert x in samples <==> x in multiset(samples);
      assert x in sorted <==> x in multiset(sorted);
    }
    assert s.minimum in sorted && s.p50 in sorted && s.maximum in sorted;
  }

  datatype Settings = Settings(iterations: nat, maximumAttempts: nat, seed: bv64)

  const MAX_ITERATIONS := 10_000

  predicate ValidSettings(s: Settings, cs: seq<Calibration>) {
    && 0 < s.iterations <= MAX_ITERATIONS && 0 < s.maximumAttempts <= 100
    && forall v :: 0 <= v < |cs| ==> ValidCalibration(cs[v])
  }

  predicate LatencyKnown(cs: seq<Calibration>) {
    forall v :: 0 <= v < |cs| ==> cs[v].latency.Some?
  }

  predicate CostKnown(cs: seq<Calibration>) {
    forall v :: 0 <= v < |cs| ==> cs[v].cost.Some?
  }

  predicate TokensKnown(cs: seq<Calibration>) {
    forall v :: 0 <= v < |cs| ==> cs[v].tokens.Some?
  }

  predicate FailureKnown(cs: seq<Calibration>) {
    forall v :: 0 <= v < |cs| ==> cs[v].failure.Some?
  }

  function Lows(cs: seq<Calibration>): (r: seq<nat>)
    requires LatencyKnown(cs)
    ensures |r| == |cs| && forall v :: 0 <= v < |cs| ==> r[v] == Least(cs[v].latency.value, cs[v].expansion)
  {
    seq(|cs|, v requires 0 <= v < |cs| => Least(cs[v].latency.value, cs[v].expansion))
  }

  function Highs(cs: seq<Calibration>, maximumAttempts: nat): (r: seq<nat>)
    requires LatencyKnown(cs)
    ensures |r| == |cs| && forall v :: 0 <= v < |cs| ==>
      r[v] == Most(cs[v].latency.value, cs[v].expansion, maximumAttempts)
  {
    seq(|cs|, v requires 0 <= v < |cs| => Most(cs[v].latency.value, cs[v].expansion, maximumAttempts))
  }

  /** The elapsed times are within the bounds. */
  ghost predicate AllBracketed(p: Plan, g: Graph, cs: seq<Calibration>, maximumAttempts: nat, samples: seq<nat>)
    requires LatencyKnown(cs)
  {
    forall x :: x in samples ==> Bracketed(p, g, Lows(cs), Highs(cs, maximumAttempts), x)
  }

  /** The reported range is within the bounds at both ends. */
  ghost predicate RangeBracketed(p: Plan, g: Graph, cs: seq<Calibration>, maximumAttempts: nat, range: Summary)
    requires LatencyKnown(cs)
  {
    && range.minimum <= range.p50 <= range.maximum
    && Bracketed(p, g, Lows(cs), Highs(cs, maximumAttempts), range.minimum)
    && Bracketed(p, g, Lows(cs), Highs(cs, maximumAttempts), range.maximum)
  }

  // ---------------------------------------------------------------- one iteration

  /** The nodes are sampled one after the other, with these attempts and generator states. */
  ghost predicate AreSampled(s: bv64, cs: seq<Calibration>, maximumAttempts: nat, nodes: seq<SampledNode>,
      attempts: seq<nat>, states: seq<bv64>)
  {
    && |nodes| == |attempts| == |cs| && |states| == |cs| + 1 && states[0] == s
    && forall v :: 0 <= v < |cs| ==>
         IsSample(states[v], cs[v], maximumAttempts, attempts[v], nodes[v], states[v + 1])
  }

  ghost predicate AllWithin(cs: seq<Calibration>, maximumAttempts: nat, nodes: seq<SampledNode>) {
    |nodes| == |cs| && forall v :: 0 <= v < |cs| ==> SampledWithin(nodes[v], cs[v], maximumAttempts)
  }

  predicate SomeFailed(nodes: seq<SampledNode>) {
    exists v :: 0 <= v < |nodes| && nodes[v].failed
  }

  function Latencies(nodes: seq<SampledNode>): (r: seq<nat>)
    ensures |r| == |nodes| && forall v :: 0 <= v < |nodes| ==> r[v] == nodes[v].latency
  {
    seq(|nodes|, v requires 0 <= v < |nodes| => nodes[v].latency)
  }

  method SampleNodes(rng: SeededRng, cs: seq<Calibration>, maximumAttempts: nat)
    returns (nodes: seq<SampledNode>, ghost attempts: seq<nat>, ghost states: seq<bv64>)
    requires maximumAttempts > 0 && forall v :: 0 <= v < |cs| ==> ValidCalibration(cs[v])
    modifies rng
    ensures AreSampled(old(rng.state), cs, maximumAttempts, nodes, attempts, states)
    ensures rng.state == states[|cs|] && AllWithin(cs, maximumAttempts, nodes)
  {
    nodes, attempts, states := [], [], [rng.state];
    for v := 0 to |cs|
      invariant AreSampled(old(rng.state), cs[..v], maximumAttempts, nodes, attempts, states)
      invariant rng.state == states[v] && AllWithin(cs[..v], maximumAttempts, nodes)
    {
      var n; ghost var tries;
      n, tries := SampleNode(rng, cs[v], maximumAttempts);
      OneMoreSample(old(rng.state), cs, maximumAttempts, nodes, attempts, states, n, tries, rng.state);
      OneMoreWithin(cs, maximumAttempts, nodes, n);
      nodes, attempts, states := nodes + [n], attempts + [tries], states + [rng.state];
    }
    assert cs[..|cs|] == cs;
  }

  lemma OneMoreSample(s: bv64, cs: seq<Calibration>, maximumAttempts: nat, nodes: seq<SampledNode>, attempts: seq<nat>,
      states: seq<bv64>, n: SampledNode, tries: nat, after: bv64)
    requires |nodes| < |cs| && AreSampled(s, cs[..|nodes|], maximumAttempts, nodes, attempts, states)
    requires IsSample(states[|nodes|], cs[|nodes|], maximumAttempts, tries, n, after)
    ensures AreSampled(s, cs[..|nodes| + 1], maximumAttempts, nodes + [n], attempts + [tries], states + [after])
  {
    forall v | 0 <= v < |nodes|
      ensures IsSample(states[v], cs[v], maximumAttempts, attempts[v], nodes[v], states[v + 1])
    {
      assert cs[..|nodes|][v] == cs[v];
    }
  }

  lemma OneMoreWithin(cs: seq<Calibration>, maximumAttempts: nat, nodes: seq<SampledNode>, n: SampledNode)
    requires |nodes| < |cs| && AllWithin(cs[..|nodes|], maximumAttempts, nodes)
    requires SampledWithin(n, cs[|nodes|], maximumAttempts)
    ensures AllWithin(cs[..|nodes| + 1], maximumAttempts, nodes + [n])
  {
  }

  lemma SampledBelow(cs: seq<Calibration>, maximumAttempts: nat, nodes: seq<SampledNode>)
    requires LatencyKnown(cs) && AllWithin(cs, maximumAttempts, nodes)
    ensures Below(Lows(cs), Latencies(nodes)) && Below(Latencies(nodes), Highs(cs, maximumAttempts))
  {
    forall v | 0 <= v < |cs|
      ensures Lows(cs)[v] <= Latencies(nodes)[v] <= Highs(cs, maximumAttempts)[v]
    {
      assert SampledWithin(nodes[v], cs[v], maximumAttempts);
    }
  }

  /** What one iteration adds to the report. */
  datatype IterationRun = IterationRun(
    nodes: seq<SampledNode>,
    elapsed: Option<nat>,
    peak: nat,
    waits: nat)

  /** A run of the simulator with these latencies takes, holds at most and waits this much. */
  ghost predicate IsRunOf(t: ExecutionTopology, request: SimulationRequest, latency: seq<nat>, p: Plan, log: Log,
      rounds: seq<Round>, elapsed: nat, peak: nat, waits: nat)
  {
    && PlanFor(t, request, latency, p) && IsSchedule(p, ArcsOf(t), log, elapsed) && Clockwork(log, rounds, elapsed)
    && EndsOnTime(t, latency, request.fanInPenaltyMsPerInput, log) && FollowsEdges(t, log)
    && IsLatestEnd(log, elapsed) && KeepsLimits(t, request, log, rounds) && RefusalsExplained(t, request, p, rounds)
    && IsPeak(rounds, peak) && WaitsExactly(t, p, rounds, waits)
  }

  ghost predicate Simulates(t: ExecutionTopology, request: SimulationRequest, latency: seq<nat>, run: IterationRun) {
    exists p, log, rounds :: run.elapsed.Some? &&
      IsRunOf(t, request, latency, p, log, rounds, run.elapsed.value, run.peak, run.waits)
  }

  /** One iteration samples every node and, if all latencies are known, runs the simulator on them. */
  ghost predicate IsIteration(t: ExecutionTopology, request: SimulationRequest, cs: seq<Calibration>,
      maximumAttempts: nat, s: bv64, run: IterationRun, after: bv64)
  {
    && (exists attempts, states :: AreSampled(s, cs, maximumAttempts, run.nodes, attempts, states)
          && states[|cs|] == after)
    && (if LatencyKnown(cs) then Simulates(t, request, Latencies(run.nodes), run)
        else run.elapsed.None? && run.peak == 0 && run.waits == 0)
  }

  /** The simulator's plan without latencies, for a topology that passed the gate. */
  ghost predicate Prepared(t: ExecutionTopology, request: SimulationRequest, p: Plan) {
    ConflictFree(t) && NodeIdsUnique(t.nodes) && t.nodes != [] && PlanFor(t, request, Repeat(|t.nodes|, 0), p)
  }

  lemma IterationFits(t: ExecutionTopology, request: SimulationRequest, cs: seq<Calibration>, maximumAttempts: nat,
      s: bv64, run: IterationRun, attempts: seq<nat>, states: seq<bv64>)
    requires AreSampled(s, cs, maximumAttempts, run.nodes, attempts, states)
    requires if LatencyKnown(cs) then Simulates(t, request, Latencies(run.nodes), run)
      else run.elapsed.None? && run.peak == 0 && run.waits == 0
    ensures IsIteration(t, request, cs, maximumAttempts, s, run, states[|cs|])
  {
  }

  /** One iteration: draw for every node, and simulate if all latencies are known. */
  method Iterate(rng: SeededRng, t: ExecutionTopology, request: SimulationRequest, p: Plan, cs: seq<Calibration>,
      settings: Settings)
    returns (run: IterationRun)
    requires Prepared(t, request, p) && |t.nodes| == |cs| && ValidSettings(settings, cs)
    modifies rng
    ensures IsIteration(t, request, cs, settings.maximumAttempts, old(rng.state), run, rng.state)
    ensures PlausibleRun(t, p, cs, settings.maximumAttempts, run)
  {
    var nodes; ghost var attempts, states;
    nodes, attempts, states := SampleNodes(rng, cs, settings.maximumAttempts);
    run := IterationRun(nodes, None, 0, 0);
    if LatencyKnown(cs) { run := RunKnown(t, request, p, cs, settings.maximumAttempts, nodes); }
    IterationFits(t, request, cs, settings.maximumAttempts, old(rng.state), run, attempts, states);
  }

  /** The run of an iteration in which all latencies are known. */
  method RunKnown(t: ExecutionTopology, ghost request: SimulationRequest, p: Plan, cs: seq<Calibration>,
      ghost maximumAttempts: nat, nodes: seq<SampledNode>)
    returns (run: IterationRun)
    requires Prepared(t, request, p) && |t.nodes| == |cs|
    requires LatencyKnown(cs) && AllWithin(cs, maximumAttempts, nodes)
    ensures run.nodes == nodes && Simulates(t, request, Latencies(nodes), run)
    ensures PlausibleRun(t, p, cs, maximumAttempts, run)
  {
    SampledBelow(cs, maximumAttempts, nodes);
    run := RunWith(t, request, p, nodes, Lows(cs), Highs(cs, maximumAttempts));
  }

  /** One simulated run with the sampled latencies. */
  method RunWith(t: ExecutionTopology, ghost request: SimulationRequest, p: Plan, nodes: seq<SampledNode>,
      ghost low: seq<nat>, ghost high: seq<nat>)
    returns (run: IterationRun)
    requires Prepared(t, request, p) && |t.nodes| == |nodes|
    requires Below(low, Latencies(nodes)) && Below(Latencies(nodes), high)
    ensures run.nodes == nodes && Simulates(t, request, Latencies(nodes), run) && run.peak <= p.slots
    ensures run.elapsed.Some? && Bracketed(p, ArcsOf(t), low, high, run.elapsed.value)
  {
    var latency := Latencies(nodes);
    OtherLatency(p, ArcsOf(t), latency);
    var plan := WithLatency(p, latency);
    var r; ghost var log, rounds;
    r, log, rounds := RunPlan(t, plan);
    RunMeant(t, request, latency, plan, log, rounds, r.elapsedMs);
    LimitsKept(t, request, plan, log, rounds);
    RefusalsMeant(t, request, plan, rounds);
    RunIsBracketed(p, ArcsOf(t), low, latency, high, r.elapsedMs);
    run := IterationRun(nodes, Some(r.elapsedMs), r.maximumParallelism, r.resourceWaitEvents);
    assert IsRunOf(t, request, latency, plan, log, rounds, run.elapsed.value, run.peak, run.waits);
  }

  // ------------------------------------------------------------------ the report

  datatype Report = Report(
    latency: Option<Summary>,
    cost: Option<Summary>,
    tokens: Option<Summary>,
    peak: nat,
    waits: nat,
    failedIterations: Option<nat>)

  /** The iterations follow each other on one generator, which starts from the masked seed. */
  ghost predicate AreIterations(t: ExecutionTopology, request: SimulationRequest, cs: seq<Calibration>,
      settings: Settings, runs: seq<IterationRun>, states: seq<bv64>)
  {
    && |states| == |runs| + 1 && states[0] == settings.seed ^ 0x9e37_79b9_7f4a_7c15
    && forall i {:trigger runs[i]} :: 0 <= i < |runs| ==>
         IsIteration(t, request, cs, settings.maximumAttempts, states[i], runs[i], states[i + 1])
  }

  ghost predicate IsGreatest(x: nat, xs: seq<nat>) {
    (forall i :: 0 <= i < |xs| ==> xs[i] <= x) && x in xs
  }

  function Peaks(runs: seq<IterationRun>): (r: seq<nat>)
    ensures |r| == |runs| && forall i :: 0 <= i < |runs| ==> r[i] == runs[i].peak
  {
    seq(|runs|, i requires 0 <= i < |runs| => runs[i].peak)
  }

  function Waits(runs: seq<IterationRun>): (r: seq<nat>)
    ensures |r| == |runs| && forall i :: 0 <= i < |runs| ==> r[i] == runs[i].waits
  {
    seq(|runs|, i requires 0 <= i < |runs| => runs[i].waits)
  }

  /** The iterations in which some node failed. */
  ghost function FailedAmong(runs: seq<IterationRun>): set<nat> {
    set i | 0 <= i < |runs| && SomeFailed(runs[i].nodes)
  }

  /** A sample per iteration: its elapsed time. */
  ghost predicate AreElapsed(samples: seq<nat>, runs: seq<IterationRun>) {
    |samples| == |runs| && forall i :: 0 <= i < |runs| ==> runs[i].elapsed == Some(samples[i])
  }

  /** A sample per iteration: the cost of all its nodes, as far as 64 bits go. */
  ghost predicate AreCosts(samples: seq<nat>, runs: seq<IterationRun>) {
    |samples| == |runs| && forall i :: 0 <= i < |runs| ==>
      exists costs :: CostsOf(runs[i].nodes, costs) && IsCapped(samples[i], Sum(costs))
  }

  ghost predicate CostsOf(nodes: seq<SampledNode>, costs: seq<nat>) {
    |costs| == |nodes| && forall v :: 0 <= v < |nodes| ==> nodes[v].cost == Some(costs[v])
  }

  /** A sample per iteration: the tokens of all its nodes, as far as 64 bits go. */
  ghost predicate AreTokens(samples: seq<nat>, runs: seq<IterationRun>) {
    |samples| == |runs| && forall i :: 0 <= i < |runs| ==>
      exists tokens :: TokensOf(runs[i].nodes, tokens) && IsCapped(samples[i], Sum(tokens))
  }

  ghost predicate TokensOf(nodes: seq<SampledNode>, tokens: seq<nat>) {
    |tokens| == |nodes| && forall v :: 0 <= v < |nodes| ==> nodes[v].tokens == Some(tokens[v])
  }

  /** The summary is there if the values are known, and is that of the samples. */
  ghost predicate Covers(summary: Option<Summary>, known: bool, samples: seq<nat>) {
    if known then summary.Some? && IsSummary(summary.value, samples) else summary.None?
  }

  /** The report over these iterations: ranges, the greatest parallelism, the sum of the waits
      as far as 64 bits go, and the number of iterations in which some node failed. */
  ghost predicate IsReport(cs: seq<Calibration>, runs: seq<IterationRun>, r: Report) {
    && (exists xs :: (LatencyKnown(cs) ==> AreElapsed(xs, runs)) && Covers(r.latency, LatencyKnown(cs), xs))
    && (exists xs :: (CostKnown(cs) ==> AreCosts(xs, runs)) && Covers(r.cost, CostKnown(cs), xs))
    && (exists xs :: (TokensKnown(cs) ==> AreTokens(xs, runs)) && Covers(r.tokens, TokensKnown(cs), xs))
    && IsGreatest(r.peak, Peaks(runs)) && IsCapped(r.waits, Sum(Waits(runs)))
    && r.failedIterations == (if FailureKnown(cs) then Some(|FailedAmong(runs)|) else None)
  }

  datatype Tally = Tally(
    elapsed: seq<nat>,
    cost: seq<nat>,
    tokens: seq<nat>,
    peak: nat,
    waits: nat,
    failures: nat)

  /** What the iterations so far add up to. */
  ghost predicate Tallied(cs: seq<Calibration>, runs: seq<IterationRun>, t: Tally) {
    && (if LatencyKnown(cs) then AreElapsed(t.elapsed, runs) else t.elapsed == [])
    && (if CostKnown(cs) then AreCosts(t.cost, runs) else t.cost == [])
    && (if TokensKnown(cs) then AreTokens(t.tokens, runs) else t.tokens == [])
    && CountsSoFar(cs, runs, t)
  }

  ghost predicate CountsSoFar(cs: seq<Calibration>, runs: seq<IterationRun>, t: Tally) {
    && (forall i :: 0 <= i < |runs| ==> runs[i].peak <= t.peak) && (t.peak == 0 || t.peak in Peaks(runs))
    && IsCapped(t.waits, Sum(Waits(runs)))
    && t.failures == if FailureKnown(cs) then |FailedAmong(runs)| else 0
  }

  lemma SumExtends(s: seq<nat>, x: nat)
    ensures Sum(s + [x]) == Sum(s) + x
  {
    assert (s + [x])[..|s|] == s;
  }

  method CostTotal(nodes: seq<SampledNode>) returns (total: nat, ghost costs: seq<nat>)
    requires forall v :: 0 <= v < |nodes| ==> nodes[v].cost.Some?
    ensures CostsOf(nodes, costs) && IsCapped(total, Sum(costs))
  {
    total, costs := 0, [];
    for v := 0 to |nodes|
      invariant CostsOf(nodes[..v], costs) && IsCapped(total, Sum(costs))
    {
      SumExtends(costs, nodes[v].cost.value);
      total, costs := SaturatingAdd(total, nodes[v].cost.value), costs + [nodes[v].cost.value];
    }
  }

  method TokenTotal(nodes: seq<SampledNode>) returns (total: nat, ghost tokens: seq<nat>)
    requires forall v :: 0 <= v < |nodes| ==> nodes[v].tokens.Some?
    ensures TokensOf(nodes, tokens) && IsCapped(total, Sum(tokens))
  {
    total, tokens := 0, [];
    for v := 0 to |nodes|
      invariant TokensOf(nodes[..v], tokens) && IsCapped(total, Sum(tokens))
    {
      SumExtends(tokens, nodes[v].tokens.value);
      total, tokens := SaturatingAdd(total, nodes[v].tokens.value), tokens + [nodes[v].tokens.value];
    }
  }

  lemma FailuresStep(runs: seq<IterationRun>, run: IterationRun)
    ensures |FailedAmong(runs + [run])| == |FailedAmong(runs)| + if SomeFailed(run.nodes) then 1 else 0
  {
    assert FailedAmong(runs + [run]) == FailedAmong(runs) + if SomeFailed(run.nodes) then {|runs|} else {};
  }

  lemma CountsStep(cs: seq<Calibration>, runs: seq<IterationRun>, t: Tally, run: IterationRun, u: Tally)
    requires CountsSoFar(cs, runs, t)
    requires u.peak == Max(t.peak, run.peak) && u.waits == SaturatingAdd(t.waits, run.waits)
    requires u.failures == t.failures + if FailureKnown(cs) && SomeFailed(run.nodes) then 1 else 0
    ensures CountsSoFar(cs, runs + [run], u)
  {
    FailuresStep(runs, run);
    SumExtends(Waits(runs), run.waits);
    assert Waits(runs + [run]) == Waits(runs) + [run.waits];
    assert Peaks(runs + [run]) == Peaks(runs) + [run.peak];
    assert run.peak in Peaks(runs + [run]);
  }

  predicate KnownParts(cs: seq<Calibration>, run: IterationRun) {
    && (if LatencyKnown(cs) then run.elapsed.Some? else run.elapsed.None? && run.peak == 0 && run.waits == 0)
    && (CostKnown(cs) ==> forall v :: 0 <= v < |run.nodes| ==> run.nodes[v].cost.Some?)
    && (TokensKnown(cs) ==> forall v :: 0 <= v < |run.nodes| ==> run.nodes[v].tokens.Some?)
  }

  /** The end of the loop body. */
  method AddIteration(cs: seq<Calibration>, ghost runs: seq<IterationRun>, t: Tally, run: IterationRun)
    returns (u: Tally)
    requires Tallied(cs, runs, t) && KnownParts(cs, run)
    ensures Tallied(cs, runs + [run], u)
  {
    u := t;
    if LatencyKnown(cs) {
      u := u.(elapsed := u.elapsed + [run.elapsed.value], peak := Max(u.peak, run.peak),
              waits := SaturatingAdd(u.waits, run.waits));
    }
    if CostKnown(cs) {
      var total; ghost var costs;
      total, costs := CostTotal(run.nodes);
      AddCost(runs, t.cost, run, total, costs);
      u := u.(cost := u.cost + [total]);
    }
    if TokensKnown(cs) {
      var total; ghost var tokens;
      total, tokens := TokenTotal(run.nodes);
      AddTokens(runs, t.tokens, run, total, tokens);
      u := u.(tokens := u.tokens + [total]);
    }
    if FailureKnown(cs) && SomeFailed(run.nodes) { u := u.(failures := u.failures + 1); }
    CountsStep(cs, runs, t, run, u);
  }

  /** A node has a cost and tokens if their ranges are known. */
  lemma AllDrawn(cs: seq<Calibration>, maximumAttempts: nat, nodes: seq<SampledNode>)
    requires AllWithin(cs, maximumAttempts, nodes)
    ensures CostKnown(cs) ==> forall v :: 0 <= v < |nodes| ==> nodes[v].cost.Some?
    ensures TokensKnown(cs) ==> forall v :: 0 <= v < |nodes| ==> nodes[v].tokens.Some?
  {
    forall v | 0 <= v < |nodes| ensures CostKnown(cs) ==> nodes[v].cost.Some?
      ensures TokensKnown(cs) ==> nodes[v].tokens.Some?
    {
      assert SampledWithin(nodes[v], cs[v], maximumAttempts);
    }
  }

  lemma AddCost(runs: seq<IterationRun>, samples: seq<nat>, run: IterationRun, total: nat, costs: seq<nat>)
    requires AreCosts(samples, runs) && CostsOf(run.nodes, costs) && IsCapped(total, Sum(costs))
    ensures AreCosts(samples + [total], runs + [run])
  {
  }

  lemma AddTokens(runs: seq<IterationRun>, samples: seq<nat>, run: IterationRun, total: nat, tokens: seq<nat>)
    requires AreTokens(samples, runs) && TokensOf(run.nodes, tokens) && IsCapped(total, Sum(tokens))
    ensures AreTokens(samples + [total], runs + [run])
  {
  }

  /** Source: the loop of `simulate_execution_topology` over its iterations, with resolved
      calibrations. */
  method SimulateIterations(t: ExecutionTopology, request: SimulationRequest, cs: seq<Calibration>, settings: Settings)
    returns (r: Option<Report>, ghost p: Plan, ghost runs: seq<IterationRun>, ghost states: seq<bv64>)
    requires |cs| == |t.nodes| && |t.edges| <= U64_MAX
    ensures r.Some? <==>
      ValidRequest(request) && ValidSettings(settings, cs) && NamesContent(request, t) && LintClean(t)
    ensures r.Some? ==> |runs| == settings.iterations && AreIterations(t, request, cs, settings, runs, states)
    ensures r.Some? ==> IsReport(cs, runs, r.value)
    ensures r.Some? ==> PlanFor(t, request, Repeat(|cs|, 0), p) && ReportFits(t, p, cs, settings, r.value)
  {
    r, p, runs, states := None, Plan([], [], [], [], map[], 0, 0), [], [];
    var errors := HasDeterministicErrors(t);
    if errors || !ValidRequest(request) || !ValidSettings(settings, cs) || !NamesContent(request, t) { return; }
    var plan := PreparePlan(t, request, Repeat(|cs|, 0));
    p := plan;
    var report;
    report, runs, states := IterateAll(t, request, plan, cs, settings);
    r := Some(report);
  }

  /** The elapsed times so far are within the bounds, and failures happened where they can. */
  ghost predicate Plausible(t: ExecutionTopology, p: Plan, cs: seq<Calibration>, maximumAttempts: nat,
      runs: seq<IterationRun>)
  {
    forall i :: 0 <= i < |runs| ==> PlausibleRun(t, p, cs, maximumAttempts, runs[i])
  }

  ghost predicate PlausibleRun(t: ExecutionTopology, p: Plan, cs: seq<Calibration>, maximumAttempts: nat,
      run: IterationRun)
  {
    && AllWithin(cs, maximumAttempts, run.nodes) && run.peak <= p.slots
    && (if !LatencyKnown(cs) then run.elapsed.None? && run.peak == 0 && run.waits == 0
        else run.elapsed.Some? && AllBracketed(p, ArcsOf(t), cs, maximumAttempts, [run.elapsed.value]))
  }

  /** Each iteration takes one state to the next by a step. */
  ghost predicate Chained(step: (bv64, IterationRun, bv64) -> bool, runs: seq<IterationRun>, states: seq<bv64>) {
    |states| == |runs| + 1 && forall i {:trigger runs[i]} :: 0 <= i < |runs| ==> step(states[i], runs[i], states[i + 1])
  }

  lemma ChainGrows(step: (bv64, IterationRun, bv64) -> bool, runs: seq<IterationRun>, states: seq<bv64>,
      run: IterationRun, after: bv64)
    requires Chained(step, runs, states) && step(states[|runs|], run, after)
    ensures Chained(step, runs + [run], states + [after])
  {
  }

  /** Every possible iteration is a step. */
  ghost predicate IsStep(step: (bv64, IterationRun, bv64) -> bool, t: ExecutionTopology, request: SimulationRequest,
      p: Plan, cs: seq<Calibration>, maximumAttempts: nat)
  {
    forall s, run, after {:trigger IsIteration(t, request, cs, maximumAttempts, s, run, after)} ::
      IsIteration(t, request, cs, maximumAttempts, s, run, after) && PlausibleRun(t, p, cs, maximumAttempts, run) ==>
        step(s, run, after)
  }

  method TakeStep(rng: SeededRng, t: ExecutionTopology, request: SimulationRequest, p: Plan, cs: seq<Calibration>,
      settings: Settings, ghost step: (bv64, IterationRun, bv64) -> bool)
    returns (run: IterationRun)
    requires Prepared(t, request, p) && |t.nodes| == |cs| && ValidSettings(settings, cs)
    requires IsStep(step, t, request, p, cs, settings.maximumAttempts)
    modifies rng
    ensures step(old(rng.state), run, rng.state) && KnownParts(cs, run)
  {
    run := Iterate(rng, t, request, p, cs, settings);
    AllDrawn(cs, settings.maximumAttempts, run.nodes);
  }

  method RunIterations(t: ExecutionTopology, request: SimulationRequest, p: Plan, cs: seq<Calibration>,
      settings: Settings, ghost step: (bv64, IterationRun, bv64) -> bool)
    returns (tally: Tally, ghost runs: seq<IterationRun>, ghost states: seq<bv64>)
    requires Prepared(t, request, p) && |t.nodes| == |cs| && ValidSettings(settings, cs)
    requires IsStep(step, t, request, p, cs, settings.maximumAttempts)
    ensures |runs| == settings.iterations && Chained(step, runs, states) && Tallied(cs, runs, tally)
    ensures states[0] == settings.seed ^ SEED_MASK
  {
    var rng := new SeededRng(settings.seed);
    tally := Tally([], [], [], 0, 0, 0);
    runs, states := [], [rng.state];
    for i := 0 to settings.iterations
      invariant |runs| == i && Chained(step, runs, states) && Tallied(cs, runs, tally)
      invariant states[0] == settings.seed ^ SEED_MASK && states[i] == rng.state
    {
      var run := TakeStep(rng, t, request, p, cs, settings, step);
      tally := AddIteration(cs, runs, tally, run);
      ChainGrows(step, runs, states, run, rng.state);
      runs, states := runs + [run], states + [rng.state];
    }
  }

  /** The iterations, as every step of the chain of states they leave behind. */
  lemma ChainIsIterations(t: ExecutionTopology, request: SimulationRequest, p: Plan, cs: seq<Calibration>,
      settings: Settings, step: (bv64, IterationRun, bv64) -> bool, runs: seq<IterationRun>, states: seq<bv64>)
    requires Chained(step, runs, states) && states[0] == settings.seed ^ SEED_MASK
    requires forall s, run, after {:trigger step(s, run, after)} :: step(s, run, after) ==>
      IsIteration(t, request, cs, settings.maximumAttempts, s, run, after) &&
      PlausibleRun(t, p, cs, settings.maximumAttempts, run)
    ensures AreIterations(t, request, cs, settings, runs, states)
    ensures Plausible(t, p, cs, settings.maximumAttempts, runs)
  {
    forall i | 0 <= i < |runs|
      ensures IsIteration(t, request, cs, settings.maximumAttempts, states[i], runs[i], states[i + 1])
      ensures PlausibleRun(t, p, cs, settings.maximumAttempts, runs[i])
    {
      assert step(states[i], runs[i], states[i + 1]);
    }
  }

  method IterateAll(t: ExecutionTopology, request: SimulationRequest, p: Plan, cs: seq<Calibration>, settings: Settings)
    returns (r: Report, ghost runs: seq<IterationRun>, ghost states: seq<bv64>)
    requires Prepared(t, request, p) && |t.nodes| == |cs| && ValidSettings(settings, cs)
    ensures |runs| == settings.iterations && AreIterations(t, request, cs, settings, runs, states)
    ensures IsReport(cs, runs, r) && ReportFits(t, p, cs, settings, r)
  {
    ghost var step: (bv64, IterationRun, bv64) -> bool := (s, run, after) =>
      IsIteration(t, request, cs, settings.maximumAttempts, s, run, after) &&
      PlausibleRun(t, p, cs, settings.maximumAttempts, run);
    var tally;
    tally, runs, states := RunIterations(t, request, p, cs, settings, step);
    ChainIsIterations(t, request, p, cs, settings, step, runs, states);
    r := MakeReport(cs, runs, tally);
    ReportIsPlausible(t, p, cs, settings, runs, r);
  }

  predicate NothingFails(cs: seq<Calibration>) {
    forall v :: 0 <= v < |cs| ==> cs[v].failure.None? || cs[v].failure.value == 0
  }

  /** What calibrations and settings say of the report before it is made. */
  ghost predicate ReportFits(t: ExecutionTopology, p: Plan, cs: seq<Calibration>, settings: Settings, r: Report) {
    && r.peak <= p.slots
    && (LatencyKnown(cs) ==>
         (r.latency.Some? && RangeBracketed(p, ArcsOf(t), cs, settings.maximumAttempts, r.latency.value)))
    && (FailureKnown(cs) ==> r.failedIterations.Some? && r.failedIterations.value <= settings.iterations)
    && (FailureKnown(cs) && NothingFails(cs) ==> r.failedIterations == Some(0))
  }

  lemma TallyIsReport(cs: seq<Calibration>, runs: seq<IterationRun>, t: Tally, r: Report)
    requires Tallied(cs, runs, t) && runs != []
    requires Covers(r.latency, LatencyKnown(cs), t.elapsed) && Covers(r.cost, CostKnown(cs), t.cost)
    requires Covers(r.tokens, TokensKnown(cs), t.tokens) && r.peak == t.peak && r.waits == t.waits
    requires r.failedIterations == if FailureKnown(cs) then Some(t.failures) else None
    ensures IsReport(cs, runs, r)
  {
    assert Peaks(runs)[0] in Peaks(runs);
  }

  method MakeReport(cs: seq<Calibration>, ghost runs: seq<IterationRun>, t: Tally) returns (r: Report)
    requires Tallied(cs, runs, t) && runs != []
    ensures IsReport(cs, runs, r)
  {
    var latency := Summarize(t.elapsed);
    var cost := Summarize(t.cost);
    var tokens := Summarize(t.tokens);
    r := Report(latency, cost, tokens, t.peak, t.waits, if FailureKnown(cs) then Some(t.failures) else None);
    TallyIsReport(cs, runs, t, r);
  }

  lemma ReportIsPlausible(t: ExecutionTopology, p: Plan, cs: seq<Calibration>, settings: Settings,
      runs: seq<IterationRun>, r: Report)
    requires IsReport(cs, runs, r) && Plausible(t, p, cs, settings.maximumAttempts, runs)
    requires |runs| == settings.iterations
    ensures ReportFits(t, p, cs, settings, r)
  {
    PeakAndRangeArePlausible(t, p, cs, settings.maximumAttempts, runs, r);
    FailuresArePlausible(cs, settings.maximumAttempts, runs);
  }

  lemma PeakAndRangeArePlausible(t: ExecutionTopology, p: Plan, cs: seq<Calibration>, maximumAttempts: nat,
      runs: seq<IterationRun>, r: Report)
    requires IsReport(cs, runs, r) && Plausible(t, p, cs, maximumAttempts, runs)
    ensures r.peak <= p.slots
    ensures LatencyKnown(cs) ==> r.latency.Some? && RangeBracketed(p, ArcsOf(t), cs, maximumAttempts, r.latency.value)
  {
    var i :| 0 <= i < |Peaks(runs)| && Peaks(runs)[i] == r.peak;
    assert PlausibleRun(t, p, cs, maximumAttempts, runs[i]);
    if LatencyKnown(cs) {
      var samples :| AreElapsed(samples, runs) && Covers(r.latency, LatencyKnown(cs), samples);
      SummaryMeaning(r.latency.value, samples);
      forall x | x in samples ensures Bracketed(p, ArcsOf(t), Lows(cs), Highs(cs, maximumAttempts), x) {
        var k :| 0 <= k < |samples| && samples[k] == x;
        assert PlausibleRun(t, p, cs, maximumAttempts, runs[k]) && x in [runs[k].elapsed.value];
      }
    }
  }

  lemma FailuresArePlausible(cs: seq<Calibration>, maximumAttempts: nat, runs: seq<IterationRun>)
    requires forall i :: 0 <= i < |runs| ==> AllWithin(cs, maximumAttempts, runs[i].nodes)
    ensures |FailedAmong(runs)| <= |runs|
    ensures NothingFails(cs) ==> FailedAmong(runs) == {}
  {
    SubsetCount(FailedAmong(runs), Nodes(|runs|));
    if NothingFails(cs) {
      forall i | 0 <= i < |runs| ensures !SomeFailed(runs[i].nodes) {
        forall v | 0 <= v < |cs| ensures !runs[i].nodes[v].failed {
          assert SampledWithin(runs[i].nodes[v], cs[v], maximumAttempts);
        }
      }
    }
  }
}
