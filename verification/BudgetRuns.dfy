/** What holds after any sequence of calls to the expansion controller. */
module BudgetRuns {
  import opened Machine
  import opened Budget

  // ------------------------------------------------------------- pace and limits

  /** A round that invites another one. */
  predicate Open<F, I, P>(r: RoundResult<F, I, P>) {
    r.halt.Continue? || r.halt.NeedsReview?
  }

  function OpenRounds<F, I, P>(history: seq<RoundResult<F, I, P>>): nat {
    if history == [] then 0
    else OpenRounds(history[..|history| - 1]) + if Open(history[|history| - 1]) then 1 else 0
  }

  ghost predicate Paced<F, I, P>(limits: Limits, s: State<F, I, P>, history: seq<RoundResult<F, I, P>>) {
    && s.iteration <= limits.maxIterations && s.iteration <= |history| && s.dryRounds <= s.iteration
    && OpenRounds(history) <= s.iteration && (Positive(limits) ==> OpenRounds(history) < limits.maxIterations)
  }

  /** The cost or latency limit was reached by the end of this round. */
  predicate Spent<F, I, P>(limits: Limits, r: RoundResult<F, I, P>) {
    CostExhausted(limits, r.totalCost) || LatencyExhausted(limits, r.totalLatency)
  }

  /** Once spent, always spent, and nothing is created any more. */
  ghost predicate SpentStays<F, I, P>(limits: Limits, s: State<F, I, P>, history: seq<RoundResult<F, I, P>>) {
    && s.totalLatency <= U64_MAX
    && (forall i :: 0 <= i < |history| ==>
      history[i].totalCost <= s.totalCost && history[i].totalLatency <= s.totalLatency)
    && (forall i, j :: 0 <= i <= j < |history| && Spent(limits, history[i]) ==>
      history[j].created == [] && !Open(history[j]))
  }

  /** No candidate of the round had a fingerprint not seen before. */
  predicate NoNews<F, I, P>(r: RoundResult<F, I, P>) {
    forall i :: 0 <= i < |r.decisions| ==> Stale(r.decisions[i])
  }

  predicate Stale<F, I>(d: Decision<F, I>) {
    d.fingerprint.None? || (d.disposition.Duplicate? && d.cause.None?)
  }

  /** `dryRounds` is the length of the run of rounds without news at the end. */
  ghost predicate DryTail<F, I, P>(s: State<F, I, P>, history: seq<RoundResult<F, I, P>>) {
    && s.dryRounds <= |history|
    && (forall i :: |history| - s.dryRounds <= i < |history| ==> NoNews(history[i]))
    && (s.iteration == |history| && s.dryRounds < |history| ==> !NoNews(history[|history| - 1 - s.dryRounds]))
  }

  ghost predicate Sound<F(!new), I(!new), P(!new)>(limits: Limits, t: Trace<F, I, P>) {
    var s := t.controller.state;
    && StoredExactly(limits, s, AllCreated(t.history)) && DecidedOnce(s, AllDecisions(t.history))
    && Paced(limits, s, t.history) && SpentStays(limits, s, t.history) && DryTail(s, t.history)
  }

  // ------------------------------------------------------------ one processed round

  lemma LastStep<F, I, P>(history: seq<RoundResult<F, I, P>>, r: RoundResult<F, I, P>)
    ensures AllCreated(history + [r]) == AllCreated(history) + r.created
    ensures AllDecisions(history + [r]) == AllDecisions(history) + r.decisions
    ensures OpenRounds(history + [r]) == OpenRounds(history) + if Open(r) then 1 else 0
  {
    assert (history + [r])[..|history|] == history;
  }

  lemma {:induction false} UnseenIsNews<F, I, P>(limits: Limits, exhausted: Option<Cause>, w: Work<F, I, P>,
      offers: seq<Offer<F, I, P>>)
    requires w.unseen == 0 <==> forall i :: 0 <= i < |w.decisions| ==> Stale(w.decisions[i])
    ensures var v := ConsiderAll(limits, exhausted, w, offers);
      v.unseen == 0 <==> forall i :: 0 <= i < |v.decisions| ==> Stale(v.decisions[i])
  {
    if offers != [] {
      var k := |offers| - 1;
      UnseenIsNews(limits, exhausted, w, offers[..k]);
      NewsStep(limits, exhausted, ConsiderAll(limits, exhausted, w, offers[..k]), offers[k]);
    }
  }

  lemma NewsStep<F, I, P>(limits: Limits, exhausted: Option<Cause>, w: Work<F, I, P>, offer: Offer<F, I, P>)
    requires w.unseen == 0 <==> forall i :: 0 <= i < |w.decisions| ==> Stale(w.decisions[i])
    ensures var v := Consider(limits, exhausted, w, offer);
      v.unseen == 0 <==> forall i :: 0 <= i < |v.decisions| ==> Stale(v.decisions[i])
  {
    var v := Consider(limits, exhausted, w, offer);
    var d := v.decisions[|w.decisions|];
    assert v.decisions == w.decisions + [d];
    assert Stale(d) <==> v.unseen == w.unseen;
    assert forall i :: 0 <= i < |w.decisions| ==> v.decisions[i] == w.decisions[i];
  }

  /** The facts about a processed round that the run invariant needs. */
  lemma RoundFacts<F(!new), I(!new), P(!new)>(limits: Limits, s: State<F, I, P>, offers: seq<Offer<F, I, P>>,
      cost: real, latency: nat,
                                              created: seq<Item<I, P>>, decisions: seq<Decision<F, I>>)
    requires StoredExactly(limits, s, created) && DecidedOnce(s, decisions)
    ensures var w := Worked(limits, s, offers, cost, latency); var v := Closed(w);
      && StoredExactly(limits, v, created + w.created) && DecidedOnce(v, decisions + w.decisions)
      && v.iteration == s.iteration + 1 && v.totalCost == s.totalCost + cost &&
        v.totalLatency == SaturatingAdd(s.totalLatency, latency)
      && (CostExhausted(limits, v.totalCost) || LatencyExhausted(limits, v.totalLatency) ==> w.created == [])
      && v.dryRounds == (if forall i :: 0 <= i < |w.decisions| ==> Stale(w.decisions[i]) then s.dryRounds + 1 else 0)
  {
    var begun := Started(s, cost, latency);
    var exhausted := Exhausted(limits, begun.totalCost, begun.totalLatency);
    assert created + [] == created && decisions + [] == decisions;
    ConsiderAllStores(limits, exhausted, Work(begun, 0, [], []), offers, created);
    ConsiderAllDecides(limits, exhausted, Work(begun, 0, [], []), offers, decisions);
    ConsiderAllFrame(limits, exhausted, Work(begun, 0, [], []), offers);
    UnseenIsNews(limits, exhausted, Work(begun, 0, [], []), offers);
  }

  lemma PacedStep<F, I, P>(limits: Limits, s: State<F, I, P>, history: seq<RoundResult<F, I, P>>, v: State<F, I, P>,
      r: RoundResult<F, I, P>)
    requires Paced(limits, s, history) && s.iteration < limits.maxIterations
    requires v.iteration == s.iteration + 1 && v.dryRounds <= s.dryRounds + 1 &&
      r.halt == HaltOf(limits, v, r.created != [])
    ensures Paced(limits, v, history + [r])
  {
    LastStep(history, r);
  }

  lemma SpentStep<F, I, P>(limits: Limits, s: State<F, I, P>, history: seq<RoundResult<F, I, P>>, v: State<F, I, P>,
      r: RoundResult<F, I, P>)
    requires SpentStays(limits, s, history) && s.totalCost <= v.totalCost && s.totalLatency <= v.totalLatency <= U64_MAX
    requires r.totalCost == v.totalCost && r.totalLatency == v.totalLatency &&
      (Spent(limits, r) ==> r.created == [] && !Open(r))
    ensures SpentStays(limits, v, history + [r])
  {
    var h := history + [r];
    forall i, j | 0 <= i <= j < |h| && Spent(limits, h[i]) ensures h[j].created == [] && !Open(h[j]) {
      assert i < |history| ==>
          h[i] == history[i] && history[i].totalCost <= v.totalCost && history[i].totalLatency <= v.totalLatency;
    }
  }

  lemma DryStep<F, I, P>(s: State<F, I, P>, history: seq<RoundResult<F, I, P>>, v: State<F, I, P>,
      r: RoundResult<F, I, P>)
    requires DryTail(s, history) && s.iteration <= |history| && v.iteration == s.iteration + 1
    requires v.dryRounds == if NoNews(r) then s.dryRounds + 1 else 0
    ensures DryTail(v, history + [r])
  {
    var h := history + [r];
    assert forall i :: 0 <= i < |history| ==> h[i] == history[i];
    assert h[|history|] == r;
  }

  lemma RefusedStep<F(!new), I(!new), P(!new)>(limits: Limits, t: Trace<F, I, P>)
    requires Sound(limits, t) && t.controller.state.iteration >= limits.maxIterations
    ensures Sound(limits, t.(history := t.history + [ResultOf(t.controller.state, MaxIterations, [], [])]))
  {
    var s, h := t.controller.state, t.history;
    var r: RoundResult<F, I, P> := ResultOf(s, MaxIterations, [], []);
    LastStep(h, r);
    assert AllCreated(h) + [] == AllCreated(h) && AllDecisions(h) + [] == AllDecisions(h);
    SpentStep(limits, s, h, s, r);
    RefusedDry(s, h, r);
  }

  lemma RefusedDry<F, I, P>(s: State<F, I, P>, history: seq<RoundResult<F, I, P>>, r: RoundResult<F, I, P>)
    requires DryTail(s, history) && s.iteration <= |history| && NoNews(r)
    ensures DryTail(s, history + [r])
  {
    var h := history + [r];
    assert forall i :: 0 <= i < |history| ==> h[i] == history[i];
    assert h[|history|] == r;
  }

  lemma ProcessedStep<F(!new), I(!new), P(!new)>(limits: Limits, t: Trace<F, I, P>, offers: seq<Offer<F, I, P>>,
      cost: real, latency: nat)
    requires Sound(limits, t) && t.controller.state.iteration < limits.maxIterations && cost >= 0.0
    ensures var (v, r) := Round(limits, t.controller.state, offers, cost, latency);
      r.Some? && Sound(limits, Trace(t.controller.(state := v), t.history + [r.value]))
  {
    var s, h := t.controller.state, t.history;
    var w := Worked(limits, s, offers, cost, latency);
    var v := Closed(w);
    var r := ResultOf(v, HaltOf(limits, v, w.created != []), w.decisions, w.created);
    RoundFacts(limits, s, offers, cost, latency, AllCreated(h), AllDecisions(h));
    LastStep(h, r);
    PacedStep(limits, s, h, v, r);
    SpentStep(limits, s, h, v, r);
    DryStep(s, h, v, r);
  }

  /** Every reachable controller satisfies the invariant. */
  lemma {:induction false} RunIsSound<F(!new), I(!new), P(!new)>(limits: Limits, calls: seq<Call<F, I, P>>)
    ensures Sound(limits, Run(limits, calls))
  {
    if calls != [] {
      var k := |calls| - 1;
      RunIsSound(limits, calls[..k]);
      ExtendKeeps(limits, Run(limits, calls[..k]), calls[k]);
    }
  }

  lemma ExtendKeeps<F(!new), I(!new), P(!new)>(limits: Limits, t: Trace<F, I, P>, call: Call<F, I, P>)
    requires Sound(limits, t)
    ensures Sound(limits, Extend(limits, t, call))
  {
    if call.ProcessRound? && t.controller.attempt == Some(call.attemptId) {
      if t.controller.state.iteration >= limits.maxIterations {
        RefusedStep(limits, t);
      } else if call.cost >= 0.0 {
        ProcessedStep(limits, t, call.offers, call.cost, call.latency);
      }
    }
  }

  // -------------------------------------------------------------------- theorems

  /** The node budget: what is spent is the capped sum over exactly the stored
      proposals, and it never exceeds the limit. */
  lemma SpawnedIsStoredTotal<F(!new), I(!new), P(!new)>(limits: Limits, calls: seq<Call<F, I, P>>)
    ensures var t := Run(limits, calls); var s, created := t.controller.state, AllCreated(t.history);
      && s.spawned == TotalCharge(created) <= limits.maxSpawnedNodes
      && (forall id :: id in s.proposals <==> exists i :: 0 <= i < |created| && created[i].id == id)
      && (forall i, j :: 0 <= i < j < |created| ==> created[i].id != created[j].id)
  {
    RunIsSound(limits, calls);
    var t := Run(limits, calls);
    var s, created := t.controller.state, AllCreated(t.history);
    forall id | id in s.proposals ensures exists i :: 0 <= i < |created| && created[i].id == id {
      var i :| 0 <= i < |created| && created[i] == s.proposals[id];
    }
  }

  lemma {:induction false} ChargeIsTotal<I, P>(items: seq<Item<I, P>>)
    ensures TotalCharge(items) <= TotalAdded(items)
    ensures TotalCharge(items) == TotalAdded(items) <==> forall i :: 0 <= i < |items| ==> items[i].added <= U32_MAX
  {
    if items != [] {
      var k := |items| - 1;
      ChargeIsTotal(items[..k]);
      assert forall i :: 0 <= i < k ==> items[..k][i] == items[i];
    }
  }

  lemma {:induction false} ChargeBounded<I, P>(items: seq<Item<I, P>>, i: nat)
    requires i < |items|
    ensures Charge(items[i]) <= TotalCharge(items)
  {
    if i < |items| - 1 { ChargeBounded(items[..|items| - 1], i); }
  }

  /** The counter is the true number of added nodes. */
  ghost predicate CountsExactly<F(!new), I(!new), P(!new)>(limits: Limits, calls: seq<Call<F, I, P>>) {
    var t := Run(limits, calls);
    t.controller.state.spawned == TotalAdded(AllCreated(t.history))
  }

  /** A limit below the 32-bit maximum makes the counter exact in every run. */
  lemma SmallLimitCountsExactly<F(!new), I(!new), P(!new)>(limits: Limits, calls: seq<Call<F, I, P>>)
    requires limits.maxSpawnedNodes < U32_MAX
    ensures CountsExactly(limits, calls)
  {
    RunIsSound(limits, calls);
    var created := AllCreated(Run(limits, calls).history);
    forall i | 0 <= i < |created| ensures created[i].added <= U32_MAX { ChargeBounded(created, i); }
    ChargeIsTotal(created);
  }

  /** A run whose first proposal adds one node more than 32 bits can count. */
  function Oversized<F, I, P>(f: F, id: I, p: P): seq<Call<F, I, P>> {
    var offer := Offer(Some(f), AcceptForProposal, Some(Item(id, U32_MAX + 1, p)));
    [BeginAttempt("a", true), ProcessRound("a", [offer], 0.0, 0)]
  }

  lemma RunAppends<F, I, P>(limits: Limits, calls: seq<Call<F, I, P>>, call: Call<F, I, P>)
    ensures Run(limits, calls + [call]) == Extend(limits, Run(limits, calls), call)
  {
    assert (calls + [call])[..|calls|] == calls;
  }

  lemma OneOffer<F, I, P>(limits: Limits, exhausted: Option<Cause>, w: Work<F, I, P>, offer: Offer<F, I, P>)
    ensures ConsiderAll(limits, exhausted, w, [offer]) == Consider(limits, exhausted, w, offer)
  {
    assert [offer][..0] == [];
  }

  /** A first round with one acceptable offer that fits the limit creates exactly its proposal. */
  lemma FirstOffer<F, I, P>(limits: Limits, f: F, item: Item<I, P>)
    requires Positive(limits) && Charge(item) <= limits.maxSpawnedNodes
    ensures var w := Worked(limits, Initial<F, I, P>(), [Offer(Some(f), AcceptForProposal, Some(item))], 0.0, 0);
      w.created == [item] && w.state.spawned == Charge(item)
  {
    var begun := Started(Initial<F, I, P>(), 0.0, 0);
    var exhausted := Exhausted(limits, begun.totalCost, begun.totalLatency);
    assert exhausted == None;
    OneOffer(limits, exhausted, Work(begun, 0, [], []), Offer(Some(f), AcceptForProposal, Some(item)));
  }

  lemma FirstRound<F, I, P>(limits: Limits, attempt: string, f: F, item: Item<I, P>)
    requires Positive(limits) && Charge(item) <= limits.maxSpawnedNodes
    ensures var t := Extend(limits, Trace(Controller(Some(attempt), Initial<F, I, P>()), []),
                            ProcessRound(attempt, [Offer(Some(f), AcceptForProposal, Some(item))], 0.0, 0));
      t.controller.state.spawned == Charge(item) && |t.history| == 1 && t.history[0].created == [item]
  {
    FirstOffer(limits, f, item);
  }

  lemma {:induction false} OneCreated<F, I, P>(history: seq<RoundResult<F, I, P>>, item: Item<I, P>)
    requires |history| == 1 && history[0].created == [item]
    ensures TotalAdded(AllCreated(history)) == item.added
  {
    assert history[..0] == [] && AllCreated(history) == [item] && [item][..0] == [];
  }

  lemma RunOfTwo<F, I, P>(limits: Limits, a: Call<F, I, P>, b: Call<F, I, P>)
    ensures Run(limits, [a, b]) == Extend(limits, Extend(limits, Trace(Controller(None, Initial()), []), a), b)
  {
    RunAppends(limits, [], a);
    RunAppends(limits, [a], b);
    assert [] + [a] == [a] && [a] + [b] == [a, b];
  }

  /** At the 32-bit maximum that run is admitted, and the counter falls short of the truth. */
  lemma OversizedIsMiscounted<F(!new), I(!new), P(!new)>(limits: Limits, f: F, id: I, p: P)
    requires Positive(limits) && limits.maxSpawnedNodes == U32_MAX
    ensures var t := Run(limits, Oversized(f, id, p));
      t.controller.state.spawned == U32_MAX && TotalAdded(AllCreated(t.history)) == U32_MAX + 1
  {
    var calls, item := Oversized(f, id, p), Item(id, U32_MAX + 1, p);
    RunOfTwo(limits, calls[0], calls[1]);
    assert calls == [calls[0], calls[1]];
    FirstRound(limits, "a", f, item);
    OneCreated(Run(limits, calls).history, item);
  }

  /** The counter is exact over all runs exactly when the limit is below the 32-bit maximum. */
  lemma SpawnedIsTrueTotal<F(!new), I(!new), P(!new)>(limits: Limits, f: F, id: I, p: P)
    requires Positive(limits)
    ensures (forall calls: seq<Call<F, I, P>> :: CountsExactly(limits, calls)) <==> limits.maxSpawnedNodes < U32_MAX
  {
    if limits.maxSpawnedNodes < U32_MAX {
      forall calls: seq<Call<F, I, P>> ensures CountsExactly(limits, calls) { SmallLimitCountsExactly(limits, calls); }
    } else {
      OversizedIsMiscounted(limits, f, id, p);
      assert !CountsExactly(limits, Oversized(f, id, p));
    }
  }

  /** A well-formed fingerprint gets a decision other than `Duplicate` at most once ever. */
  lemma FingerprintDecidedOnce<F(!new), I(!new), P(!new)>(limits: Limits, calls: seq<Call<F, I, P>>, i: nat, j: nat)
    requires var ds := AllDecisions(Run(limits, calls).history);
      i < j < |ds| && ds[i].fingerprint.Some? && ds[i].fingerprint == ds[j].fingerprint
    ensures AllDecisions(Run(limits, calls).history)[j].disposition.Duplicate?
  {
    RunIsSound(limits, calls);
  }

  /** No proposal appears in or after a round that reached the cost or latency limit,
      and no such round invites another. */
  lemma NothingAfterExhaustion<F(!new), I(!new), P(!new)>(limits: Limits, calls: seq<Call<F, I, P>>, i: nat, j: nat)
    requires i <= j < |Run(limits, calls).history| && Spent(limits, Run(limits, calls).history[i])
    ensures Run(limits, calls).history[j].created == [] && !Open(Run(limits, calls).history[j])
  {
    RunIsSound(limits, calls);
  }

  /** The iteration counter never passes its limit, and fewer rounds than the limit
      can ask for another. */
  lemma FewRoundsStayOpen<F(!new), I(!new), P(!new)>(limits: Limits, calls: seq<Call<F, I, P>>)
    requires Positive(limits)
    ensures var t := Run(limits, calls);
      t.controller.state.iteration <= limits.maxIterations && OpenRounds(t.history) < limits.maxIterations
  {
    RunIsSound(limits, calls);
  }

  /** A `Dry` halt means what it says: the last `dryRoundsRequired` rounds brought no
      fingerprint that had not been seen before. */
  lemma DryMeansNoNews<F(!new), I(!new), P(!new)>(limits: Limits, calls: seq<Call<F, I, P>>, i: nat)
    requires var h := Run(limits, calls).history;
      |h| > 0 && h[|h| - 1].halt.Dry? && |h| - limits.dryRoundsRequired <= i < |h|
    ensures NoNews(Run(limits, calls).history[i])
  {
    RunIsSound(limits, calls);
    LastHalt(limits, calls);
  }

  /** The last result reports the controller's current counters. */
  lemma {:induction false} LastHalt<F(!new), I(!new), P(!new)>(limits: Limits, calls: seq<Call<F, I, P>>)
    ensures var t := Run(limits, calls); var h := t.history;
      |h| > 0 && h[|h| - 1].halt.Dry? ==> t.controller.state.dryRounds >= limits.dryRoundsRequired
  {
    if calls != [] { LastHalt(limits, calls[..|calls| - 1]); }
  }

  ghost predicate Among<F, I, P>(offers: seq<Offer<F, I, P>>, item: Item<I, P>) {
    exists i :: 0 <= i < |offers| && offers[i].item == Some(item) && offers[i].fingerprint.Some? &&
      offers[i].wish.AcceptForProposal?
  }

  ghost predicate Offered<F, I, P>(calls: seq<Call<F, I, P>>, item: Item<I, P>) {
    exists c :: 0 <= c < |calls| && calls[c].ProcessRound? && Among(calls[c].offers, item)
  }

  lemma OfferedAt<F, I, P>(calls: seq<Call<F, I, P>>, item: Item<I, P>) returns (c: nat, i: nat)
    requires Offered(calls, item)
    ensures c < |calls| && calls[c].ProcessRound? && i < |calls[c].offers| && calls[c].offers[i].item == Some(item)
  {
    c :| 0 <= c < |calls| && calls[c].ProcessRound? && Among(calls[c].offers, item);
    i :| 0 <= i < |calls[c].offers| && calls[c].offers[i].item == Some(item);
  }

  lemma {:induction false} WorkCreatesOffers<F, I, P>(limits: Limits, exhausted: Option<Cause>, w: Work<F, I, P>,
      offers: seq<Offer<F, I, P>>, item: Item<I, P>)
    requires item in ConsiderAll(limits, exhausted, w, offers).created && item !in w.created
    ensures Among(offers, item)
  {
    if offers != [] {
      var k := |offers| - 1;
      var u := ConsiderAll(limits, exhausted, w, offers[..k]);
      if item in u.created {
        WorkCreatesOffers(limits, exhausted, w, offers[..k], item);
        var i :| 0 <= i < k && offers[..k][i].item == Some(item) && offers[..k][i].fingerprint.Some? &&
          offers[..k][i].wish.AcceptForProposal?;
        assert offers[i].item == Some(item);
      } else {
        assert offers[k].item == Some(item);
      }
    }
  }

  /** Every stored proposal comes from a candidate that asked for it. */
  lemma {:induction false} StoredWereOffered<F(!new), I(!new), P(!new)>(limits: Limits, calls: seq<Call<F, I, P>>,
      item: Item<I, P>)
    requires item in AllCreated(Run(limits, calls).history)
    ensures Offered(calls, item)
  {
    if calls != [] {
      var k := |calls| - 1;
      var t := Run(limits, calls[..k]);
      if item in AllCreated(t.history) {
        StoredWereOffered(limits, calls[..k], item);
        var c :| 0 <= c < k && calls[..k][c].ProcessRound? && Among(calls[..k][c].offers, item);
        assert calls[c].ProcessRound? && Among(calls[c].offers, item);
      } else {
        LastCreates(limits, t, calls[k], item);
      }
    }
  }

  lemma LastCreates<F, I, P>(limits: Limits, t: Trace<F, I, P>, call: Call<F, I, P>, item: Item<I, P>)
    requires item in AllCreated(Extend(limits, t, call).history) && item !in AllCreated(t.history)
    ensures call.ProcessRound? && Among(call.offers, item)
  {
    var (c, result) := Handle(limits, t.controller, call);
    assert result.Some?;
    LastStep(t.history, result.value);
    assert item in result.value.created;
    var begun := Started(t.controller.state, call.cost, call.latency);
    WorkCreatesOffers(limits, Exhausted(limits, begun.totalCost, begun.totalLatency), Work(begun, 0, [], []),
      call.offers, item);
  }
}
