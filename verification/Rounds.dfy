/** What one round of the expansion controller decides, counts and answers, written out case by
    case, and what its halts mean over a run. */
module Rounds {
  import opened Machine
  import opened Budget

  // ------------------------------------------------------------------ one candidate

  /** What an item counts: its added nodes, as far as 32 bits go. */
  function Counted<I, P>(item: Item<I, P>): nat {
    if item.added <= 0xFFFF_FFFF then item.added else 0xFFFF_FFFF
  }

  /** The decision on a candidate, given what the round has reached and what came before. */
  predicate IsDecision<F(==), I(==), P>(limits: Limits, cost: real, latency: nat, seen: set<F>, spawned: nat,
      stored: set<I>, offer: Offer<F, I, P>, d: Decision<F, I>)
  {
    d ==
      if offer.fingerprint.None? then Decision(None, Rejected, Some(Malformed), None)
      else if offer.fingerprint.value in seen then Decision(offer.fingerprint, Duplicate, None, None)
      else if cost >= limits.maxCost then Decision(offer.fingerprint, Deferred, Some(MaxCostReached), None)
      else if latency >= limits.maxLatencyMs then Decision(offer.fingerprint, Deferred, Some(MaxLatencyReached), None)
      else if offer.wish == Reject then Decision(offer.fingerprint, Rejected, None, None)
      else if offer.wish == Defer then Decision(offer.fingerprint, Deferred, None, None)
      else if offer.item.None? then Decision(offer.fingerprint, Rejected, Some(PatchRefused), None)
      else if Counted(offer.item.value) > 0 && spawned + Counted(offer.item.value) > limits.maxSpawnedNodes then
        Decision(offer.fingerprint, Deferred, Some(MaxSpawnedNodesReached), None)
      else if offer.item.value.id in stored then
        Decision(offer.fingerprint, Duplicate, Some(DuplicateProposal), None)
      else Decision(offer.fingerprint, AcceptedForProposal, None, Some(offer.item.value.id))
  }

  /** The fingerprints among the candidates. */
  ghost function Prints<F, I, P>(offers: seq<Offer<F, I, P>>): set<F> {
    if offers == [] then {} else Prints(offers[..|offers| - 1]) + Print(offers[|offers| - 1])
  }

  function Print<F(==), I, P>(offer: Offer<F, I, P>): set<F> {
    if offer.fingerprint.Some? then {offer.fingerprint.value} else {}
  }

  /** The items whose candidates were accepted, in order. */
  ghost function AcceptedItems<F, I, P>(offers: seq<Offer<F, I, P>>, ds: seq<Decision<F, I>>): seq<Item<I, P>>
    requires |offers| == |ds|
  {
    if offers == [] then []
    else
      var k := |offers| - 1;
      AcceptedItems(offers[..k], ds[..k]) +
        if ds[k].disposition.AcceptedForProposal? && offers[k].item.Some? then [offers[k].item.value] else []
  }

  ghost function CountedTotal<I, P>(items: seq<Item<I, P>>): nat {
    if items == [] then 0 else CountedTotal(items[..|items| - 1]) + Counted(items[|items| - 1])
  }

  /** The stored proposals with these items filed under their ids. */
  ghost function Filed<I, P>(proposals: map<I, Item<I, P>>, items: seq<Item<I, P>>): map<I, Item<I, P>> {
    if items == [] then proposals
    else Filed(proposals, items[..|items| - 1])[items[|items| - 1].id := items[|items| - 1]]
  }

  /** Each candidate is decided in order, after those before it. */
  ghost predicate DecidesAll<F, I, P>(limits: Limits, cost: real, latency: nat, s: State<F, I, P>,
      offers: seq<Offer<F, I, P>>, ds: seq<Decision<F, I>>)
    decreases |offers|
  {
    |ds| == |offers| && (offers == [] ||
      (var k := |offers| - 1;
       var accepted := AcceptedItems(offers[..k], ds[..k]);
       && DecidesAll(limits, cost, latency, s, offers[..k], ds[..k])
       && IsDecision(limits, cost, latency, s.seen + Prints(offers[..k]), s.spawned + CountedTotal(accepted),
            Filed(s.proposals, accepted).Keys, offers[k], ds[k])))
  }

  // ---------------------------------------------------------------------- one round

  /** Everything a round works out from the candidates. */
  ghost predicate WorksOut<F, I, P>(limits: Limits, s: State<F, I, P>, offers: seq<Offer<F, I, P>>,
      w: Work<F, I, P>)
  {
    && DecidesAll(limits, s.totalCost, s.totalLatency, s, offers, w.decisions)
    && w.created == AcceptedItems(offers, w.decisions)
    && w.state.seen == s.seen + Prints(offers) && (w.unseen == 0 <==> Prints(offers) <= s.seen)
    && w.state.spawned == s.spawned + CountedTotal(w.created) && w.state.proposals == Filed(s.proposals, w.created)
    && Untouched(s, w.state)
  }

  lemma CandidateMeaning<F, I, P>(limits: Limits, s: State<F, I, P>, w: Work<F, I, P>,
      offer: Offer<F, I, P>)
    requires Untouched(s, w.state)
    ensures var v := Consider(limits, Exhausted(limits, s.totalCost, s.totalLatency), w, offer);
      && |v.decisions| == |w.decisions| + 1 && v.decisions[..|w.decisions|] == w.decisions
      && IsDecision(limits, s.totalCost, s.totalLatency, w.state.seen, w.state.spawned, w.state.proposals.Keys, offer,
           v.decisions[|w.decisions|])
  {
  }

  /** What deciding one candidate leaves behind. */
  lemma CandidateEffect<F, I, P>(limits: Limits, exhausted: Option<Cause>, w: Work<F, I, P>,
      offer: Offer<F, I, P>)
    ensures var v := Consider(limits, exhausted, w, offer);
      && |v.decisions| > 0
      && (if v.decisions[|v.decisions| - 1].disposition.AcceptedForProposal? && offer.item.Some? then
           && v.created == w.created + [offer.item.value]
           && v.state.proposals == w.state.proposals[offer.item.value.id := offer.item.value]
           && v.state.spawned == w.state.spawned + Counted(offer.item.value)
         else v.created == w.created && v.state.proposals == w.state.proposals && v.state.spawned == w.state.spawned)
      && v.state.seen == w.state.seen + Print(offer)
      && v.unseen == w.unseen + (if offer.fingerprint.Some? && offer.fingerprint.value !in w.state.seen then 1 else 0)
      && Untouched(w.state, v.state)
  {
  }

  lemma {:induction false} ItemsAppend<I, P>(proposals: map<I, Item<I, P>>, items: seq<Item<I, P>>, item: Item<I, P>)
    ensures CountedTotal(items + [item]) == CountedTotal(items) + Counted(item)
    ensures Filed(proposals, items + [item]) == Filed(proposals, items)[item.id := item]
  {
    assert (items + [item])[..|items|] == items;
  }

  lemma DecisionsGrow<F, I, P>(limits: Limits, s: State<F, I, P>, offers: seq<Offer<F, I, P>>, w: Work<F, I, P>,
      v: Work<F, I, P>)
    requires offers != [] && WorksOut(limits, s, offers[..|offers| - 1], w)
    requires v == Consider(limits, Exhausted(limits, s.totalCost, s.totalLatency), w, offers[|offers| - 1])
    ensures DecidesAll(limits, s.totalCost, s.totalLatency, s, offers, v.decisions)
    ensures v.decisions[..|offers| - 1] == w.decisions
  {
    CandidateMeaning(limits, s, w, offers[|offers| - 1]);
  }

  lemma WorkGrows<F, I, P>(limits: Limits, s: State<F, I, P>, offers: seq<Offer<F, I, P>>,
      w: Work<F, I, P>, v: Work<F, I, P>)
    requires offers != [] && WorksOut(limits, s, offers[..|offers| - 1], w)
    requires v == Consider(limits, Exhausted(limits, s.totalCost, s.totalLatency), w, offers[|offers| - 1])
    ensures WorksOut(limits, s, offers, v)
  {
    var offer := offers[|offers| - 1];
    DecisionsGrow(limits, s, offers, w, v);
    CandidateEffect(limits, Exhausted(limits, s.totalCost, s.totalLatency), w, offer);
    if offer.item.Some? { ItemsAppend(s.proposals, w.created, offer.item.value); }
  }

  lemma {:induction false} AllMeaning<F, I, P>(limits: Limits, s: State<F, I, P>,
      offers: seq<Offer<F, I, P>>)
    ensures WorksOut(limits, s, offers, ConsiderAll(limits, Exhausted(limits, s.totalCost, s.totalLatency),
      Work(s, 0, [], []), offers))
    decreases |offers|
  {
    var exhausted := Exhausted(limits, s.totalCost, s.totalLatency);
    if offers != [] {
      var front := offers[..|offers| - 1];
      AllMeaning(limits, s, front);
      WorkGrows(limits, s, offers, ConsiderAll(limits, exhausted, Work(s, 0, [], []), front),
        ConsiderAll(limits, exhausted, Work(s, 0, [], []), offers));
    }
  }

  /** No limit is reached and the round is not one dry round too many. */
  predicate NothingReached<F, I, P>(limits: Limits, r: RoundResult<F, I, P>) {
    && r.totalCost < limits.maxCost && r.totalLatency < limits.maxLatencyMs && r.spawned < limits.maxSpawnedNodes
    && r.iteration < limits.maxIterations && r.dryRounds < limits.dryRoundsRequired
  }

  /** The halt of a processed round, by its own fields: the limits win in the order cost,
      latency, spawned nodes, iterations, dry rounds. */
  predicate HaltIs<F, I, P>(limits: Limits, r: RoundResult<F, I, P>) {
    && (r.halt == MaxCost <==> r.totalCost >= limits.maxCost)
    && (r.halt == MaxLatency <==> r.totalCost < limits.maxCost && r.totalLatency >= limits.maxLatencyMs)
    && (r.halt == MaxSpawnedNodes <==>
         r.totalCost < limits.maxCost && r.totalLatency < limits.maxLatencyMs && r.spawned >= limits.maxSpawnedNodes)
    && (r.halt == MaxIterations <==>
         r.totalCost < limits.maxCost && r.totalLatency < limits.maxLatencyMs && r.spawned < limits.maxSpawnedNodes &&
         r.iteration >= limits.maxIterations)
    && (r.halt == Dry <==>
         r.totalCost < limits.maxCost && r.totalLatency < limits.maxLatencyMs && r.spawned < limits.maxSpawnedNodes &&
         r.iteration < limits.maxIterations && r.dryRounds >= limits.dryRoundsRequired)
    && (r.halt == NeedsReview <==> NothingReached(limits, r) && |r.created| > 0)
    && (r.halt == Continue <==> NothingReached(limits, r) && |r.created| == 0)
  }

  /** A processed round: one iteration more, the cost and the latency added, each candidate
      decided in order, the accepted items created and stored, and the halt. */
  ghost predicate IsRound<F, I, P>(limits: Limits, s: State<F, I, P>, offers: seq<Offer<F, I, P>>,
      cost: real, latency: nat, v: State<F, I, P>, r: RoundResult<F, I, P>)
  {
    && r.iteration == v.iteration == s.iteration + 1 && r.totalCost == v.totalCost == s.totalCost + cost
    && r.totalLatency == v.totalLatency ==
         (if s.totalLatency + latency <= 0xFFFF_FFFF_FFFF_FFFF then s.totalLatency + latency
          else 0xFFFF_FFFF_FFFF_FFFF)
    && r.dryRounds == v.dryRounds == (if Prints(offers) <= s.seen then s.dryRounds + 1 else 0)
    && DecidesAll(limits, r.totalCost, r.totalLatency, s, offers, r.decisions)
    && r.created == AcceptedItems(offers, r.decisions) && v.seen == s.seen + Prints(offers)
    && r.spawned == v.spawned == s.spawned + CountedTotal(r.created) && v.proposals == Filed(s.proposals, r.created)
    && HaltIs(limits, r)
  }

  /** The answer to `process_round`: none, and no change, for another attempt or a negative
      cost; the iteration limit alone once it is used up; otherwise a processed round. */
  ghost predicate IsProcessed<F, I, P>(limits: Limits, c: Controller<F, I, P>, attemptId: string,
      offers: seq<Offer<F, I, P>>, cost: real, latency: nat, after: Controller<F, I, P>,
      result: Option<RoundResult<F, I, P>>)
  {
    if c.attempt != Some(attemptId) then result.None? && after == c
    else if c.state.iteration >= limits.maxIterations then
      && after == c
      && result == Some(RoundResult(c.state.iteration, c.state.dryRounds, c.state.totalCost, c.state.totalLatency,
           c.state.spawned, MaxIterations, [], []))
    else if cost < 0.0 then result.None? && after == c
    else
      && result.Some? && after.attempt == c.attempt
      && IsRound(limits, c.state, offers, cost, latency, after.state, result.value)
  }

  lemma HaltMeaning<F, I, P>(limits: Limits, s: State<F, I, P>, ds: seq<Decision<F, I>>,
      created: seq<Item<I, P>>)
    ensures HaltIs(limits, ResultOf(s, HaltOf(limits, s, created != []), ds, created))
  {
  }

  lemma SameStart<F, I, P>(limits: Limits, cost: real, latency: nat, s: State<F, I, P>,
      t: State<F, I, P>, offers: seq<Offer<F, I, P>>, ds: seq<Decision<F, I>>)
    requires s.seen == t.seen && s.spawned == t.spawned && s.proposals == t.proposals
    requires DecidesAll(limits, cost, latency, s, offers, ds)
    ensures DecidesAll(limits, cost, latency, t, offers, ds)
    decreases |offers|
  {
    if offers != [] { SameStart(limits, cost, latency, s, t, offers[..|offers| - 1], ds[..|offers| - 1]); }
  }

  lemma RoundMeaning<F, I, P>(limits: Limits, s: State<F, I, P>, offers: seq<Offer<F, I, P>>,
      cost: real, latency: nat)
    requires s.iteration < limits.maxIterations && cost >= 0.0
    ensures var (v, r) := Round(limits, s, offers, cost, latency);
      r.Some? && IsRound(limits, s, offers, cost, latency, v, r.value)
  {
    var begun := Started(s, cost, latency);
    var w := Worked(limits, s, offers, cost, latency);
    AllMeaning(limits, begun, offers);
    SameStart(limits, begun.totalCost, begun.totalLatency, begun, s, offers, w.decisions);
    HaltMeaning(limits, Closed(w), w.decisions, w.created);
  }

  lemma ProcessMeaning<F, I, P>(limits: Limits, c: Controller<F, I, P>, attemptId: string,
      offers: seq<Offer<F, I, P>>, cost: real, latency: nat)
    ensures var (after, result) := Handle(limits, c, ProcessRound(attemptId, offers, cost, latency));
      IsProcessed(limits, c, attemptId, offers, cost, latency, after, result)
  {
    if c.attempt == Some(attemptId) && c.state.iteration < limits.maxIterations && cost >= 0.0 {
      RoundMeaning(limits, c.state, offers, cost, latency);
    }
  }

  // ------------------------------------------------------------------------- over runs

  /** The iteration counter before result `i`. */
  function IterationBefore<F, I, P>(history: seq<RoundResult<F, I, P>>, i: nat): nat
    requires i < |history|
  {
    if i == 0 then 0 else history[i - 1].iteration
  }

  /** The result is either a processed round's, with its halt, or the refusal of a round beyond
      the iteration limit. */
  predicate HaltExplained<F, I, P>(limits: Limits, before: nat, r: RoundResult<F, I, P>) {
    if before < limits.maxIterations then r.iteration == before + 1 && HaltIs(limits, r)
    else r.iteration == before && r.halt == MaxIterations && r.decisions == [] && r.created == []
  }

  ghost predicate HaltsExplained<F, I, P>(limits: Limits, history: seq<RoundResult<F, I, P>>) {
    forall i :: 0 <= i < |history| ==> HaltExplained(limits, IterationBefore(history, i), history[i])
  }

  ghost predicate CountsHistory<F, I, P>(t: Trace<F, I, P>) {
    t.controller.state.iteration == if t.history == [] then 0 else t.history[|t.history| - 1].iteration
  }

  lemma HistoryGrows<F, I, P>(limits: Limits, history: seq<RoundResult<F, I, P>>, before: nat,
      r: RoundResult<F, I, P>)
    requires HaltsExplained(limits, history) && HaltExplained(limits, before, r)
    requires before == if history == [] then 0 else history[|history| - 1].iteration
    ensures HaltsExplained(limits, history + [r])
  {
    var all := history + [r];
    forall i | 0 <= i < |all| ensures HaltExplained(limits, IterationBefore(all, i), all[i]) {
      HistoryAt(history, r, i);
    }
  }

  lemma HistoryAt<F, I, P>(history: seq<RoundResult<F, I, P>>, r: RoundResult<F, I, P>, i: nat)
    requires i <= |history|
    ensures var all := history + [r];
      if i < |history| then all[i] == history[i] && IterationBefore(all, i) == IterationBefore(history, i)
      else all[i] == r && IterationBefore(all, i) == if i == 0 then 0 else history[i - 1].iteration
  {
  }

  lemma ResultExplained<F, I, P>(limits: Limits, c: Controller<F, I, P>, call: Call<F, I, P>)
    ensures var (after, result) := Handle(limits, c, call);
      && after.state.iteration == (if result.None? then c.state.iteration else result.value.iteration)
      && (result.Some? ==> HaltExplained(limits, c.state.iteration, result.value))
  {
    if call.ProcessRound? { ProcessMeaning(limits, c, call.attemptId, call.offers, call.cost, call.latency); }
  }

  lemma ExtendExplains<F, I, P>(limits: Limits, t: Trace<F, I, P>, call: Call<F, I, P>)
    requires HaltsExplained(limits, t.history) && CountsHistory(t)
    ensures var u := Extend(limits, t, call); HaltsExplained(limits, u.history) && CountsHistory(u)
  {
    ResultExplained(limits, t.controller, call);
    var (after, result) := Handle(limits, t.controller, call);
    if result.Some? { HistoryGrows(limits, t.history, t.controller.state.iteration, result.value); }
  }

  /** In every run, every halt is explained by the fields of its own result and the limits. */
  lemma {:induction false} RunHaltsExplained<F, I, P>(limits: Limits, calls: seq<Call<F, I, P>>)
    ensures HaltsExplained(limits, Run(limits, calls).history) && CountsHistory(Run(limits, calls))
    decreases |calls|
  {
    if calls != [] {
      RunHaltsExplained(limits, calls[..|calls| - 1]);
      ExtendExplains(limits, Run(limits, calls[..|calls| - 1]), calls[|calls| - 1]);
    }
  }
}
