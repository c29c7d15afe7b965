/** The expansion controller as the object that updates its own counters.  Candidates
    come with their fingerprint and proposal already computed (`Expansion.MakeOffers`). */
module ExpansionController {
  import opened Machine
  import opened Budget
  import opened Rounds

  class ExpansionController<F(==), I(==), P> {
    const limits: Limits
    var attempt: Option<string>
    var iteration: nat
    var dryRounds: nat
    var spawned: nat
    var totalCost: real
    var totalLatency: nat
    var seen: set<F>
    var proposals: map<I, Item<I, P>>

    function Counters(): State<F, I, P>
      reads this
    {
      State(iteration, dryRounds, spawned, totalCost, totalLatency, seen, proposals)
    }

    function View(): Controller<F, I, P>
      reads this
    {
      Controller(attempt, Counters())
    }

    constructor (limits: Limits)
      ensures this.limits == limits && View() == Controller(None, Initial())
    {
      this.limits := limits;
      attempt := None;
      iteration, dryRounds, spawned, totalCost, totalLatency := 0, 0, 0, 0.0, 0;
      seen, proposals := {}, map[];
    }

    /** `usable`: the attempt names the base's own content and has an id. */
    method Begin(attemptId: string, usable: bool) returns (ok: bool)
      modifies this`attempt
      ensures Handle(limits, old(View()), BeginAttempt(attemptId, usable)) == (View(), None)
      ensures ok <==> usable && (old(attempt).None? || old(attempt) == Some(attemptId))
    {
      ok := usable && (attempt.None? || attempt.value == attemptId);
      if ok { attempt := Some(attemptId); }
    }

    method Finish(attemptId: string) returns (ok: bool)
      modifies this`attempt
      ensures Handle(limits, old(View()), FinishAttempt(attemptId)) == (View(), None)
      ensures ok <==> old(attempt) == Some(attemptId)
    {
      ok := attempt == Some(attemptId);
      if ok { attempt := None; }
    }

    /** One pass of the candidate loop. */
    method ConsiderCandidate(exhausted: Option<Cause>, offer: Offer<F, I, P>, ghost w: Work<F, I, P>)
      returns (decision: Decision<F, I>, created: Option<Item<I, P>>, isNew: bool)
      requires w.state == Counters()
      modifies this`seen, this`spawned, this`proposals
      ensures Consider(limits, exhausted, w, offer) ==
        Work(Counters(), if isNew then w.unseen + 1 else w.unseen, w.decisions + [decision],
             if created.Some? then w.created + [created.value] else w.created)
    {
      created, isNew := None, false;
      if offer.fingerprint.None? {
        decision := Decision(None, Rejected, Some(Malformed), None);
        return;
      }
      var f := offer.fingerprint.value;
      if f in seen {
        decision := Decision(Some(f), Duplicate, None, None);
        return;
      }
      seen, isNew := seen + {f}, true;
      if exhausted.Some? {
        decision := Decision(Some(f), Deferred, exhausted, None);
      } else if offer.wish.Reject? {
        decision := Decision(Some(f), Rejected, None, None);
      } else if offer.wish.Defer? {
        decision := Decision(Some(f), Deferred, None, None);
      } else if offer.item.None? {
        decision := Decision(Some(f), Rejected, Some(PatchRefused), None);
      } else {
        var item := offer.item.value;
        var charge := Min(item.added, U32_MAX);
        if charge > Remaining(limits, spawned) {
          decision := Decision(Some(f), Deferred, Some(MaxSpawnedNodesReached), None);
        } else if item.id in proposals {
          decision := Decision(Some(f), Duplicate, Some(DuplicateProposal), None);
        } else {
          spawned, proposals, created := spawned + charge, proposals[item.id := item], Some(item);
          decision := Decision(Some(f), AcceptedForProposal, None, Some(item.id));
        }
      }
    }

    /** Source: `process_round`, with what the round decides and answers. */
    method Process(attemptId: string, offers: seq<Offer<F, I, P>>, cost: real,
        latency: nat) returns (result: Option<RoundResult<F, I, P>>)
      modifies this
      ensures Handle(limits, old(View()), ProcessRound(attemptId, offers, cost, latency)) == (View(), result)
      ensures IsProcessed(limits, old(View()), attemptId, offers, cost, latency, View(), result)
    {
      ProcessMeaning(limits, View(), attemptId, offers, cost, latency);
      result := ProcessSteps(attemptId, offers, cost, latency);
    }

    /** The body of `process_round`; no result is a refused call that changes nothing. */
    method ProcessSteps(attemptId: string, offers: seq<Offer<F, I, P>>, cost: real,
        latency: nat) returns (result: Option<RoundResult<F, I, P>>)
      modifies this
      ensures Handle(limits, old(View()), ProcessRound(attemptId, offers, cost, latency)) == (View(), result)
    {
      if attempt != Some(attemptId) { return None; }
      if iteration >= limits.maxIterations { return Some(ResultOf(Counters(), MaxIterations, [], [])); }
      if cost < 0.0 { return None; }
      iteration, totalCost, totalLatency := iteration + 1, totalCost + cost, SaturatingAdd(totalLatency, latency);
      var exhausted := Exhausted(limits, totalCost, totalLatency);
      var unseen, decisions, created := 0, [], [];
      ghost var start := Work(Counters(), 0, [], []);
      for i := 0 to |offers|
        invariant attempt == old(attempt) && unseen >= 0
        invariant Work(Counters(), unseen, decisions, created) == ConsiderAll(limits, exhausted, start, offers[..i])
      {
        ghost var w := Work(Counters(), unseen, decisions, created);
        var decision, item, isNew := ConsiderCandidate(exhausted, offers[i], w);
        ConsiderAllStep(limits, exhausted, start, offers, i);
        decisions := decisions + [decision];
        if item.Some? { created := created + [item.value]; }
        if isNew { unseen := unseen + 1; }
      }
      assert offers[..|offers|] == offers;
      dryRounds := if unseen == 0 then dryRounds + 1 else 0;
      result := Some(ResultOf(Counters(), HaltOf(limits, Counters(), created != []), decisions, created));
    }
  }

  lemma ConsiderAllStep<F, I, P>(limits: Limits, exhausted: Option<Cause>, w: Work<F, I, P>,
      offers: seq<Offer<F, I, P>>, i: nat)
    requires i < |offers|
    ensures ConsiderAll(limits, exhausted, w, offers[..i + 1]) ==
            Consider(limits, exhausted, ConsiderAll(limits, exhausted, w, offers[..i]), offers[i])
  {
    assert offers[..i + 1][..i] == offers[..i];
  }
}
