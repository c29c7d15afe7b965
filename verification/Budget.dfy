/** The bounded expansion controller's bookkeeping, over any fingerprints and proposals:
    one round, runs of calls, and what holds over every run. */
module Budget {
  import opened Machine

  type Count = n: nat | n <= U32_MAX

  type Millis = n: nat | n <= U64_MAX

  datatype Limits = Limits(
    dryRoundsRequired: Count,
    maxIterations: Count,
    maxSpawnedNodes: Count,
    maxCost: real,
    maxLatencyMs: Millis)

  predicate Positive(limits: Limits) {
    && limits.dryRoundsRequired > 0 && limits.maxIterations > 0 && limits.maxSpawnedNodes > 0
    && limits.maxCost > 0.0 && limits.maxLatencyMs > 0
  }

  datatype Wish = AcceptForProposal | Reject | Defer

  /** A proposal with its id and the number of nodes it adds. */
  datatype Item<I, P> = Item(id: I, added: nat, proposal: P)

  /** A candidate as the controller sees it: no fingerprint if malformed, no item if its
      patch is refused. */
  datatype Offer<F, I, P> = Offer(fingerprint: Option<F>, wish: Wish, item: Option<Item<I, P>>)

  datatype Disposition = AcceptedForProposal | Rejected | Duplicate | Deferred

  datatype Cause =
    | Malformed | PatchRefused | MaxCostReached | MaxLatencyReached | MaxSpawnedNodesReached | DuplicateProposal

  datatype Decision<F, I> = Decision(fingerprint: Option<F>, disposition: Disposition, cause: Option<Cause>,
      proposalId: Option<I>)

  datatype Halt = Continue | Dry | MaxIterations | MaxSpawnedNodes | MaxCost | MaxLatency | NeedsReview

  datatype State<!F, !I, P> = State(
    iteration: nat,
    dryRounds: nat,
    spawned: nat,
    totalCost: real,
    totalLatency: nat,
    seen: set<F>,
    proposals: map<I, Item<I, P>>)

  datatype RoundResult<F, I, P> = RoundResult(
    iteration: nat,
    dryRounds: nat,
    totalCost: real,
    totalLatency: nat,
    spawned: nat,
    halt: Halt,
    decisions: seq<Decision<F, I>>,
    created: seq<Item<I, P>>)

  function Initial<F, I, P>(): State<F, I, P> {
    State(0, 0, 0, 0.0, 0, {}, map[])
  }

  // ------------------------------------------------------------------- one round

  datatype Work<!F, !I, P> = Work(state: State<F, I, P>, unseen: nat, decisions: seq<Decision<F, I>>,
      created: seq<Item<I, P>>)

  /** What an item counts against the node limit: its additions, capped at 32 bits. */
  function Charge<I, P>(item: Item<I, P>): nat {
    Min(item.added, U32_MAX)
  }

  /** `max_spawned_nodes.saturating_sub(spawned_nodes)`. */
  function Remaining(limits: Limits, spawned: nat): nat {
    if spawned <= limits.maxSpawnedNodes then limits.maxSpawnedNodes - spawned else 0
  }

  function Decide<F, I, P>(w: Work<F, I, P>, d: Decision<F, I>): Work<F, I, P> {
    w.(decisions := w.decisions + [d])
  }

  /** A new fingerprint whose candidate asks to be proposed. */
  function Place<F, I, P>(limits: Limits, w: Work<F, I, P>, f: F, item: Option<Item<I, P>>): Work<F, I, P> {
    if item.None? then Decide(w, Decision(Some(f), Rejected, Some(PatchRefused), None))
    else if Charge(item.value) > Remaining(limits, w.state.spawned) then
      Decide(w, Decision(Some(f), Deferred, Some(MaxSpawnedNodesReached), None))
    else if item.value.id in w.state.proposals then
      Decide(w, Decision(Some(f), Duplicate, Some(DuplicateProposal), None))
    else
      var state := w.state.(spawned := w.state.spawned + Charge(item.value),
                            proposals := w.state.proposals[item.value.id := item.value]);
      var decision := Decision(Some(f), AcceptedForProposal, None, Some(item.value.id));
      Work(state, w.unseen, w.decisions + [decision], w.created + [item.value])
  }

  /** A fingerprint not seen before: it is recorded whatever becomes of it. */
  function Meet<F, I, P>(limits: Limits, exhausted: Option<Cause>, w: Work<F, I, P>, f: F,
      offer: Offer<F, I, P>): Work<F, I, P> {
    var met := w.(state := w.state.(seen := w.state.seen + {f}), unseen := w.unseen + 1);
    if exhausted.Some? then Decide(met, Decision(Some(f), Deferred, exhausted, None))
    else match offer.wish
      case Reject => Decide(met, Decision(Some(f), Rejected, None, None))
      case Defer => Decide(met, Decision(Some(f), Deferred, None, None))
      case AcceptForProposal => Place(limits, met, f, offer.item)
  }

  function Consider<F, I, P>(limits: Limits, exhausted: Option<Cause>, w: Work<F, I, P>,
      offer: Offer<F, I, P>): Work<F, I, P> {
    if offer.fingerprint.None? then Decide(w, Decision(None, Rejected, Some(Malformed), None))
    else if offer.fingerprint.value in w.state.seen then Decide(w, Decision(offer.fingerprint, Duplicate, None, None))
    else Meet(limits, exhausted, w, offer.fingerprint.value, offer)
  }

  function ConsiderAll<F, I, P>(limits: Limits, exhausted: Option<Cause>, w: Work<F, I, P>,
      offers: seq<Offer<F, I, P>>): Work<F, I, P> {
    if offers == [] then w
    else Consider(limits, exhausted, ConsiderAll(limits, exhausted, w, offers[..|offers| - 1]), offers[|offers| - 1])
  }

  predicate CostExhausted(limits: Limits, cost: real) { cost >= limits.maxCost }

  predicate LatencyExhausted(limits: Limits, latency: nat) { latency >= limits.maxLatencyMs }

  function Exhausted(limits: Limits, cost: real, latency: nat): Option<Cause> {
    if CostExhausted(limits, cost) then Some(MaxCostReached)
    else if LatencyExhausted(limits, latency) then Some(MaxLatencyReached)
    else None
  }

  function Started<F, I, P>(s: State<F, I, P>, cost: real, latency: nat): State<F, I, P> {
    s.(iteration := s.iteration + 1, totalCost := s.totalCost + cost,
      totalLatency := SaturatingAdd(s.totalLatency, latency))
  }

  function HaltOf<F, I, P>(limits: Limits, s: State<F, I, P>, created: bool): Halt {
    if CostExhausted(limits, s.totalCost) then MaxCost
    else if LatencyExhausted(limits, s.totalLatency) then MaxLatency
    else if s.spawned >= limits.maxSpawnedNodes then MaxSpawnedNodes
    else if s.iteration >= limits.maxIterations then MaxIterations
    else if s.dryRounds >= limits.dryRoundsRequired then Dry
    else if created then NeedsReview
    else Continue
  }

  function Closed<F, I, P>(w: Work<F, I, P>): State<F, I, P> {
    w.state.(dryRounds := if w.unseen == 0 then w.state.dryRounds + 1 else 0)
  }

  function ResultOf<F, I, P>(s: State<F, I, P>, halt: Halt, decisions: seq<Decision<F, I>>,
      created: seq<Item<I, P>>): RoundResult<F, I, P> {
    RoundResult(s.iteration, s.dryRounds, s.totalCost, s.totalLatency, s.spawned, halt, decisions, created)
  }

  function Worked<F, I, P>(limits: Limits, s: State<F, I, P>, offers: seq<Offer<F, I, P>>, cost: real,
      latency: nat): Work<F, I, P> {
    var begun := Started(s, cost, latency);
    ConsiderAll(limits, Exhausted(limits, begun.totalCost, begun.totalLatency), Work(begun, 0, [], []), offers)
  }

  /** Source: `process_round` once the attempt matches; `None` is the cost error. */
  function Round<F, I, P>(limits: Limits, s: State<F, I, P>, offers: seq<Offer<F, I, P>>, cost: real, latency: nat)
    : (State<F, I, P>, Option<RoundResult<F, I, P>>)
  {
    if s.iteration >= limits.maxIterations then (s, Some(ResultOf(s, MaxIterations, [], [])))
    else if cost < 0.0 then (s, None)
    else
      var w := Worked(limits, s, offers, cost, latency);
      (Closed(w), Some(ResultOf(Closed(w), HaltOf(limits, Closed(w), w.created != []), w.decisions, w.created)))
  }

  // ------------------------------------------------------------------------ runs

  datatype Call<F, I, P> =
    | BeginAttempt(attemptId: string, usable: bool)
    | FinishAttempt(attemptId: string)
    | ProcessRound(attemptId: string, offers: seq<Offer<F, I, P>>, cost: real, latency: nat)

  datatype Controller<!F, !I, P> = Controller(attempt: Option<string>, state: State<F, I, P>)

  function Handle<F, I, P>(limits: Limits, c: Controller<F, I, P>, call: Call<F, I, P>)
    : (Controller<F, I, P>, Option<RoundResult<F, I, P>>)
  {
    match call
    case BeginAttempt(id, usable) =>
      (if usable && (c.attempt.None? || c.attempt.value == id) then c.(attempt := Some(id)) else c, None)
    case FinishAttempt(id) => (if c.attempt == Some(id) then c.(attempt := None) else c, None)
    case ProcessRound(id, offers, cost, latency) =>
      if c.attempt != Some(id) then (c, None)
      else
        var (s, result) := Round(limits, c.state, offers, cost, latency);
        (c.(state := s), result)
  }

  datatype Trace<!F, !I, P> = Trace(controller: Controller<F, I, P>, history: seq<RoundResult<F, I, P>>)

  function Extend<F, I, P>(limits: Limits, t: Trace<F, I, P>, call: Call<F, I, P>): Trace<F, I, P> {
    var (c, result) := Handle(limits, t.controller, call);
    Trace(c, if result.Some? then t.history + [result.value] else t.history)
  }

  function Run<F, I, P>(limits: Limits, calls: seq<Call<F, I, P>>): Trace<F, I, P> {
    if calls == [] then Trace(Controller(None, Initial()), [])
    else Extend(limits, Run(limits, calls[..|calls| - 1]), calls[|calls| - 1])
  }

  function AllDecisions<F, I, P>(history: seq<RoundResult<F, I, P>>): seq<Decision<F, I>> {
    if history == [] then [] else AllDecisions(history[..|history| - 1]) + history[|history| - 1].decisions
  }

  function AllCreated<F, I, P>(history: seq<RoundResult<F, I, P>>): seq<Item<I, P>> {
    if history == [] then [] else AllCreated(history[..|history| - 1]) + history[|history| - 1].created
  }

  function TotalCharge<I, P>(items: seq<Item<I, P>>): nat {
    if items == [] then 0 else TotalCharge(items[..|items| - 1]) + Charge(items[|items| - 1])
  }

  function TotalAdded<I, P>(items: seq<Item<I, P>>): nat {
    if items == [] then 0 else TotalAdded(items[..|items| - 1]) + items[|items| - 1].added
  }

  // ------------------------------------------------------------------ invariants

  ghost predicate EachStored<I(!new), P(!new)>(proposals: map<I, Item<I, P>>, created: seq<Item<I, P>>) {
    forall i :: 0 <= i < |created| ==> created[i].id in proposals && proposals[created[i].id] == created[i]
  }

  ghost predicate EachCreated<I(!new), P(!new)>(proposals: map<I, Item<I, P>>, created: seq<Item<I, P>>) {
    forall id :: id in proposals ==> proposals[id] in created && proposals[id].id == id
  }

  ghost predicate IdsDistinct<I(!new), P(!new)>(created: seq<Item<I, P>>) {
    forall i, j :: 0 <= i < j < |created| ==> created[i].id != created[j].id
  }

  /** The stored proposals are exactly the created ones, each under its own id. */
  ghost predicate StoredExactly<F(!new), I(!new), P(!new)>(limits: Limits, s: State<F, I, P>,
      created: seq<Item<I, P>>) {
    && EachStored(s.proposals, created) && EachCreated(s.proposals, created) && IdsDistinct(created)
    && s.spawned == TotalCharge(created) && s.spawned <= limits.maxSpawnedNodes
  }

  predicate SameFingerprint<F(==), I>(a: Decision<F, I>, b: Decision<F, I>) {
    a.fingerprint.Some? && a.fingerprint == b.fingerprint
  }

  /** Every decided fingerprint is remembered, and only its first decision is not `Duplicate`. */
  ghost predicate DecidedOnce<F(!new), I, P>(s: State<F, I, P>, decisions: seq<Decision<F, I>>) {
    && (forall i :: 0 <= i < |decisions| && decisions[i].fingerprint.Some? ==> decisions[i].fingerprint.value in s.seen)
    && (forall i, j :: 0 <= i < j < |decisions| && SameFingerprint(decisions[i], decisions[j]) ==>
          decisions[j].disposition.Duplicate?)
  }

  lemma StoreKeepsBoth<I(!new), P(!new)>(proposals: map<I, Item<I, P>>, created: seq<Item<I, P>>, item: Item<I, P>)
    requires EachStored(proposals, created) && EachCreated(proposals, created) && item.id !in proposals
    ensures EachStored(proposals[item.id := item], created + [item])
    ensures EachCreated(proposals[item.id := item], created + [item])
  {
  }

  lemma NewIdIsDistinct<I(!new), P(!new)>(proposals: map<I, Item<I, P>>, created: seq<Item<I, P>>, item: Item<I, P>)
    requires EachStored(proposals, created) && IdsDistinct(created) && item.id !in proposals
    ensures IdsDistinct(created + [item])
  {
  }

  lemma {:induction false} ChargeAppends<I, P>(created: seq<Item<I, P>>, item: Item<I, P>)
    ensures TotalCharge(created + [item]) == TotalCharge(created) + Charge(item)
  {
    assert (created + [item])[..|created|] == created;
  }

  lemma StoreOne<F(!new), I(!new), P(!new)>(limits: Limits, s: State<F, I, P>, created: seq<Item<I, P>>,
      item: Item<I, P>, t: State<F, I, P>)
    requires StoredExactly(limits, s, created) && item.id !in s.proposals
    requires t.spawned == s.spawned + Charge(item) <= limits.maxSpawnedNodes
    requires t.proposals == s.proposals[item.id := item]
    ensures StoredExactly(limits, t, created + [item])
  {
    StoreKeepsBoth(s.proposals, created, item);
    NewIdIsDistinct(s.proposals, created, item);
    ChargeAppends(created, item);
  }

  /** Nothing is stored or created between the two. */
  predicate SameStore<F(==), I(==), P(==)>(w: Work<F, I, P>, v: Work<F, I, P>) {
    v.created == w.created && v.state.proposals == w.state.proposals && v.state.spawned == w.state.spawned
  }

  /** The item is stored under a new id that fits the node limit. */
  predicate Stores<F(==), I(==), P(==)>(limits: Limits, w: Work<F, I, P>, v: Work<F, I, P>, item: Item<I, P>) {
    && item.id !in w.state.proposals && v.created == w.created + [item]
    && v.state.proposals == w.state.proposals[item.id := item]
    && v.state.spawned == w.state.spawned + Charge(item) && Charge(item) <= Remaining(limits, w.state.spawned)
  }

  lemma PlaceCases<F, I, P>(limits: Limits, w: Work<F, I, P>, f: F, item: Option<Item<I, P>>)
    ensures var v := Place(limits, w, f, item);
      SameStore(w, v) || (item.Some? && Stores(limits, w, v, item.value))
  {
  }

  lemma ConsiderCases<F, I, P>(limits: Limits, exhausted: Option<Cause>, w: Work<F, I, P>, offer: Offer<F, I, P>)
    ensures var v := Consider(limits, exhausted, w, offer);
      SameStore(w, v) || (offer.item.Some? && Stores(limits, w, v, offer.item.value))
  {
    if offer.fingerprint.Some? {
      var f := offer.fingerprint.value;
      PlaceCases(limits, w.(state := w.state.(seen := w.state.seen + {f}), unseen := w.unseen + 1), f, offer.item);
    }
  }

  lemma StoresKeeps<F(!new), I(!new), P(!new)>(limits: Limits, w: Work<F, I, P>, v: Work<F, I, P>, item: Item<I, P>,
      before: seq<Item<I, P>>)
    requires StoredExactly(limits, w.state, before + w.created) && Stores(limits, w, v, item)
    ensures StoredExactly(limits, v.state, before + v.created)
  {
    StoreOne(limits, w.state, before + w.created, item, v.state);
    assert before + v.created == before + w.created + [item];
  }

  lemma ConsiderStores<F(!new), I(!new), P(!new)>(limits: Limits, exhausted: Option<Cause>, w: Work<F, I, P>,
      offer: Offer<F, I, P>, before: seq<Item<I, P>>)
    requires StoredExactly(limits, w.state, before + w.created)
    ensures var v := Consider(limits, exhausted, w, offer); StoredExactly(limits, v.state, before + v.created)
  {
    ConsiderCases(limits, exhausted, w, offer);
    var v := Consider(limits, exhausted, w, offer);
    if !SameStore(w, v) { StoresKeeps(limits, w, v, offer.item.value, before); }
  }

  lemma DecideOne<F(!new), I, P>(s: State<F, I, P>, decisions: seq<Decision<F, I>>, d: Decision<F, I>,
      t: State<F, I, P>)
    requires DecidedOnce(s, decisions) && s.seen <= t.seen
    requires d.fingerprint.Some? ==>
      d.fingerprint.value in t.seen && (d.fingerprint.value in s.seen ==> d.disposition.Duplicate?)
    ensures DecidedOnce(t, decisions + [d])
  {
  }

  lemma ConsiderDecides<F(!new), I, P>(limits: Limits, exhausted: Option<Cause>, w: Work<F, I, P>,
      offer: Offer<F, I, P>, before: seq<Decision<F, I>>)
    requires DecidedOnce(w.state, before + w.decisions)
    ensures var v := Consider(limits, exhausted, w, offer); DecidedOnce(v.state, before + v.decisions)
  {
    var v := Consider(limits, exhausted, w, offer);
    var d := v.decisions[|v.decisions| - 1];
    DecideOne(w.state, before + w.decisions, d, v.state);
    assert before + v.decisions == before + w.decisions + [d];
  }

  /** What considering one candidate leaves alone. */
  ghost predicate Untouched<F, I, P>(s: State<F, I, P>, t: State<F, I, P>) {
    t.iteration == s.iteration && t.dryRounds == s.dryRounds && t.totalCost == s.totalCost &&
      t.totalLatency == s.totalLatency
  }

  lemma ConsiderFrame<F, I, P>(limits: Limits, exhausted: Option<Cause>, w: Work<F, I, P>, offer: Offer<F, I, P>)
    ensures var v := Consider(limits, exhausted, w, offer);
      Untouched(w.state, v.state) && (exhausted.Some? ==> v.created == w.created)
  {
  }

  lemma {:induction false} ConsiderAllFrame<F, I, P>(limits: Limits, exhausted: Option<Cause>, w: Work<F, I, P>,
      offers: seq<Offer<F, I, P>>)
    ensures var v := ConsiderAll(limits, exhausted, w, offers);
      Untouched(w.state, v.state) && (exhausted.Some? ==> v.created == w.created)
  {
    if offers != [] {
      var k := |offers| - 1;
      ConsiderAllFrame(limits, exhausted, w, offers[..k]);
      ConsiderFrame(limits, exhausted, ConsiderAll(limits, exhausted, w, offers[..k]), offers[k]);
    }
  }

  lemma {:induction false} ConsiderAllStores<F(!new), I(!new), P(!new)>(limits: Limits, exhausted: Option<Cause>,
      w: Work<F, I, P>, offers: seq<Offer<F, I, P>>, created: seq<Item<I, P>>)
    requires StoredExactly(limits, w.state, created + w.created)
    ensures var v := ConsiderAll(limits, exhausted, w, offers); StoredExactly(limits, v.state, created + v.created)
  {
    if offers != [] {
      var k := |offers| - 1;
      ConsiderAllStores(limits, exhausted, w, offers[..k], created);
      ConsiderStores(limits, exhausted, ConsiderAll(limits, exhausted, w, offers[..k]), offers[k], created);
    }
  }

  lemma {:induction false} ConsiderAllDecides<F(!new), I, P>(limits: Limits, exhausted: Option<Cause>,
      w: Work<F, I, P>, offers: seq<Offer<F, I, P>>, decisions: seq<Decision<F, I>>)
    requires DecidedOnce(w.state, decisions + w.decisions)
    ensures var v := ConsiderAll(limits, exhausted, w, offers); DecidedOnce(v.state, decisions + v.decisions)
  {
    if offers != [] {
      var k := |offers| - 1;
      ConsiderAllDecides(limits, exhausted, w, offers[..k], decisions);
      ConsiderDecides(limits, exhausted, ConsiderAll(limits, exhausted, w, offers[..k]), offers[k], decisions);
    }
  }
}
