/** What a caller of the control plane gets for a request or a notification, written out case
    by case. */
module Answers {
  import opened Machine
  import opened ControlPlane
  import opened Durability
  import opened DurableRuns

  // ------------------------------------------------------------------ the delegate

  predicate Pinned(fields: map<Key, Value>, key: Key, value: Value) {
    key in fields ==> fields[key] == value
  }

  /** An object whose claim keys, where present, say what only a host may say. */
  predicate TruthfulObject(v: Value) {
    && v.Object?
    && Pinned(v.fields, Accepted, Bool(false)) && Pinned(v.fields, MutationPerformed, Bool(false))
    && Pinned(v.fields, ReadOnly, Bool(true)) && Pinned(v.fields, AcceptedRuntimeOutput, Bool(false))
    && Pinned(v.fields, ProofsSerialized, Bool(false)) && Pinned(v.fields, ReviewStatus, Text("unreviewed"))
    && Pinned(v.fields, GeneratedPlanReviewStatus, Text("unreviewed"))
  }

  lemma TruthfulMeaning(v: Value)
    ensures TruthfulResult(v) <==> TruthfulObject(v)
  {
    if v.Object? && TruthfulObject(v) {
      forall key | key in v.fields && RequiredClaim(key).Some? ensures v.fields[key] == RequiredClaim(key).value {
      }
    }
    if TruthfulResult(v) {
      forall key | key in v.fields && !key.Other? ensures v.fields[key] == RequiredClaim(key).value {
      }
    }
  }

  /** A truthful object comes back as the result, any other accepted value as a refusal of the
      claim, and a refusal as it is. */
  predicate Carries(d: Decision, result: Option<Value>, refusal: Option<Refusal>) {
    match d
    case Accept(v) =>
      if TruthfulObject(v) then result == Some(v) && refusal == None
      else result == None && refusal == Some(Refusal(NoncanonicalWireClaim, "", None, None, ReportHostDefect))
    case Decline(r) => result == None && refusal == Some(r)
  }

  /** A new answer, numbered next, that carries the delegate's decision. */
  predicate IsFresh(j: Journal, request: Request, d: Decision, r: Response) {
    && r.schema == ResponseV0 && r.sequence == j.nextSequence + 1 && !r.replayed
    && r.requestId == request.requestId && r.idempotencyKey == request.idempotencyKey
    && r.auditContextPresent == request.auditContext.Some?
    && Carries(d, r.result, r.refusal)
  }

  lemma FreshMeaning(j: Journal, request: Request, d: Decision)
    ensures IsFresh(j, request, d, ResponseTo(j, request, d))
  {
    if d.Accept? { TruthfulMeaning(d.value); }
  }

  // -------------------------------------------------------------------- refusals

  /** A refusal that the journal does not record. */
  predicate IsRefused(j: Journal, request: Request, code: Code, r: Response) {
    r == Response(ResponseV0, j.nextSequence, request.requestId, request.idempotencyKey, false,
                  request.auditContext.Some?, None, Some(Refusal(code, "", None, None, CorrectAndRetry)))
  }

  const MUTATING: set<Tool> := {
    AttachRuntimeReport, ApplyEvidencePacket, ReviewAccept, ReviewReject, Resume, SupersedeDispatch,
    ReserveResources, ReleaseResources}

  const REVISION_BOUND: set<Tool> := MUTATING + {
    CompileDeploymentBundle, CompileReviewedDeploymentBundle, ReconcileRun, ReconcileResources,
    EvaluateExpansionRound, ReconcileStreamingRun, ReconcileVerificationLineage, ProposeTopologyRedesign,
    MemoryQuery, MemoryExplain, MemoryHistory, MemoryConflicts, MemorySources, MemoryProposeClaim,
    MemoryProposeSupersession, MemoryProposeRetraction, MemoryProposeProcedure}

  predicate NamesRevision(request: Request) {
    request.baseRevisionId.Some? && |request.baseRevisionId.value| > 0
  }

  predicate WellFormed(request: Request) {
    && request.schema == RequestV0 && |request.requestId| > 0 && |request.idempotencyKey| > 0
    && (request.tool in MUTATING ==> NamesRevision(request) && request.auditContext.Some?)
    && (request.tool in REVISION_BOUND ==> NamesRevision(request))
  }

  /** The first thing that is wrong with a request that is not well-formed. */
  predicate IsFirstProblem(request: Request, code: Code) {
    match code
    case UnsupportedSchema => request.schema != RequestV0
    case MissingIdentity => request.schema == RequestV0 && (request.requestId == "" || request.idempotencyKey == "")
    case MutationContextRequired =>
      && request.schema == RequestV0 && |request.requestId| > 0 && |request.idempotencyKey| > 0
      && request.tool in MUTATING && (!NamesRevision(request) || request.auditContext.None?)
    case RevisionContextRequired =>
      && request.schema == RequestV0 && |request.requestId| > 0 && |request.idempotencyKey| > 0
      && request.tool in REVISION_BOUND - MUTATING && !NamesRevision(request)
    case _ => false
  }

  lemma ToolMeaning(tool: Tool)
    ensures tool.ChangesManagedState() <==> tool in MUTATING
    ensures tool.RequiresBaseRevision() <==> tool in REVISION_BOUND
  {
  }

  /** Which requests are refused for what: none that is well-formed, and otherwise for the
      first problem. */
  lemma ProblemMeaning(request: Request)
    ensures RequestProblem(request).None? <==> WellFormed(request)
    ensures forall code :: RequestProblem(request) == Some(code) <==> IsFirstProblem(request, code)
  {
    ToolMeaning(request.tool);
  }

  // --------------------------------------------------------------------- replays

  /** The journaled response may be served again. */
  predicate Conforms(r: Response) {
    && r.schema == ResponseV0
    && ((r.result.Some? && r.refusal.None? && TruthfulObject(r.result.value)) || (r.result.None? && r.refusal.Some?))
  }

  /** The journaled response again, or a refusal under its identity if it may not be served. */
  predicate Repeats(stored: Response, r: Response) {
    r == if Conforms(stored) then stored.(replayed := true)
         else Response(ResponseV0, stored.sequence, stored.requestId, stored.idempotencyKey, true,
                       stored.auditContextPresent, None,
                       Some(Refusal(NoncanonicalJournaledResponse, "", None, None, AuditPriorResponse)))
  }

  lemma RepeatMeaning(stored: Response)
    ensures Repeats(stored, Serve(stored))
  {
    if stored.result.Some? { TruthfulMeaning(stored.result.value); }
  }

  /** Everything but the request id. */
  predicate AsksTheSame(s: Semantics, request: Request) {
    && s.schema == request.schema && s.tool == request.tool && s.baseRevisionId == request.baseRevisionId
    && s.auditContext == request.auditContext && s.payload == request.payload
  }

  lemma SemanticsMeaning(s: Semantics, request: Request)
    ensures s == SemanticsOf(request) <==> AsksTheSame(s, request)
  {
  }

  // ----------------------------------------------------------------- every request

  /** The answer to a request, given what the journal holds and what the delegate would say. */
  predicate IsAnswer(j: Journal, request: Request, d: Decision, r: Response) {
    if request.requestId in j.byRequest then
      var (asked, stored) := j.byRequest[request.requestId];
      if asked == request then Repeats(stored, r) else IsRefused(j, request, RequestIdCollision, r)
    else if request.idempotencyKey in j.byKey then
      var (asked, stored) := j.byKey[request.idempotencyKey];
      if AsksTheSame(asked, request) then Repeats(stored, r) else IsRefused(j, request, IdempotencyKeyCollision, r)
    else if WellFormed(request) then IsFresh(j, request, d, r)
    else IsProblem(j, request, r)
  }

  predicate IsProblem(j: Journal, request: Request, r: Response) {
    r.refusal.Some? && IsFirstProblem(request, r.refusal.value.code) &&
      IsRefused(j, request, r.refusal.value.code, r)
  }

  /** The journal afterwards: a fresh answer is filed under request id and key, with what was
      asked; nothing else changes anything. */
  predicate IsFiled(j: Journal, request: Request, r: Response, after: Journal) {
    if request.requestId in j.byRequest || request.idempotencyKey in j.byKey || !WellFormed(request) then after == j
    else
      && after.nextSequence == j.nextSequence + 1
      && after.byRequest == j.byRequest[request.requestId := (request, r)]
      && after.byKey == j.byKey[request.idempotencyKey := (Semantics(request.schema, request.tool,
           request.baseRevisionId, request.auditContext, request.payload), r)]
      && after.notifications == j.notifications && after.pending == j.pending
  }

  /** What `execute` answers and files. */
  lemma ExecuteMeaning(j: Journal, request: Request, d: Decision)
    ensures var (after, r) := Execute(j, request, d); IsAnswer(j, request, d, r) && IsFiled(j, request, r, after)
    ensures Delegates(j, request) <==>
      request.requestId !in j.byRequest && request.idempotencyKey !in j.byKey && WellFormed(request)
  {
    ProblemMeaning(request);
    if request.requestId in j.byRequest {
      RepeatMeaning(j.byRequest[request.requestId].1);
    } else if request.idempotencyKey in j.byKey {
      SemanticsMeaning(j.byKey[request.idempotencyKey].0, request);
      RepeatMeaning(j.byKey[request.idempotencyKey].1);
    } else {
      FreshMeaning(j, request, d);
    }
  }

  // ------------------------------------------------------------- durable requests

  function Asked(request: Request): Semantics {
    Semantics(request.schema, request.tool, request.baseRevisionId, request.auditContext, request.payload)
  }

  /** The journal with the marker of the request. */
  function WithMarker(j: Journal, request: Request): Journal {
    j.(pending := j.pending[request.idempotencyKey := Pending(request, Asked(request))])
  }

  /** The journal with a new answer. */
  function WithAnswer(j: Journal, request: Request, r: Response): Journal {
    j.(nextSequence := j.nextSequence + 1, byRequest := j.byRequest[request.requestId := (request, r)],
       byKey := j.byKey[request.idempotencyKey := (Asked(request), r)])
  }

  /** The journal already decides the answer. */
  predicate Decided(j: Journal, request: Request) {
    request.idempotencyKey in j.pending || request.requestId in j.byRequest || request.idempotencyKey in j.byKey
  }

  /** The answer to a request that is served durably, given the fate of the two writes. */
  predicate IsDurableAnswer(j: Journal, request: Request, d: Decision, ahead: Outcome, commit: Outcome, r: Response) {
    if request.idempotencyKey in j.pending then
      var marker := j.pending[request.idempotencyKey];
      IsRefused(j, request, if marker.request == request && AsksTheSame(marker.semantics, request) then
        AmbiguousPriorEffect else IdempotencyKeyCollision, r)
    else if Decided(j, request) then IsAnswer(j, request, d, r)
    else if !ahead.Persisted? then IsRefused(j, request, DurableStateUnavailable, r)
    else if !commit.Persisted? then
      r.sequence == j.nextSequence + (if WellFormed(request) then 1 else 0) &&
      IsRefused(j, request, DurableAcknowledgementFailed, r.(sequence := j.nextSequence))
    else IsAnswer(j, request, d, r)
  }

  /** Memory and file afterwards; `computed` is the answer that was journaled, if any. */
  predicate IsDurableState(j: Journal, file: Option<Journal>, request: Request, d: Decision, ahead: Outcome,
      commit: Outcome, computed: Response, memory: Journal, file': Option<Journal>)
  {
    var done := if WellFormed(request) then WithAnswer(j, request, computed) else j;
    if Decided(j, request) then memory == j && file' == file
    else if !ahead.Persisted? then
      memory == j && file' == (if ahead.FailedBefore? then file else Some(WithMarker(j, request)))
    else
      && IsFresh(j, request, d, computed)
      && memory == (if commit.Persisted? then done else WithMarker(done, request))
      && file' == Some(if commit.FailedBefore? then WithMarker(j, request) else done)
  }

  /** Answer, state and delegation of a durable call. */
  ghost predicate ServesDurably(j: Journal, file: Option<Journal>, request: Request, d: Decision, ahead: Outcome,
      commit: Outcome, r: Response, calls: seq<string>, memory: Journal, file': Option<Journal>)
  {
    && IsDurableAnswer(j, request, d, ahead, commit, r)
    && (exists computed :: IsDurableState(j, file, request, d, ahead, commit, computed, memory, file'))
    && calls == (if !Decided(j, request) && ahead.Persisted? && WellFormed(request) then [request.idempotencyKey]
                 else [])
  }

  lemma MarkMeaning(j: Journal, request: Request)
    requires request.idempotencyKey !in j.pending
    ensures Mark(j, request) == WithMarker(j, request) && Unmark(Mark(j, request), request) == j
  {
    var key := request.idempotencyKey;
    assert (j.pending[key := Pending(request, Asked(request))]) - {key} == j.pending;
  }

  lemma InvokeMeaning(j: Journal, request: Request, d: Decision)
    requires !Decided(j, request)
    ensures var (after, r) := Execute(Mark(j, request), request, d);
      var done := if WellFormed(request) then WithAnswer(j, request, ResponseTo(j, request, d)) else j;
      && after == WithMarker(done, request) && Unmark(after, request) == done && IsAnswer(j, request, d, r)
      && IsFresh(j, request, d, ResponseTo(j, request, d)) && after.nextSequence == done.nextSequence
      && (Delegates(Mark(j, request), request) <==> WellFormed(request))
  {
    var done := if WellFormed(request) then WithAnswer(j, request, ResponseTo(j, request, d)) else j;
    MarkMeaning(j, request);
    MarkMeaning(done, request);
    FreshMeaning(j, request, d);
    ProblemMeaning(request);
    ExecuteMeaning(j, request, d);
    assert ResponseTo(Mark(j, request), request, d) == ResponseTo(j, request, d);
  }

  /** What an uninterrupted durable call answers, and what it leaves in memory and on disk. */
  lemma DurableMeaning(j: Journal, file: Option<Journal>, request: Request, d: Decision, ahead: Outcome,
      commit: Outcome)
    ensures var t := Run(System(Some(j), file, Idle, [], []), [Begin(request, ahead), Invoke(d), Commit(commit)]);
      && t.memory.Some? && |t.answers| == 1
      && ServesDurably(j, file, request, d, ahead, commit, t.answers[0].response, t.calls, t.memory.value, t.file)
  {
    var s := System(Some(j), file, Idle, [], []);
    RunThree(s, Begin(request, ahead), Invoke(d), Commit(commit));
    if Decided(j, request) {
      DecidedSteps(j, file, request, d, ahead, commit);
    } else {
      ComputedSteps(j, file, request, d, ahead, commit);
    }
  }

  /** The three steps of a durable call answer and leave behind what they should. */
  ghost predicate StepsServe(j: Journal, file: Option<Journal>, request: Request, d: Decision, ahead: Outcome,
      commit: Outcome)
  {
    var t := Served(j, file, request, d, ahead, commit);
    && t.memory.Some? && |t.answers| == 1
    && ServesDurably(j, file, request, d, ahead, commit, t.answers[0].response, t.calls, t.memory.value, t.file)
  }

  /** The system after the three steps. */
  function Served(j: Journal, file: Option<Journal>, request: Request, d: Decision, ahead: Outcome,
      commit: Outcome): System
  {
    CommitStep(InvokeStep(BeginStep(System(Some(j), file, Idle, [], []), request, ahead), d), commit)
  }

  lemma ImmediateSteps(j: Journal, file: Option<Journal>, request: Request, d: Decision, ahead: Outcome,
      commit: Outcome)
    requires AnsweredAtOnce(j, request)
    ensures Served(j, file, request, d, ahead, commit) ==
      System(Some(j), file, Idle, [], [ImmediateAnswer(j, request)])
  {
  }

  lemma DecidedSteps(j: Journal, file: Option<Journal>, request: Request, d: Decision, ahead: Outcome, commit: Outcome)
    requires Decided(j, request)
    ensures StepsServe(j, file, request, d, ahead, commit)
  {
    AtOnceMeaning(j, request, d);
    ImmediateSteps(j, file, request, d, ahead, commit);
    assert IsDurableState(j, file, request, d, ahead, commit, ResponseTo(j, request, d), j, file);
  }

  lemma MarkedSteps(j: Journal, file: Option<Journal>, request: Request, d: Decision, ahead: Outcome, commit: Outcome)
    requires !AnsweredAtOnce(j, request) && ahead.Persisted?
    ensures var (after, r) := Execute(Mark(j, request), request, d);
      var t := Served(j, file, request, d, ahead, commit);
      && t.memory == Some(if commit.Persisted? then Unmark(after, request) else after)
      && t.file == Some(if commit.FailedBefore? then Mark(j, request) else Unmark(after, request))
      && t.calls == (if Delegates(Mark(j, request), request) then [request.idempotencyKey] else [])
      && |t.answers| == 1 && t.answers[0].response ==
           (if commit.Persisted? then r else Refuse(after, request, DurableAcknowledgementFailed))
  {
  }

  lemma ComputedSteps(j: Journal, file: Option<Journal>, request: Request, d: Decision, ahead: Outcome, commit: Outcome)
    requires !Decided(j, request)
    ensures StepsServe(j, file, request, d, ahead, commit)
  {
    InvokeMeaning(j, request, d);
    MarkMeaning(j, request);
    if ahead.Persisted? { MarkedSteps(j, file, request, d, ahead, commit); }
    var t := Served(j, file, request, d, ahead, commit);
    assert IsDurableState(j, file, request, d, ahead, commit, ResponseTo(j, request, d), t.memory.value, t.file);
  }

  lemma AtOnceMeaning(j: Journal, request: Request, d: Decision)
    requires Decided(j, request)
    ensures AnsweredAtOnce(j, request)
    ensures forall ahead, commit :: IsDurableAnswer(j, request, d, ahead, commit, ImmediateAnswer(j, request).response)
  {
    ExecuteMeaning(j, request, d);
    if request.idempotencyKey in j.pending { SemanticsMeaning(j.pending[request.idempotencyKey].semantics, request); }
  }

  // ---------------------------------------------------------------- notifications

  /** The notification as the protocol owns it: its schema, and that it authorizes nothing. */
  predicate IsOwned(given: Notification, sequence: nat, n: Notification) {
    n == Notification(NotificationV0, given.notificationId, sequence, given.kind, given.subjectUri,
                      given.observedRevisionId, given.payload, false)
  }

  predicate SaysTheSame(c: Content, n: Notification) {
    && c.notificationId == n.notificationId && c.kind == n.kind && c.subjectUri == n.subjectUri
    && c.observedRevisionId == n.observedRevisionId && c.payload == n.payload
  }

  /** A new id is numbered next and filed; a used id with the same content gives the filed
      notification again, and with other content is refused; only a new id changes anything. */
  predicate IsPublished(j: Journal, given: Notification, p: Published, after: Journal) {
    if given.notificationId in j.notifications then
      var (said, stored) := j.notifications[given.notificationId];
      && after == j
      && (if SaysTheSame(said, given) then p.Delivered? && IsOwned(stored, stored.sequence, p.notification)
          else p == Rejected(Refusal(NotificationIdCollision, "", None, None, CorrectAndRetry)))
    else
      && p.Delivered? && IsOwned(given, j.nextSequence + 1, p.notification)
      && after == j.(nextSequence := j.nextSequence + 1, notifications := j.notifications[given.notificationId :=
           (Content(given.notificationId, given.kind, given.subjectUri, given.observedRevisionId, given.payload),
            p.notification)])
  }

  lemma PublishMeaning(j: Journal, given: Notification)
    ensures var (after, p) := Publish(j, given); IsPublished(j, given, p, after)
  {
  }
}
