/** The control plane's protocol values: requests, the journal, and the pure
    meaning of `execute`, `publish_notification`, `load_durable` and the replay
    surfaces.  A digest is collision-free, so it is represented by what it covers. */
module ControlPlane {
  import opened Machine
  import opened Orders

  /** The three schema identifiers this protocol knows, and any other text. */
  datatype Schema = RequestV0 | ResponseV0 | NotificationV0 | Unsupported(text: string)

  /** Top-level result keys: the claim vocabulary, and any other key. */
  datatype Key =
    | Accepted | MutationPerformed | ReadOnly | AcceptedRuntimeOutput | ProofsSerialized
    | ReviewStatus | GeneratedPlanReviewStatus
    | Other(name: string)

  /** The refusal codes this protocol issues, and those a delegate chooses. */
  datatype Code =
    | UnsupportedSchema | MissingIdentity | MutationContextRequired | RevisionContextRequired
    | RequestIdCollision | IdempotencyKeyCollision | NotificationIdCollision
    | NoncanonicalWireClaim | NoncanonicalJournaledResponse
    | AmbiguousPriorEffect | DurableStateUnavailable | DurableAcknowledgementFailed
    | Chosen(name: string)

  /** What a refusal suggests doing next. */
  datatype Advice = CorrectAndRetry | ReportHostDefect | AuditPriorResponse | Suggested(operation: string)

  datatype Value =
    | Null
    | Bool(flag: bool)
    | Number(digits: string)
    | Text(text: string)
    | Array(items: seq<Value>)
    | Object(fields: map<Key, Value>)

  datatype Tool =
    | ProposeExecutionTopology | LintExecutionTopology | CompileDeploymentBundle | CompileReviewedDeploymentBundle
    | AttachRuntimeReport | ReconcileRun | ApplyEvidencePacket | ReviewAccept | ReviewReject | Resume
    | SupersedeDispatch | ReserveResources | ReconcileResources | ReleaseResources | SimulateExecutionTopology
    | EvaluateExpansionRound | ReconcileStreamingRun | ReconcileVerificationLineage | ProposeTopologyRedesign
    | MemoryQuery | MemoryExplain | MemoryHistory | MemoryConflicts | MemorySources | MemoryProposeClaim
    | MemoryProposeSupersession | MemoryProposeRetraction | MemoryProposeProcedure
  {
    predicate ChangesManagedState() {
      || AttachRuntimeReport? || ApplyEvidencePacket? || ReviewAccept? || ReviewReject? || Resume?
      || SupersedeDispatch? || ReserveResources? || ReleaseResources?
    }

    predicate RequiresBaseRevision() {
      || ChangesManagedState()
      || CompileDeploymentBundle? || CompileReviewedDeploymentBundle? || ReconcileRun? || ReconcileResources?
      || EvaluateExpansionRound? || ReconcileStreamingRun? || ReconcileVerificationLineage? || ProposeTopologyRedesign?
      || MemoryQuery? || MemoryExplain? || MemoryHistory? || MemoryConflicts? || MemorySources? || MemoryProposeClaim?
      || MemoryProposeSupersession? || MemoryProposeRetraction? || MemoryProposeProcedure?
    }
  }

  datatype AuditContext = AuditContext(actorId: string, capabilityIds: seq<string>, operationScopeId: string,
                                       audience: string, sourceBoundaryId: string)

  datatype Request = Request(
    schema: Schema,
    requestId: string,
    idempotencyKey: string,
    tool: Tool,
    baseRevisionId: Option<string>,
    auditContext: Option<AuditContext>,
    payload: Value)

  /** What the idempotency key has to name again on a retry; the request id is not in it. */
  datatype Semantics = Semantics(schema: Schema, tool: Tool, baseRevisionId: Option<string>,
                                 auditContext: Option<AuditContext>, payload: Value)

  function SemanticsOf(r: Request): Semantics {
    Semantics(r.schema, r.tool, r.baseRevisionId, r.auditContext, r.payload)
  }

  datatype Refusal = Refusal(code: Code, detail: string, suppliedRevision: Option<string>,
                             currentRevision: Option<string>, suggestedNextOperation: Advice)

  datatype Response = Response(
    schema: Schema,
    sequence: nat,
    requestId: string,
    idempotencyKey: string,
    replayed: bool,
    auditContextPresent: bool,
    result: Option<Value>,
    refusal: Option<Refusal>)

  datatype NotificationKind =
    | RevisionChanged | ReviewRequired | ExternalWaitCleared | DispatchStalled | BudgetExhausted
    | IntegrityRefusal | ResourceConflict

  datatype Notification = Notification(
    schema: Schema,
    notificationId: string,
    sequence: nat,
    kind: NotificationKind,
    subjectUri: string,
    observedRevisionId: Option<string>,
    payload: Value,
    authorizesAction: bool)

  /** The covered content of a notification; its sequence is not part of it. */
  datatype Content = Content(notificationId: string, kind: NotificationKind, subjectUri: string,
                             observedRevisionId: Option<string>, payload: Value)

  function ContentOf(n: Notification): Content {
    Content(n.notificationId, n.kind, n.subjectUri, n.observedRevisionId, n.payload)
  }

  datatype Pending = Pending(request: Request, semantics: Semantics)

  /** The persistent state: counter, the two response indexes, notifications, markers. */
  datatype Journal = Journal(
    nextSequence: nat,
    byRequest: map<string, (Request, Response)>,
    byKey: map<string, (Semantics, Response)>,
    notifications: map<string, (Content, Notification)>,
    pending: map<string, Pending>)

  const EMPTY := Journal(0, map[], map[], map[], map[])

  /** What the delegate answers. */
  datatype Decision = Accept(value: Value) | Decline(refusal: Refusal)

  // ------------------------------------------------------------ wire contract

  /** The claim vocabulary: a top-level key that occurs must carry this value. */
  function RequiredClaim(key: Key): Option<Value> {
    match key
    case Accepted | MutationPerformed | AcceptedRuntimeOutput | ProofsSerialized => Some(Bool(false))
    case ReadOnly => Some(Bool(true))
    case ReviewStatus | GeneratedPlanReviewStatus => Some(Text("unreviewed"))
    case Other(_) => None
  }

  /** `wire_claim_violation` finds nothing. */
  predicate TruthfulResult(v: Value) {
    v.Object? && forall key :: key in v.fields && RequiredClaim(key).Some? ==> v.fields[key] == RequiredClaim(key).value
  }

  /** `journaled_response_violation` finds nothing. */
  predicate Servable(r: Response) {
    && r.schema == ResponseV0
    && (match (r.result, r.refusal)
        case (Some(v), None) => TruthfulResult(v)
        case (None, Some(_)) => true
        case _ => false)
  }

  function LocalRefusal(code: Code): Refusal {
    Refusal(code, "", None, None, CorrectAndRetry)
  }

  const WIRE_CLAIM_REFUSAL := Refusal(NoncanonicalWireClaim, "", None, None, ReportHostDefect)

  const JOURNALED_REFUSAL :=
    Refusal(NoncanonicalJournaledResponse, "", None, None, AuditPriorResponse)

  /** Source: `serve_journaled`. */
  function Serve(r: Response): (s: Response)
    ensures s.replayed && Servable(s)
    ensures s.sequence == r.sequence && s.requestId == r.requestId && s.idempotencyKey == r.idempotencyKey
  {
    if Servable(r) then r.(replayed := true)
    else Response(ResponseV0, r.sequence, r.requestId, r.idempotencyKey, true, r.auditContextPresent, None,
      Some(JOURNALED_REFUSAL))
  }

  function Refuse(j: Journal, request: Request, code: Code): Response {
    Response(ResponseV0, j.nextSequence, request.requestId, request.idempotencyKey, false,
             request.auditContext.Some?, None, Some(LocalRefusal(code)))
  }

  // ------------------------------------------------------------------ execute

  predicate HasRevision(request: Request) {
    request.baseRevisionId.Some? && request.baseRevisionId.value != ""
  }

  /** The request-side checks, in the order in which they refuse. */
  function RequestProblem(request: Request): Option<Code> {
    if request.schema != RequestV0 then Some(UnsupportedSchema)
    else if request.requestId == "" || request.idempotencyKey == "" then Some(MissingIdentity)
    else if request.tool.ChangesManagedState() && (!HasRevision(request) || request.auditContext.None?)
    then Some(MutationContextRequired)
    else if request.tool.RequiresBaseRevision() && !HasRevision(request) then Some(RevisionContextRequired)
    else None
  }

  function ResponseTo(j: Journal, request: Request, decision: Decision): Response {
    var (result, refusal) :=
      match decision
      case Accept(v) => if TruthfulResult(v) then (Some(v), None) else (None, Some(WIRE_CLAIM_REFUSAL))
      case Decline(r) => (None, Some(r));
    Response(ResponseV0, j.nextSequence + 1, request.requestId, request.idempotencyKey, false,
             request.auditContext.Some?, result, refusal)
  }

  predicate Known(j: Journal, request: Request) {
    request.requestId in j.byRequest || request.idempotencyKey in j.byKey
  }

  /** The delegate is consulted. */
  predicate Delegates(j: Journal, request: Request) {
    !Known(j, request) && RequestProblem(request).None?
  }

  function Record(j: Journal, request: Request, response: Response): Journal {
    j.(nextSequence := response.sequence,
       byRequest := j.byRequest[request.requestId := (request, response)],
       byKey := j.byKey[request.idempotencyKey := (SemanticsOf(request), response)])
  }

  /** The answer to a request whose id or key the journal already holds. */
  function Replayed(j: Journal, request: Request): Response
    requires Known(j, request)
  {
    if request.requestId in j.byRequest then
      var (existing, response) := j.byRequest[request.requestId];
      if existing == request then Serve(response) else Refuse(j, request, RequestIdCollision)
    else
      var (existing, response) := j.byKey[request.idempotencyKey];
      if existing == SemanticsOf(request) then Serve(response) else Refuse(j, request, IdempotencyKeyCollision)
  }

  /** Source: `execute`, as new journal and response. */
  function Execute(j: Journal, request: Request, decision: Decision): (Journal, Response) {
    if Known(j, request) then (j, Replayed(j, request))
    else if RequestProblem(request).Some? then (j, Refuse(j, request, RequestProblem(request).value))
    else (Record(j, request, ResponseTo(j, request, decision)), ResponseTo(j, request, decision))
  }

  // ------------------------------------------------------------- notifications

  function ForceOwnedFacts(n: Notification): Notification {
    n.(schema := NotificationV0, authorizesAction := false)
  }

  /** The journal with a new, numbered notification. */
  function Notify(j: Journal, numbered: Notification): Journal {
    j.(nextSequence := numbered.sequence,
       notifications := j.notifications[numbered.notificationId := (ContentOf(numbered), numbered)])
  }

  datatype Published = Delivered(notification: Notification) | Rejected(refusal: Refusal)

  /** Source: `publish_notification`. */
  function Publish(j: Journal, notification: Notification): (Journal, Published) {
    var n := ForceOwnedFacts(notification);
    if n.notificationId in j.notifications then
      var (existing, stored) := j.notifications[n.notificationId];
      (j, if existing == ContentOf(n) then Delivered(ForceOwnedFacts(stored))
        else Rejected(LocalRefusal(NotificationIdCollision)))
    else
      var numbered := n.(sequence := j.nextSequence + 1);
      (Notify(j, numbered), Delivered(numbered))
  }

  // --------------------------------------------------------------------- load

  ghost predicate SequenceUsed(j: Journal, n: nat) {
    || (exists r :: r in j.byRequest && j.byRequest[r].1.sequence == n)
    || (exists k :: k in j.byKey && j.byKey[k].1.sequence == n)
    || (exists i :: i in j.notifications && j.notifications[i].1.sequence == n)
  }

  ghost predicate NoneJournaled(j: Journal) {
    j.byRequest == map[] && j.byKey == map[] && j.notifications == map[]
  }

  /** `n` is the counter derived from the journal. */
  ghost predicate IsDerivedCounter(j: Journal, n: nat) {
    && (forall m: nat :: SequenceUsed(j, m) ==> m <= n)
    && (if NoneJournaled(j) then n == 0 else SequenceUsed(j, n))
  }

  /** `orderable_cursor_journals` accepts. */
  ghost predicate Orderable(j: Journal) {
    && (forall r :: r in j.byRequest ==> j.byRequest[r].1.sequence > 0)
    && (forall i :: i in j.notifications ==> j.notifications[i].1.sequence > 0)
    && (forall r, r' :: r in j.byRequest && r' in j.byRequest && r != r' ==>
      j.byRequest[r].1.sequence != j.byRequest[r'].1.sequence)
    && (forall i, i' :: i in j.notifications && i' in j.notifications && i != i' ==>
          j.notifications[i].1.sequence != j.notifications[i'].1.sequence)
  }

  lemma GreatestExists(s: set<nat>) returns (m: nat)
    requires s != {}
    ensures m in s && forall x :: x in s ==> x <= m
  {
    var x :| x in s;
    if s == {x} {
      m := x;
    } else {
      var rest := GreatestExists(s - {x});
      m := Max(x, rest);
      assert s == (s - {x}) + {x};
    }
  }

  lemma DerivedCounterExists(j: Journal) returns (n: nat)
    ensures IsDerivedCounter(j, n)
  {
    var used: set<nat> :=
      (set r | r in j.byRequest :: j.byRequest[r].1.sequence) + (set k | k in j.byKey :: j.byKey[k].1.sequence) +
      (set i | i in j.notifications :: j.notifications[i].1.sequence);
    assert forall m: nat :: SequenceUsed(j, m) <==> m in used;
    assert forall r :: r in j.byRequest ==> j.byRequest[r].1.sequence in used;
    assert forall k :: k in j.byKey ==> j.byKey[k].1.sequence in used;
    assert forall i :: i in j.notifications ==> j.notifications[i].1.sequence in used;
    if used == {} {
      n := 0;
    } else {
      n := GreatestExists(used);
      assert SequenceUsed(j, n);
    }
  }

  /** Source: `load_durable` over what the file holds, `None` being no file. */
  ghost function Reload(file: Option<Journal>): (loaded: Option<Journal>)
    ensures file.Some? ==> (loaded.Some? <==> Orderable(file.value))
    ensures file.Some? && loaded.Some? ==>
      loaded.value == file.value.(nextSequence := loaded.value.nextSequence) &&
        IsDerivedCounter(file.value, loaded.value.nextSequence)
    ensures file.None? ==> loaded == Some(EMPTY)
  {
    if file.None? then Some(EMPTY)
    else if !Orderable(file.value) then None
    else
      assert exists n: nat :: IsDerivedCounter(file.value, n) by { var n := DerivedCounterExists(file.value); }
      var n: nat :| IsDerivedCounter(file.value, n);
      Some(file.value.(nextSequence := n))
  }

  // ------------------------------------------------------- the journal invariant

  /** Each response entry is filed under its own ids and came from `execute`. */
  ghost predicate ResponseFiled(j: Journal, id: string)
    requires id in j.byRequest
  {
    var (request, response) := j.byRequest[id];
    && request.requestId == id && response.requestId == id && response.idempotencyKey == request.idempotencyKey
    && Servable(response) && !response.replayed && 0 < response.sequence <= j.nextSequence
    && request.idempotencyKey in j.byKey && j.byKey[request.idempotencyKey] == (SemanticsOf(request), response)
  }

  /** Each idempotency entry mirrors a response entry. */
  ghost predicate KeyMirrored(j: Journal, key: string)
    requires key in j.byKey
  {
    var response := j.byKey[key].1;
    && response.requestId in j.byRequest && j.byRequest[response.requestId].1 == response
    && j.byRequest[response.requestId].0.idempotencyKey == key
  }

  ghost predicate NotificationFiled(j: Journal, id: string)
    requires id in j.notifications
  {
    var (content, n) := j.notifications[id];
    && n.notificationId == id && content == ContentOf(n) && n == ForceOwnedFacts(n) && 0 < n.sequence <= j.nextSequence
  }

  ghost predicate SequencesDistinct(j: Journal) {
    && (forall r, r' :: r in j.byRequest && r' in j.byRequest && r != r' ==>
      j.byRequest[r].1.sequence != j.byRequest[r'].1.sequence)
    && (forall i, i' :: i in j.notifications && i' in j.notifications && i != i' ==>
          j.notifications[i].1.sequence != j.notifications[i'].1.sequence)
    && (forall r, i :: r in j.byRequest && i in j.notifications ==>
      j.byRequest[r].1.sequence != j.notifications[i].1.sequence)
  }

  /** What every journal written by this protocol satisfies. */
  ghost predicate JournalOk(j: Journal) {
    && (forall id :: id in j.byRequest ==> ResponseFiled(j, id))
    && (forall key :: key in j.byKey ==> KeyMirrored(j, key))
    && (forall id :: id in j.notifications ==> NotificationFiled(j, id))
    && SequencesDistinct(j)
    && (if NoneJournaled(j) then j.nextSequence == 0 else SequenceUsed(j, j.nextSequence))
  }

  lemma EmptyOk()
    ensures JournalOk(EMPTY)
  {
  }

  /** The stored counter of such a journal is exactly the derived one, and the
      load-time check accepts it: loading returns the journal unchanged. */
  lemma LoadIsFaithful(j: Journal)
    requires JournalOk(j)
    ensures Orderable(j) && IsDerivedCounter(j, j.nextSequence) && Reload(Some(j)) == Some(j)
  {
    SequencesBounded(j);
    forall k | k in j.byKey ensures j.byKey[k].1.sequence <= j.nextSequence { assert KeyMirrored(j, k); }
    assert IsDerivedCounter(j, j.nextSequence);
    DerivedCounterUnique(j, j.nextSequence, Reload(Some(j)).value.nextSequence);
  }

  lemma DerivedCounterUnique(j: Journal, a: nat, b: nat)
    requires IsDerivedCounter(j, a) && IsDerivedCounter(j, b)
    ensures a == b
  {
  }

  /** A freshly computed response satisfies the contract that replay re-checks. */
  lemma FreshIsServable(j: Journal, request: Request, decision: Decision)
    ensures Servable(ResponseTo(j, request, decision))
  {
  }

  lemma RecordFiled(j: Journal, request: Request, response: Response, id: string)
    requires !Known(j, request) && response.sequence == j.nextSequence + 1 && Servable(response) && !response.replayed
    requires response.requestId == request.requestId && response.idempotencyKey == request.idempotencyKey
    requires id != request.requestId ==> id in j.byRequest && ResponseFiled(j, id)
    ensures ResponseFiled(Record(j, request, response), id)
  {
  }

  lemma RecordMirrored(j: Journal, request: Request, response: Response, key: string)
    requires !Known(j, request) && response.requestId == request.requestId
    requires key != request.idempotencyKey ==> key in j.byKey && KeyMirrored(j, key)
    ensures KeyMirrored(Record(j, request, response), key)
  {
  }

  lemma RecordEntries(j: Journal, request: Request, response: Response)
    requires JournalOk(j) && !Known(j, request) && response.sequence == j.nextSequence + 1
    requires Servable(response) && !response.replayed
    requires response.requestId == request.requestId && response.idempotencyKey == request.idempotencyKey
    ensures forall id :: id in Record(j, request, response).byRequest ==>
      ResponseFiled(Record(j, request, response), id)
    ensures forall key :: key in Record(j, request, response).byKey ==> KeyMirrored(Record(j, request, response), key)
  {
    forall id | id in Record(j, request, response).byRequest ensures ResponseFiled(Record(j, request, response), id) {
      RecordFiled(j, request, response, id);
    }
    forall key | key in Record(j, request, response).byKey ensures KeyMirrored(Record(j, request, response), key) {
      RecordMirrored(j, request, response, key);
    }
  }

  lemma RecordKeepsOk(j: Journal, request: Request, decision: Decision)
    requires JournalOk(j) && !Known(j, request)
    ensures JournalOk(Record(j, request, ResponseTo(j, request, decision)))
  {
    var response := ResponseTo(j, request, decision);
    FreshIsServable(j, request, decision);
    RecordEntries(j, request, response);
    RecordSequences(j, request, response);
  }

  lemma SequencesBounded(j: Journal)
    requires JournalOk(j)
    ensures forall r :: r in j.byRequest ==> 0 < j.byRequest[r].1.sequence <= j.nextSequence
    ensures forall i :: i in j.notifications ==> 0 < j.notifications[i].1.sequence <= j.nextSequence
  {
    forall r | r in j.byRequest ensures 0 < j.byRequest[r].1.sequence <= j.nextSequence { assert ResponseFiled(j, r); }
    forall i | i in j.notifications
      ensures 0 < j.notifications[i].1.sequence <= j.nextSequence { assert NotificationFiled(j, i); }
  }

  lemma RecordNotified(j: Journal, request: Request, response: Response, id: string)
    requires id in j.notifications && NotificationFiled(j, id) && response.sequence == j.nextSequence + 1
    ensures NotificationFiled(Record(j, request, response), id)
  {
  }

  lemma RecordDistinct(j: Journal, request: Request, response: Response)
    requires SequencesDistinct(j) && response.sequence == j.nextSequence + 1
    requires forall r :: r in j.byRequest ==> 0 < j.byRequest[r].1.sequence <= j.nextSequence
    requires forall i :: i in j.notifications ==> 0 < j.notifications[i].1.sequence <= j.nextSequence
    ensures SequencesDistinct(Record(j, request, response))
  {
  }

  lemma RecordSequences(j: Journal, request: Request, response: Response)
    requires JournalOk(j) && response.sequence == j.nextSequence + 1
    ensures SequencesDistinct(Record(j, request, response))
    ensures forall id :: id in j.notifications ==> NotificationFiled(Record(j, request, response), id)
    ensures SequenceUsed(Record(j, request, response), response.sequence)
  {
    var j' := Record(j, request, response);
    SequencesBounded(j);
    RecordDistinct(j, request, response);
    forall id | id in j.notifications ensures NotificationFiled(j', id) { RecordNotified(j, request, response, id); }
    assert request.requestId in j'.byRequest && j'.byRequest[request.requestId].1.sequence == response.sequence;
  }

  lemma ExecuteKeepsOk(j: Journal, request: Request, decision: Decision)
    requires JournalOk(j)
    ensures JournalOk(Execute(j, request, decision).0)
  {
    if Delegates(j, request) { RecordKeepsOk(j, request, decision); }
  }

  lemma NotifyEntries(j: Journal, numbered: Notification)
    requires JournalOk(j) && numbered.sequence == j.nextSequence + 1 && numbered == ForceOwnedFacts(numbered)
    ensures forall id :: id in j.byRequest ==> ResponseFiled(Notify(j, numbered), id)
    ensures forall key :: key in j.byKey ==> KeyMirrored(Notify(j, numbered), key)
    ensures forall id :: id in Notify(j, numbered).notifications ==> NotificationFiled(Notify(j, numbered), id)
  {
    var j' := Notify(j, numbered);
    forall id | id in j.byRequest ensures ResponseFiled(j', id) { assert ResponseFiled(j, id); }
    forall key | key in j.byKey ensures KeyMirrored(j', key) { assert KeyMirrored(j, key); }
    forall id | id in j'.notifications ensures NotificationFiled(j', id) {
      if id != numbered.notificationId { assert NotificationFiled(j, id); }
    }
  }

  lemma NotifySequences(j: Journal, numbered: Notification)
    requires SequencesDistinct(j) && numbered.sequence == j.nextSequence + 1
    requires forall r :: r in j.byRequest ==> 0 < j.byRequest[r].1.sequence <= j.nextSequence
    requires forall i :: i in j.notifications ==> 0 < j.notifications[i].1.sequence <= j.nextSequence
    ensures SequencesDistinct(Notify(j, numbered)) && SequenceUsed(Notify(j, numbered), numbered.sequence)
  {
    var j', id := Notify(j, numbered), numbered.notificationId;
    assert id in j'.notifications && j'.notifications[id].1.sequence == numbered.sequence;
  }

  lemma NotifyKeepsOk(j: Journal, numbered: Notification)
    requires JournalOk(j) && numbered.sequence == j.nextSequence + 1 && numbered == ForceOwnedFacts(numbered)
    ensures JournalOk(Notify(j, numbered))
  {
    SequencesBounded(j);
    NotifyEntries(j, numbered);
    NotifySequences(j, numbered);
  }

  lemma PublishKeepsOk(j: Journal, notification: Notification)
    requires JournalOk(j)
    ensures JournalOk(Publish(j, notification).0)
  {
    if notification.notificationId !in j.notifications {
      var numbered := ForceOwnedFacts(notification).(sequence := j.nextSequence + 1);
      NotifyKeepsOk(j, numbered);
      assert Publish(j, notification).0 == Notify(j, numbered);
    } else {
      assert Publish(j, notification).0 == j;
    }
  }

  lemma PendingKeepsOk(j: Journal, pending: map<string, Pending>)
    requires JournalOk(j)
    ensures JournalOk(j.(pending := pending))
  {
    var j' := j.(pending := pending);
    forall id | id in j'.byRequest ensures ResponseFiled(j', id) { assert ResponseFiled(j, id); }
    forall key | key in j'.byKey ensures KeyMirrored(j', key) { assert KeyMirrored(j, key); }
    forall id | id in j'.notifications ensures NotificationFiled(j', id) { assert NotificationFiled(j, id); }
    PendingSequences(j, pending);
  }

  lemma PendingSequences(j: Journal, pending: map<string, Pending>)
    requires SequencesDistinct(j) && (if NoneJournaled(j) then j.nextSequence == 0 else SequenceUsed(j, j.nextSequence))
    ensures var j' := j.(pending := pending);
      SequencesDistinct(j') && (if NoneJournaled(j') then j'.nextSequence == 0 else SequenceUsed(j', j'.nextSequence))
  {
  }

  // ------------------------------------------------------------------- cursors

  predicate Earlier(a: Response, b: Response) { a.sequence < b.sequence }

  /** `out` is the reply to a reconnect at `after`: every journaled response with a
      larger sequence, served, in strictly increasing order, and nothing else. */
  ghost predicate IsReplay(j: Journal, after: nat, out: seq<Response>) {
    && (forall a, b :: 0 <= a < b < |out| ==> out[a].sequence < out[b].sequence)
    && (forall i :: 0 <= i < |out| ==> IsServed(j, after, out[i]))
    && (forall id :: id in j.byRequest && j.byRequest[id].1.sequence > after ==> Serve(j.byRequest[id].1) in out)
  }

  ghost predicate IsServed(j: Journal, after: nat, r: Response) {
    exists id :: id in j.byRequest && j.byRequest[id].1.sequence > after && r == Serve(j.byRequest[id].1)
  }

  lemma ReplayShrinks(j: Journal, a: nat, b: nat, x: seq<Response>, y: seq<Response>, r: Response)
    requires IsReplay(j, a, x) && IsReplay(j, b, y) && r in x && b < r.sequence
    ensures r in y
  {
    var i :| 0 <= i < |x| && x[i] == r;
    assert IsServed(j, a, x[i]);
    var id :| id in j.byRequest && j.byRequest[id].1.sequence > a && r == Serve(j.byRequest[id].1);
  }

  lemma ReplayAbove(j: Journal, a: nat, x: seq<Response>, r: Response)
    requires IsReplay(j, a, x) && r in x
    ensures a < r.sequence
  {
    var i :| 0 <= i < |x| && x[i] == r;
    assert IsServed(j, a, x[i]);
  }

  /** The cursor loses nothing: for `a <= b`, what a client at `a` gets is what it
      gets up to `b`, followed by exactly what a client at `b` gets. */
  lemma CursorSplits(j: Journal, a: nat, b: nat, x: seq<Response>, y: seq<Response>) returns (k: nat)
    requires a <= b && IsReplay(j, a, x) && IsReplay(j, b, y)
    ensures k <= |x| && x[k..] == y && forall i :: 0 <= i < k ==> a < x[i].sequence <= b
  {
    k := FirstAbove(x, b);
    forall r ensures r in x[k..] <==> r in y {
      AboveCursor(x, k, b, r);
      AboveIsLater(j, a, b, x, y, r);
    }
    forall i | 0 <= i < k ensures a < x[i].sequence { ReplayAbove(j, a, x, x[i]); }
    AscendingUnique(Earlier, x[k..], y);
  }

  lemma AboveIsLater(j: Journal, a: nat, b: nat, x: seq<Response>, y: seq<Response>, r: Response)
    requires a <= b && IsReplay(j, a, x) && IsReplay(j, b, y)
    ensures r in x && r.sequence > b <==> r in y
  {
    if r in y { ReplayAbove(j, b, y, r); ReplayShrinks(j, b, a, y, x, r); }
    if r in x && r.sequence > b { ReplayShrinks(j, a, b, x, y, r); }
  }

  lemma AboveCursor(x: seq<Response>, k: nat, b: nat, r: Response)
    requires k <= |x| && (forall i :: 0 <= i < k ==> x[i].sequence <= b) && forall i :: k <= i < |x| ==>
      x[i].sequence > b
    ensures r in x[k..] <==> r in x && r.sequence > b
  {
    if r in x && r.sequence > b {
      var i :| 0 <= i < |x| && x[i] == r;
      assert x[k..][i - k] == r;
    }
  }

  lemma FirstAbove(x: seq<Response>, b: nat) returns (k: nat)
    requires forall i, l :: 0 <= i < l < |x| ==> x[i].sequence < x[l].sequence
    ensures k <= |x| && (forall i :: 0 <= i < k ==> x[i].sequence <= b) && forall i :: k <= i < |x| ==>
      x[i].sequence > b
  {
    k := 0;
    while k < |x| && x[k].sequence <= b
      invariant k <= |x| && forall i :: 0 <= i < k ==> x[i].sequence <= b
    {
      k := k + 1;
    }
  }

  /** Within one process a new response sorts after everything journaled so far. */
  lemma LaterSortsAfter(j: Journal, request: Request, decision: Decision)
    requires JournalOk(j) && Delegates(j, request)
    ensures forall n: nat :: SequenceUsed(j, n) ==> n < Execute(j, request, decision).1.sequence
  {
    LoadIsFaithful(j);
  }
}
