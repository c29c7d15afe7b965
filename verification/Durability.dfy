/** The durable idempotency protocol as a state machine.  A step is one write to the
    state file together with the memory update that goes with it, one delegated call,
    a crash, or a restart; a crash may fall between any two of them. */
module Durability {
  import opened Machine
  import opened ControlPlane

  /** `persist_durable`: success; failure that leaves the old file; failure of the
      directory sync, after the rename has already put the new file in place. */
  datatype Outcome = Persisted | FailedBefore | FailedAfter

  function FileAfter(file: Option<Journal>, j: Journal, outcome: Outcome): Option<Journal> {
    if outcome.FailedBefore? then file else Some(j)
  }

  datatype Phase =
    | Idle
    | Prepared(request: Request)
    | Committing(request: Request, response: Response, journaled: bool)

  /** Where an answer came from: newly journaled, the request index, the idempotency
      index (the response to an earlier request), or a refusal that nothing records. */
  datatype Origin = FromDelegate | FromRequestIndex | FromKeyIndex(original: Request) | Local

  datatype Answer = Answer(request: Request, response: Response, origin: Origin)

  datatype System = System(
    memory: Option<Journal>,
    file: Option<Journal>,
    phase: Phase,
    calls: seq<string>,
    answers: seq<Answer>)

  const INITIAL := System(None, None, Idle, [], [])

  datatype Step =
    | Begin(request: Request, outcome: Outcome)
    | Invoke(decision: Decision)
    | Commit(outcome: Outcome)
    | Announce(notification: Notification, outcome: Outcome)
    | Crash
    | Load

  /** What the next start would read. */
  function OnDisk(s: System): Journal {
    if s.file.None? then EMPTY else s.file.value
  }

  predicate Settled(s: System) {
    s.memory.Some? && s.phase.Idle?
  }

  // ------------------------------------------------------------------- steps

  function Mark(j: Journal, request: Request): Journal {
    j.(pending := j.pending[request.idempotencyKey := Pending(request, SemanticsOf(request))])
  }

  function Unmark(j: Journal, request: Request): Journal {
    j.(pending := j.pending - {request.idempotencyKey})
  }

  predicate AnsweredAtOnce(j: Journal, request: Request) {
    request.idempotencyKey in j.pending || Known(j, request)
  }

  /** The answers `execute_durable` gives before it writes anything. */
  function ImmediateAnswer(j: Journal, request: Request): Answer
    requires AnsweredAtOnce(j, request)
  {
    if request.idempotencyKey in j.pending then
      Answer(request,
             Refuse(j, request, if j.pending[request.idempotencyKey] == Pending(request, SemanticsOf(request)) then
               AmbiguousPriorEffect
                                else IdempotencyKeyCollision),
             Local)
    else
      Answer(request, Replayed(j, request),
             if request.requestId in j.byRequest then
               if j.byRequest[request.requestId].0 == request then FromRequestIndex else Local
             else if j.byKey[request.idempotencyKey].0 == SemanticsOf(request) then
               FromKeyIndex(FirstAsked(j, request)) else Local)
  }

  /** The request whose response the idempotency index holds. */
  function FirstAsked(j: Journal, request: Request): Request
    requires request.idempotencyKey in j.byKey
  {
    var id := j.byKey[request.idempotencyKey].1.requestId;
    if id in j.byRequest then j.byRequest[id].0 else request
  }

  function BeginStep(s: System, request: Request, outcome: Outcome): System {
    if !Settled(s) then s
    else
      var j := s.memory.value;
      if AnsweredAtOnce(j, request) then s.(answers := s.answers + [ImmediateAnswer(j, request)])
      else
        var file := FileAfter(s.file, Mark(j, request), outcome);
        if outcome.Persisted? then s.(memory := Some(Mark(j, request)), file := file, phase := Prepared(request))
        else s.(file := file, answers := s.answers +
          [Answer(request, Refuse(j, request, DurableStateUnavailable), Local)])
  }

  function InvokeStep(s: System, decision: Decision): System {
    if s.memory.None? || !s.phase.Prepared? then s
    else
      var request := s.phase.request;
      var (j, response) := Execute(s.memory.value, request, decision);
      var delegated := Delegates(s.memory.value, request);
      s.(memory := Some(j), phase := Committing(request, response, delegated),
         calls := if delegated then s.calls + [request.idempotencyKey] else s.calls)
  }

  function CommitStep(s: System, outcome: Outcome): System {
    if s.memory.None? || !s.phase.Committing? then s
    else
      var request := s.phase.request;
      var committed := Unmark(s.memory.value, request);
      var file := FileAfter(s.file, committed, outcome);
      if outcome.Persisted? then
        s.(memory := Some(committed), file := file, phase := Idle,
           answers := s.answers + [Answer(request, s.phase.response, if s.phase.journaled then FromDelegate
             else Local)])
      else
        s.(file := file, phase := Idle,
           answers := s.answers + [Answer(request, Refuse(s.memory.value, request, DurableAcknowledgementFailed),
             Local)])
  }

  function AnnounceStep(s: System, notification: Notification, outcome: Outcome): System {
    if !Settled(s) then s
    else
      var (j, published) := Publish(s.memory.value, notification);
      if published.Rejected? then s
      else if outcome.Persisted? then s.(memory := Some(j), file := Some(j))
      else s.(file := FileAfter(s.file, j, outcome))
  }

  ghost function Next(s: System, step: Step): System {
    match step
    case Begin(request, outcome) => BeginStep(s, request, outcome)
    case Invoke(decision) => InvokeStep(s, decision)
    case Commit(outcome) => CommitStep(s, outcome)
    case Announce(notification, outcome) => AnnounceStep(s, notification, outcome)
    case Crash => s.(memory := None, phase := Idle)
    case Load => if s.memory.Some? then s else s.(memory := Reload(s.file))
  }

  ghost function Run(s: System, steps: seq<Step>): System
    decreases |steps|
  {
    if steps == [] then s else Next(Run(s, steps[..|steps| - 1]), steps[|steps| - 1])
  }

  // --------------------------------------------------------------- invariants

  /** The journal answers `request` with `response`, apart from the replay flag. */
  predicate Holds(j: Journal, request: Request, response: Response) {
    && request.requestId in j.byRequest && j.byRequest[request.requestId].0 == request
    && j.byRequest[request.requestId].1.(replayed := true) == response.(replayed := true)
    && request.idempotencyKey !in j.pending
  }

  /** Every memory entry without a marker is on disk as well, without a marker. */
  ghost predicate Durable(m: Journal, d: Journal) {
    forall id :: id in m.byRequest && m.byRequest[id].0.idempotencyKey !in m.pending ==>
      id in d.byRequest && d.byRequest[id] == m.byRequest[id] && m.byRequest[id].0.idempotencyKey !in d.pending
  }

  ghost predicate PhaseOk(m: Journal, d: Journal, phase: Phase) {
    match phase
    case Idle => true
    case Prepared(request) => d == m && request.idempotencyKey in m.pending
    case Committing(request, response, journaled) =>
      && request.idempotencyKey in m.pending && request.idempotencyKey in d.pending
      && (journaled ==>
            && request.requestId in m.byRequest && m.byRequest[request.requestId] == (request, response)
            && response.sequence == m.nextSequence)
  }

  /** The answer is a journaled response, new or replayed. */
  predicate Acknowledges(a: Answer) {
    !a.origin.Local?
  }

  /** The request that was journaled with this answer. */
  function Original(a: Answer): Request {
    if a.origin.FromKeyIndex? then a.origin.original else a.request
  }

  /** The journal still holds what this answer said, for a request that asks the same. */
  ghost predicate AnswerHeld(j: Journal, a: Answer) {
    && Holds(j, Original(a), a.response)
    && Original(a).idempotencyKey == a.request.idempotencyKey && SemanticsOf(Original(a)) == SemanticsOf(a.request)
  }

  ghost predicate AnswersHeld(j: Journal, answers: seq<Answer>) {
    forall i :: 0 <= i < |answers| && Acknowledges(answers[i]) ==> AnswerHeld(j, answers[i])
  }

  /** Responses acknowledged as new carry strictly increasing sequences. */
  ghost predicate FreshIncreasing(answers: seq<Answer>) {
    forall a, b :: 0 <= a < b < |answers| && Acknowledges(answers[a]) && answers[b].origin.FromDelegate? ==>
      answers[a].response.sequence < answers[b].response.sequence
  }

  /** The journal copies that exist: the file, and memory while the process is up. */
  function Copies(s: System): set<Journal> {
    {OnDisk(s)} + if s.memory.Some? then {s.memory.value} else {}
  }

  ghost predicate JournalsOk(s: System) {
    forall j :: j in Copies(s) ==> JournalOk(j)
  }

  /** What the system has promised so far is kept by every copy. */
  ghost predicate PromisesKept(s: System) {
    && (forall j :: j in Copies(s) ==> AnswersHeld(j, s.answers))
    && FreshIncreasing(s.answers) && (s.memory.None? ==> s.phase.Idle?)
    && (s.memory.Some? ==>
          Durable(s.memory.value, OnDisk(s)) && PhaseOk(s.memory.value, OnDisk(s), s.phase))
  }

  /** A running system keeps its promises if memory and file do. */
  lemma BothKeep(s: System)
    requires s.memory.Some? && FreshIncreasing(s.answers)
    requires AnswersHeld(s.memory.value, s.answers) && AnswersHeld(OnDisk(s), s.answers)
    requires Durable(s.memory.value, OnDisk(s)) && PhaseOk(s.memory.value, OnDisk(s), s.phase)
    ensures PromisesKept(s)
  {
  }

  lemma SettledKeeps(j: Journal, calls: seq<string>, answers: seq<Answer>)
    requires AnswersHeld(j, answers) && FreshIncreasing(answers)
    ensures PromisesKept(System(Some(j), Some(j), Idle, calls, answers))
  {
  }

  /** Every copy was there before or is the consistent journal `j`. */
  lemma CopiesOk(s: System, t: System, j: Journal)
    requires JournalsOk(s) && JournalOk(j)
    requires t.file == s.file || t.file == Some(j)
    requires t.memory == s.memory || t.memory == Some(j)
    ensures JournalsOk(t)
  {
  }

  lemma BeginJournals(s: System, request: Request, outcome: Outcome)
    requires JournalsOk(s)
    ensures JournalsOk(BeginStep(s, request, outcome))
  {
    if Settled(s) {
      var marked := Mark(s.memory.value, request);
      PendingKeepsOk(s.memory.value, marked.pending);
      CopiesOk(s, BeginStep(s, request, outcome), marked);
    }
  }

  lemma InvokeJournals(s: System, decision: Decision)
    requires JournalsOk(s)
    ensures JournalsOk(InvokeStep(s, decision))
  {
    if s.memory.Some? && s.phase.Prepared? { ExecuteKeepsOk(s.memory.value, s.phase.request, decision); }
  }

  lemma CommitJournals(s: System, outcome: Outcome)
    requires JournalsOk(s)
    ensures JournalsOk(CommitStep(s, outcome))
  {
    if s.memory.Some? && s.phase.Committing? {
      var committed := Unmark(s.memory.value, s.phase.request);
      PendingKeepsOk(s.memory.value, committed.pending);
      CopiesOk(s, CommitStep(s, outcome), committed);
    }
  }

  lemma AnnounceJournals(s: System, notification: Notification, outcome: Outcome)
    requires JournalsOk(s)
    ensures JournalsOk(AnnounceStep(s, notification, outcome))
  {
    if Settled(s) {
      PublishKeepsOk(s.memory.value, notification);
      CopiesOk(s, AnnounceStep(s, notification, outcome), Publish(s.memory.value, notification).0);
    }
  }

  /** Loading is never refused and returns the copy on disk. */
  lemma LoadReturnsDisk(s: System)
    requires JournalsOk(s)
    ensures Reload(s.file) == Some(OnDisk(s))
  {
    LoadIsFaithful(OnDisk(s));
  }

  lemma StepKeepsJournals(s: System, step: Step)
    requires JournalsOk(s)
    ensures JournalsOk(Next(s, step))
  {
    match step
    case Begin(request, outcome) => BeginJournals(s, request, outcome);
    case Invoke(decision) => InvokeJournals(s, decision);
    case Commit(outcome) => CommitJournals(s, outcome);
    case Announce(notification, outcome) => AnnounceJournals(s, notification, outcome);
    case Crash =>
    case Load => LoadReturnsDisk(s);
  }

  lemma DurableSelf(m: Journal)
    ensures Durable(m, m)
  {
  }

  lemma MarkHolds(j: Journal, answers: seq<Answer>, request: Request)
    requires JournalOk(j) && AnswersHeld(j, answers) && !Known(j, request)
    ensures AnswersHeld(Mark(j, request), answers)
  {
    forall i | 0 <= i < |answers| && Acknowledges(answers[i])
      ensures AnswerHeld(Mark(j, request), answers[i])
    {
      assert AnswerHeld(j, answers[i]);
      assert ResponseFiled(j, Original(answers[i]).requestId);
    }
  }

  lemma MarkDurable(m: Journal, request: Request)
    requires JournalOk(m) && !Known(m, request)
    ensures Durable(m, Mark(m, request))
  {
    forall id | id in m.byRequest ensures m.byRequest[id].0.idempotencyKey != request.idempotencyKey {
      assert ResponseFiled(m, id);
    }
  }

  /** An entry without a marker is on disk too. */
  lemma HeldOnDisk(m: Journal, d: Journal, request: Request, response: Response)
    requires Durable(m, d) && Holds(m, request, response)
    ensures Holds(d, request, response)
  {
  }

  lemma LogHolds(j: Journal, answers: seq<Answer>, a: Answer)
    requires AnswersHeld(j, answers) && (Acknowledges(a) ==> AnswerHeld(j, a))
    ensures AnswersHeld(j, answers + [a])
  {
  }

  /** Logging a refusal, or an answer that memory holds. */
  lemma AnswerKeeps(s: System, a: Answer)
    requires PromisesKept(s) && s.memory.Some? && !a.origin.FromDelegate?
    requires Acknowledges(a) ==> AnswerHeld(s.memory.value, a)
    ensures PromisesKept(s.(answers := s.answers + [a]))
  {
    if Acknowledges(a) { HeldOnDisk(s.memory.value, OnDisk(s), Original(a), a.response); }
    forall j | j in Copies(s) ensures AnswersHeld(j, s.answers + [a]) {
      LogHolds(j, s.answers, a);
    }
  }

  lemma ServedHeld(j: Journal, request: Request)
    requires JournalOk(j) && AnsweredAtOnce(j, request)
    requires Acknowledges(ImmediateAnswer(j, request))
    ensures AnswerHeld(j, ImmediateAnswer(j, request))
  {
    if request.requestId in j.byRequest {
      assert ResponseFiled(j, request.requestId);
    } else {
      assert KeyMirrored(j, request.idempotencyKey);
      assert ResponseFiled(j, j.byKey[request.idempotencyKey].1.requestId);
    }
  }

  /** A marker write that fails, before or after the rename. */
  lemma RefuseKeeps(s: System, request: Request, outcome: Outcome)
    requires JournalsOk(s) && PromisesKept(s) && Settled(s) && !AnsweredAtOnce(s.memory.value, request)
    requires !outcome.Persisted?
    ensures PromisesKept(BeginStep(s, request, outcome))
  {
    var j := s.memory.value;
    MarkHolds(j, s.answers, request);
    MarkDurable(j, request);
    var t := s.(file := FileAfter(s.file, Mark(j, request), outcome));
    BothKeep(t);
    AnswerKeeps(t, Answer(request, Refuse(j, request, DurableStateUnavailable), Local));
  }

  lemma PrepareKeeps(s: System, request: Request, outcome: Outcome)
    requires JournalsOk(s) && PromisesKept(s) && Settled(s) && !AnsweredAtOnce(s.memory.value, request)
    ensures PromisesKept(BeginStep(s, request, outcome))
  {
    var j := s.memory.value;
    MarkHolds(j, s.answers, request);
    if outcome.Persisted? {
      var marked := Mark(j, request);
      var t := s.(memory := Some(marked), file := Some(marked), phase := Prepared(request));
      DurableSelf(marked);
      BothKeep(t);
      assert BeginStep(s, request, outcome) == t;
    } else {
      RefuseKeeps(s, request, outcome);
    }
  }

  lemma BeginKeeps(s: System, request: Request, outcome: Outcome)
    requires JournalsOk(s) && PromisesKept(s)
    ensures PromisesKept(BeginStep(s, request, outcome))
  {
    if Settled(s) && !AnsweredAtOnce(s.memory.value, request) {
      PrepareKeeps(s, request, outcome);
    } else if Settled(s) {
      var a := ImmediateAnswer(s.memory.value, request);
      if Acknowledges(a) { ServedHeld(s.memory.value, request); }
      AnswerKeeps(s, a);
    }
  }

  lemma RecordHolds(j: Journal, answers: seq<Answer>, request: Request, response: Response)
    requires AnswersHeld(j, answers) && !Known(j, request)
    ensures AnswersHeld(Record(j, request, response), answers)
    ensures request.idempotencyKey in j.pending ==> Durable(Record(j, request, response), j)
  {
  }

  lemma InvokeKeeps(s: System, decision: Decision)
    requires PromisesKept(s)
    ensures PromisesKept(InvokeStep(s, decision))
  {
    if s.memory.Some? && s.phase.Prepared? && Delegates(s.memory.value, s.phase.request) {
      var m, request := s.memory.value, s.phase.request;
      RecordHolds(m, s.answers, request, ResponseTo(m, request, decision));
    }
  }

  lemma UnmarkHolds(j: Journal, answers: seq<Answer>, request: Request)
    requires AnswersHeld(j, answers)
    ensures AnswersHeld(Unmark(j, request), answers) && Durable(j, Unmark(j, request))
  {
  }

  /** What is acknowledged has a smaller sequence than the newest entry while that
      entry still carries its marker. */
  lemma HeldBeforeNewest(m: Journal, request: Request, response: Response, a: Answer)
    requires JournalOk(m) && AnswerHeld(m, a)
    requires request.requestId in m.byRequest && m.byRequest[request.requestId] == (request, response)
    requires request.idempotencyKey in m.pending && response.sequence == m.nextSequence
    ensures a.response.sequence < response.sequence
  {
    assert ResponseFiled(m, Original(a).requestId);
    assert Original(a).requestId != request.requestId;
    assert SequencesDistinct(m);
  }

  lemma AcknowledgeNewest(s: System)
    requires JournalsOk(s) && PromisesKept(s) && s.memory.Some? && s.phase.Committing? && s.phase.journaled
    ensures FreshIncreasing(s.answers + [Answer(s.phase.request, s.phase.response, FromDelegate)])
  {
    var m, answers := s.memory.value, s.answers;
    assert AnswersHeld(m, answers);
    forall i | 0 <= i < |answers| && Acknowledges(answers[i])
      ensures answers[i].response.sequence < s.phase.response.sequence {
      HeldBeforeNewest(m, s.phase.request, s.phase.response, answers[i]);
    }
  }

  lemma NewestHeld(m: Journal, request: Request, response: Response)
    requires request.requestId in m.byRequest && m.byRequest[request.requestId] == (request, response)
    ensures AnswerHeld(Unmark(m, request), Answer(request, response, FromDelegate))
  {
  }

  lemma AcknowledgeKeeps(s: System)
    requires JournalsOk(s) && PromisesKept(s) && s.memory.Some? && s.phase.Committing? && s.phase.journaled
    ensures PromisesKept(CommitStep(s, Persisted))
  {
    var m, request, response := s.memory.value, s.phase.request, s.phase.response;
    UnmarkHolds(m, s.answers, request);
    AcknowledgeNewest(s);
    var c, answers := Unmark(m, request), s.answers + [Answer(request, response, FromDelegate)];
    NewestHeld(m, request, response);
    LogHolds(c, s.answers, Answer(request, response, FromDelegate));
    SettledKeeps(c, s.calls, answers);
    assert CommitStep(s, Persisted) == System(Some(c), Some(c), Idle, s.calls, answers);
  }

  lemma CommitKeeps(s: System, outcome: Outcome)
    requires JournalsOk(s) && PromisesKept(s)
    ensures PromisesKept(CommitStep(s, outcome))
  {
    if s.memory.Some? && s.phase.Committing? {
      var m, request := s.memory.value, s.phase.request;
      var c := Unmark(m, request);
      if outcome.Persisted? && s.phase.journaled {
        AcknowledgeKeeps(s);
      } else {
        UnmarkHolds(m, s.answers, request);
        DurableSelf(c);
        var t := s.(file := FileAfter(s.file, c, outcome), phase := Idle);
        if outcome.Persisted? {
          BothKeep(t.(memory := Some(c)));
          AnswerKeeps(t.(memory := Some(c)), Answer(request, s.phase.response, Local));
        } else {
          BothKeep(t);
          AnswerKeeps(t, Answer(request, Refuse(m, request, DurableAcknowledgementFailed), Local));
        }
      }
    }
  }

  lemma AnnounceHolds(j: Journal, answers: seq<Answer>, notification: Notification)
    requires AnswersHeld(j, answers)
    ensures AnswersHeld(Publish(j, notification).0, answers) && Durable(j, Publish(j, notification).0)
  {
  }

  lemma AnnounceKeeps(s: System, notification: Notification, outcome: Outcome)
    requires PromisesKept(s)
    ensures PromisesKept(AnnounceStep(s, notification, outcome))
  {
    if Settled(s) {
      AnnounceHolds(s.memory.value, s.answers, notification);
      DurableSelf(Publish(s.memory.value, notification).0);
    }
  }

  lemma StepKeepsPromises(s: System, step: Step)
    requires JournalsOk(s) && PromisesKept(s)
    ensures PromisesKept(Next(s, step))
  {
    match step
    case Begin(request, outcome) => BeginKeeps(s, request, outcome);
    case Invoke(decision) => InvokeKeeps(s, decision);
    case Commit(outcome) => CommitKeeps(s, outcome);
    case Announce(notification, outcome) => AnnounceKeeps(s, notification, outcome);
    case Crash =>
    case Load => LoadReturnsDisk(s); DurableSelf(OnDisk(s));
  }

  /** Every reachable state satisfies both invariants. */
  lemma {:induction false} RunKeeps(steps: seq<Step>)
    ensures JournalsOk(Run(INITIAL, steps)) && PromisesKept(Run(INITIAL, steps))
    decreases |steps|
  {
    if steps == [] {
      EmptyOk();
    } else {
      RunKeeps(steps[..|steps| - 1]);
      StepKeepsJournals(Run(INITIAL, steps[..|steps| - 1]), steps[|steps| - 1]);
      StepKeepsPromises(Run(INITIAL, steps[..|steps| - 1]), steps[|steps| - 1]);
    }
  }
}
