/** What the durable protocol guarantees over whole runs from a missing state file. */
module DurableRuns {
  import opened Machine
  import opened ControlPlane
  import opened Durability

  ghost function Reached(steps: seq<Step>): System {
    Run(INITIAL, steps)
  }

  lemma {:induction false} RunSplits(s: System, before: seq<Step>, after: seq<Step>)
    ensures Run(s, before + after) == Run(Run(s, before), after)
    decreases |after|
  {
    if after == [] {
      assert before + after == before;
    } else {
      var k := |after| - 1;
      assert (before + after)[..|before + after| - 1] == before + after[..k];
      RunSplits(s, before, after[..k]);
    }
  }

  lemma {:induction false} AnswersGrow(s: System, steps: seq<Step>)
    ensures s.answers <= Run(s, steps).answers
    decreases |steps|
  {
    if steps != [] { AnswersGrow(s, steps[..|steps| - 1]); }
  }

  /** Another request has been journaled under the id of `request`. */
  predicate IdTaken(j: Journal, request: Request) {
    request.requestId in j.byRequest && j.byRequest[request.requestId].0 != request
  }

  /** An answer from the journal is still in every copy after any later run. */
  lemma AnswerSurvives(before: seq<Step>, after: seq<Step>, i: nat)
    requires i < |Reached(before).answers| && Acknowledges(Reached(before).answers[i])
    ensures forall j :: j in Copies(Reached(before + after)) ==>
      JournalOk(j) && AnswerHeld(j, Reached(before).answers[i])
  {
    RunSplits(INITIAL, before, after);
    AnswersGrow(Reached(before), after);
    RunKeeps(before + after);
    var s := Reached(before + after);
    assert s.answers[i] == Reached(before).answers[i];
    forall j | j in Copies(s) ensures AnswerHeld(j, s.answers[i]) { assert AnswersHeld(j, s.answers); }
  }

  /** A held answer is given again, marked as a replay, exactly unless its id is taken. */
  lemma HeldIsServed(j: Journal, a: Answer)
    requires JournalOk(j) && AnswerHeld(j, a)
    ensures AnsweredAtOnce(j, a.request)
    ensures ImmediateAnswer(j, a.request).response == a.response.(replayed := true) <==> !IdTaken(j, a.request)
    ensures Original(a) == a.request ==>
      !IdTaken(j, a.request) && ImmediateAnswer(j, a.request) ==
        Answer(a.request, a.response.(replayed := true), FromRequestIndex)
  {
    assert ResponseFiled(j, Original(a).requestId);
    if a.request.requestId in j.byRequest { assert ResponseFiled(j, a.request.requestId); }
  }

  /** Acknowledged means durable: after any later run, crashes included, resending the
      same request changes nothing and returns the same response, marked as a replay. */
  lemma AcknowledgedIsDurable(before: seq<Step>, after: seq<Step>, i: nat, outcome: Outcome)
    requires i < |Reached(before).answers| && Settled(Reached(before + after))
    requires Reached(before).answers[i].origin.FromDelegate? || Reached(before).answers[i].origin.FromRequestIndex?
    ensures var a, s := Reached(before).answers[i], Reached(before + after);
      Next(s, Begin(a.request, outcome)) ==
      s.(answers := s.answers + [Answer(a.request, a.response.(replayed := true), FromRequestIndex)])
  {
    AnswerSurvives(before, after, i);
    assert Reached(before + after).memory.value in Copies(Reached(before + after));
    HeldIsServed(Reached(before + after).memory.value, Reached(before).answers[i]);
  }

  /** A response served to a retry under another request id is durable too: after any later
      run the retry is answered at once and without any change, and with that same response
      exactly when no other request has meanwhile been journaled under the retry's id. */
  lemma RetryIsDurable(before: seq<Step>, after: seq<Step>, i: nat, outcome: Outcome)
    requires i < |Reached(before).answers| && Settled(Reached(before + after))
    requires Reached(before).answers[i].origin.FromKeyIndex?
    ensures var a, s := Reached(before).answers[i], Reached(before + after);
      && AnsweredAtOnce(s.memory.value, a.request)
      && Next(s, Begin(a.request, outcome)) == s.(answers := s.answers + [ImmediateAnswer(s.memory.value, a.request)])
      && (ImmediateAnswer(s.memory.value, a.request).response == a.response.(replayed := true) <==>
        !IdTaken(s.memory.value, a.request))
  {
    AnswerSurvives(before, after, i);
    assert Reached(before + after).memory.value in Copies(Reached(before + after));
    HeldIsServed(Reached(before + after).memory.value, Reached(before).answers[i]);
  }

  /** A restart never refuses the file and gets back exactly what was persisted; the
      counter in every copy is the largest journaled sequence. */
  lemma RestartIsExact(steps: seq<Step>)
    ensures var s := Reached(steps);
      Reload(s.file) == Some(OnDisk(s)) && forall j :: j in Copies(s) ==>
        IsDerivedCounter(j, j.nextSequence) && SequencesDistinct(j)
  {
    RunKeeps(steps);
    var s := Reached(steps);
    LoadReturnsDisk(s);
    forall j | j in Copies(s) ensures IsDerivedCounter(j, j.nextSequence) && SequencesDistinct(j) { LoadIsFaithful(j); }
  }

  /** No response that `execute` journaled is refused by the check made on replay. */
  lemma ReplayNeverRefuses(steps: seq<Step>, j: Journal, id: string)
    requires j in Copies(Reached(steps)) && id in j.byRequest
    ensures Serve(j.byRequest[id].1) == j.byRequest[id].1.(replayed := true)
  {
    RunKeeps(steps);
    assert ResponseFiled(j, id);
  }

  /** The counter grows by at most one a step, so it stays below 2^64 for 2^64 steps. */
  lemma {:induction false} CounterBounded(steps: seq<Step>)
    ensures forall j :: j in Copies(Reached(steps)) ==> j.nextSequence <= |steps|
    decreases |steps|
  {
    if steps != [] {
      var before := steps[..|steps| - 1];
      CounterBounded(before);
      RunKeeps(before);
      LoadReturnsDisk(Reached(before));
      CounterStep(Reached(before), steps[|steps| - 1], |before|);
    }
  }

  lemma CounterStep(s: System, step: Step, bound: nat)
    requires (forall j :: j in Copies(s) ==> j.nextSequence <= bound) && Reload(s.file) == Some(OnDisk(s))
    ensures forall j :: j in Copies(Next(s, step)) ==> j.nextSequence <= bound + 1
  {
    assert OnDisk(s) in Copies(s);
    var t := Next(s, step);
    if s.memory.None? {
      assert OnDisk(t) == OnDisk(s);
    } else {
      assert s.memory.value in Copies(s);
      match step
      case Invoke(decision) => CounterInvoke(s, decision, bound);
      case Announce(notification, outcome) => CounterAnnounce(s, notification, outcome, bound);
      case _ =>
    }
  }

  lemma CounterInvoke(s: System, decision: Decision, bound: nat)
    requires s.memory.Some? && s.memory.value.nextSequence <= bound && OnDisk(s).nextSequence <= bound
    ensures forall j :: j in Copies(InvokeStep(s, decision)) ==> j.nextSequence <= bound + 1
  {
  }

  lemma CounterAnnounce(s: System, notification: Notification, outcome: Outcome, bound: nat)
    requires s.memory.Some? && s.memory.value.nextSequence <= bound && OnDisk(s).nextSequence <= bound
    ensures forall j :: j in Copies(AnnounceStep(s, notification, outcome)) ==> j.nextSequence <= bound + 1
  {
  }

  // ------------------------------------------------------------ what answers say

  /** A replay answers what was asked: it is the journaled response to a request with the
      same key, tool, revision, audit context and payload. */
  lemma ReplayMatchesRequest(steps: seq<Step>, request: Request) returns (id: string)
    requires Settled(Reached(steps)) && AnsweredAtOnce(Reached(steps).memory.value, request)
    requires ImmediateAnswer(Reached(steps).memory.value, request).response.replayed
    ensures var m := Reached(steps).memory.value;
      && id in m.byRequest && m.byRequest[id].0.idempotencyKey == request.idempotencyKey
      && SemanticsOf(m.byRequest[id].0) == SemanticsOf(request)
      && ImmediateAnswer(m, request).response == m.byRequest[id].1.(replayed := true)
  {
    RunKeeps(steps);
    var m := Reached(steps).memory.value;
    assert m in Copies(Reached(steps));
    if request.requestId in m.byRequest {
      id := request.requestId;
    } else {
      assert KeyMirrored(m, request.idempotencyKey);
      id := m.byKey[request.idempotencyKey].1.requestId;
    }
    assert ResponseFiled(m, id);
  }

  /** Every response handed out, and the one about to be, meets the response contract. */
  ghost predicate AnswersServable(s: System) {
    && (forall i :: 0 <= i < |s.answers| ==> Servable(s.answers[i].response))
    && (s.phase.Committing? ==> Servable(s.phase.response))
  }

  lemma ReplayedServable(j: Journal, request: Request)
    requires Known(j, request)
    ensures Servable(Replayed(j, request))
  {
  }

  lemma StepServable(s: System, step: Step)
    requires AnswersServable(s)
    ensures AnswersServable(Next(s, step))
  {
    if s.memory.Some? {
      match step
      case Begin(request, outcome) => if Known(s.memory.value, request) { ReplayedServable(s.memory.value, request); }
      case Invoke(decision) =>
        if s.phase.Prepared? {
          if Known(s.memory.value, s.phase.request) { ReplayedServable(s.memory.value, s.phase.request); }
          FreshIsServable(s.memory.value, s.phase.request, decision);
        }
      case _ =>
    }
  }

  /** Over every run, no answer makes a claim outside the truthful vocabulary, and none
      carries both a result and a refusal or neither. */
  lemma {:induction false} EveryAnswerIsTruthful(steps: seq<Step>)
    ensures AnswersServable(Reached(steps))
    decreases |steps|
  {
    if steps != [] {
      EveryAnswerIsTruthful(steps[..|steps| - 1]);
      StepServable(Reached(steps[..|steps| - 1]), steps[|steps| - 1]);
    }
  }

  // ------------------------------------------------------------------- cursors

  /** Across restarts, a response acknowledged as new sorts after everything that
      was acknowledged before it, so a cursor taken from an answer loses nothing. */
  lemma AcknowledgedSequencesIncrease(steps: seq<Step>, a: nat, b: nat)
    requires a < b < |Reached(steps).answers|
    requires Acknowledges(Reached(steps).answers[a]) && Reached(steps).answers[b].origin.FromDelegate?
    ensures Reached(steps).answers[a].response.sequence < Reached(steps).answers[b].response.sequence
  {
    RunKeeps(steps);
  }

  /** The steps of one undisturbed request. */
  function Serving(request: Request, decision: Decision): seq<Step> {
    [Begin(request, Persisted), Invoke(decision), Commit(Persisted)]
  }

  lemma RunTwo(s: System, a: Step, b: Step)
    ensures Run(s, [a, b]) == Next(Next(s, a), b)
  {
    assert [a, b][..1] == [a] && [a][..0] == [];
    assert Run(s, [a]) == Next(s, a);
  }

  lemma RunThree(s: System, a: Step, b: Step, c: Step)
    ensures Run(s, [a, b, c]) == Next(Next(Next(s, a), b), c)
  {
    assert [a, b, c][..2] == [a, b];
    RunTwo(s, a, b);
  }

  /** An undisturbed new request is recorded once, in memory and on disk. */
  lemma ServingRecords(s: System, request: Request, decision: Decision)
    requires Settled(s) && Delegates(s.memory.value, request) && request.idempotencyKey !in s.memory.value.pending
    ensures var m := s.memory.value; var r := ResponseTo(m, request, decision);
      Run(s, Serving(request, decision)) ==
      System(Some(Record(m, request, r)), Some(Record(m, request, r)), Idle, s.calls + [request.idempotencyKey],
             s.answers + [Answer(request, r, FromDelegate)])
  {
    var m := s.memory.value;
    var r := ResponseTo(m, request, decision);
    RunThree(s, Begin(request, Persisted), Invoke(decision), Commit(Persisted));
    assert Delegates(Mark(m, request), request) && ResponseTo(Mark(m, request), request, decision) == r;
    assert Unmark(Record(Mark(m, request), request, r), request).pending == m.pending;
  }

  /** A cursor `c` taken before a crash sees the first response after the restart
      exactly when the file's counter had reached `c`. */
  lemma CursorAcrossRestart(steps: seq<Step>, request: Request, decision: Decision, c: nat)
    requires var d := OnDisk(Reached(steps)); Delegates(d, request) && request.idempotencyKey !in d.pending
    ensures var d := OnDisk(Reached(steps));
      var t := Run(Run(Reached(steps), [Crash, Load]), Serving(request, decision));
      && Settled(t)
      && (IsServed(t.memory.value, c, Serve(ResponseTo(d, request, decision))) <==> c <= d.nextSequence)
  {
    var s := Reached(steps);
    RunKeeps(steps);
    LoadReturnsDisk(s);
    RunTwo(s, Crash, Load);
    ServingRecords(Run(s, [Crash, Load]), request, decision);
    var t := Run(Run(s, [Crash, Load]), Serving(request, decision));
    var r := ResponseTo(OnDisk(s), request, decision);
    assert t.memory.value.byRequest[request.requestId].1 == r;
  }

  /** Polling can run ahead of the file: after a commit that fails before the rename,
      memory serves sequence 1 while the file still counts 0. */
  lemma PolledCursorCanRunAhead(request: Request, decision: Decision)
    requires Delegates(EMPTY, request)
    ensures var s := Reached([Load] + [Begin(request, Persisted), Invoke(decision), Commit(FailedBefore)]);
      && Settled(s) && s.memory.value.nextSequence == 1 && OnDisk(s).nextSequence == 0
      && IsServed(s.memory.value, 0, Serve(ResponseTo(EMPTY, request, decision)))
  {
    var steps := [Begin(request, Persisted), Invoke(decision), Commit(FailedBefore)];
    RunSplits(INITIAL, [Load], steps);
    assert [Load][..0] == [] && Run(INITIAL, [Load]) == Next(INITIAL, Load);
    var s := Next(INITIAL, Load);
    RunThree(s, Begin(request, Persisted), Invoke(decision), Commit(FailedBefore));
    assert Delegates(Mark(EMPTY, request), request);
    assert ResponseTo(Mark(EMPTY, request), request, decision) == ResponseTo(EMPTY, request, decision);
    var m := Record(Mark(EMPTY, request), request, ResponseTo(EMPTY, request, decision));
    assert m.byRequest[request.requestId].1.sequence == 1;
  }

  // --------------------------------------------------- retries under a new request id

  /** In every reachable state: a request whose key is journaled for the same content is
      served exactly unless its id is taken. */
  lemma RetryByKey(steps: seq<Step>, request: Request)
    requires var s := Reached(steps);
      Settled(s) && request.idempotencyKey in s.memory.value.byKey &&
        request.idempotencyKey !in s.memory.value.pending &&
      s.memory.value.byKey[request.idempotencyKey].0 == SemanticsOf(request)
    ensures var m := Reached(steps).memory.value;
      ImmediateAnswer(m, request).response == m.byKey[request.idempotencyKey].1.(replayed := true) <==>
        !IdTaken(m, request)
  {
    RunKeeps(steps);
    var m := Reached(steps).memory.value;
    assert m in Copies(Reached(steps));
    assert KeyMirrored(m, request.idempotencyKey);
    assert ResponseFiled(m, m.byKey[request.idempotencyKey].1.requestId);
    HeldIsServed(m, Answer(request, m.byKey[request.idempotencyKey].1, FromKeyIndex(FirstAsked(m, request))));
  }

  /** One run in which a retry is first served and then refused: its id is taken by another
      request in between, although its key stays journaled. */
  lemma RetryIdCanBeTaken(original: Request, retry: Request, other: Request, first: Decision, second: Decision)
    requires Delegates(EMPTY, original) && RequestProblem(other).None?
    requires retry.idempotencyKey == original.idempotencyKey && SemanticsOf(retry) == SemanticsOf(original)
    requires retry.requestId != original.requestId
    requires other.requestId == retry.requestId && other.idempotencyKey != retry.idempotencyKey
    ensures var r, served := ResponseTo(EMPTY, original, first),
      [Load] + Serving(original, first) + [Begin(retry, Persisted)];
      var refused := served + Serving(other, second) + [Begin(retry, Persisted)];
      && Reached(served).answers == [Answer(original, r, FromDelegate),
        Answer(retry, r.(replayed := true), FromKeyIndex(original))]
      && |Reached(refused).answers| == 4 && Settled(Reached(refused))
      && Reached(refused).answers[3] == Answer(retry, Refuse(Reached(refused).memory.value, retry,
        RequestIdCollision), Local)
      && retry.idempotencyKey in Reached(refused).memory.value.byKey
  {
    var r, start := ResponseTo(EMPTY, original, first), [Load] + Serving(original, first);
    FirstServed(original, first);
    var m := Record(EMPTY, original, r);
    RunOne(Reached(start), Begin(retry, Persisted));
    RunSplits(INITIAL, start, [Begin(retry, Persisted)]);
    FreshIsServable(EMPTY, original, first);
    var s := Reached(start + [Begin(retry, Persisted)]);
    assert s.memory == Some(m) && s.answers ==
      [Answer(original, r, FromDelegate), Answer(retry, r.(replayed := true), FromKeyIndex(original))];
    ServingRecords(s, other, second);
    RunSplits(INITIAL, start + [Begin(retry, Persisted)], Serving(other, second));
    var t := Reached(start + [Begin(retry, Persisted)] + Serving(other, second));
    RunOne(t, Begin(retry, Persisted));
    RunSplits(INITIAL, start + [Begin(retry, Persisted)] + Serving(other, second), [Begin(retry, Persisted)]);
  }

  lemma RunOne(s: System, step: Step)
    ensures Run(s, [step]) == Next(s, step)
  {
    assert [step][..0] == [];
  }

  /** The state after one undisturbed request to a new host. */
  lemma FirstServed(request: Request, decision: Decision)
    requires Delegates(EMPTY, request)
    ensures var r := ResponseTo(EMPTY, request, decision);
      Reached([Load] + Serving(request, decision)) ==
      System(Some(Record(EMPTY, request, r)), Some(Record(EMPTY, request, r)), Idle, [request.idempotencyKey],
        [Answer(request, r, FromDelegate)])
  {
    RunOne(INITIAL, Load);
    RunSplits(INITIAL, [Load], Serving(request, decision));
    ServingRecords(Next(INITIAL, Load), request, decision);
  }
}
