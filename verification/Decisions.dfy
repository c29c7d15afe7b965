/** Over every run: an acknowledged answer, first given or replayed, is what the delegate
    decided when it was called for that request. */
module Decisions {
  import opened Machine
  import opened ControlPlane
  import opened Durability
  import opened DurableRuns
  import opened Histories
  import opened Answers

  /** Step `k` is the one call of the delegate for the request, and its decision is what the
      result and the refusal say. */
  ghost predicate DecidedAt(states: seq<System>, steps: seq<Step>, k: nat, request: Request, r: Response)
    requires k < |steps| && k + 1 < |states|
  {
    && steps[k].Invoke? && Carries(steps[k].decision, r.result, r.refusal)
    && states[k].memory.Some? && states[k].phase == Prepared(request)
    && states[k + 1].calls == states[k].calls + [request.idempotencyKey]
  }

  ghost predicate WasDecided(states: seq<System>, steps: seq<Step>, n: nat, request: Request, r: Response)
    requires n <= |steps| < |states|
  {
    exists k :: 0 <= k < n && DecidedAt(states, steps, k, request, r)
  }

  /** Every journaled response of the copy was decided before step `n`. */
  ghost predicate EntriesDecided(states: seq<System>, steps: seq<Step>, n: nat, j: Journal)
    requires n <= |steps| < |states|
  {
    forall id :: id in j.byRequest ==> WasDecided(states, steps, n, j.byRequest[id].0, j.byRequest[id].1)
  }

  /** The entry was there before the step, or the step is the delegate's call for it. */
  ghost predicate EntryFrom(s: System, step: Step, t: System, request: Request, r: Response) {
    || (exists j, id :: j in Copies(s) && id in j.byRequest && j.byRequest[id] == (request, r))
    || (step.Invoke? && Carries(step.decision, r.result, r.refusal) && s.memory.Some? &&
        s.phase == Prepared(request) && t.calls == s.calls + [request.idempotencyKey])
  }

  /** The copy holds the entries of an old copy. */
  lemma SameEntries(s: System, step: Step, t: System, j: Journal, j': Journal)
    requires j in Copies(s) && j'.byRequest == j.byRequest
    ensures forall id :: id in j'.byRequest ==> EntryFrom(s, step, t, j'.byRequest[id].0, j'.byRequest[id].1)
  {
    forall id | id in j'.byRequest ensures EntryFrom(s, step, t, j'.byRequest[id].0, j'.byRequest[id].1) {
      assert j in Copies(s) && id in j.byRequest && j.byRequest[id] == (j'.byRequest[id].0, j'.byRequest[id].1);
    }
  }

  lemma InvokeEntries(s: System, decision: Decision, id: string)
    requires s.memory.Some? && s.phase.Prepared? && Delegates(s.memory.value, s.phase.request)
    requires var t := InvokeStep(s, decision); id in t.memory.value.byRequest
    ensures var t := InvokeStep(s, decision); var (asked, r) := t.memory.value.byRequest[id];
      EntryFrom(s, Invoke(decision), t, asked, r)
  {
    var m, request := s.memory.value, s.phase.request;
    FreshMeaning(m, request, decision);
    if id != request.requestId {
      assert m in Copies(s) && id in m.byRequest;
    }
  }

  lemma StepEntries(s: System, step: Step, j': Journal, id: string)
    requires JournalsOk(s) && j' in Copies(Next(s, step)) && id in j'.byRequest
    ensures EntryFrom(s, step, Next(s, step), j'.byRequest[id].0, j'.byRequest[id].1)
  {
    var t := Next(s, step);
    if step.Invoke? && s.memory.Some? && s.phase.Prepared? && Delegates(s.memory.value, s.phase.request) &&
      t.memory == Some(j')
    {
      InvokeEntries(s, step.decision, id);
    } else {
      if step.Load? { LoadReturnsDisk(s); }
      var j := OldCopy(s, step, j');
      SameEntries(s, step, t, j, j');
    }
  }

  /** Unless the delegate was just called, a copy holds the entries of an earlier one. */
  lemma OldCopy(s: System, step: Step, j': Journal) returns (j: Journal)
    requires j' in Copies(Next(s, step)) && (step.Load? ==> Reload(s.file) == Some(OnDisk(s)))
    requires !(step.Invoke? && s.memory.Some? && s.phase.Prepared? && Delegates(s.memory.value, s.phase.request) &&
      Next(s, step).memory == Some(j'))
    ensures j in Copies(s) && j'.byRequest == j.byRequest
  {
    if s.memory.Some? && j'.byRequest == s.memory.value.byRequest {
      j := s.memory.value;
    } else {
      j := OnDisk(s);
      match step
      case Begin(request, outcome) =>
      case Invoke(decision) =>
      case Commit(outcome) =>
      case Announce(notification, outcome) =>
      case _ =>
    }
  }

  lemma {:induction false} JournalsDecided(steps: seq<Step>, n: nat)
    requires n <= |steps|
    ensures forall j :: j in Copies(States(steps)[n]) ==> EntriesDecided(States(steps), steps, n, j)
  {
    if n > 0 {
      var states := States(steps);
      JournalsDecided(steps, n - 1);
      NextState(steps, n - 1);
      forall j, id | j in Copies(states[n]) && id in j.byRequest
        ensures WasDecided(states, steps, n, j.byRequest[id].0, j.byRequest[id].1)
      {
        StepEntries(states[n - 1], steps[n - 1], j, id);
        EntryIsDecided(states, steps, n - 1, j.byRequest[id].0, j.byRequest[id].1);
      }
    }
  }

  lemma EntryIsDecided(states: seq<System>, steps: seq<Step>, n: nat, request: Request, r: Response)
    requires n < |steps| < |states| && EntryFrom(states[n], steps[n], states[n + 1], request, r)
    requires forall j :: j in Copies(states[n]) ==> EntriesDecided(states, steps, n, j)
    ensures WasDecided(states, steps, n + 1, request, r)
  {
    if j, id :| j in Copies(states[n]) && id in j.byRequest && j.byRequest[id] == (request, r) {
      assert WasDecided(states, steps, n, request, r);
      var k :| 0 <= k < n && DecidedAt(states, steps, k, request, r);
    } else {
      assert DecidedAt(states, steps, n, request, r);
    }
  }

  /** Every answer from the journal carries the decision that the delegate made, when it was
      called for this request or, for a retry under another id, for the request first asked. */
  lemma AnswerIsDecision(steps: seq<Step>, i: nat)
    requires i < |Reached(steps).answers| && Acknowledges(Reached(steps).answers[i])
    ensures var a := Reached(steps).answers[i];
      WasDecided(States(steps), steps, |steps|, Original(a), a.response)
  {
    var s, a := Reached(steps), Reached(steps).answers[i];
    RunKeeps(steps);
    JournalsDecided(steps, |steps|);
    assert steps[..|steps|] == steps;
    assert OnDisk(s) in Copies(s) && AnswersHeld(OnDisk(s), s.answers) && AnswerHeld(OnDisk(s), a);
    var id := Original(a).requestId;
    var stored := OnDisk(s).byRequest[id].1;
    assert WasDecided(States(steps), steps, |steps|, Original(a), stored);
    assert stored.result == a.response.result && stored.refusal == a.response.refusal;
    var k :| 0 <= k < |steps| && DecidedAt(States(steps), steps, k, Original(a), stored);
    assert DecidedAt(States(steps), steps, k, Original(a), a.response);
  }
}
