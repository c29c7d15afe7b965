/** When a request is answered as ambiguous: exactly when its marker was left behind, by an
    attempt that was interrupted or by a write that failed half way. */
module Ambiguity {
  import opened Machine
  import opened ControlPlane
  import opened Durability
  import opened DurableRuns
  import opened Histories

  predicate HasMarker(j: Journal, request: Request) {
    request.idempotencyKey in j.pending && j.pending[request.idempotencyKey] == Pending(request, SemanticsOf(request))
  }

  predicate InMemory(s: System, request: Request) {
    s.memory.Some? && HasMarker(s.memory.value, request)
  }

  predicate OnFile(s: System, request: Request) {
    HasMarker(OnDisk(s), request)
  }

  predicate InFlight(s: System, request: Request) {
    s.memory.Some? && !s.phase.Idle? && s.phase.request == request
  }

  /** The request that is being served has its marker in memory and on disk. */
  predicate FlightMarked(s: System) {
    && (s.memory.None? ==> s.phase.Idle?)
    && (s.memory.Some? && !s.phase.Idle? ==> InMemory(s, s.phase.request) && OnFile(s, s.phase.request))
  }

  // ------------------------------------------------------------- where the marker is

  /** The attempt ends with its marker in both places: by a crash, or by a commit that
      leaves the old file. */
  predicate Interrupts(s: System, step: Step, request: Request) {
    InFlight(s, request) && (step.Crash? || (s.phase.Committing? && step == Commit(FailedBefore)))
  }

  /** The commit put a file without the marker in place and failed, so memory keeps it. */
  predicate StaysInMemory(s: System, step: Step, request: Request) {
    CommitsFor(s, step, request) && step.outcome.FailedAfter?
  }

  /** The marker write put a file with the marker in place and failed, so memory has none. */
  predicate StaysOnFile(s: System, step: Step, request: Request) {
    StartsFor(s, step, request) && step.outcome.FailedAfter?
  }

  /** What one step does to the two markers of a request. */
  ghost predicate MarkersMove(s: System, step: Step, t: System, request: Request) {
    var starts, commits := StartsFor(s, step, request), CommitsFor(s, step, request);
    && (OnFile(t, request) <==>
         if starts then !step.outcome.FailedBefore? || OnFile(s, request)
         else if commits then step.outcome.FailedBefore?
         else if ReachesFile(s, step) then InMemory(s, request)
         else OnFile(s, request))
    && (InMemory(t, request) <==>
         if starts then step.outcome.Persisted?
         else if commits then !step.outcome.Persisted?
         else if step.Load? && s.memory.None? then OnFile(s, request)
         else InMemory(s, request) && !step.Crash?)
    && (InFlight(t, request) <==>
         (starts && step.outcome.Persisted?) || (InFlight(s, request) && !step.Crash? && !commits))
  }

  lemma BeginMoves(s: System, x: Request, outcome: Outcome, request: Request)
    requires FlightMarked(s)
    ensures FlightMarked(BeginStep(s, x, outcome))
    ensures MarkersMove(s, Begin(x, outcome), BeginStep(s, x, outcome), request)
  {
  }

  lemma InvokeMoves(s: System, decision: Decision, request: Request)
    requires FlightMarked(s)
    ensures FlightMarked(InvokeStep(s, decision))
    ensures MarkersMove(s, Invoke(decision), InvokeStep(s, decision), request)
  {
  }

  lemma CommitMoves(s: System, outcome: Outcome, request: Request)
    requires FlightMarked(s)
    ensures FlightMarked(CommitStep(s, outcome))
    ensures MarkersMove(s, Commit(outcome), CommitStep(s, outcome), request)
  {
  }

  lemma AnnounceMoves(s: System, notification: Notification, outcome: Outcome, request: Request)
    requires FlightMarked(s)
    ensures FlightMarked(AnnounceStep(s, notification, outcome))
    ensures MarkersMove(s, Announce(notification, outcome), AnnounceStep(s, notification, outcome), request)
  {
  }

  lemma StepMoves(s: System, step: Step, request: Request)
    requires JournalsOk(s) && FlightMarked(s)
    ensures FlightMarked(Next(s, step)) && MarkersMove(s, step, Next(s, step), request)
  {
    match step
    case Begin(x, outcome) => BeginMoves(s, x, outcome, request);
    case Invoke(decision) => InvokeMoves(s, decision, request);
    case Commit(outcome) => CommitMoves(s, outcome, request);
    case Announce(notification, outcome) => AnnounceMoves(s, notification, outcome, request);
    case Crash =>
    case Load => LoadReturnsDisk(s);
  }

  // ------------------------------------------------------------------ over a run

  /** An attempt before step `n` was interrupted. */
  ghost predicate WasInterrupted(states: seq<System>, steps: seq<Step>, n: nat, request: Request)
    requires n <= |steps| < |states|
  {
    exists i :: 0 <= i < n && Interrupts(states[i], steps[i], request)
  }

  /** A marker stayed in memory only, and the process still runs. */
  ghost predicate OnlyInMemory(states: seq<System>, steps: seq<Step>, n: nat, request: Request)
    requires n <= |steps| < |states|
  {
    exists i :: 0 <= i < n && StaysInMemory(states[i], steps[i], request) && Alive(steps, i, n)
  }

  /** A marker stayed in memory only, and a later write of that process put it back on disk. */
  ghost predicate WasRewritten(states: seq<System>, steps: seq<Step>, n: nat, request: Request)
    requires n <= |steps| < |states|
  {
    exists c :: 0 <= c < n && ReachesFile(states[c], steps[c]) && OnlyInMemory(states, steps, c, request)
  }

  /** A marker stayed on disk only, and no write has replaced that file. */
  ghost predicate OnlyOnFile(states: seq<System>, steps: seq<Step>, n: nat, request: Request)
    requires n <= |steps| < |states|
  {
    exists i :: 0 <= i < n && StaysOnFile(states[i], steps[i], request) && Unwritten(states, steps, i, n)
  }

  /** A marker stayed on disk only, and the process died before it replaced that file. */
  ghost predicate WasReloaded(states: seq<System>, steps: seq<Step>, n: nat, request: Request)
    requires n <= |steps| < |states|
  {
    exists c :: 0 <= c < n && steps[c].Crash? && OnlyOnFile(states, steps, c, request)
  }

  /** The marker is in both places for good. */
  ghost predicate Stuck(states: seq<System>, steps: seq<Step>, n: nat, request: Request)
    requires n <= |steps| < |states|
  {
    WasInterrupted(states, steps, n, request) || WasRewritten(states, steps, n, request) ||
    WasReloaded(states, steps, n, request)
  }

  lemma OnlyInMemoryLater(states: seq<System>, steps: seq<Step>, n: nat, request: Request)
    requires n < |steps| < |states|
    ensures OnlyInMemory(states, steps, n + 1, request) <==>
      StaysInMemory(states[n], steps[n], request) || (OnlyInMemory(states, steps, n, request) && !steps[n].Crash?)
  {
    if OnlyInMemory(states, steps, n, request) && !steps[n].Crash? {
      var i :| 0 <= i < n && StaysInMemory(states[i], steps[i], request) && Alive(steps, i, n);
      assert Alive(steps, i, n + 1);
    }
    if OnlyInMemory(states, steps, n + 1, request) {
      var k := n + 1;
      var i :| 0 <= i < k && StaysInMemory(states[i], steps[i], request) && Alive(steps, i, k);
      assert i < n ==> Alive(steps, i, n);
    }
    if StaysInMemory(states[n], steps[n], request) { assert Alive(steps, n, n + 1); }
  }

  lemma OnlyOnFileLater(states: seq<System>, steps: seq<Step>, n: nat, request: Request)
    requires n < |steps| < |states|
    ensures OnlyOnFile(states, steps, n + 1, request) <==>
      StaysOnFile(states[n], steps[n], request) ||
      (OnlyOnFile(states, steps, n, request) && !ReachesFile(states[n], steps[n]))
  {
    if OnlyOnFile(states, steps, n, request) && !ReachesFile(states[n], steps[n]) {
      var i :| 0 <= i < n && StaysOnFile(states[i], steps[i], request) && Unwritten(states, steps, i, n);
      assert Unwritten(states, steps, i, n + 1);
    }
    if OnlyOnFile(states, steps, n + 1, request) {
      var k := n + 1;
      var i :| 0 <= i < k && StaysOnFile(states[i], steps[i], request) && Unwritten(states, steps, i, k);
      assert i < n ==> Unwritten(states, steps, i, n);
    }
    if StaysOnFile(states[n], steps[n], request) { assert Unwritten(states, steps, n, n + 1); }
  }

  lemma StuckLater(states: seq<System>, steps: seq<Step>, n: nat, request: Request)
    requires n < |steps| < |states|
    ensures Stuck(states, steps, n + 1, request) <==>
      Stuck(states, steps, n, request) || Interrupts(states[n], steps[n], request) ||
      (OnlyInMemory(states, steps, n, request) && ReachesFile(states[n], steps[n])) ||
      (OnlyOnFile(states, steps, n, request) && steps[n].Crash?)
  {
  }

  /** How the two markers of a request in state `s` follow from its past. */
  ghost predicate Explained(s: System, request: Request, stuck: bool, memoryOnly: bool, fileOnly: bool) {
    && (s.memory.Some? ==> (InMemory(s, request) <==> InFlight(s, request) || stuck || memoryOnly))
    && (s.memory.Some? ==> (OnFile(s, request) <==> InFlight(s, request) || stuck || fileOnly))
    && (s.memory.None? ==> (OnFile(s, request) <==> stuck) && (fileOnly ==> stuck))
    && (InFlight(s, request) ==> !stuck && !memoryOnly && !fileOnly)
    && (memoryOnly ==> s.memory.Some?)
  }

  lemma ExplainedStep(s: System, step: Step, t: System, request: Request, stuck: bool, memoryOnly: bool, fileOnly: bool)
    requires t == Next(s, step) && MarkersMove(s, step, t, request) && FlightMarked(s)
    requires Explained(s, request, stuck, memoryOnly, fileOnly)
    ensures Explained(t, request,
      stuck || Interrupts(s, step, request) || (memoryOnly && ReachesFile(s, step)) || (fileOnly && step.Crash?),
      StaysInMemory(s, step, request) || (memoryOnly && !step.Crash?),
      StaysOnFile(s, step, request) || (fileOnly && !ReachesFile(s, step)))
  {
  }

  lemma {:induction false} MarkersExplained(steps: seq<Step>, n: nat, request: Request)
    requires n <= |steps|
    ensures var states := States(steps);
      && FlightMarked(states[n])
      && Explained(states[n], request, Stuck(states, steps, n, request), OnlyInMemory(states, steps, n, request),
        OnlyOnFile(states, steps, n, request))
  {
    if n > 0 {
      var states, k := States(steps), n - 1;
      MarkersExplained(steps, k, request);
      NextState(steps, k);
      StepMoves(states[k], steps[k], request);
      OnlyInMemoryLater(states, steps, k, request);
      OnlyOnFileLater(states, steps, k, request);
      StuckLater(states, steps, k, request);
      ExplainedStep(states[k], steps[k], states[n], request, Stuck(states, steps, k, request),
        OnlyInMemory(states, steps, k, request), OnlyOnFile(states, steps, k, request));
    }
  }

  /** The refusal that says a prior effect is possible. */
  function AmbiguousAnswer(j: Journal, request: Request): Answer {
    Answer(request, Refuse(j, request, AmbiguousPriorEffect), Local)
  }

  /** In every reachable state between requests: a request is refused as ambiguous exactly when
      an attempt of it was interrupted, or its commit failed after the rename and the process
      lived on until now or until a write put the marker back, or its marker write failed after
      the rename and the process died before the next write. */
  lemma AmbiguousIff(steps: seq<Step>, request: Request)
    requires Settled(Reached(steps))
    ensures var m, states := Reached(steps).memory.value, States(steps);
      (AnsweredAtOnce(m, request) && ImmediateAnswer(m, request) == AmbiguousAnswer(m, request)) <==>
      (WasInterrupted(states, steps, |steps|, request) || WasRewritten(states, steps, |steps|, request) ||
       OnlyInMemory(states, steps, |steps|, request) || WasReloaded(states, steps, |steps|, request))
  {
    MarkersExplained(steps, |steps|, request);
    assert steps[..|steps|] == steps;
    AmbiguousIsMarked(Reached(steps).memory.value, request);
  }

  // --------------------------------------------------- when the delegate was never called

  /** A request in flight is new until the delegate answers, and a well-formed one that got
      past that point was delegated. */
  predicate FlightDelegated(s: System) {
    && (s.memory.None? ==> s.phase.Idle?)
    && (s.memory.Some? && s.phase.Prepared? ==> !Known(s.memory.value, s.phase.request))
    && (s.phase.Committing? && RequestProblem(s.phase.request).None? ==> s.phase.request.idempotencyKey in s.calls)
  }

  lemma StepDelegated(s: System, step: Step)
    requires FlightDelegated(s)
    ensures FlightDelegated(Next(s, step)) && s.calls <= Next(s, step).calls
  {
  }

  lemma {:induction false} CallsSoFar(steps: seq<Step>, n: nat, i: nat)
    requires i <= n <= |steps|
    ensures FlightDelegated(States(steps)[i]) && FlightDelegated(States(steps)[n])
    ensures States(steps)[i].calls <= States(steps)[n].calls
  {
    if n > 0 {
      NextState(steps, n - 1);
      CallsSoFar(steps, n - 1, if i < n then i else n - 1);
      StepDelegated(States(steps)[n - 1], steps[n - 1]);
    }
  }

  /** The process died after the marker was written and before the delegate was called. */
  ghost predicate DiedBeforeCall(states: seq<System>, steps: seq<Step>, n: nat, request: Request)
    requires n <= |steps| < |states|
  {
    exists i :: 0 <= i < n && steps[i].Crash? && states[i].memory.Some? && states[i].phase == Prepared(request)
  }

  /** For a well-formed request whose key was never delegated only two of the reasons are left:
      the process died between the marker and the call, or after a marker write that failed
      after the rename and before the next write. */
  lemma UndelegatedIff(steps: seq<Step>, request: Request)
    requires Settled(Reached(steps)) && request.idempotencyKey !in Reached(steps).calls
    requires RequestProblem(request).None?
    ensures var m, states := Reached(steps).memory.value, States(steps);
      (AnsweredAtOnce(m, request) && ImmediateAnswer(m, request) == AmbiguousAnswer(m, request)) <==>
      (DiedBeforeCall(states, steps, |steps|, request) || WasReloaded(states, steps, |steps|, request))
  {
    var states := States(steps);
    AmbiguousIff(steps, request);
    assert steps[..|steps|] == steps;
    forall i | 0 <= i < |steps|
      ensures !CommitsFor(states[i], steps[i], request)
      ensures Interrupts(states[i], steps[i], request) <==>
        steps[i].Crash? && states[i].memory.Some? && states[i].phase == Prepared(request)
    {
      CallsSoFar(steps, |steps|, i);
    }
    NeverCommitted(states, steps, |steps|, request);
  }

  lemma NeverCommitted(states: seq<System>, steps: seq<Step>, n: nat, request: Request)
    requires n <= |steps| < |states|
    requires forall i :: 0 <= i < n ==> !CommitsFor(states[i], steps[i], request)
    ensures !WasRewritten(states, steps, n, request) && !OnlyInMemory(states, steps, n, request)
  {
  }

  lemma AmbiguousIsMarked(m: Journal, request: Request)
    ensures AnsweredAtOnce(m, request) && ImmediateAnswer(m, request) == AmbiguousAnswer(m, request) <==>
      HasMarker(m, request)
  {
  }
}
