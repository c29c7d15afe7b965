/** What the past of a run says about its state: when polling is ahead of the file, and when a
    key is answered as ambiguous although the delegate was never called for it. */
module Histories {
  import opened Machine
  import opened ControlPlane
  import opened Durability
  import opened DurableRuns

  /** The states of a run, from the first to the last. */
  ghost function States(steps: seq<Step>): (r: seq<System>)
    ensures |r| == |steps| + 1 && forall i :: 0 <= i <= |steps| ==> r[i] == Reached(steps[..i])
  {
    seq(|steps| + 1, i requires 0 <= i <= |steps| => Reached(steps[..i]))
  }

  lemma NextState(steps: seq<Step>, i: nat)
    requires i < |steps|
    ensures States(steps)[i + 1] == Next(States(steps)[i], steps[i])
    ensures JournalsOk(States(steps)[i]) && PromisesKept(States(steps)[i])
  {
    assert steps[..i + 1][..i] == steps[..i];
    RunKeeps(steps[..i]);
  }

  /** The request is new and gets a marker, or would. */
  predicate StartsFor(s: System, step: Step, request: Request) {
    step.Begin? && step.request == request && Settled(s) && !AnsweredAtOnce(s.memory.value, request)
  }

  predicate CommitsFor(s: System, step: Step, request: Request) {
    step.Commit? && s.memory.Some? && s.phase.Committing? && s.phase.request == request
  }

  /** The step puts a new journal in the place of the file. */
  predicate ReachesFile(s: System, step: Step) {
    match step
    case Begin(request, outcome) => StartsFor(s, step, request) && !outcome.FailedBefore?
    case Commit(outcome) => s.memory.Some? && s.phase.Committing? && !outcome.FailedBefore?
    case Announce(notification, outcome) =>
      Settled(s) && Publish(s.memory.value, notification).1.Delivered? && !outcome.FailedBefore?
    case _ => false
  }

  /** Between the two positions the process does not die. */
  predicate Alive(steps: seq<Step>, i: nat, k: nat)
    requires k <= |steps|
  {
    forall c :: i < c < k ==> !steps[c].Crash?
  }

  /** Between the two positions no write reaches the file. */
  ghost predicate Unwritten(states: seq<System>, steps: seq<Step>, i: nat, k: nat)
    requires k <= |steps| < |states|
  {
    forall c :: i < c < k ==> !ReachesFile(states[c], steps[c])
  }

  // ------------------------------------------------------ memory ahead of the file

  predicate Ahead(s: System) {
    s.memory.Some? && s.memory.value.nextSequence > OnDisk(s).nextSequence
  }

  /** The commit of a response that failed and left the old file. */
  predicate LosesCommit(s: System, step: Step) {
    step == Commit(FailedBefore) && s.memory.Some? && s.phase.Committing? && s.phase.journaled
  }

  /** While a response waits for its commit, memory is ahead exactly if it was journaled. */
  predicate CommitPending(s: System) {
    s.memory.Some? && s.phase.Committing? ==> (Ahead(s) <==> s.phase.journaled)
  }

  predicate MarkerSaved(s: System) {
    s.memory.Some? && s.phase.Prepared? ==> OnDisk(s) == s.memory.value
  }

  lemma AheadStep(s: System, step: Step)
    requires Reload(s.file) == Some(OnDisk(s)) && (s.memory.None? ==> s.phase.Idle?)
    requires MarkerSaved(s) && CommitPending(s)
    ensures CommitPending(Next(s, step))
    ensures Settled(Next(s, step)) && Ahead(Next(s, step)) <==>
      LosesCommit(s, step) || (Settled(s) && Ahead(s) && !step.Crash? && !ReachesFile(s, step))
  {
    match step
    case Begin(request, outcome) => AheadBegin(s, request, outcome);
    case Announce(notification, outcome) => AheadAnnounce(s, notification, outcome);
    case Commit(outcome) => AheadCommit(s, outcome);
    case Invoke(decision) => AheadInvoke(s, decision);
    case Crash =>
    case Load =>
  }

  lemma AheadInvoke(s: System, decision: Decision)
    requires MarkerSaved(s) && CommitPending(s)
    ensures var t := InvokeStep(s, decision);
      CommitPending(t) && (Settled(t) && Ahead(t) <==> Settled(s) && Ahead(s))
  {
  }

  lemma AheadBegin(s: System, request: Request, outcome: Outcome)
    requires CommitPending(s)
    ensures var t, step := BeginStep(s, request, outcome), Begin(request, outcome);
      CommitPending(t) && (Settled(t) && Ahead(t) <==> Settled(s) && Ahead(s) && !ReachesFile(s, step))
  {
  }

  lemma AheadCommit(s: System, outcome: Outcome)
    requires CommitPending(s)
    ensures var t, step := CommitStep(s, outcome), Commit(outcome);
      CommitPending(t) && (Settled(t) && Ahead(t) <==> LosesCommit(s, step) || (Settled(s) && Ahead(s)))
  {
  }

  lemma AheadAnnounce(s: System, notification: Notification, outcome: Outcome)
    requires CommitPending(s)
    ensures var t, step := AnnounceStep(s, notification, outcome), Announce(notification, outcome);
      CommitPending(t) && (Settled(t) && Ahead(t) <==> Settled(s) && Ahead(s) && !ReachesFile(s, step))
  {
  }

  /** The commit at step `i` was lost, the process still runs before step `n`, and no write has
      reached the file in between. */
  ghost predicate Lost(states: seq<System>, steps: seq<Step>, i: nat, n: nat)
    requires i < n <= |steps| < |states|
  {
    LosesCommit(states[i], steps[i]) && Alive(steps, i, n) && Unwritten(states, steps, i, n)
  }

  ghost predicate CommitLost(states: seq<System>, steps: seq<Step>, n: nat)
    requires n <= |steps| < |states|
  {
    exists i :: 0 <= i < n && Lost(states, steps, i, n)
  }

  lemma LostLater(states: seq<System>, steps: seq<Step>, n: nat)
    requires n < |steps| < |states|
    ensures CommitLost(states, steps, n + 1) <==>
      (LosesCommit(states[n], steps[n]) ||
       (CommitLost(states, steps, n) && !steps[n].Crash? && !ReachesFile(states[n], steps[n])))
  {
    if CommitLost(states, steps, n) && !steps[n].Crash? && !ReachesFile(states[n], steps[n]) {
      var i :| 0 <= i < n && Lost(states, steps, i, n);
      assert Lost(states, steps, i, n + 1);
    }
    if CommitLost(states, steps, n + 1) {
      var k := n + 1;
      var i :| 0 <= i < k && Lost(states, steps, i, k);
      assert i < n ==> Lost(states, steps, i, n);
    }
    assert LosesCommit(states[n], steps[n]) ==> Lost(states, steps, n, n + 1);
  }

  lemma {:induction false} AheadBefore(steps: seq<Step>, n: nat)
    requires n <= |steps|
    ensures var states := States(steps);
      && CommitPending(states[n])
      && (Settled(states[n]) && Ahead(states[n]) <==> CommitLost(states, steps, n))
  {
    if n > 0 {
      AheadBefore(steps, n - 1);
      NextState(steps, n - 1);
      LoadReturnsDisk(States(steps)[n - 1]);
      AheadStep(States(steps)[n - 1], steps[n - 1]);
      LostLater(States(steps), steps, n - 1);
    }
  }

  /** Between requests, memory is ahead of the file exactly when a commit failed before the
      rename and since then the process has lived on and no write has reached the file. */
  lemma MemoryAheadIff(steps: seq<Step>)
    requires Settled(Reached(steps))
    ensures Ahead(Reached(steps)) <==> CommitLost(States(steps), steps, |steps|)
  {
    AheadBefore(steps, |steps|);
    assert steps[..|steps|] == steps;
  }

  /** A cursor taken from polling is safe unless a commit was lost: after a crash it still sees
      the first new response. */
  lemma PolledCursorIsSafe(steps: seq<Step>, request: Request, decision: Decision, c: nat)
    requires Settled(Reached(steps)) && c <= Reached(steps).memory.value.nextSequence
    requires !CommitLost(States(steps), steps, |steps|)
    requires var d := OnDisk(Reached(steps)); Delegates(d, request) && request.idempotencyKey !in d.pending
    ensures var d := OnDisk(Reached(steps));
      var t := Run(Run(Reached(steps), [Crash, Load]), Serving(request, decision));
      Settled(t) && IsServed(t.memory.value, c, Serve(ResponseTo(d, request, decision)))
  {
    MemoryAheadIff(steps);
    CursorAcrossRestart(steps, request, decision, c);
  }
}
