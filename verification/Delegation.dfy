/** When the delegate is called: at most once for a key, whatever the file held at the start. */
module Delegation {
  import opened Machine
  import opened Orders
  import opened ControlPlane
  import opened Durability

  /** A host that has not loaded anything yet, over any file or none. */
  function StartFrom(file: Option<Journal>): System {
    System(None, file, Idle, [], [])
  }

  predicate Marked(j: Journal, key: string) {
    key in j.pending || key in j.byKey
  }

  /** The keys pending or in the idempotency index of the first file, and those delegated since. */
  function Handled(file: Option<Journal>, s: System): set<string> {
    var first := OnDisk(StartFrom(file));
    first.pending.Keys + first.byKey.Keys + set key | key in s.calls
  }

  ghost predicate AllMarked(j: Journal, keys: set<string>) {
    forall key :: key in keys ==> Marked(j, key)
  }

  /** No key was delegated twice, and none that the first file knew. */
  ghost predicate CallsNew(file: Option<Journal>, calls: seq<string>) {
    NoRepeats(calls) && forall key :: key in calls ==> !Marked(OnDisk(StartFrom(file)), key)
  }

  ghost predicate RequestInFlight(m: Journal, d: Journal, phase: Phase, handled: set<string>) {
    match phase
    case Idle => true
    case Prepared(request) => request.idempotencyKey in d.pending && request.idempotencyKey !in handled
    case Committing(request, _, _) => request.idempotencyKey in handled ==> request.idempotencyKey in m.byKey
  }

  ghost predicate KeysKept(file: Option<Journal>, s: System) {
    && (forall j :: j in Copies(s) ==> AllMarked(j, Handled(file, s))) && CallsNew(file, s.calls)
    && (s.memory.None? ==> s.phase.Idle?)
    && (s.memory.Some? ==> RequestInFlight(s.memory.value, OnDisk(s), s.phase, Handled(file, s)))
  }

  lemma CallIsHandled(file: Option<Journal>, s: System, key: string, t: System)
    requires KeysKept(file, s) && key !in Handled(file, s) && t.calls == s.calls + [key]
    ensures Handled(file, t) == Handled(file, s) + {key} && CallsNew(file, t.calls)
  {
    assert forall k :: k in t.calls <==> k in s.calls || k == key;
  }

  lemma BeginKeepsKeys(file: Option<Journal>, s: System, request: Request, outcome: Outcome)
    requires KeysKept(file, s)
    ensures KeysKept(file, BeginStep(s, request, outcome))
  {
    if Settled(s) {
      assert AllMarked(s.memory.value, Handled(file, s));
      assert AllMarked(Mark(s.memory.value, request), Handled(file, s));
    }
  }

  lemma InvokeKeepsKeys(file: Option<Journal>, s: System, decision: Decision)
    requires KeysKept(file, s)
    ensures KeysKept(file, InvokeStep(s, decision))
  {
    if s.memory.Some? && s.phase.Prepared? && Delegates(s.memory.value, s.phase.request) {
      var m, request := s.memory.value, s.phase.request;
      assert AllMarked(m, Handled(file, s)) && AllMarked(OnDisk(s), Handled(file, s));
      CallIsHandled(file, s, request.idempotencyKey, InvokeStep(s, decision));
    }
  }

  lemma CommitKeepsKeys(file: Option<Journal>, s: System, outcome: Outcome)
    requires KeysKept(file, s)
    ensures KeysKept(file, CommitStep(s, outcome))
  {
    if s.memory.Some? && s.phase.Committing? {
      assert AllMarked(s.memory.value, Handled(file, s));
      assert AllMarked(Unmark(s.memory.value, s.phase.request), Handled(file, s));
    }
  }

  lemma AnnounceKeepsKeys(file: Option<Journal>, s: System, notification: Notification, outcome: Outcome)
    requires KeysKept(file, s)
    ensures KeysKept(file, AnnounceStep(s, notification, outcome))
  {
    if Settled(s) {
      assert AllMarked(s.memory.value, Handled(file, s));
      assert AllMarked(Publish(s.memory.value, notification).0, Handled(file, s));
    }
  }

  lemma StepKeepsKeys(file: Option<Journal>, s: System, step: Step)
    requires KeysKept(file, s)
    ensures KeysKept(file, Next(s, step))
  {
    match step
    case Begin(request, outcome) => BeginKeepsKeys(file, s, request, outcome);
    case Invoke(decision) => InvokeKeepsKeys(file, s, decision);
    case Commit(outcome) => CommitKeepsKeys(file, s, outcome);
    case Announce(notification, outcome) => AnnounceKeepsKeys(file, s, notification, outcome);
    case Crash =>
    case Load => assert AllMarked(OnDisk(s), Handled(file, s));
  }

  lemma {:induction false} RunKeepsKeys(file: Option<Journal>, steps: seq<Step>)
    ensures KeysKept(file, Run(StartFrom(file), steps))
    decreases |steps|
  {
    if steps != [] {
      RunKeepsKeys(file, steps[..|steps| - 1]);
      StepKeepsKeys(file, Run(StartFrom(file), steps[..|steps| - 1]), steps[|steps| - 1]);
    }
  }

  /** At most once: whatever the file held at the start, whatever fails or crashes, no
      idempotency key is delegated twice, none that the file held as pending or journaled is
      delegated at all, and all these keys stay pending or journaled in memory and on disk. */
  lemma AtMostOnce(file: Option<Journal>, steps: seq<Step>)
    ensures var first, s := OnDisk(StartFrom(file)), Run(StartFrom(file), steps);
      && (forall a, b :: 0 <= a < b < |s.calls| ==> s.calls[a] != s.calls[b])
      && (forall key :: key in s.calls ==> key !in first.pending && key !in first.byKey)
      && (forall key, j :: (key in s.calls || key in first.pending || key in first.byKey) && j in Copies(s) ==>
        key in j.pending || key in j.byKey)
  {
    RunKeepsKeys(file, steps);
    var first, s := OnDisk(StartFrom(file)), Run(StartFrom(file), steps);
    forall key, j | (key in s.calls || key in first.pending || key in first.byKey) && j in Copies(s)
      ensures Marked(j, key)
    {
      assert key in Handled(file, s) && AllMarked(j, Handled(file, s));
    }
  }

  /** A delegated key, and one the first file held, is answered without touching the file or
      the delegate. */
  lemma HandledIsAnsweredAtOnce(file: Option<Journal>, steps: seq<Step>, request: Request, outcome: Outcome)
    requires var first, s, key := OnDisk(StartFrom(file)), Run(StartFrom(file), steps), request.idempotencyKey;
      Settled(s) && (key in s.calls || key in first.pending || key in first.byKey)
    ensures var s := Run(StartFrom(file), steps);
      && AnsweredAtOnce(s.memory.value, request)
      && Next(s, Begin(request, outcome)) == s.(answers := s.answers + [ImmediateAnswer(s.memory.value, request)])
  {
    AtMostOnce(file, steps);
    assert Run(StartFrom(file), steps).memory.value in Copies(Run(StartFrom(file), steps));
  }
}
