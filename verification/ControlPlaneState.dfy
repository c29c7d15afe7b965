/** The control plane as the object that updates itself and its state file. */
module ControlPlaneState {
  import opened Machine
  import opened ControlPlane
  import opened Durability
  import opened Answers
  import opened DurableRuns
  import opened Orders

  /** The sequences of one journal are positive and name one entry each. */
  predicate Distinguishing(sequences: map<string, nat>) {
    && (forall id :: id in sequences ==> sequences[id] > 0)
    && (forall id, other :: id in sequences && other in sequences && id != other ==> sequences[id] != sequences[other])
  }

  ghost predicate IsTop(sequences: map<string, nat>, top: nat) {
    && (forall id :: id in sequences ==> sequences[id] <= top)
    && (if sequences == map[] then top == 0 else exists id :: id in sequences && sequences[id] == top)
  }

  /** The scan of the entries outside `todo`. */
  ghost predicate Scanned(sequences: map<string, nat>, todo: set<string>, seen: set<nat>, ok: bool, top: nat) {
    var done := sequences - todo;
    && (forall n: nat :: n in seen <==> n in done.Values)
    && (ok <==> Distinguishing(done))
    && IsTop(done, top)
  }

  lemma ScanStep(sequences: map<string, nat>, todo: set<string>, seen: set<nat>, ok: bool, top: nat, id: string,
      ok': bool)
    requires todo <= sequences.Keys && id in todo && Scanned(sequences, todo, seen, ok, top)
    requires ok' <==> ok && sequences[id] != 0 && sequences[id] !in seen
    ensures Scanned(sequences, todo - {id}, seen + {sequences[id]}, ok', Max(top, sequences[id]))
  {
    var done, more := sequences - todo, sequences - (todo - {id});
    assert more == done[id := sequences[id]];
    assert id in more && more[id] == sequences[id];
    assert forall other :: other in done ==> other in more && more[other] == done[other];
    ScanDistinguishes(done, id, sequences[id]);
    if Max(top, sequences[id]) != sequences[id] {
      var other :| other in done && done[other] == top;
      assert other in more && more[other] == top;
    }
  }

  lemma ScanDistinguishes(done: map<string, nat>, id: string, n: nat)
    requires id !in done
    ensures Distinguishing(done[id := n]) <==> Distinguishing(done) && n != 0 && n !in done.Values
  {
    var more := done[id := n];
    assert forall other :: other in done ==> other in more && more[other] == done[other];
    assert forall other :: other in done ==> done[other] in done.Values;
    assert forall other :: other in more && other != id ==> other in done;
    if Distinguishing(more) {
      forall a, b | a in done && b in done && a != b ensures done[a] != done[b] { assert more[a] != more[b]; }
    }
    if n in done.Values {
      var other :| other in done && done[other] == n;
      assert other in more && id in more && more[other] == more[id];
    }
  }

  /** One journal's part of `orderable_cursor_journals` and of the derived counter. */
  method ScanSequences(sequences: map<string, nat>) returns (ok: bool, top: nat)
    ensures ok <==> Distinguishing(sequences)
    ensures IsTop(sequences, top)
  {
    var todo := sequences.Keys;
    var seen: set<nat> := {};
    ok, top := true, 0;
    assert sequences - todo == map[];
    while todo != {}
      invariant todo <= sequences.Keys
      invariant Scanned(sequences, todo, seen, ok, top)
      decreases |todo|
    {
      var id :| id in todo;
      ghost var was := ok;
      ok := ok && sequences[id] != 0 && sequences[id] !in seen;
      ScanStep(sequences, todo, seen, was, top, id, ok);
      top, seen, todo := Max(top, sequences[id]), seen + {sequences[id]}, todo - {id};
    }
    assert sequences - todo == sequences;
  }

  predicate SequenceLeq(a: Response, b: Response) {
    a.sequence <= b.sequence
  }

  predicate InSequenceOrder(s: seq<Response>) {
    forall a, b :: 0 <= a < b < |s| ==> s[a].sequence <= s[b].sequence
  }

  function SequenceOf(r: Response): nat { r.sequence }

  /** Sorting by sequence keeps the entries, and orders them strictly if no two agree. */
  lemma SortedReplies(s: seq<Response>)
    ensures var t := SortBy(s, SequenceLeq);
      && (forall r :: r in t <==> r in s)
      && InSequenceOrder(t)
      && ((forall a, b :: 0 <= a < b < |s| ==> s[a].sequence != s[b].sequence) ==>
          forall a, b :: 0 <= a < b < |t| ==> t[a].sequence < t[b].sequence)
  {
    var t := SortBy(s, SequenceLeq);
    SortBySorted(s, SequenceLeq);
    SameMultiset(s, t);
    if forall a, b :: 0 <= a < b < |s| ==> s[a].sequence != s[b].sequence { SortedDistinct(s); }
  }

  lemma SortedDistinct(s: seq<Response>)
    requires forall a, b :: 0 <= a < b < |s| ==> s[a].sequence != s[b].sequence
    ensures var t := SortBy(s, SequenceLeq); forall a, b :: 0 <= a < b < |t| ==> t[a].sequence != t[b].sequence
  {
    var before, after := MapSeq(SequenceOf, s), MapSeq(SequenceOf, SortBy(s, SequenceLeq));
    MapSort(SequenceOf, s, SequenceLeq, NatLeq);
    assert NoRepeats(before);
    NoRepeatsIsMultiset(before, after);
    var t := SortBy(s, SequenceLeq);
    forall a, b | 0 <= a < b < |t| ensures t[a].sequence != t[b].sequence { assert after[a] != after[b]; }
  }

  /** The reply for an entry outside `todo` above the cursor. */
  ghost predicate Gathered(j: Journal, todo: set<string>, after: nat, r: Response) {
    exists id ::
      id in j.byRequest && id !in todo && j.byRequest[id].1.sequence > after && r == Serve(j.byRequest[id].1)
  }

  /** Exactly those replies, one each. */
  ghost predicate Collected(j: Journal, todo: set<string>, after: nat, found: seq<Response>) {
    && (forall r :: r in found <==> Gathered(j, todo, after, r))
    && (Orderable(j) ==> forall a, b :: 0 <= a < b < |found| ==> found[a].sequence != found[b].sequence)
  }

  lemma CollectStep(j: Journal, todo: set<string>, after: nat, found: seq<Response>, id: string, more: seq<Response>)
    requires Collected(j, todo, after, found) && id in todo && id in j.byRequest
    requires more == if j.byRequest[id].1.sequence > after then found + [Serve(j.byRequest[id].1)] else found
    ensures Collected(j, todo - {id}, after, more)
  {
    var response := j.byRequest[id].1;
    forall r | r in more ensures Gathered(j, todo - {id}, after, r) {
      if r in found {
        var other :| other in j.byRequest && other !in todo && j.byRequest[other].1.sequence > after
                     && r == Serve(j.byRequest[other].1);
        assert other !in todo - {id};
      } else {
        assert id !in todo - {id} && r == Serve(response);
      }
    }
    forall r | Gathered(j, todo - {id}, after, r) ensures r in more {
      var other :| other in j.byRequest && other !in todo - {id} && j.byRequest[other].1.sequence > after
                   && r == Serve(j.byRequest[other].1);
      assert other != id ==> Gathered(j, todo, after, r);
    }
    if Orderable(j) {
      forall r | r in found ensures r.sequence != response.sequence {
        assert Gathered(j, todo, after, r);
      }
    }
  }

  lemma CollectedIsReplay(j: Journal, after: nat, found: seq<Response>)
    requires Collected(j, {}, after, found)
    ensures InSequenceOrder(SortBy(found, SequenceLeq))
    ensures forall r :: r in SortBy(found, SequenceLeq) <==> IsServed(j, after, r)
    ensures Orderable(j) ==> IsReplay(j, after, SortBy(found, SequenceLeq))
  {
    SortedReplies(found);
    var out := SortBy(found, SequenceLeq);
    assert forall i :: 0 <= i < |out| ==> out[i] in out;
    assert forall r :: Gathered(j, {}, after, r) <==> IsServed(j, after, r);
  }

  class StateFile {
    var contents: Option<Journal>

    constructor ()
      ensures contents == None
    {
      contents := None;
    }

    /** Source: `persist_durable`.  The outcome is what the file system did. */
    method Write(j: Journal, outcome: Outcome) returns (ok: bool)
      modifies this
      ensures contents == FileAfter(old(contents), j, outcome)
      ensures ok <==> outcome.Persisted?
    {
      if !outcome.FailedBefore? { contents := Some(j); }
      ok := outcome.Persisted?;
    }
  }

  class ControlPlaneState {
    var nextSequence: nat
    var byRequest: map<string, (Request, Response)>
    var byKey: map<string, (Semantics, Response)>
    var notifications: map<string, (Content, Notification)>
    var pending: map<string, Pending>

    function View(): Journal
      reads this
    {
      Journal(nextSequence, byRequest, byKey, notifications, pending)
    }

    constructor ()
      ensures View() == EMPTY
    {
      nextSequence := 0;
      byRequest, byKey, notifications, pending := map[], map[], map[], map[];
    }

    method Assign(j: Journal)
      modifies this
      ensures View() == j
    {
      nextSequence, byRequest, byKey := j.nextSequence, j.byRequest, j.byKey;
      notifications, pending := j.notifications, j.pending;
    }

    /** One call of the delegate is `delegated`; its answer is `decision`. */
    method Execute(request: Request, decision: Decision) returns (response: Response, delegated: bool)
      modifies this
      ensures (View(), response) == ControlPlane.Execute(old(View()), request, decision)
      ensures delegated <==> Delegates(old(View()), request)
      ensures IsAnswer(old(View()), request, decision, response) && IsFiled(old(View()), request, response, View())
    {
      ExecuteMeaning(View(), request, decision);
      delegated := false;
      if request.requestId in byRequest {
        var (existing, journaled) := byRequest[request.requestId];
        response := if existing == request then Serve(journaled) else Refuse(View(), request, RequestIdCollision);
      } else if request.idempotencyKey in byKey {
        var (existing, journaled) := byKey[request.idempotencyKey];
        response := if existing == SemanticsOf(request) then Serve(journaled)
          else Refuse(View(), request, IdempotencyKeyCollision);
      } else {
        var problem := RequestProblem(request);
        if problem.Some? {
          response := Refuse(View(), request, problem.value);
        } else {
          delegated := true;
          response := ResponseTo(View(), request, decision);
          nextSequence := nextSequence + 1;
          byRequest := byRequest[request.requestId := (request, response)];
          byKey := byKey[request.idempotencyKey := (SemanticsOf(request), response)];
        }
      }
    }

    /** What the protocol's steps make of this object and file. */
    ghost function Snapshot(file: StateFile): System
      reads this, file
    {
      System(Some(View()), file.contents, Idle, [], [])
    }

    /** Source: `execute_durable`, with what its caller gets and what it leaves behind. */
    method ExecuteDurable(request: Request, decision: Decision, file: StateFile, ahead: Outcome, commit: Outcome)
      returns (response: Response, delegated: bool)
      modifies this, file
      ensures var t := Run(old(Snapshot(file)), [Begin(request, ahead), Invoke(decision), Commit(commit)]);
        && t.phase == Idle && t.memory == Some(View()) && t.file == file.contents
        && t.calls == (if delegated then [request.idempotencyKey] else [])
        && |t.answers| == 1 && t.answers[0].request == request && t.answers[0].response == response
      ensures ServesDurably(old(View()), old(file.contents), request, decision, ahead, commit, response,
        if delegated then [request.idempotencyKey] else [], View(), file.contents)
    {
      DurableMeaning(View(), file.contents, request, decision, ahead, commit);
      response, delegated := DurableSteps(request, decision, file, ahead, commit);
    }

    /** The body of `execute_durable`: exactly the protocol's begin, invoke and commit steps run
        without interruption. */
    method DurableSteps(request: Request, decision: Decision, file: StateFile, ahead: Outcome, commit: Outcome)
      returns (response: Response, delegated: bool)
      modifies this, file
      ensures var t := Run(old(Snapshot(file)), [Begin(request, ahead), Invoke(decision), Commit(commit)]);
        && t.phase == Idle && t.memory == Some(View()) && t.file == file.contents
        && t.calls == (if delegated then [request.idempotencyKey] else [])
        && |t.answers| == 1 && t.answers[0].request == request && t.answers[0].response == response
    {
      ghost var s := Snapshot(file);
      RunThree(s, Begin(request, ahead), Invoke(decision), Commit(commit));
      delegated := false;
      if request.idempotencyKey in pending {
        response := Refuse(View(), request,
                           if pending[request.idempotencyKey] == Pending(request, SemanticsOf(request)) then
                             AmbiguousPriorEffect
                           else IdempotencyKeyCollision);
        return;
      }
      if request.requestId in byRequest || request.idempotencyKey in byKey {
        response, delegated := Execute(request, decision);
        return;
      }
      ghost var before := pending;
      pending := pending[request.idempotencyKey := Pending(request, SemanticsOf(request))];
      var ok := file.Write(View(), ahead);
      if !ok {
        pending := pending - {request.idempotencyKey};
        assert pending == before;
        response := Refuse(View(), request, DurableStateUnavailable);
        return;
      }
      response, delegated := Execute(request, decision);
      var committed := Unmark(View(), request);
      ok := file.Write(committed, commit);
      if ok {
        Assign(committed);
      } else {
        response := Refuse(View(), request, DurableAcknowledgementFailed);
      }
    }

    /** Source: `replay_after`. */
    method ReplayAfter(after: nat) returns (out: seq<Response>)
      ensures InSequenceOrder(out)
      ensures forall r :: r in out <==> IsServed(View(), after, r)
      ensures Orderable(View()) ==> IsReplay(View(), after, out)
    {
      var todo := byRequest.Keys;
      var found: seq<Response> := [];
      while todo != {}
        invariant todo <= byRequest.Keys
        invariant Collected(View(), todo, after, found)
        decreases |todo|
      {
        var id :| id in todo;
        var response := byRequest[id].1;
        ghost var before := found;
        if response.sequence > after { found := found + [Serve(response)]; }
        CollectStep(View(), todo, after, before, id, found);
        todo := todo - {id};
      }
      out := SortBy(found, SequenceLeq);
      CollectedIsReplay(View(), after, found);
    }

    method PublishNotification(notification: Notification) returns (published: Published)
      modifies this
      ensures (View(), published) == Publish(old(View()), notification)
      ensures IsPublished(old(View()), notification, published, View())
    {
      PublishMeaning(View(), notification);
      var n := ForceOwnedFacts(notification);
      if n.notificationId in notifications {
        var (existing, stored) := notifications[n.notificationId];
        published := if existing == ContentOf(n) then Delivered(ForceOwnedFacts(stored))
          else Rejected(LocalRefusal(NotificationIdCollision));
      } else {
        nextSequence := nextSequence + 1;
        n := n.(sequence := nextSequence);
        notifications := notifications[n.notificationId := (ContentOf(n), n)];
        published := Delivered(n);
      }
    }

    /** Source: `publish_notification_durable`: a notification that was not persisted
        leaves memory as it was. */
    method PublishNotificationDurable(notification: Notification, file: StateFile,
        outcome: Outcome) returns (published: Published)
      modifies this, file
      ensures old(Snapshot(file)).(memory := Some(View()), file := file.contents) ==
        AnnounceStep(old(Snapshot(file)), notification, outcome)
      ensures published ==
        if Publish(old(View()), notification).1.Delivered? && !outcome.Persisted? then
          Rejected(LocalRefusal(DurableStateUnavailable))
        else Publish(old(View()), notification).1
    {
      var previous := View();
      published := PublishNotification(notification);
      if published.Rejected? { return; }
      var ok := file.Write(View(), outcome);
      if !ok {
        Assign(previous);
        published := Rejected(LocalRefusal(DurableStateUnavailable));
      }
    }
  }

  /** Source: `load_durable`: the file's own counter is ignored. */
  method LoadDurable(file: StateFile) returns (loaded: Option<Journal>)
    ensures loaded == Reload(file.contents)
  {
    if file.contents.None? { return Some(EMPTY); }
    var j := file.contents.value;
    var requests := map id | id in j.byRequest :: j.byRequest[id].1.sequence;
    var keys := map key | key in j.byKey :: j.byKey[key].1.sequence;
    var notices := map id | id in j.notifications :: j.notifications[id].1.sequence;
    var ok, top := ScanSequences(requests);
    var ok', top' := ScanSequences(notices);
    OrderableScans(j, requests, notices);
    if !ok || !ok' { return None; }
    var _, keyTop := ScanSequences(keys);
    var n := Max(Max(top, keyTop), top');
    DerivedFromTops(j, requests, keys, notices, top, keyTop, top');
    DerivedCounterUnique(j, n, Reload(file.contents).value.nextSequence);
    loaded := Some(j.(nextSequence := n));
  }

  lemma OrderableScans(j: Journal, requests: map<string, nat>, notices: map<string, nat>)
    requires requests == map id | id in j.byRequest :: j.byRequest[id].1.sequence
    requires notices == map id | id in j.notifications :: j.notifications[id].1.sequence
    ensures Distinguishing(requests) && Distinguishing(notices) <==> Orderable(j)
  {
    assert forall id :: id in j.byRequest <==> id in requests;
    assert forall id :: id in j.byRequest ==> requests[id] == j.byRequest[id].1.sequence;
    assert forall id :: id in j.notifications <==> id in notices;
    assert forall id :: id in j.notifications ==> notices[id] == j.notifications[id].1.sequence;
  }

  lemma DerivedFromTops(j: Journal, requests: map<string, nat>, keys: map<string, nat>, notices: map<string, nat>,
      a: nat, b: nat, c: nat)
    requires requests == map id | id in j.byRequest :: j.byRequest[id].1.sequence
    requires keys == map key | key in j.byKey :: j.byKey[key].1.sequence
    requires notices == map id | id in j.notifications :: j.notifications[id].1.sequence
    requires IsTop(requests, a) && IsTop(keys, b) && IsTop(notices, c)
    ensures IsDerivedCounter(j, Max(Max(a, b), c))
  {
    var n := Max(Max(a, b), c);
    assert requests.Keys == j.byRequest.Keys && keys.Keys == j.byKey.Keys && notices.Keys == j.notifications.Keys;
    forall m: nat | SequenceUsed(j, m) ensures m <= n {
      assert forall id :: id in j.byRequest ==> requests[id] == j.byRequest[id].1.sequence;
      assert forall id :: id in j.byKey ==> keys[id] == j.byKey[id].1.sequence;
      assert forall id :: id in j.notifications ==> notices[id] == j.notifications[id].1.sequence;
    }
    if requests != map[] && n == a {
      var id :| id in requests && requests[id] == a;
      assert id in j.byRequest && j.byRequest[id].1.sequence == n;
    } else if keys != map[] && n == b {
      var id :| id in keys && keys[id] == b;
      assert id in j.byKey && j.byKey[id].1.sequence == n;
    } else if notices != map[] && n == c {
      var id :| id in notices && notices[id] == c;
      assert id in j.notifications && j.notifications[id].1.sequence == n;
    } else {
      assert requests == map[] && keys == map[] && notices == map[];
    }
  }
}
