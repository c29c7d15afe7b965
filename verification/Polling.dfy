/** A client that polls with the cursor of what it received last, while one process lives. */
module Polling {
  import opened ControlPlane
  import opened Durability
  import opened DurableRuns

  /** Later memory keeps every entry and numbers new ones above everything before. */
  ghost predicate Grows(m: Journal, later: Journal) {
    && m.nextSequence <= later.nextSequence
    && (forall id :: id in m.byRequest ==> id in later.byRequest && later.byRequest[id].1 == m.byRequest[id].1)
    && (forall id :: id in later.byRequest && id !in m.byRequest ==> later.byRequest[id].1.sequence > m.nextSequence)
  }

  lemma GrowsTransitive(a: Journal, b: Journal, c: Journal)
    requires Grows(a, b) && Grows(b, c)
    ensures Grows(a, c)
  {
  }

  lemma StepGrows(s: System, step: Step)
    requires s.memory.Some? && !step.Crash?
    ensures Next(s, step).memory.Some? && Grows(s.memory.value, Next(s, step).memory.value)
  {
  }

  predicate NoCrash(steps: seq<Step>) {
    forall i :: 0 <= i < |steps| ==> !steps[i].Crash?
  }

  lemma {:induction false} RunGrows(s: System, steps: seq<Step>)
    requires s.memory.Some? && NoCrash(steps)
    ensures Run(s, steps).memory.Some? && Grows(s.memory.value, Run(s, steps).memory.value)
    decreases |steps|
  {
    if steps != [] {
      var front := steps[..|steps| - 1];
      RunGrows(s, front);
      StepGrows(Run(s, front), steps[|steps| - 1]);
      GrowsTransitive(s.memory.value, Run(s, front).memory.value, Run(s, steps).memory.value);
    }
  }

  lemma {:induction false} RunJournals(s: System, steps: seq<Step>)
    requires JournalsOk(s)
    ensures JournalsOk(Run(s, steps))
    decreases |steps|
  {
    if steps != [] {
      RunJournals(s, steps[..|steps| - 1]);
      StepKeepsJournals(Run(s, steps[..|steps| - 1]), steps[|steps| - 1]);
    }
  }

  // -------------------------------------------------------------------- the client

  /** What the host does before a poll, and the reply to it. */
  datatype Visit = Visit(steps: seq<Step>, reply: seq<Response>)

  function Received(visits: seq<Visit>): seq<Response> {
    if visits == [] then [] else Received(visits[..|visits| - 1]) + visits[|visits| - 1].reply
  }

  /** The cursor of a client that started at `after`. */
  function Cursor(after: nat, received: seq<Response>): nat {
    if received == [] then after else received[|received| - 1].sequence
  }

  ghost function HostAfter(s: System, visits: seq<Visit>): System {
    if visits == [] then s else Run(HostAfter(s, visits[..|visits| - 1]), visits[|visits| - 1].steps)
  }

  /** Each reply is the replay after the client's current cursor, and no step is a crash. */
  ghost predicate Polled(s: System, after: nat, visits: seq<Visit>) {
    visits == [] ||
    (var front, last := visits[..|visits| - 1], visits[|visits| - 1];
     && Polled(s, after, front) && NoCrash(last.steps) && HostAfter(s, visits).memory.Some?
     && IsReplay(HostAfter(s, visits).memory.value, Cursor(after, Received(front)), last.reply))
  }

  /** What was received is numbered up to the counter. */
  lemma CursorIsKnown(s: System, after: nat, received: seq<Response>)
    requires JournalsOk(s) && s.memory.Some? && IsReplay(s.memory.value, after, received) && received != []
    ensures after < Cursor(after, received) <= s.memory.value.nextSequence
  {
    var j := s.memory.value;
    assert j in Copies(s);
    var last := received[|received| - 1];
    assert IsServed(j, after, last);
    var id :| id in j.byRequest && j.byRequest[id].1.sequence > after && last == Serve(j.byRequest[id].1);
    assert ResponseFiled(j, id);
  }

  /** Entries known at the last poll and above the start are not above the cursor. */
  lemma KnownIsReceived(m: Journal, after: nat, received: seq<Response>, id: string)
    requires IsReplay(m, after, received) && id in m.byRequest && m.byRequest[id].1.sequence > after
    ensures Serve(m.byRequest[id].1) in received && m.byRequest[id].1.sequence <= Cursor(after, received)
  {
    var r := Serve(m.byRequest[id].1);
    var i :| 0 <= i < |received| && received[i] == r;
    assert i == |received| - 1 || received[i].sequence < received[|received| - 1].sequence;
  }

  lemma ExtendsInOrder(after: nat, received: seq<Response>, reply: seq<Response>)
    requires forall a, b :: 0 <= a < b < |received| ==> received[a].sequence < received[b].sequence
    requires forall a, b :: 0 <= a < b < |reply| ==> reply[a].sequence < reply[b].sequence
    requires forall i :: 0 <= i < |reply| ==> Cursor(after, received) < reply[i].sequence
    ensures var all := received + reply; forall a, b :: 0 <= a < b < |all| ==> all[a].sequence < all[b].sequence
  {
    var all := received + reply;
    forall a, b | 0 <= a < b < |all| ensures all[a].sequence < all[b].sequence {
      if a < |received| <= b {
        assert received[a].sequence <= received[|received| - 1].sequence;
        assert all[b] == reply[b - |received|];
      }
    }
  }

  lemma ExtendsServed(m: Journal, later: Journal, after: nat, received: seq<Response>, reply: seq<Response>,
      r: Response)
    requires Grows(m, later) && IsReplay(m, after, received) && IsReplay(later, Cursor(after, received), reply)
    requires after <= Cursor(after, received) && r in received + reply
    ensures IsServed(later, after, r)
  {
    if r in received {
      var i :| 0 <= i < |received| && received[i] == r;
      StillServed(m, later, after, received[i]);
    } else {
      var i :| 0 <= i < |reply| && reply[i] == r;
      ServedEarlier(later, after, Cursor(after, received), reply[i]);
    }
  }

  lemma ExtendsComplete(m: Journal, later: Journal, after: nat, received: seq<Response>, reply: seq<Response>,
      id: string)
    requires Grows(m, later) && IsReplay(m, after, received) && IsReplay(later, Cursor(after, received), reply)
    requires received != [] ==> Cursor(after, received) <= m.nextSequence
    requires id in later.byRequest && later.byRequest[id].1.sequence > after
    ensures Serve(later.byRequest[id].1) in received + reply
  {
    if id in m.byRequest { KnownIsReceived(m, after, received, id); }
  }

  /** One more poll: what came so far and the new reply together are the replay from the start. */
  lemma PollExtends(m: Journal, later: Journal, after: nat, received: seq<Response>, reply: seq<Response>)
    requires Grows(m, later) && (received != [] ==> after < Cursor(after, received) <= m.nextSequence)
    requires IsReplay(m, after, received) && IsReplay(later, Cursor(after, received), reply)
    ensures IsReplay(later, after, received + reply)
  {
    var all := received + reply;
    forall i | 0 <= i < |reply| ensures Cursor(after, received) < reply[i].sequence {
      ReplayAbove(later, Cursor(after, received), reply, reply[i]);
    }
    ExtendsInOrder(after, received, reply);
    forall i | 0 <= i < |all| ensures IsServed(later, after, all[i]) {
      ExtendsServed(m, later, after, received, reply, all[i]);
    }
    forall id | id in later.byRequest && later.byRequest[id].1.sequence > after
      ensures Serve(later.byRequest[id].1) in all {
      ExtendsComplete(m, later, after, received, reply, id);
    }
  }

  lemma StillServed(m: Journal, later: Journal, after: nat, r: Response)
    requires Grows(m, later) && IsServed(m, after, r)
    ensures IsServed(later, after, r)
  {
    var id :| id in m.byRequest && m.byRequest[id].1.sequence > after && r == Serve(m.byRequest[id].1);
    assert id in later.byRequest && r == Serve(later.byRequest[id].1);
  }

  lemma ServedEarlier(j: Journal, after: nat, cursor: nat, r: Response)
    requires after <= cursor && IsServed(j, cursor, r)
    ensures IsServed(j, after, r)
  {
    var id :| id in j.byRequest && j.byRequest[id].1.sequence > cursor && r == Serve(j.byRequest[id].1);
    assert id in j.byRequest && j.byRequest[id].1.sequence > after;
  }

  lemma {:induction false} HostStaysUp(s: System, after: nat, visits: seq<Visit>)
    requires JournalsOk(s) && s.memory.Some? && Polled(s, after, visits)
    ensures JournalsOk(HostAfter(s, visits)) && HostAfter(s, visits).memory.Some?
  {
    if visits != [] {
      HostStaysUp(s, after, visits[..|visits| - 1]);
      RunJournals(HostAfter(s, visits[..|visits| - 1]), visits[|visits| - 1].steps);
    }
  }

  lemma {:induction false} PollingFrom(s: System, after: nat, visits: seq<Visit>)
    requires JournalsOk(s) && s.memory.Some? && visits != [] && Polled(s, after, visits)
    ensures HostAfter(s, visits).memory.Some? && IsReplay(HostAfter(s, visits).memory.value, after, Received(visits))
  {
    var front, last := visits[..|visits| - 1], visits[|visits| - 1];
    if front == [] {
      assert Received(visits) == last.reply;
    } else {
      PollingFrom(s, after, front);
      HostStaysUp(s, after, front);
      RunGrows(HostAfter(s, front), last.steps);
      if Received(front) != [] { CursorIsKnown(HostAfter(s, front), after, Received(front)); }
      PollExtends(HostAfter(s, front).memory.value, HostAfter(s, visits).memory.value, after, Received(front),
        last.reply);
    }
  }

  /** However a process works and whenever the client polls, what the client has received is
      exactly the journal's responses above its start, each once and in order. */
  lemma PollingSeesEachOnce(steps: seq<Step>, after: nat, visits: seq<Visit>)
    requires Reached(steps).memory.Some? && visits != [] && Polled(Reached(steps), after, visits)
    ensures HostAfter(Reached(steps), visits).memory.Some?
    ensures IsReplay(HostAfter(Reached(steps), visits).memory.value, after, Received(visits))
  {
    RunKeeps(steps);
    PollingFrom(Reached(steps), after, visits);
  }
}
