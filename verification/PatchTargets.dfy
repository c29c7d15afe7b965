/** Which topologies a patch can reach: the patch from a base to a target, and exactly when
    there is one. */
module PatchTargets {
  import opened Orders
  import opened Topology
  import opened CanonicalForm
  import opened Patch

  // ------------------------------------------------------------------ listed by id

  /** A list in strict order of its ids is the listing of the map it collects into. */
  lemma ListedOfAscending<T(!new)>(s: seq<T>, id: T -> string)
    requires Increasing(Ids(s, id))
    ensures Listed(Index(s, id)) == s && NoRepeats(Ids(s, id))
  {
    var m, ids := Index(s, id), Ids(s, id);
    StringLeqIsOrder();
    IndexKeys(s, id);
    OrderedIncreases(m.Keys);
    AscendingUnique(StringBefore, ids, Ordered(m.Keys));
    forall i | 0 <= i < |s| ensures Listed(m)[i] == s[i] {
      IndexFinds(s, id, i);
      assert ids[i] == id(s[i]);
    }
  }

  lemma ListedIncreases<T(!new)>(m: map<string, T>, id: T -> string)
    requires Keyed(m, id)
    ensures Increasing(Ids(Listed(m), id))
  {
    ListedRoundTrip(m, id);
    OrderedIncreases(m.Keys);
  }

  lemma ListedIsSorted<T(!new)>(m: map<string, T>, id: T -> string, leq: (T, T) -> bool)
    requires Keyed(m, id) && forall a, b :: StringLeq(id(a), id(b)) == leq(a, b)
    ensures SortBy(Listed(m), leq) == Listed(m)
  {
    var s := Listed(m);
    ListedIncreases(m, id);
    forall i, j | 0 <= i < j < |s| ensures leq(s[i], s[j]) {
      assert StringBefore(Ids(s, id)[i], Ids(s, id)[j]);
    }
    SortFixesSorted(s, leq);
  }

  lemma OrderedIsSorted(ks: set<string>)
    ensures SortBy(Ordered(ks), StringLeq) == Ordered(ks)
  {
    OrderedIncreases(ks);
    SortFixesSorted(Ordered(ks), StringLeq);
  }

  /** The base with its lists collected by id: what a patch without operations would leave. */
  ghost function Collected(t: ExecutionTopology): ExecutionTopology {
    t.(nodes := Listed(NodesById(t)), edges := Listed(EdgesById(t)))
  }

  /** Nodes and edges are listed in the strict order of their ids. */
  ghost predicate InIdOrder(t: ExecutionTopology) {
    Increasing(Ids(t.nodes, NodeId)) && Increasing(Ids(t.edges, EdgeId))
  }

  lemma EditListed<T(!new)>(m: map<string, T>, removed: seq<string>, updated: seq<T>, added: seq<T>, id: T -> string)
    requires Keyed(m, id)
    ensures Increasing(Ids(Listed(Edit(m, removed, updated, added, id)), id))
  {
    EditEntries(m, removed, updated, added, id);
    ListedIncreases(Edit(m, removed, updated, added, id), id);
  }

  lemma PatchedInIdOrder(base: ExecutionTopology, p: TopologyPatch)
    ensures InIdOrder(Patched(base, p))
  {
    EditListed(NodesById(base), p.removedNodeIds, p.updatedNodes, p.addedNodes, NodeId);
    EditListed(EdgesById(base), p.removedEdgeIds, [], p.addedEdges, EdgeId);
  }

  // ----------------------------------------------------------- from base to target

  /** The part of `m` whose keys are new. */
  function Fresh<T>(before: map<string, T>, after: map<string, T>): map<string, T> {
    after - before.Keys
  }

  /** The part of `after` that replaces something else. */
  function Replaced<T(==)>(before: map<string, T>, after: map<string, T>): map<string, T> {
    map k | k in after && k in before && before[k] != after[k] :: after[k]
  }

  ghost function PatchTo(base: ExecutionTopology, target: ExecutionTopology): TopologyPatch {
    var n, n', e, e' := NodesById(base), NodesById(target), EdgesById(base), EdgesById(target);
    TopologyPatch(PatchV0, Listed(Fresh(n, n')), Ordered(n.Keys - n'.Keys), Listed(Replaced(n, n')),
                  Listed(Fresh(e, e')), Ordered(e.Keys - e'.Keys))
  }

  /** The edit from one map to another gets there. */
  lemma EditReaches<T(!new)>(before: map<string, T>, after: map<string, T>, id: T -> string)
    requires Keyed(before, id) && Keyed(after, id)
    ensures Edit(before, Ordered(before.Keys - after.Keys), Listed(Replaced(before, after)),
      Listed(Fresh(before, after)), id) == after
  {
    var r, f := Replaced(before, after), Fresh(before, after);
    OrderedHasNoRepeats(before.Keys - after.Keys);
    ListedRoundTrip(r, id);
    ListedRoundTrip(f, id);
    MapsMeet(before, after, before - (before.Keys - after.Keys) + r + f);
  }

  lemma MapsMeet<T(!new)>(before: map<string, T>, after: map<string, T>, made: map<string, T>)
    requires made == before - (before.Keys - after.Keys) + Replaced(before, after) + Fresh(before, after)
    ensures made == after
  {
    SameMap(made, after);
  }

  lemma NothingEdited<T>(m: map<string, T>, id: T -> string)
    ensures Edit(m, [], [], [], id) == m
  {
    SameMap(Edit(m, [], [], [], id), m);
  }

  /** Without replacements it gets there if common keys keep their value. */
  ghost predicate CommonKept<T(!new)>(before: map<string, T>, after: map<string, T>) {
    forall k :: k in before && k in after ==> before[k] == after[k]
  }

  lemma NothingReplaced<T(!new)>(before: map<string, T>, after: map<string, T>)
    requires CommonKept(before, after)
    ensures Replaced(before, after) == map[] && Listed(Replaced(before, after)) == []
  {
  }

  ghost predicate AllKeysFilled(keys: set<string>) {
    forall k :: k in keys ==> Filled(k)
  }

  /** The keys an edit names. */
  ghost function TouchedKeys<T>(before: map<string, T>, after: map<string, T>): set<string> {
    (after.Keys - before.Keys) + (before.Keys - after.Keys) + ChangedKeys(before, after)
  }

  lemma OrderedFilled(ks: set<string>)
    requires AllKeysFilled(ks)
    ensures AllFilled(Ordered(ks))
  {
    OrderedIncreases(ks);
    assert forall i :: 0 <= i < |Ordered(ks)| ==> Ordered(ks)[i] in Ordered(ks);
  }

  lemma DisjointNoRepeats(a: seq<string>, b: seq<string>, c: seq<string>)
    requires NoRepeats(a) && NoRepeats(b) && NoRepeats(c)
    requires SetOf(a) !! SetOf(b) && SetOf(a) !! SetOf(c) && SetOf(b) !! SetOf(c)
    ensures NoRepeats(a + b + c)
  {
    assert forall i :: 0 <= i < |a| ==> a[i] in SetOf(a);
    assert forall i :: 0 <= i < |b| ==> b[i] in SetOf(b);
    assert forall i :: 0 <= i < |c| ==> c[i] in SetOf(c);
  }

  /** An edit whose ids are filled gets no finding. */
  lemma EditHasNoFindings(added: set<string>, updated: set<string>, removed: set<string>, existing: set<string>)
    requires Fits(added, updated, removed, existing)
    requires AllKeysFilled(added) && AllKeysFilled(updated) && AllKeysFilled(removed)
    ensures OperationFindings(Ordered(added), Ordered(updated), Ordered(removed), existing) == {}
  {
    var a, u, r := Ordered(added), Ordered(updated), Ordered(removed);
    OrderedHasNoRepeats(added);
    OrderedHasNoRepeats(updated);
    OrderedHasNoRepeats(removed);
    OrderedFilled(added);
    OrderedFilled(updated);
    OrderedFilled(removed);
    DisjointNoRepeats(a, u, r);
    NamedFit(a, u, r, existing);
  }

  lemma NamedFit(added: seq<string>, updated: seq<string>, removed: seq<string>, existing: set<string>)
    requires Fits(SetOf(added), SetOf(updated), SetOf(removed), existing)
    ensures !Touches(added, existing) && !Misses(updated + removed, existing)
  {
    assert forall i :: 0 <= i < |added| ==> added[i] in SetOf(added);
    var all := updated + removed;
    assert forall i :: 0 <= i < |all| ==> all[i] in SetOf(updated) || all[i] in SetOf(removed);
  }

  lemma MapEditAccepted<T(!new)>(before: map<string, T>, after: map<string, T>, id: T -> string)
    requires Keyed(before, id) && Keyed(after, id) && AllKeysFilled(TouchedKeys(before, after))
    ensures OperationFindings(Ids(Listed(Fresh(before, after)), id), Ids(Listed(Replaced(before, after)), id),
      Ordered(before.Keys - after.Keys), before.Keys) == {}
  {
    ListedIds(Fresh(before, after), id);
    ListedIds(Replaced(before, after), id);
    EditHasNoFindings(Fresh(before, after).Keys, Replaced(before, after).Keys, before.Keys - after.Keys, before.Keys);
  }

  /** What a target must look like: only nodes and edges differ, both are listed by id, common
      edges stay, every id touched is filled, and something changes. */
  ghost predicate IsTarget(base: ExecutionTopology, target: ExecutionTopology) {
    && target == base.(nodes := target.nodes, edges := target.edges) && target != Collected(base)
    && ListTarget(NodesById(base), target.nodes, NodeId) && ListTarget(EdgesById(base), target.edges, EdgeId)
    && CommonKept(EdgesById(base), EdgesById(target))
  }

  /** A list in id order, reached from `before` under filled ids. */
  ghost predicate ListTarget<T(!new)>(before: map<string, T>, s: seq<T>, id: T -> string) {
    Increasing(Ids(s, id)) && AllKeysFilled(TouchedKeys(before, Index(s, id)))
  }

  lemma PatchToIsCanonical(base: ExecutionTopology, target: ExecutionTopology)
    ensures CanonicalPatch(PatchTo(base, target)) == PatchTo(base, target)
  {
    var n, n', e, e' := NodesById(base), NodesById(target), EdgesById(base), EdgesById(target);
    ListedIsSorted(Fresh(n, n'), NodeId, NodeLeq);
    ListedIsSorted(Replaced(n, n'), NodeId, NodeLeq);
    ListedIsSorted(Fresh(e, e'), EdgeId, EdgeLeq);
    OrderedIsSorted(n.Keys - n'.Keys);
    OrderedIsSorted(e.Keys - e'.Keys);
  }

  lemma PatchToArrives(base: ExecutionTopology, target: ExecutionTopology)
    requires IsTarget(base, target)
    ensures Patched(base, PatchTo(base, target)) == target
  {
    EditReaches(NodesById(base), NodesById(target), NodeId);
    EditReaches(EdgesById(base), EdgesById(target), EdgeId);
    NothingReplaced(EdgesById(base), EdgesById(target));
    ListedOfAscending(target.nodes, NodeId);
    ListedOfAscending(target.edges, EdgeId);
  }

  lemma PatchToUpdates(base: ExecutionTopology, target: ExecutionTopology)
    ensures !NoOp(base, PatchTo(base, target).updatedNodes)
  {
    var r := Replaced(NodesById(base), NodesById(target));
    forall i | 0 <= i < |Listed(r)|
      ensures NodesById(base)[Listed(r)[i].nodeId] != Listed(r)[i]
    {
      var k := Ordered(r.Keys)[i];
      assert NodeId(Listed(r)[i]) == k;
    }
  }

  predicate Empty(p: TopologyPatch) {
    p.addedNodes == [] && p.removedNodeIds == [] && p.updatedNodes == [] && p.addedEdges == [] && p.removedEdgeIds == []
  }

  lemma PatchToIsNotEmpty(base: ExecutionTopology, target: ExecutionTopology)
    requires IsTarget(base, target)
    ensures !Empty(PatchTo(base, target))
  {
    var p := PatchTo(base, target);
    PatchToArrives(base, target);
    if Empty(p) {
      NothingEdited(NodesById(base), NodeId);
      NothingEdited(EdgesById(base), EdgeId);
      assert false;
    }
  }

  lemma PatchToAccepted(base: ExecutionTopology, target: ExecutionTopology)
    requires IsTarget(base, target)
    ensures Accepted(base, PatchTo(base, target))
  {
    PatchToUpdates(base, target);
    PatchToIsNotEmpty(base, target);
    MapEditAccepted(NodesById(base), NodesById(target), NodeId);
    MapEditAccepted(EdgesById(base), EdgesById(target), EdgeId);
    NothingReplaced(EdgesById(base), EdgesById(target));
    assert Ids([], EdgeId) == [];
  }

  // --------------------------------------------------------- the targets of patches

  lemma TouchedAreNamed<T(!new)>(m: map<string, T>, removed: seq<string>, updated: seq<T>, added: seq<T>,
      id: T -> string)
    requires Keyed(m, id) && OperationFindings(Ids(added, id), Ids(updated, id), removed, m.Keys) == {}
    ensures AllKeysFilled(TouchedKeys(m, Edit(m, removed, updated, added, id)))
    ensures updated == [] ==> CommonKept(m, Edit(m, removed, updated, added, id))
  {
    var after := Edit(m, removed, updated, added, id);
    OperationsFit(Ids(added, id), Ids(updated, id), removed, m.Keys);
    EditDelta(m, removed, updated, added, id);
    IndexKeys(updated, id);
    assert EmptyPatchId !in OperationFindings(Ids(added, id), Ids(updated, id), removed, m.Keys);
    assert TouchedKeys(m, after) <= SetOf(Ids(added, id)) + SetOf(removed) + SetOf(Ids(updated, id));
  }

  lemma CanonicalNodesFit(base: ExecutionTopology, p: TopologyPatch)
    requires Accepted(base, p)
    ensures var c, m := CanonicalPatch(p), NodesById(base);
      var after := Edit(m, c.removedNodeIds, c.updatedNodes, c.addedNodes, NodeId);
      NodesById(Patched(base, c)) == after && AllKeysFilled(TouchedKeys(m, after))
  {
    var c, m := CanonicalPatch(p), NodesById(base);
    AcceptedFits(base, p);
    OperationsForgetOrder(p.addedNodes, p.updatedNodes, p.removedNodeIds, c.addedNodes, c.updatedNodes,
      c.removedNodeIds, NodeId, m.Keys);
    PartDelta(m, p.removedNodeIds, p.updatedNodes, p.addedNodes, NodeId, NodeLeq);
    TouchedAreNamed(m, c.removedNodeIds, c.updatedNodes, c.addedNodes, NodeId);
  }

  lemma CanonicalEdgesFit(base: ExecutionTopology, p: TopologyPatch)
    requires Accepted(base, p)
    ensures var c, m := CanonicalPatch(p), EdgesById(base);
      var after := Edit(m, c.removedEdgeIds, [], c.addedEdges, EdgeId);
      EdgesById(Patched(base, c)) == after && AllKeysFilled(TouchedKeys(m, after)) && CommonKept(m, after)
  {
    var c, m := CanonicalPatch(p), EdgesById(base);
    AcceptedFits(base, p);
    OperationsForgetOrder(p.addedEdges, [], p.removedEdgeIds, c.addedEdges, [], c.removedEdgeIds, EdgeId, m.Keys);
    PartDelta(m, p.removedEdgeIds, [], p.addedEdges, EdgeId, EdgeLeq);
    assert SortBy<TopologyEdge>([], EdgeLeq) == [];
    TouchedAreNamed(m, c.removedEdgeIds, [], c.addedEdges, EdgeId);
  }

  lemma CollectedById(base: ExecutionTopology)
    ensures NodesById(Collected(base)) == NodesById(base) && EdgesById(Collected(base)) == EdgesById(base)
  {
    ListedRoundTrip(NodesById(base), NodeId);
    ListedRoundTrip(EdgesById(base), EdgeId);
  }

  lemma SelfDelta<T>(m: map<string, T>)
    ensures AddedIds(m, m) == [] && ChangedIds(m, m) == []
  {
    assert m.Keys - m.Keys == {} && ChangedKeys(m, m) == {};
  }

  lemma SortedEmpty<T>(s: seq<T>, leq: (T, T) -> bool)
    requires SortBy(s, leq) == []
    ensures s == []
  {
    SameMultiset(s, SortBy(s, leq));
  }

  lemma AnnouncesSomething(base: ExecutionTopology, p: TopologyPatch)
    requires Accepted(base, p)
    ensures Announced(CanonicalPatch(p)) != PatchDiff([], [], [], [], [])
  {
    if Announced(CanonicalPatch(p)) == PatchDiff([], [], [], [], []) {
      SortedEmpty(p.addedNodes, NodeLeq);
      SortedEmpty(p.updatedNodes, NodeLeq);
      SortedEmpty(p.addedEdges, EdgeLeq);
      SortedEmpty(p.removedNodeIds, StringLeq);
      SortedEmpty(p.removedEdgeIds, StringLeq);
      assert false;
    }
  }

  lemma AcceptedChanges(base: ExecutionTopology, p: TopologyPatch)
    requires Accepted(base, p)
    ensures Patched(base, CanonicalPatch(p)) != Collected(base)
  {
    if Patched(base, CanonicalPatch(p)) == Collected(base) {
      CollectedById(base);
      SelfDelta(NodesById(base));
      SelfDelta(EdgesById(base));
      DiffIsPatch(base, p);
      AnnouncesSomething(base, p);
      assert false;
    }
  }

  lemma AcceptedGivesTarget(base: ExecutionTopology, p: TopologyPatch)
    requires Accepted(base, p)
    ensures IsTarget(base, Patched(base, CanonicalPatch(p)))
  {
    CanonicalNodesFit(base, p);
    CanonicalEdgesFit(base, p);
    PatchedInIdOrder(base, CanonicalPatch(p));
    AcceptedChanges(base, p);
  }

  /** A topology is the result of an accepted patch exactly when it is such a target. */
  lemma PatchReachesIff(base: ExecutionTopology, target: ExecutionTopology)
    ensures (exists p :: Accepted(base, p) && Patched(base, CanonicalPatch(p)) == target) <==> IsTarget(base, target)
  {
    if p :| Accepted(base, p) && Patched(base, CanonicalPatch(p)) == target { AcceptedGivesTarget(base, p); }
    if IsTarget(base, target) {
      PatchToAccepted(base, target);
      PatchToArrives(base, target);
      PatchToIsCanonical(base, target);
    }
  }
}
