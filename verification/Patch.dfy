/** Typed topology patches: acceptance, canonical form, application and the computed diff. */
module Patch {
  import opened Orders
  import opened Topology
  import opened CanonicalForm
  import opened Rearrangement

  // ------------------------------------------------------ ordered maps by identity

  /** Strictly increasing: the iteration order of an ordered map. */
  ghost predicate Increasing(s: seq<string>) {
    Ascending(StringBefore, s)
  }

  predicate StringBefore(a: string, b: string) { StringLeq(a, b) && a != b }

  predicate IsLeast(k: string, ks: set<string>) {
    k in ks && forall o :: o in ks ==> StringLeq(k, o)
  }

  lemma LeastExists(ks: set<string>) returns (k: string)
    requires ks != {}
    ensures IsLeast(k, ks)
  {
    StringLeqIsOrder();
    k :| k in ks;
    if ks != {k} {
      assert ks == (ks - {k}) + {k};
      var rest := LeastExists(ks - {k});
      if !StringLeq(k, rest) { k := rest; }
    }
  }

  /** The keys of an ordered map, in its iteration order. */
  ghost function Ordered(ks: set<string>): (r: seq<string>)
    ensures |r| == |ks|
  {
    if ks == {} then []
    else
      assert exists k :: IsLeast(k, ks) by { var k := LeastExists(ks); }
      var k :| IsLeast(k, ks);
      [k] + Ordered(ks - {k})
  }

  lemma {:induction false} OrderedIncreases(ks: set<string>)
    ensures Increasing(Ordered(ks)) && forall k :: k in Ordered(ks) <==> k in ks
  {
    if ks != {} {
      assert exists k :: IsLeast(k, ks) by { var k := LeastExists(ks); }
      var k :| IsLeast(k, ks) && Ordered(ks) == [k] + Ordered(ks - {k});
      OrderedIncreases(ks - {k});
      var rest := Ordered(ks - {k});
      assert forall i :: 0 <= i < |rest| ==> rest[i] in rest;
    }
  }

  function Ids<T, K>(items: seq<T>, id: T -> K): seq<K> {
    MapSeq(id, items)
  }

  function SetOf<K(==)>(s: seq<K>): set<K> {
    set k | k in s
  }

  /** A list collected into a map: a later item replaces an earlier one with its id. */
  function Index<T, K(==)>(items: seq<T>, id: T -> K): (m: map<K, T>)
    ensures forall k :: k in m ==> id(m[k]) == k && m[k] in items
    ensures forall i :: 0 <= i < |items| ==> id(items[i]) in m
  {
    if items == [] then map[]
    else
      var k := |items| - 1;
      assert items == items[..k] + [items[k]];
      Index(items[..k], id)[id(items[k]) := items[k]]
  }

  lemma IndexKeys<T, K>(items: seq<T>, id: T -> K)
    ensures Index(items, id).Keys == SetOf(Ids(items, id))
  {
    var m := Index(items, id);
    forall k | k in m ensures k in Ids(items, id) {
      var i :| 0 <= i < |items| && items[i] == m[k];
      assert Ids(items, id)[i] == k;
    }
  }

  lemma IndexFinds<T, K>(items: seq<T>, id: T -> K, i: nat)
    requires NoRepeats(Ids(items, id)) && i < |items|
    ensures id(items[i]) in Index(items, id) && Index(items, id)[id(items[i])] == items[i]
  {
    var m := Index(items, id);
    var x := m[id(items[i])];
    var j :| 0 <= j < |items| && items[j] == x;
    assert Ids(items, id)[i] == Ids(items, id)[j];
  }

  /** A map whose values carry their keys. */
  ghost predicate Keyed<T>(m: map<string, T>, id: T -> string) {
    forall k :: k in m ==> id(m[k]) == k
  }

  ghost function Listed<T>(m: map<string, T>): (r: seq<T>)
    ensures |r| == |m| && |Ordered(m.Keys)| == |m|
    ensures forall i :: 0 <= i < |r| ==> Ordered(m.Keys)[i] in m && r[i] == m[Ordered(m.Keys)[i]]
  {
    var ks := Ordered(m.Keys);
    OrderedIncreases(m.Keys);
    assert forall i :: 0 <= i < |ks| ==> ks[i] in ks;
    seq(|ks|, i requires 0 <= i < |ks| => m[ks[i]])
  }

  lemma ListedIds<T>(m: map<string, T>, id: T -> string)
    requires Keyed(m, id)
    ensures Ids(Listed(m), id) == Ordered(m.Keys)
  {
  }

  lemma OrderedHasNoRepeats(ks: set<string>)
    ensures NoRepeats(Ordered(ks)) && SetOf(Ordered(ks)) == ks
  {
    OrderedIncreases(ks);
  }

  lemma ListedFinds<T>(m: map<string, T>, id: T -> string, k: string)
    requires Keyed(m, id) && k in m && NoRepeats(Ids(Listed(m), id))
    ensures k in Index(Listed(m), id) && Index(Listed(m), id)[k] == m[k]
  {
    var ks := Ordered(m.Keys);
    OrderedIncreases(m.Keys);
    assert k in ks;
    var i :| 0 <= i < |ks| && ks[i] == k;
    assert Listed(m)[i] == m[k];
    IndexFinds(Listed(m), id, i);
  }

  /** Listing a map and collecting the list again is the identity. */
  lemma ListedRoundTrip<T>(m: map<string, T>, id: T -> string)
    requires Keyed(m, id)
    ensures Ids(Listed(m), id) == Ordered(m.Keys) && NoRepeats(Ids(Listed(m), id)) && Index(Listed(m), id) == m
  {
    ListedIds(m, id);
    OrderedHasNoRepeats(m.Keys);
    IndexKeys(Listed(m), id);
    forall k | k in m ensures k in Index(Listed(m), id) && Index(Listed(m), id)[k] == m[k] { ListedFinds(m, id, k); }
    SameMap(Index(Listed(m), id), m);
  }

  lemma SameMap<T>(a: map<string, T>, b: map<string, T>)
    requires a.Keys == b.Keys && forall k :: k in b ==> k in a && a[k] == b[k]
    ensures a == b
  {
  }

  // ------------------------------------------------------------------ operations

  datatype PatchSchema = PatchV0 | Unsupported(schema: string, version: nat)

  datatype TopologyPatch = TopologyPatch(
    schema: PatchSchema,
    addedNodes: seq<TopologyNode>,
    removedNodeIds: seq<string>,
    updatedNodes: seq<TopologyNode>,
    addedEdges: seq<TopologyEdge>,
    removedEdgeIds: seq<string>)

  datatype PatchDiff = PatchDiff(
    addedNodeIds: seq<string>,
    removedNodeIds: seq<string>,
    updatedNodeIds: seq<string>,
    addedEdgeIds: seq<string>,
    removedEdgeIds: seq<string>)

  datatype PatchCode =
    | UnsupportedPatchSchema | EmptyPatchId | DuplicatePatchId | PatchAdditionExists | PatchTargetMissing
    | ConflictingPatchOperations | NoOpNodeUpdate | EmptyTopologyPatch

  function NodeId(n: TopologyNode): string { n.nodeId }

  function EdgeId(e: TopologyEdge): string { e.edgeId }

  function NodesById(t: ExecutionTopology): map<string, TopologyNode> {
    Index(t.nodes, NodeId)
  }

  function EdgesById(t: ExecutionTopology): map<string, TopologyEdge> {
    Index(t.edges, EdgeId)
  }

  function When(c: bool, code: PatchCode): set<PatchCode> {
    if c then {code} else {}
  }

  predicate Touches(s: seq<string>, existing: set<string>) {
    exists i :: 0 <= i < |s| && s[i] in existing
  }

  predicate Misses(s: seq<string>, existing: set<string>) {
    exists i :: 0 <= i < |s| && s[i] !in existing
  }

  /** Source: `validate_entity_operations`, as the codes it reports. */
  function OperationFindings(added: seq<string>, updated: seq<string>, removed: seq<string>,
      existing: set<string>): set<PatchCode> {
    When(!AllFilled(added) || !AllFilled(updated) || !AllFilled(removed), EmptyPatchId)
    + When(!NoRepeats(added) || !NoRepeats(updated) || !NoRepeats(removed), DuplicatePatchId)
    + When(Touches(added, existing), PatchAdditionExists)
    + When(Misses(updated + removed, existing), PatchTargetMissing)
    + When(!NoRepeats(added + updated + removed), ConflictingPatchOperations)
  }

  predicate NoOp(base: ExecutionTopology, updated: seq<TopologyNode>) {
    exists i :: 0 <= i < |updated| && updated[i].nodeId in NodesById(base) &&
      NodesById(base)[updated[i].nodeId] == updated[i]
  }

  /** Source: the findings of `canonical_topology_patch`. */
  function PatchFindings(base: ExecutionTopology, p: TopologyPatch): set<PatchCode> {
    When(!p.schema.PatchV0?, UnsupportedPatchSchema)
    + OperationFindings(Ids(p.addedNodes, NodeId), Ids(p.updatedNodes, NodeId), p.removedNodeIds, NodesById(base).Keys)
    + OperationFindings(Ids(p.addedEdges, EdgeId), [], p.removedEdgeIds, EdgesById(base).Keys)
    + When(NoOp(base, p.updatedNodes), NoOpNodeUpdate)
    + When(p.addedNodes == [] && p.removedNodeIds == [] && p.updatedNodes == [] && p.addedEdges == [] &&
      p.removedEdgeIds == [],
           EmptyTopologyPatch)
  }

  predicate Accepted(base: ExecutionTopology, p: TopologyPatch) {
    PatchFindings(base, p) == {}
  }

  /** The operations on one kind of entity name disjoint ids that fit the base. */
  ghost predicate Fits(added: set<string>, updated: set<string>, removed: set<string>, existing: set<string>) {
    && added !! existing && updated <= existing && removed <= existing && updated !! removed
  }

  lemma OperationsFit(added: seq<string>, updated: seq<string>, removed: seq<string>, existing: set<string>)
    requires OperationFindings(added, updated, removed, existing) == {}
    ensures NoRepeats(added) && NoRepeats(updated) && NoRepeats(removed)
    ensures Fits(SetOf(added), SetOf(updated), SetOf(removed), existing)
  {
    var codes := OperationFindings(added, updated, removed, existing);
    assert DuplicatePatchId !in codes && PatchAdditionExists !in codes && PatchTargetMissing !in codes &&
      ConflictingPatchOperations !in codes;
    forall i | 0 <= i < |updated| ensures updated[i] in existing && updated[i] !in removed {
      assert (updated + removed)[i] == updated[i];
      var all := added + updated + removed;
      forall j | 0 <= j < |removed| ensures removed[j] != updated[i] {
        assert all[|added| + i] == updated[i] && all[|added| + |updated| + j] == removed[j];
      }
    }
    forall i | 0 <= i < |removed| ensures removed[i] in existing {
      assert (updated + removed)[|updated| + i] == removed[i];
    }
  }

  lemma AcceptedFits(base: ExecutionTopology, p: TopologyPatch)
    requires Accepted(base, p)
    ensures OperationFindings(Ids(p.addedNodes, NodeId), Ids(p.updatedNodes, NodeId), p.removedNodeIds,
      NodesById(base).Keys) == {}
    ensures OperationFindings(Ids(p.addedEdges, EdgeId), [], p.removedEdgeIds, EdgesById(base).Keys) == {}
    ensures p.schema.PatchV0?
    ensures forall i :: 0 <= i < |p.updatedNodes| && p.updatedNodes[i].nodeId in NodesById(base) ==>
      NodesById(base)[p.updatedNodes[i].nodeId] != p.updatedNodes[i]
  {
    var codes := PatchFindings(base, p);
    assert UnsupportedPatchSchema !in codes && NoOpNodeUpdate !in codes;
    assert OperationFindings(Ids(p.addedNodes, NodeId), Ids(p.updatedNodes, NodeId), p.removedNodeIds,
      NodesById(base).Keys) <= codes;
    assert OperationFindings(Ids(p.addedEdges, EdgeId), [], p.removedEdgeIds, EdgesById(base).Keys) <= codes;
  }

  function CanonicalPatch(p: TopologyPatch): TopologyPatch {
    p.(addedNodes := SortBy(p.addedNodes, NodeLeq),
       removedNodeIds := SortBy(p.removedNodeIds, StringLeq),
       updatedNodes := SortBy(p.updatedNodes, NodeLeq),
       addedEdges := SortBy(p.addedEdges, EdgeLeq),
       removedEdgeIds := SortBy(p.removedEdgeIds, StringLeq))
  }

  /** Removal, then replacement, then addition. */
  function Edit<T>(m: map<string, T>, removed: seq<string>, updated: seq<T>, added: seq<T>,
      id: T -> string): map<string, T> {
    m - SetOf(removed) + Index(updated, id) + Index(added, id)
  }

  /** Source: `apply_canonical_topology_patch` before validation. */
  ghost function Patched(base: ExecutionTopology, p: TopologyPatch): ExecutionTopology {
    base.(nodes := Listed(Edit(NodesById(base), p.removedNodeIds, p.updatedNodes, p.addedNodes, NodeId)),
          edges := Listed(Edit(EdgesById(base), p.removedEdgeIds, [], p.addedEdges, EdgeId)))
  }

  ghost function AddedIds<T>(before: map<string, T>, after: map<string, T>): seq<string> {
    Ordered(after.Keys - before.Keys)
  }

  function ChangedKeys<T(==)>(before: map<string, T>, after: map<string, T>): set<string> {
    set k | k in after && k in before && before[k] != after[k]
  }

  ghost function ChangedIds<T>(before: map<string, T>, after: map<string, T>): seq<string> {
    Ordered(ChangedKeys(before, after))
  }

  /** Source: `topology_diff`. */
  ghost function Diff(before: ExecutionTopology, after: ExecutionTopology): PatchDiff {
    PatchDiff(AddedIds(NodesById(before), NodesById(after)),
              AddedIds(NodesById(after), NodesById(before)),
              ChangedIds(NodesById(before), NodesById(after)),
              AddedIds(EdgesById(before), EdgesById(after)),
              AddedIds(EdgesById(after), EdgesById(before)))
  }

  /** What a canonical patch says it does. */
  function Announced(p: TopologyPatch): PatchDiff {
    PatchDiff(Ids(p.addedNodes, NodeId), p.removedNodeIds, Ids(p.updatedNodes, NodeId), Ids(p.addedEdges, EdgeId),
      p.removedEdgeIds)
  }

  // --------------------------------------------------------- the diff is the patch

  lemma EditEntries<T>(m: map<string, T>, removed: seq<string>, updated: seq<T>, added: seq<T>, id: T -> string)
    requires Keyed(m, id)
    ensures var a := Edit(m, removed, updated, added, id);
      Keyed(a, id) && forall k :: k in a ==> a[k] in m.Values || a[k] in updated || a[k] in added
  {
  }

  lemma EditDelta<T>(m: map<string, T>, removed: seq<string>, updated: seq<T>, added: seq<T>, id: T -> string)
    requires Keyed(m, id) && Fits(SetOf(Ids(added, id)), SetOf(Ids(updated, id)), SetOf(removed), m.Keys)
    ensures var a := Edit(m, removed, updated, added, id);
      && Keyed(a, id)
      && a.Keys - m.Keys == SetOf(Ids(added, id))
      && m.Keys - a.Keys == SetOf(removed)
      && forall k :: k in a && k in m ==> a[k] == if k in Index(updated, id) then Index(updated, id)[k] else m[k]
  {
    IndexKeys(updated, id);
    IndexKeys(added, id);
  }

  lemma EditChanges<T>(m: map<string, T>, removed: seq<string>, updated: seq<T>, added: seq<T>, id: T -> string)
    requires Keyed(m, id) && Fits(SetOf(Ids(added, id)), SetOf(Ids(updated, id)), SetOf(removed), m.Keys)
    requires NoRepeats(Ids(updated, id)) && forall i :: 0 <= i < |updated| && id(updated[i]) in m ==>
      m[id(updated[i])] != updated[i]
    ensures var a := Edit(m, removed, updated, added, id);
      ChangedKeys(m, a) == SetOf(Ids(updated, id))
  {
    var a, u := Edit(m, removed, updated, added, id), Index(updated, id);
    EditDelta(m, removed, updated, added, id);
    IndexKeys(updated, id);
    IndexKeys(added, id);
    forall k | k in u ensures k in a && k in m && m[k] != a[k] {
      var i :| 0 <= i < |updated| && updated[i] == u[k];
      assert id(updated[i]) == k;
    }
  }

  lemma SortedIds<T(!new)>(items: seq<T>, id: T -> string, leq: (T, T) -> bool)
    requires NoRepeats(Ids(items, id)) && forall a, b :: StringLeq(id(a), id(b)) == leq(a, b)
    ensures Ids(SortBy(items, leq), id) == Ordered(SetOf(Ids(items, id)))
    ensures SetOf(Ids(SortBy(items, leq), id)) == SetOf(Ids(items, id)) && NoRepeats(Ids(SortBy(items, leq), id))
  {
    MapSort(id, items, leq, StringLeq);
    SortedStrings(Ids(items, id));
  }

  lemma SortedStrings(s: seq<string>)
    requires NoRepeats(s)
    ensures SortBy(s, StringLeq) == Ordered(SetOf(s)) && SetOf(SortBy(s, StringLeq)) == SetOf(s) &&
      NoRepeats(SortBy(s, StringLeq))
  {
    var t := SortBy(s, StringLeq);
    StringLeqIsOrder();
    SortBySorted(s, StringLeq);
    SameMultiset(s, t);
    NoRepeatsIsMultiset(s, t);
    OrderedIncreases(SetOf(s));
    AscendingUnique(StringBefore, t, Ordered(SetOf(s)));
  }

  lemma ChangesSurvive<T>(m: map<string, T>, updated: seq<T>, u: seq<T>, id: T -> string)
    requires multiset(updated) == multiset(u)
    requires forall i :: 0 <= i < |updated| && id(updated[i]) in m ==> m[id(updated[i])] != updated[i]
    ensures forall i :: 0 <= i < |u| && id(u[i]) in m ==> m[id(u[i])] != u[i]
  {
    SameMultiset(updated, u);
    forall i | 0 <= i < |u| && id(u[i]) in m ensures m[id(u[i])] != u[i] {
      assert u[i] in updated;
    }
  }

  lemma PartDelta<T(!new)>(m: map<string, T>, removed: seq<string>, updated: seq<T>, added: seq<T>, id: T -> string,
      leq: (T, T) -> bool)
    requires Keyed(m, id) && OperationFindings(Ids(added, id), Ids(updated, id), removed, m.Keys) == {}
    requires forall i :: 0 <= i < |updated| && id(updated[i]) in m ==> m[id(updated[i])] != updated[i]
    requires forall a, b :: StringLeq(id(a), id(b)) == leq(a, b)
    ensures var after := Edit(m, SortBy(removed, StringLeq), SortBy(updated, leq), SortBy(added, leq), id);
      && Index(Listed(after), id) == after
      && AddedIds(m, after) == Ids(SortBy(added, leq), id)
      && AddedIds(after, m) == SortBy(removed, StringLeq)
      && ChangedIds(m, after) == Ids(SortBy(updated, leq), id)
  {
    var r, u, a := SortBy(removed, StringLeq), SortBy(updated, leq), SortBy(added, leq);
    OperationsFit(Ids(added, id), Ids(updated, id), removed, m.Keys);
    SortedIds(added, id, leq);
    SortedIds(updated, id, leq);
    SortedStrings(removed);
    EditDelta(m, r, u, a, id);
    ChangesSurvive(m, updated, u, id);
    EditChanges(m, r, u, a, id);
    ListedRoundTrip(Edit(m, r, u, a, id), id);
  }

  /** The diff computed from the patched topology is exactly what the patch announces,
      whether or not the base repeats an id. */
  lemma DiffIsPatch(base: ExecutionTopology, p: TopologyPatch)
    requires Accepted(base, p)
    ensures Diff(base, Patched(base, CanonicalPatch(p))) == Announced(CanonicalPatch(p))
  {
    AcceptedFits(base, p);
    PartDelta(NodesById(base), p.removedNodeIds, p.updatedNodes, p.addedNodes, NodeId, NodeLeq);
    PartDelta(EdgesById(base), p.removedEdgeIds, [], p.addedEdges, EdgeId, EdgeLeq);
    assert SortBy<TopologyEdge>([], EdgeLeq) == [];
  }

  // ------------------------------------------------------ a patch is its own effect

  /** The items of a canonical list are the ones its result holds under their ids. */
  lemma PartIsDetermined<T(!new)>(m: map<string, T>, removed: seq<string>, updated: seq<T>, added: seq<T>,
      id: T -> string)
    requires Keyed(m, id) && Fits(SetOf(Ids(added, id)), SetOf(Ids(updated, id)), SetOf(removed), m.Keys)
    requires NoRepeats(Ids(added, id)) && NoRepeats(Ids(updated, id))
    ensures var after := Edit(m, removed, updated, added, id);
      && (forall i :: 0 <= i < |added| ==> id(added[i]) in after && after[id(added[i])] == added[i])
      && (forall i :: 0 <= i < |updated| ==> id(updated[i]) in after && after[id(updated[i])] == updated[i])
  {
    IndexKeys(added, id);
    IndexKeys(updated, id);
    forall i | 0 <= i < |added|
      ensures id(added[i]) in Index(added, id) && Index(added, id)[id(added[i])] == added[i]
    {
      IndexFinds(added, id, i);
    }
    forall i | 0 <= i < |updated|
      ensures id(updated[i]) in Index(updated, id) && Index(updated, id)[id(updated[i])] == updated[i] &&
        id(updated[i]) !in Index(added, id)
    {
      IndexFinds(updated, id, i);
      assert Ids(updated, id)[i] in SetOf(Ids(updated, id));
    }
  }

  lemma SameItems<T>(a: seq<T>, b: seq<T>, id: T -> string, after: map<string, T>)
    requires Ids(a, id) == Ids(b, id)
    requires forall i :: 0 <= i < |a| ==> id(a[i]) in after && after[id(a[i])] == a[i]
    requires forall i :: 0 <= i < |b| ==> id(b[i]) in after && after[id(b[i])] == b[i]
    ensures a == b
  {
    assert |a| == |Ids(a, id)| == |b|;
    forall i | 0 <= i < |a| ensures a[i] == b[i] {
      assert Ids(a, id)[i] == Ids(b, id)[i];
    }
  }

  lemma PartHolds<T(!new)>(m: map<string, T>, removed: seq<string>, updated: seq<T>, added: seq<T>, id: T -> string,
      leq: (T, T) -> bool)
    requires Keyed(m, id) && OperationFindings(Ids(added, id), Ids(updated, id), removed, m.Keys) == {}
    requires forall a, b :: StringLeq(id(a), id(b)) == leq(a, b)
    ensures var u, a := SortBy(updated, leq), SortBy(added, leq);
      var after := Edit(m, SortBy(removed, StringLeq), u, a, id);
      && (forall i :: 0 <= i < |a| ==> id(a[i]) in after && after[id(a[i])] == a[i])
      && (forall i :: 0 <= i < |u| ==> id(u[i]) in after && after[id(u[i])] == u[i])
  {
    OperationsFit(Ids(added, id), Ids(updated, id), removed, m.Keys);
    SortedIds(added, id, leq);
    SortedIds(updated, id, leq);
    SortedStrings(removed);
    PartIsDetermined(m, SortBy(removed, StringLeq), SortBy(updated, leq), SortBy(added, leq), id);
  }

  /** Two accepted patches with the same effect have the same canonical form, so a
      proposal is identified by its result. */
  lemma PatchIsDetermined(base: ExecutionTopology, p: TopologyPatch, q: TopologyPatch)
    requires Accepted(base, p) && Accepted(base, q)
    requires Patched(base, CanonicalPatch(p)) == Patched(base, CanonicalPatch(q))
    ensures CanonicalPatch(p) == CanonicalPatch(q)
  {
    var c, d := CanonicalPatch(p), CanonicalPatch(q);
    AcceptedFits(base, p);
    AcceptedFits(base, q);
    DiffIsPatch(base, p);
    DiffIsPatch(base, q);
    var nodes, edges := NodesById(Patched(base, c)), EdgesById(Patched(base, c));
    ResultHolds(base, p);
    ResultHolds(base, q);
    SameItems(c.addedNodes, d.addedNodes, NodeId, nodes);
    SameItems(c.updatedNodes, d.updatedNodes, NodeId, nodes);
    SameItems(c.addedEdges, d.addedEdges, EdgeId, edges);
  }

  lemma ResultHolds(base: ExecutionTopology, p: TopologyPatch)
    requires Accepted(base, p)
    ensures var c := CanonicalPatch(p); var nodes, edges := NodesById(Patched(base, c)), EdgesById(Patched(base, c));
      && (forall i :: 0 <= i < |c.addedNodes| ==>
        NodeId(c.addedNodes[i]) in nodes && nodes[NodeId(c.addedNodes[i])] == c.addedNodes[i])
      && (forall i :: 0 <= i < |c.updatedNodes| ==>
        NodeId(c.updatedNodes[i]) in nodes && nodes[NodeId(c.updatedNodes[i])] == c.updatedNodes[i])
      && (forall i :: 0 <= i < |c.addedEdges| ==>
        EdgeId(c.addedEdges[i]) in edges && edges[EdgeId(c.addedEdges[i])] == c.addedEdges[i])
  {
    AcceptedFits(base, p);
    PartHolds(NodesById(base), p.removedNodeIds, p.updatedNodes, p.addedNodes, NodeId, NodeLeq);
    PartHolds(EdgesById(base), p.removedEdgeIds, [], p.addedEdges, EdgeId, EdgeLeq);
    PartDelta(NodesById(base), p.removedNodeIds, p.updatedNodes, p.addedNodes, NodeId, NodeLeq);
    PartDelta(EdgesById(base), p.removedEdgeIds, [], p.addedEdges, EdgeId, EdgeLeq);
    assert SortBy<TopologyEdge>([], EdgeLeq) == [];
  }

  // ------------------------------------------------------------- order of the lists

  ghost predicate SamePatch(p: TopologyPatch, q: TopologyPatch) {
    && p.schema == q.schema
    && multiset(p.addedNodes) == multiset(q.addedNodes) && multiset(p.removedNodeIds) == multiset(q.removedNodeIds)
    && multiset(p.updatedNodes) == multiset(q.updatedNodes) && multiset(p.addedEdges) == multiset(q.addedEdges)
    && multiset(p.removedEdgeIds) == multiset(q.removedEdgeIds)
  }

  lemma TiesById<T(!new)>(items: seq<T>, id: T -> string, leq: (T, T) -> bool)
    requires NoRepeats(Ids(items, id)) && forall a, b :: StringLeq(id(a), id(b)) == leq(a, b)
    ensures TotalPreorder(leq) && TiesAreEqual(leq, items)
  {
    StringLeqIsOrder();
    forall x, y, z | leq(x, y) && leq(y, z) ensures leq(x, z) {
      assert StringLeq(id(x), id(y)) && StringLeq(id(y), id(z));
    }
    forall x, y | x in items && y in items && leq(x, y) && leq(y, x) ensures x == y {
      var i :| 0 <= i < |items| && items[i] == x;
      var j :| 0 <= j < |items| && items[j] == y;
      assert Ids(items, id)[i] == Ids(items, id)[j];
    }
  }

  lemma SortedAlike<T(!new)>(s: seq<T>, t: seq<T>, id: T -> string, leq: (T, T) -> bool)
    requires NoRepeats(Ids(s, id)) && multiset(s) == multiset(t) && forall a, b :: StringLeq(id(a), id(b)) == leq(a, b)
    ensures SortBy(s, leq) == SortBy(t, leq)
  {
    TiesById(s, id, leq);
    SortForgetsOrder(s, t, leq);
  }

  lemma StringsSortedAlike(s: seq<string>, t: seq<string>)
    requires multiset(s) == multiset(t)
    ensures SortBy(s, StringLeq) == SortBy(t, StringLeq)
  {
    StringLeqIsOrder();
    SortForgetsOrder(s, t, StringLeq);
  }

  /** The canonical form of an accepted patch, and with it the result and the proposal
      id, does not depend on the order in which the patch lists its operations. */
  lemma CanonicalPatchForgetsOrder(base: ExecutionTopology, p: TopologyPatch, q: TopologyPatch)
    requires Accepted(base, p) && SamePatch(p, q)
    ensures CanonicalPatch(p) == CanonicalPatch(q)
  {
    AcceptedFits(base, p);
    OperationsFit(Ids(p.addedNodes, NodeId), Ids(p.updatedNodes, NodeId), p.removedNodeIds, NodesById(base).Keys);
    OperationsFit(Ids(p.addedEdges, EdgeId), [], p.removedEdgeIds, EdgesById(base).Keys);
    SortedAlike(p.addedNodes, q.addedNodes, NodeId, NodeLeq);
    SortedAlike(p.updatedNodes, q.updatedNodes, NodeId, NodeLeq);
    SortedAlike(p.addedEdges, q.addedEdges, EdgeId, EdgeLeq);
    StringsSortedAlike(p.removedNodeIds, q.removedNodeIds);
    StringsSortedAlike(p.removedEdgeIds, q.removedEdgeIds);
  }

  lemma MultisetOfIds<T, K>(s: seq<T>, t: seq<T>, id: T -> K)
    requires multiset(s) == multiset(t)
    ensures multiset(Ids(s, id)) == multiset(Ids(t, id))
  {
    var pi := MultisetGivesMatching(s, t);
    MatchingGivesMultiset(Ids(s, id), Ids(t, id), pi);
  }

  lemma SameTouches(s: seq<string>, t: seq<string>, existing: set<string>)
    requires multiset(s) == multiset(t)
    ensures Touches(s, existing) == Touches(t, existing) && Misses(s, existing) == Misses(t, existing)
  {
    SameMultiset(s, t);
    assert forall i :: 0 <= i < |s| ==> s[i] in t;
    assert forall i :: 0 <= i < |t| ==> t[i] in s;
  }

  lemma OperationsForgetOrder<T(!new)>(a: seq<T>, u: seq<T>, r: seq<string>, a': seq<T>, u': seq<T>, r': seq<string>,
                                       id: T -> string, existing: set<string>)
    requires multiset(a) == multiset(a') && multiset(u) == multiset(u') && multiset(r) == multiset(r')
    ensures OperationFindings(Ids(a, id), Ids(u, id), r, existing) ==
      OperationFindings(Ids(a', id), Ids(u', id), r', existing)
  {
    MultisetOfIds(a, a', id);
    MultisetOfIds(u, u', id);
    var x, y, x', y' := Ids(a, id), Ids(u, id), Ids(a', id), Ids(u', id);
    SameRepeats(x, x');
    SameRepeats(y, y');
    SameRepeats(r, r');
    SameRepeats(x + y + r, x' + y' + r');
    SameFilled(x, x');
    SameFilled(y, y');
    SameFilled(r, r');
    SameTouches(x, x', existing);
    SameTouches(y + r, y' + r', existing);
  }

  lemma NoOpForgetsOrder(base: ExecutionTopology, u: seq<TopologyNode>, v: seq<TopologyNode>)
    requires multiset(u) == multiset(v) && NoOp(base, u)
    ensures NoOp(base, v)
  {
    SameMultiset(u, v);
    var i :| 0 <= i < |u| && u[i].nodeId in NodesById(base) && NodesById(base)[u[i].nodeId] == u[i];
    assert u[i] in v;
    var k :| 0 <= k < |v| && v[k] == u[i];
  }

  /** Whether a patch is accepted, and which findings it gets, does not depend on the
      order of its lists either. */
  lemma FindingsForgetOrder(base: ExecutionTopology, p: TopologyPatch, q: TopologyPatch)
    requires SamePatch(p, q)
    ensures PatchFindings(base, p) == PatchFindings(base, q)
  {
    OperationsForgetOrder(p.addedNodes, p.updatedNodes, p.removedNodeIds, q.addedNodes, q.updatedNodes,
      q.removedNodeIds, NodeId, NodesById(base).Keys);
    OperationsForgetOrder(p.addedEdges, [], p.removedEdgeIds, q.addedEdges, [], q.removedEdgeIds, EdgeId,
      EdgesById(base).Keys);
    SameMultiset(p.updatedNodes, q.updatedNodes);
    if NoOp(base, p.updatedNodes) { NoOpForgetsOrder(base, p.updatedNodes, q.updatedNodes); }
    if NoOp(base, q.updatedNodes) { NoOpForgetsOrder(base, q.updatedNodes, p.updatedNodes); }
    SameMultiset(p.addedNodes, q.addedNodes);
    SameMultiset(p.removedNodeIds, q.removedNodeIds);
    SameMultiset(p.addedEdges, q.addedEdges);
    SameMultiset(p.removedEdgeIds, q.removedEdgeIds);
  }
}
