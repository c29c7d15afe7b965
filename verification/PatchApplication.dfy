/** Applying a patch: maps edited in place, listed in id order, validated and diffed. */
module PatchApplication {
  import opened Orders
  import opened Topology
  import opened Patch

  datatype Application =
    | Refused(findings: set<PatchCode>)
    | InvalidResult
    | Applied(after: ExecutionTopology, diff: PatchDiff)

  lemma OrderedLeast(ks: set<string>, k: string)
    requires IsLeast(k, ks)
    ensures Ordered(ks) == [k] + Ordered(ks - {k})
  {
    StringLeqIsOrder();
    OrderedIncreases(ks);
    OrderedIncreases(ks - {k});
    var s := Ordered(ks);
    assert k in s;
    var i :| 0 <= i < |s| && s[i] == k;
    assert s[0] in s;
    assert StringLeq(s[0], k);
    assert s[0] == k;
    forall o ensures o in s[1..] <==> o in ks - {k} { AscendingTail(StringBefore, s, o); }
    AscendingTail(StringBefore, s, k);
    AscendingUnique(StringBefore, s[1..], Ordered(ks - {k}));
  }

  lemma OrderedStep(r: seq<string>, todo: set<string>, ks: set<string>, k: string)
    requires r + Ordered(todo) == Ordered(ks) && IsLeast(k, todo)
    ensures r + [k] + Ordered(todo - {k}) == Ordered(ks)
  {
    OrderedLeast(todo, k);
  }

  /** The iteration of an ordered map's keys. */
  method KeysInOrder(ks: set<string>) returns (r: seq<string>)
    ensures r == Ordered(ks)
  {
    r := [];
    var todo := ks;
    while todo != {}
      invariant r + Ordered(todo) == Ordered(ks)
      decreases |todo|
    {
      ghost var least := LeastExists(todo);
      var k :| k in todo && IsLeast(k, todo);
      OrderedStep(r, todo, ks, k);
      r, todo := r + [k], todo - {k};
    }
  }

  method ValuesInOrder<T(0)>(m: map<string, T>) returns (items: seq<T>)
    ensures items == Listed(m)
  {
    var ks := KeysInOrder(m.Keys);
    ghost var all := Listed(m);
    items := [];
    for i := 0 to |ks|
      invariant |items| == i && |ks| == |all| && items == all[..i]
    {
      assert ks[i] in m && all[i] == m[ks[i]];
      items := items + [m[ks[i]]];
    }
  }

  lemma IndexExtends<T>(base: map<string, T>, items: seq<T>, id: T -> string, i: nat)
    requires i < |items|
    ensures (base + Index(items[..i], id))[id(items[i]) := items[i]] == base + Index(items[..i + 1], id)
  {
    assert items[..i + 1][..i] == items[..i];
  }

  method InsertAll<T>(m: map<string, T>, items: seq<T>, id: T -> string) returns (r: map<string, T>)
    ensures r == m + Index(items, id)
  {
    r := m;
    for i := 0 to |items|
      invariant r == m + Index(items[..i], id)
    {
      IndexExtends(m, items, id, i);
      r := r[id(items[i]) := items[i]];
    }
    assert items[..|items|] == items;
  }

  method RemoveAll<T>(m: map<string, T>, ids: seq<string>) returns (r: map<string, T>)
    ensures r == m - SetOf(ids)
  {
    r := m;
    for i := 0 to |ids|
      invariant r == m - SetOf(ids[..i])
    {
      RemovesNext(m, ids, i);
      r := r - {ids[i]};
    }
    assert ids[..|ids|] == ids;
  }

  lemma RemovesNext<T>(m: map<string, T>, ids: seq<string>, i: nat)
    requires i < |ids|
    ensures m - SetOf(ids[..i]) - {ids[i]} == m - SetOf(ids[..i + 1])
  {
    assert SetOf(ids[..i + 1]) == SetOf(ids[..i]) + {ids[i]};
  }

  /** Removes, then inserts replacements, then inserts additions. */
  method EditMap<T>(m: map<string, T>, removed: seq<string>, updated: seq<T>, added: seq<T>, id: T -> string)
    returns (r: map<string, T>)
    ensures r == Edit(m, removed, updated, added, id)
  {
    r := RemoveAll(m, removed);
    r := InsertAll(r, updated, id);
    r := InsertAll(r, added, id);
  }

  /** Source: `topology_diff`. */
  method TopologyDiff(before: ExecutionTopology, after: ExecutionTopology) returns (d: PatchDiff)
    ensures d == Diff(before, after)
  {
    var bn, an := NodesById(before), NodesById(after);
    var be, ae := EdgesById(before), EdgesById(after);
    var addedNodes := KeysInOrder(an.Keys - bn.Keys);
    var removedNodes := KeysInOrder(bn.Keys - an.Keys);
    var updatedNodes := KeysInOrder(ChangedKeys(bn, an));
    var addedEdges := KeysInOrder(ae.Keys - be.Keys);
    var removedEdges := KeysInOrder(be.Keys - ae.Keys);
    d := PatchDiff(addedNodes, removedNodes, updatedNodes, addedEdges, removedEdges);
  }

  /** Source: `apply_topology_patch`: a refused patch changes nothing, an accepted one
      yields a valid topology whose diff is the patch. */
  method ApplyPatch(base: ExecutionTopology, patch: TopologyPatch) returns (result: Application)
    ensures result.Refused? <==> !Accepted(base, patch)
    ensures result.Refused? ==> result.findings == PatchFindings(base, patch)
    ensures result.InvalidResult? <==> Accepted(base, patch) && !Valid(Patched(base, CanonicalPatch(patch)))
    ensures result.Applied? ==>
      Valid(result.after) && result.after == Patched(base, CanonicalPatch(patch)) &&
        result.diff == Announced(CanonicalPatch(patch))
  {
    if !Accepted(base, patch) { return Refused(PatchFindings(base, patch)); }
    var p := CanonicalPatch(patch);
    var nodes := EditMap(NodesById(base), p.removedNodeIds, p.updatedNodes, p.addedNodes, NodeId);
    var edges := EditMap(EdgesById(base), p.removedEdgeIds, [], p.addedEdges, EdgeId);
    var nodeList := ValuesInOrder(nodes);
    var edgeList := ValuesInOrder(edges);
    var after := base.(nodes := nodeList, edges := edgeList);
    if !Valid(after) { return InvalidResult; }
    var diff := TopologyDiff(base, after);
    DiffIsPatch(base, patch);
    result := Applied(after, diff);
  }
}
