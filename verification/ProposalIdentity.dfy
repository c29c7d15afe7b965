/** When the content hash of a proposed topology determines the proposal id. */
module ProposalIdentity {
  import opened Orders
  import opened Topology
  import opened CanonicalForm
  import opened Rearrangement
  import opened SmallTopologies
  import opened Patch
  import opened PatchTargets
  import opened Expansion

  ghost function Result(base: ExecutionTopology, p: TopologyPatch): ExecutionTopology {
    Patched(base, CanonicalPatch(p))
  }

  /** The two proposals carry one content hash. */
  ghost predicate SameHash(base: ExecutionTopology, p: TopologyPatch, q: TopologyPatch)
    requires Proposable(base, p) && Proposable(base, q)
  {
    ItemOf(base, p).value.proposal.proposed == ItemOf(base, q).value.proposal.proposed
  }

  ghost predicate SameId(base: ExecutionTopology, p: TopologyPatch, q: TopologyPatch)
    requires Proposable(base, p) && Proposable(base, q)
  {
    ItemOf(base, p).value.id == ItemOf(base, q).value.id
  }

  /** No other proposal against the base has the content hash of this one. */
  ghost predicate HashIsId(base: ExecutionTopology, p: TopologyPatch)
    requires Proposable(base, p)
  {
    forall q :: Proposable(base, q) && SameHash(base, p, q) ==> SameId(base, p, q)
  }

  /** Every node of the result and every added edge has only one arrangement of its lists. */
  ghost predicate Rigid(base: ExecutionTopology, p: TopologyPatch) {
    RigidNodes(Result(base, p).nodes) && RigidEdges(p.addedEdges)
  }

  predicate RigidNodes(nodes: seq<TopologyNode>) {
    forall n :: n in nodes ==> OneArrangement(n)
  }

  predicate RigidEdges(edges: seq<TopologyEdge>) {
    forall e :: e in edges ==> AllAlike(e.resourceScope)
  }

  // ---------------------------------------------------------------- rigid: one result

  lemma RearrangedFixed<T(!new)>(a: seq<T>, b: seq<T>, same: (T, T) -> bool)
    requires Rearranged(a, b, same) && forall x, y :: x in a && y in b && same(x, y) ==> x == y
    ensures forall x :: x in a <==> x in b
  {
    var pi :| IsMatching(|a|, pi) && forall i :: 0 <= i < |a| ==> same(a[i], b[pi[i]]);
    var back := RearrangedBack(a, b, same);
    forall i | 0 <= i < |a| ensures a[i] in b { assert a[i] == b[pi[i]]; }
    forall j | 0 <= j < |b| ensures b[j] in a { assert a[back[j]] == b[j]; }
  }

  /** Two lists in strict order of their ids with the same entries are one list. */
  lemma SameMembersInOrder<T(!new)>(s: seq<T>, t: seq<T>, id: T -> string)
    requires Increasing(Ids(s, id)) && Increasing(Ids(t, id)) && forall x :: x in s <==> x in t
    ensures s == t
  {
    StringLeqIsOrder();
    var before := (x: T, y: T) => StringBefore(id(x), id(y));
    forall i, j | 0 <= i < j < |s| ensures before(s[i], s[j]) { assert StringBefore(Ids(s, id)[i], Ids(s, id)[j]); }
    forall i, j | 0 <= i < j < |t| ensures before(t[i], t[j]) { assert StringBefore(Ids(t, id)[i], Ids(t, id)[j]); }
    forall x, y ensures before(x, y) ==> !before(y, x) {
      if StringLeq(id(x), id(y)) && StringLeq(id(y), id(x)) { assert id(x) == id(y); }
    }
    AscendingUnique(before, s, t);
  }

  /** An entry of a list in id order is what the list holds under its id. */
  lemma MemberById<T(!new)>(s: seq<T>, id: T -> string, x: T)
    requires Increasing(Ids(s, id)) && x in s
    ensures id(x) in Index(s, id) && Index(s, id)[id(x)] == x
  {
    ListedOfAscending(s, id);
    var i :| 0 <= i < |s| && s[i] == x;
    IndexFinds(s, id, i);
  }

  lemma NewEdgeIsAdded(base: ExecutionTopology, p: TopologyPatch, e: TopologyEdge)
    requires Accepted(base, p) && e in Result(base, p).edges && e.edgeId !in EdgesById(base)
    ensures e in p.addedEdges
  {
    var c := CanonicalPatch(p);
    PatchedInIdOrder(base, c);
    MemberById(Result(base, p).edges, EdgeId, e);
    CanonicalEdgesFit(base, p);
    assert e in c.addedEdges;
    SortedMembers(p.addedEdges, c.addedEdges, e);
  }

  lemma SameEdgeIsEqual(base: ExecutionTopology, p: TopologyPatch, q: TopologyPatch, e: TopologyEdge, f: TopologyEdge)
    requires Accepted(base, p) && Accepted(base, q) && Rigid(base, p)
    requires e in Result(base, p).edges && f in Result(base, q).edges && SameEdge(e, f)
    ensures e == f
  {
    if e.edgeId in EdgesById(base) {
      AcceptedGivesTarget(base, p);
      AcceptedGivesTarget(base, q);
      MemberById(Result(base, p).edges, EdgeId, e);
      MemberById(Result(base, q).edges, EdgeId, f);
    } else {
      NewEdgeIsAdded(base, p, e);
      OneEdgeArrangementIff(e);
    }
  }

  lemma RigidResult(base: ExecutionTopology, p: TopologyPatch, q: TopologyPatch)
    requires Proposable(base, p) && Proposable(base, q) && Rigid(base, p) && SameHash(base, p, q)
    ensures SameId(base, p, q)
  {
    var r, s := Result(base, p), Result(base, q);
    HashIsResultUpToOrder(base, p, q);
    PatchedInIdOrder(base, CanonicalPatch(p));
    PatchedInIdOrder(base, CanonicalPatch(q));
    forall n, m | n in r.nodes && m in s.nodes && SameNode(n, m) ensures n == m { OneArrangementIff(n); }
    forall e, f | e in r.edges && f in s.edges && SameEdge(e, f) ensures e == f { SameEdgeIsEqual(base, p, q, e, f); }
    RearrangedFixed(r.nodes, s.nodes, SameNode);
    RearrangedFixed(r.edges, s.edges, SameEdge);
    SameMembersInOrder(r.nodes, s.nodes, NodeId);
    SameMembersInOrder(r.edges, s.edges, EdgeId);
    IdIsResult(base, p, q);
  }

  // --------------------------------------------------------- not rigid: two results

  /** A different arrangement of the result that is a target too gives a second proposal. */
  lemma AnotherProposal(base: ExecutionTopology, p: TopologyPatch, other: ExecutionTopology)
    requires Proposable(base, p) && SameUpToOrder(Result(base, p), other) && other != Result(base, p)
    requires IsTarget(base, other)
    ensures Proposable(base, PatchTo(base, other)) && SameHash(base, p, PatchTo(base, other)) &&
      !SameId(base, p, PatchTo(base, other))
  {
    PatchToAccepted(base, other);
    PatchToArrives(base, other);
    PatchToIsCanonical(base, other);
    ValidForgetsOrder(Result(base, p), other);
    HashIsResultUpToOrder(base, p, PatchTo(base, other));
    IdIsResult(base, p, PatchTo(base, other));
  }

  lemma KeysFilled<T>(s: seq<T>, id: T -> string)
    requires forall i :: 0 <= i < |s| ==> Filled(id(s[i]))
    ensures AllKeysFilled(Index(s, id).Keys)
  {
    var m := Index(s, id);
    forall k | k in m ensures Filled(k) {
      var i :| 0 <= i < |s| && s[i] == m[k];
    }
  }

  lemma ValidKeysFilled(t: ExecutionTopology)
    requires Valid(t)
    ensures AllKeysFilled(NodesById(t).Keys) && AllKeysFilled(EdgesById(t).Keys)
  {
    forall i | 0 <= i < |t.nodes| ensures Filled(NodeId(t.nodes[i])) { assert ValidNode(t, t.nodes[i]); }
    forall i | 0 <= i < |t.edges| ensures Filled(EdgeId(t.edges[i])) { assert ValidEdge(t, t.edges[i]); }
    KeysFilled(t.nodes, NodeId);
    KeysFilled(t.edges, EdgeId);
  }

  lemma SameIds<T>(s: seq<T>, t: seq<T>, id: T -> string)
    requires Ids(s, id) == Ids(t, id)
    ensures Index(s, id).Keys == Index(t, id).Keys
  {
    IndexKeys(s, id);
    IndexKeys(t, id);
  }

  /** Changing an entry under its id keeps a list reachable. */
  lemma ChangeIsTarget<T(!new)>(before: map<string, T>, s: seq<T>, id: T -> string, i: nat, x: T)
    requires ListTarget(before, s, id) && AllKeysFilled(Index(s, id).Keys) && i < |s| && id(x) == id(s[i])
    ensures ListTarget(before, s[i := x], id)
  {
    assert Ids(s[i := x], id) == Ids(s, id);
    SameIds(s[i := x], s, id);
  }

  lemma SameUpToOrderAtEdge(t: ExecutionTopology, i: nat, f: TopologyEdge)
    requires i < |t.edges| && SameEdge(t.edges[i], f)
    ensures SameUpToOrder(t, t.(edges := t.edges[i := f]))
  {
    var pi: seq<nat> := seq(|t.edges|, k => k);
    assert IsMatching(|t.edges|, pi);
    assert forall k :: 0 <= k < |t.edges| ==> SameEdge(t.edges[k], t.edges[i := f][pi[k]]);
    forall x | x in t.nodes ensures SameNode(x, x) { SameNodeReflexive(x); }
    PermutationIsRearranged(t.nodes, t.nodes, SameNode);
  }

  lemma CommonKeptAfter(base: map<string, TopologyEdge>, s: seq<TopologyEdge>, i: nat, f: TopologyEdge)
    requires i < |s| && f.edgeId == s[i].edgeId && f.edgeId !in base && Increasing(Ids(s, EdgeId))
    requires CommonKept(base, Index(s, EdgeId))
    ensures CommonKept(base, Index(s[i := f], EdgeId))
  {
    var t := s[i := f];
    assert Ids(t, EdgeId) == Ids(s, EdgeId);
    SameIds(s, t, EdgeId);
    forall k | k in base && k in Index(t, EdgeId) ensures base[k] == Index(t, EdgeId)[k] {
      var e := Index(t, EdgeId)[k];
      var j :| 0 <= j < |t| && t[j] == e;
      assert j != i;
      MemberById(s, EdgeId, s[j]);
    }
  }

  lemma AddedEdgeIsNew(base: ExecutionTopology, p: TopologyPatch, e: TopologyEdge) returns (i: nat)
    requires Accepted(base, p) && e in p.addedEdges
    ensures i < |Result(base, p).edges| && Result(base, p).edges[i] == e && e.edgeId !in EdgesById(base)
  {
    var c := CanonicalPatch(p);
    AcceptedFits(base, p);
    OperationsFit(Ids(p.addedEdges, EdgeId), [], p.removedEdgeIds, EdgesById(base).Keys);
    var j :| 0 <= j < |p.addedEdges| && p.addedEdges[j] == e;
    assert Ids(p.addedEdges, EdgeId)[j] in SetOf(Ids(p.addedEdges, EdgeId));
    SortedMembers(c.addedEdges, p.addedEdges, e);
    var k :| 0 <= k < |c.addedEdges| && c.addedEdges[k] == e;
    ResultHolds(base, p);
    assert EdgesById(Result(base, p))[EdgeId(c.addedEdges[k])] == e;
    i :| 0 <= i < |Result(base, p).edges| && Result(base, p).edges[i] == e;
  }

  /** A proposal that changes more than the order of lists. */
  ghost predicate ChangesContent(base: ExecutionTopology, p: TopologyPatch) {
    Proposable(base, p) && !SameUpToOrder(Result(base, p), Collected(base))
  }

  lemma NodeGivesTwo(base: ExecutionTopology, p: TopologyPatch, i: nat, m: TopologyNode)
    requires ChangesContent(base, p) && i < |Result(base, p).nodes|
    requires SameNode(Result(base, p).nodes[i], m) && m != Result(base, p).nodes[i]
    ensures !HashIsId(base, p)
  {
    var r := Result(base, p);
    var other := r.(nodes := r.nodes[i := m]);
    AcceptedGivesTarget(base, p);
    ValidKeysFilled(r);
    SameUpToOrderAt(r, i, m);
    ChangeIsTarget(NodesById(base), r.nodes, NodeId, i, m);
    assert other.nodes[i] != r.nodes[i];
    AnotherProposal(base, p, other);
  }

  lemma EdgeGivesTwo(base: ExecutionTopology, p: TopologyPatch, i: nat, f: TopologyEdge)
    requires ChangesContent(base, p) && i < |Result(base, p).edges| && f.edgeId !in EdgesById(base)
    requires SameEdge(Result(base, p).edges[i], f) && f != Result(base, p).edges[i]
    ensures !HashIsId(base, p)
  {
    var r := Result(base, p);
    var other := r.(edges := r.edges[i := f]);
    AcceptedGivesTarget(base, p);
    ValidKeysFilled(r);
    SameUpToOrderAtEdge(r, i, f);
    ChangeIsTarget(EdgesById(base), r.edges, EdgeId, i, f);
    CommonKeptAfter(EdgesById(base), r.edges, i, f);
    assert other.edges[i] != r.edges[i];
    AnotherProposal(base, p, other);
  }

  lemma NodeNotRigid(base: ExecutionTopology, p: TopologyPatch)
    requires ChangesContent(base, p) && !RigidNodes(Result(base, p).nodes)
    ensures !HashIsId(base, p)
  {
    var i, m := FindLoose(Result(base, p).nodes);
    NodeGivesTwo(base, p, i, m);
  }

  lemma FindLoose(nodes: seq<TopologyNode>) returns (i: nat, m: TopologyNode)
    requires !RigidNodes(nodes)
    ensures i < |nodes| && SameNode(nodes[i], m) && m != nodes[i]
  {
    i :| 0 <= i < |nodes| && !OneArrangement(nodes[i]);
    m := OtherArrangement(nodes[i]);
  }

  lemma EdgeNotRigid(base: ExecutionTopology, p: TopologyPatch)
    requires ChangesContent(base, p) && !RigidEdges(p.addedEdges)
    ensures !HashIsId(base, p)
  {
    var e :| e in p.addedEdges && !AllAlike(e.resourceScope);
    var i := AddedEdgeIsNew(base, p, e);
    OneEdgeArrangementIff(e);
    var f :| SameEdge(e, f) && f != e;
    EdgeGivesTwo(base, p, i, f);
  }

  lemma RigidMeansOneId(base: ExecutionTopology, p: TopologyPatch)
    requires Proposable(base, p) && Rigid(base, p)
    ensures HashIsId(base, p)
  {
    forall q | Proposable(base, q) && SameHash(base, p, q) ensures SameId(base, p, q) { RigidResult(base, p, q); }
  }

  /** For a proposal that changes more than list order, the content hash determines the id
      exactly when every node of the result and every added edge has only one arrangement:
      edges of the base cannot be replaced, so theirs do not matter. */
  lemma HashIsIdIff(base: ExecutionTopology, p: TopologyPatch)
    requires ChangesContent(base, p)
    ensures HashIsId(base, p) <==> Rigid(base, p)
  {
    if Rigid(base, p) {
      RigidMeansOneId(base, p);
    } else if RigidEdges(p.addedEdges) {
      NodeNotRigid(base, p);
    } else {
      EdgeNotRigid(base, p);
    }
  }

  /** For a base whose ids are unique, collecting its lists by id is a rearrangement. */
  lemma CollectedIsRearranged(base: ExecutionTopology, t: ExecutionTopology)
    requires KeysUnique(base) && Valid(t)
    ensures SameUpToOrder(t, Collected(base)) <==> SameUpToOrder(t, base)
  {
    ValidKeysUnique(t);
    UniqueKeysAreHarmless(t);
    CanonicalIffSameUpToOrder(t, Collected(base));
    CanonicalIffSameUpToOrder(t, base);
    UniqueKeysAreHarmless(base);
    CollectedIsPermuted(base.nodes, NodeId);
    CollectedIsPermuted(base.edges, EdgeId);
    SameUpToOrderLists(base, Listed(NodesById(base)), Listed(EdgesById(base)));
    CanonicalIffSameUpToOrder(base, Collected(base));
  }

  lemma {:induction false} SameSizeMultiset<T>(s: seq<T>, t: seq<T>)
    requires NoRepeats(s) && NoRepeats(t) && forall x :: x in s <==> x in t
    ensures multiset(s) == multiset(t)
  {
    forall x ensures multiset(s)[x] == multiset(t)[x] {
      CountOnce(s, x);
      CountOnce(t, x);
      assert (x in multiset(s) <==> x in s) && (x in multiset(t) <==> x in t);
    }
  }

  lemma CollectedIsPermuted<T(!new)>(s: seq<T>, id: T -> string)
    requires forall i, j :: 0 <= i < j < |s| ==> id(s[i]) != id(s[j])
    ensures multiset(Listed(Index(s, id))) == multiset(s)
  {
    var m := Index(s, id);
    var t := Listed(m);
    ListedRoundTrip(m, id);
    forall i, j | 0 <= i < j < |t| ensures t[i] != t[j] { assert Ids(t, id)[i] != Ids(t, id)[j]; }
    forall x ensures x in s <==> x in t {
      if x in s {
        var i :| 0 <= i < |s| && s[i] == x;
        IndexFinds(s, id, i);
        var k :| 0 <= k < |t| && t[k] == Index(t, id)[id(x)];
      }
      if x in t {
        var k :| 0 <= k < |t| && t[k] == x;
        assert t[k] == m[Ordered(m.Keys)[k]];
      }
    }
    SameSizeMultiset(s, t);
  }

  /** With unique ids in the base: for a proposal whose result is no rearrangement of the base. */
  lemma HashIsIdIffUnique(base: ExecutionTopology, p: TopologyPatch)
    requires Proposable(base, p) && KeysUnique(base) && !SameUpToOrder(Result(base, p), base)
    ensures HashIsId(base, p) <==> Rigid(base, p)
  {
    CollectedIsRearranged(base, Result(base, p));
    HashIsIdIff(base, p);
  }

  // --------------------------------------------------------------------- witness

  function InputNode(id: string, inputs: seq<NodeInput>): TopologyNode {
    NodeNamed(id).(inputs := inputs)
  }

  /** A topology of one node with these inputs. */
  function OneNode(node: TopologyNode): ExecutionTopology {
    Small([node], [])
  }

  /** The patch that gives the one node its new form. */
  function Updating(node: TopologyNode): TopologyPatch {
    TopologyPatch(PatchV0, [], [], [node], [], [])
  }

  predicate FilledInput(x: NodeInput) {
    Filled(x.name) && Filled(x.schemaId) && Filled(x.artifactSelector)
  }

  lemma InputNodeValid(id: string, x: NodeInput, y: NodeInput)
    requires Filled(id) && FilledInput(x) && FilledInput(y) && x.name != y.name
    ensures Valid(OneNode(InputNode(id, [x, y])))
  {
    var t := OneNode(InputNode(id, [x, y]));
    NodeIsValid(t, id);
    assert t.nodes == [InputNode(id, [x, y])] && t.edges == [];
    SmallIsValid(t);
  }

  lemma SingleIndex<T(!new)>(x: T, id: T -> string)
    ensures Index([x], id) == map[id(x) := x] && Listed(map[id(x) := x]) == [x] && Increasing(Ids([x], id))
  {
    assert [x][..0] == [] && Index([x][..0], id) == map[];
    ListedOfAscending([x], id);
  }

  lemma NothingListed<T>()
    ensures Listed<T>(map[]) == [] && Ordered({}) == []
  {
  }

  lemma SingleUpdate(a: TopologyNode, b: TopologyNode)
    requires a.nodeId == b.nodeId && a != b
    ensures var m, m' := map[a.nodeId := a], map[b.nodeId := b];
      Fresh(m, m') == map[] && Replaced(m, m') == m' && m.Keys - m'.Keys == {} && TouchedKeys(m, m') == {a.nodeId}
  {
  }

  lemma UpdatingIsPatchTo(a: TopologyNode, b: TopologyNode)
    requires a.nodeId == b.nodeId && a != b && Filled(a.nodeId)
    ensures PatchTo(OneNode(a), OneNode(b)) == Updating(b) && IsTarget(OneNode(a), OneNode(b))
  {
    SingleIndex(a, NodeId);
    SingleIndex(b, NodeId);
    SingleUpdate(a, b);
    NothingListed<TopologyNode>();
    NothingListed<TopologyEdge>();
    var none: map<string, TopologyEdge> := map[];
    assert EdgesById(OneNode(a)) == none && EdgesById(OneNode(b)) == none;
    assert Fresh(none, none) == none && none.Keys - none.Keys == {} && TouchedKeys(none, none) == {};
    assert Ids([], EdgeId) == [];
  }

  lemma UpdatingIsProposable(a: TopologyNode, b: TopologyNode)
    requires a.nodeId == b.nodeId && a != b && Filled(a.nodeId) && Valid(OneNode(b))
    ensures Proposable(OneNode(a), Updating(b)) && Result(OneNode(a), Updating(b)) == OneNode(b)
  {
    UpdatingIsPatchTo(a, b);
    PatchToAccepted(OneNode(a), OneNode(b));
    PatchToArrives(OneNode(a), OneNode(b));
    PatchToIsCanonical(OneNode(a), OneNode(b));
  }

  lemma OneNodeRearranged(b: TopologyNode, c: TopologyNode)
    requires b != c && c == b.(inputs := c.inputs) && multiset(b.inputs) == multiset(c.inputs)
    ensures SameUpToOrder(OneNode(b), OneNode(c)) && OneNode(b) != OneNode(c)
  {
    SameNodeReflexive(b);
    SameUpToOrderAt(OneNode(b), 0, c);
    assert [b][0 := c] == [c] && [b][0] != [c][0];
  }

  lemma TwoIds(a: TopologyNode, b: TopologyNode, c: TopologyNode)
    requires a.nodeId == b.nodeId && a != b && a != c && Filled(a.nodeId) && Valid(OneNode(b)) && Valid(OneNode(c))
    requires b != c && c == b.(inputs := c.inputs) && multiset(b.inputs) == multiset(c.inputs)
    ensures var base, p, q := OneNode(a), Updating(b), Updating(c);
      Proposable(base, p) && Proposable(base, q) && SameHash(base, p, q) && !SameId(base, p, q)
  {
    UpdatingIsProposable(a, b);
    UpdatingIsProposable(a, c);
    OneNodeRearranged(b, c);
    HashIsResultUpToOrder(OneNode(a), Updating(b), Updating(c));
    IdIsResult(OneNode(a), Updating(b), Updating(c));
  }

  /** One content hash, two proposal ids: two patches that give one node the same two inputs in
      different order. */
  lemma OneHashTwoIds(id: string, x: NodeInput, y: NodeInput)
    requires Filled(id) && FilledInput(x) && FilledInput(y) && x.name != y.name
    ensures var base, p, q := OneNode(NodeNamed(id)), Updating(InputNode(id, [x, y])), Updating(InputNode(id, [y, x]));
      Proposable(base, p) && Proposable(base, q) && SameHash(base, p, q) && !SameId(base, p, q)
  {
    InputNodeValid(id, x, y);
    InputNodeValid(id, y, x);
    TwoOrders(id, x, y);
    TwoIds(NodeNamed(id), InputNode(id, [x, y]), InputNode(id, [y, x]));
  }

  lemma TwoOrders(id: string, x: NodeInput, y: NodeInput)
    requires x.name != y.name
    ensures var a, b, c := NodeNamed(id), InputNode(id, [x, y]), InputNode(id, [y, x]);
      a != b && a != c && b != c && c == b.(inputs := c.inputs) && multiset(b.inputs) == multiset(c.inputs)
  {
    assert [x, y][0] != [y, x][0];
  }

  /** A patch that only reorders the inputs of a node is admitted, although its result is a
      rearrangement of the base. */
  lemma ReorderIsProposable(id: string, x: NodeInput, y: NodeInput)
    requires Filled(id) && FilledInput(x) && FilledInput(y) && x.name != y.name
    ensures var base, p := OneNode(InputNode(id, [x, y])), Updating(InputNode(id, [y, x]));
      Proposable(base, p) && SameUpToOrder(Result(base, p), base)
  {
    InputNodeValid(id, y, x);
    TwoOrders(id, x, y);
    UpdatingIsProposable(InputNode(id, [x, y]), InputNode(id, [y, x]));
    OneNodeRearranged(InputNode(id, [y, x]), InputNode(id, [x, y]));
  }
}
