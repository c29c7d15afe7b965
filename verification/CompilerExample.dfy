/** A smallest bundle: the compiler and verifier theorems are not about nothing. */
module CompilerExample {
  import opened Machine
  import opened Orders
  import opened Graphs
  import opened Topology
  import opened SmallTopologies
  import opened CanonicalForm
  import opened Lint
  import opened Patch
  import opened Compiler

  const NODE := NodeNamed("n")

  const TOPOLOGY := Small([NODE], [])

  const SPEC := Spec("s", "r", "p", [Mapping("n", "w", ["e"], ["u"])], Policies(map[], map[], map[]))

  /** A review that accepted exactly this topology, these policies and this profile. */
  function ReviewFor(profile: Profile): Mode {
    Reviewed(Binding("claim", "review", TopologyHash(TOPOLOGY), PolicyHash(TOPOLOGY, SPEC.policies), "s", "r", None,
      IdentityFor(profile)))
  }

  /** Every parameter says yes. */
  function Permissive(): Env {
    Env(_ => 0, (_, _) => true, (_, _) => "", (_, _, _) => true, _ => true)
  }

  lemma TopologyIsValid()
    ensures Valid(TOPOLOGY)
  {
    OneLetter('n');
    NodeIsValid(TOPOLOGY, "n");
    SmallIsValid(TOPOLOGY);
  }

  lemma TopologyIsClean()
    ensures GraphSimulation.LintClean(TOPOLOGY)
  {
    TopologyIsValid();
    assert ArcsOf(TOPOLOGY) == map[];
    assert IsRanking(1, ArcsOf(TOPOLOGY), [0]);
    RankingIsAcyclic(1, ArcsOf(TOPOLOGY), [0]);
  }

  lemma TopologyIsCanonical()
    ensures Canonical(TOPOLOGY) == TOPOLOGY
  {
    assert SortBy([NODE], NodeLeq) == [NODE];
    assert MapSeq(CanonicalNode, [NODE]) == [NODE];
  }

  lemma RequestFits(profile: Profile, mode: Mode)
    requires mode.ProposalMode? || mode == ReviewFor(profile)
    ensures MappingsOk(TOPOLOGY.nodes, SPEC.mappings) && PoliciesOk(Permissive(), TOPOLOGY, SPEC.policies)
    ensures RequestOk(profile, TOPOLOGY, CompilerRequest(mode, SPEC))
  {
    OneLetter('w');
    OneLetter('s');
    OneLetter('r');
    OneLetter('p');
    assert Ids([NODE], NodeId) == ["n"] && Ids(SPEC.mappings, MappedId) == ["n"];
  }

  /** A proposal and a reviewed request both compile, under either profile. */
  lemma SomethingCompiles(profile: Profile, mode: Mode)
    requires mode.ProposalMode? || mode == ReviewFor(profile)
    ensures Compile(Permissive(), profile, TOPOLOGY, CompilerRequest(mode, SPEC)).Some?
  {
    TopologyIsClean();
    TopologyIsCanonical();
    RequestFits(profile, mode);
  }
}
