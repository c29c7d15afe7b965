# CaseGraphen core: verified model

A Dafny 4.11 model of the parts of CaseGraphen that carry its guarantees, with the
guarantees proved for all inputs, all runs and all reachable states.
`dafny verify dfyconfig.toml` checks everything.

**Scheduling and linting.** `Graphs` defines paths, cycles, reachability and longest
paths of a graph given by numbered arcs. `Kahn`, `Reachability` and `Lint` hold the
linter's loops, each proved exact against those definitions; `Redundancy` says when the
edges it flags may be deleted together. `Schedule`, `Timing` and
`Simulation` hold the discrete-event simulator; `TopologyRuns` says what a run means in
terms of nodes, edges, claims and limits, `GraphSimulation` joins linter and simulator,
`Sampling` adds the generator and the retries, `Iterations` the report over all iterations.
`Renumbering`, `LintOrder` and `TimeOrder` say what of this depends on the order of a
topology's lists. The invariant of the event loop says that the indegree and usage counters
are exact, so that neither of the simulator's two `expect` calls can fail; a ghost log
of start and finish times and a potential argument over "drained" time give the makespan
bounds. Saturation at 2^64 - 1 is kept throughout, and all bounds hold in spite of it.

**Durable idempotency.** `ControlPlane` gives the journal and the pure meaning of the
operations, `Durability` the protocol as a state machine (write-ahead marker, delegated
call, commit, notification, crash, restart; every write may succeed, fail and leave the
old file, or fail after the new file is in place). `Answers` says what a caller gets, from
journal, request and decision alone. `Delegation` holds at-most-once over every run from any
file, `Decisions` that every answer is the decision its delegated call made, `DurableRuns` the
theorems over every run from a missing file, `Histories` and `Ambiguity` what the past of a run
says about its state, `Polling` what a polling client sees, and `ControlPlaneState` the object
that updates its fields and its file, tied to those steps.

**Topologies and patches.** `Topology` holds the records and their validation, `Validation`
what it reports and what it guarantees. `CanonicalForm` holds the normal form,
`CanonicalMeaning` the order it lists things in, `Rearrangement` what a change of list order
keeps, `Patch` and `PatchApplication` typed patches and diffs, `PatchCodes` what each refusal
of a patch reports, `PatchTargets` which topologies a patch can reach. `Budget` and
`BudgetRuns` hold the expansion controller over any fingerprints and proposals, `Rounds` what
a round decides and why it halts, `ExpansionController` the object, `Expansion` its use on
topologies, `ProposalIdentity` when a content hash determines a proposal id.

**Compiler.** `Compiler` is the deterministic compiler with both profiles and the
recompiling verifier, `CompilerProofs` what the two guarantee together, `Bundles` what the
files of a bundle say, `CompilerSteps` the compiler's loops. `PathSegment` is the store-path
encoder. `SmallTopologies` and `CompilerExample` supply instances for statements that something
can happen.

Representation choices. A digest is represented by the value it covers, so equal digests
mean equal contents. Serialized bytes are a document plus a layout; the canonical layout
is one of them, parsing ignores it. Closed sets of identifier strings (schemas, refusal
codes, artifact paths, compiler versions, mode names) are enumerations with a case for any other
text. Costs are reals. Sequence numbers are unbounded; `DurableRuns.CounterBounded`
shows that 2^64 steps are needed to leave 64 bits. Calibrations, delegate answers,
file-system outcomes, byte lengths, policy and plan validators and the lint passes that
read policy documents are parameters.

Findings about the code that the proofs brought out:

- The exclusion-edge exemption in the linter's conflict pass can never decide anything:
  such an edge orders its ends, and ordered pairs are skipped first (`Lint.ProtectedIsOrdered`).
- Each flagged edge may be deleted alone, all together only under a condition: what is left
  must join the ends of each. In an acyclic topology the flagged edges of one kind may go
  together exactly when each has a way round of that kind through a third node, so bundles of
  parallel edges are the only obstacle (`Redundancy.FlagsOfKindDeletable`,
  `Redundancy.FlagsDeletable`); valid topologies with such bundles exist
  (`Redundancy.ValidFlagsCannotAllGo`), and in a cyclic graph ways round are not enough
  (`Redundancy.WaysRoundCanVanish`).
- Canonicalization forgets list order exactly when entries that share a sort key have the
  same canonical form (`CanonicalForm.OrderForgottenIff`). Unique ids, which validation
  demands, are sufficient and not necessary.
- A reconnect cursor taken from polling, unlike one taken from an acknowledgement, can be
  ahead of the file and then skips a response after a restart. It can be so exactly when a
  commit failed before the rename and no write has reached the file since
  (`DurableRuns.CursorAcrossRestart`, `Histories.MemoryAheadIff`, `Histories.PolledCursorIsSafe`).
- A request is refused as ambiguous exactly when its marker was left behind by an attempt that
  was interrupted or by a write that failed after the rename; this happens to requests that
  were never delegated too (`Ambiguity.AmbiguousIff`, `Ambiguity.UndelegatedIff`).
- A response once served to a retry under a new request id is durable, but the retry can
  later be refused: exactly when another request has been journaled under its id
  (`DurableRuns.RetryIsDurable`, with such a run in `DurableRuns.RetryIdCanBeTaken`).
- `spawned_nodes` is the true number of added nodes in every run exactly when the limit is
  below 2^32 - 1; at that limit one oversized proposal is admitted and miscounted
  (`BudgetRuns.SpawnedIsTrueTotal`, `BudgetRuns.OversizedIsMiscounted`).
- Proposal ids cover the lists inside nodes as given, content hashes do not: one content hash
  can carry two proposal ids (`ProposalIdentity.OneHashTwoIds`). For a proposal that changes
  more than list order the hash determines the id exactly when every node of the result and
  every added edge has only one arrangement of its lists (`ProposalIdentity.HashIsIdIff`).
- A patch that only reorders lists inside nodes is admitted as a proposal, and then no review
  of it is ever accepted (`ProposalIdentity.ReorderIsProposable`, `Expansion.ReviewableIff`).
- The linter's verdict depends on the content hash only; the simulated time does not, since
  ready nodes are tried in list order (`LintOrder.LintForgetsOrder`, `TimeOrder.OrderShows`).
- The seed 0x9e3779b97f4a7c15 makes the generator draw zero for ever: every sampled value is the
  minimum of its range and every node with a failure probability fails in every iteration
  (`Sampling.DrawsZeroIff`, `Sampling.DrawnInRange`, `Sampling.SeededRng.Attempts`).

## Model

| member | source | states |
|---|---|---|
| Kahn.DagMetrics | src/graph_lint.rs:493-527 | the acyclic flag holds iff no directed cycle exists; if acyclic, the reported length is attained by some path and bounds all; the width is the size of the largest set of nodes of equal longest-path depth, among all nodes if acyclic and otherwise among those no cycle leads to |
| Kahn.ReleasedIsGrounded | src/graph_lint.rs:493-527 | once the queue is empty, exactly the nodes no cycle leads to have been released, each with its longest-path depth |
| Kahn.DepthMapUnique | src/graph_lint.rs:493-527 | longest-path depths are unique, so the width is well defined |
| Kahn.LevelIsAntichain | src/graph_lint.rs:493-527 | nodes of equal depth cannot reach each other |
| Kahn.CriticalPath | src/graph_lint.rs:462-491 | no result iff there are no nodes or some node has no estimate; otherwise the maximum duration sum over all paths, saturated |
| Kahn.SuccessorsOf | src/graph_lint.rs:462-491 | turning predecessor lists into successor lists keeps every arc with its multiplicity |
| Reachability.ReachableIgnoringEdge | src/graph_lint.rs:529-553 | true iff a non-empty path avoiding the ignored edge exists |
| Reachability.ReachableIgnoringEdgeOfKind | src/graph_lint.rs:555-581 | true iff a non-empty path of edges of the given kind avoiding the ignored edge exists |
| Reachability.DeletableIffDetours | src/graph_lint.rs:138-172 | a set of edges can be deleted without changing reachability iff what is left joins the ends of each of them |
| Reachability.RedundantEdgeIsDeletable | src/graph_lint.rs:138-172 | the redundancy flag is exact within the edge's kind, and deleting a flagged edge keeps the reachability of the whole graph |
| Redundancy.JointlyDeletable | src/graph_lint.rs:138-172 | a set of edges of an acyclic graph can be deleted without changing reachability iff each has a way round through a third node or a parallel edge that stays |
| Redundancy.FlaggedJointlyDeletable | src/graph_lint.rs:138-172 | within one kind all flagged edges can go together iff each has a way round through a third node |
| Redundancy.NoTwinsDeletable | src/graph_lint.rs:138-172 | without parallel edges of one kind the flagged edges can always go together |
| Redundancy.FlagsOfKindDeletable | src/graph_lint.rs:138-172 | the condition for a topology, kind by kind: what is left joins the ends of each flagged edge, which in an acyclic topology means a way round through a third node |
| Redundancy.FlagsDeletable | src/graph_lint.rs:138-172 | acting on all flags of a topology keeps its reachability iff the unflagged edges join the ends of each flagged one; if it is acyclic, iff every flagged edge has a way round through a third node or an unflagged parallel edge |
| Redundancy.WaysRoundCanVanish | src/graph_lint.rs:138-172 | in a cyclic graph every edge can be flagged and have a way round although the flagged edges cannot all go |
| Redundancy.RedundantEdges | src/graph_lint.rs:138-172 | the pass over the edges reports exactly the flagged ones, in order |
| Redundancy.ValidFlagsCannotAllGo | src/graph_lint.rs:138-172 | a valid topology of two parallel edges of one kind: both are flagged, either may go, and both may not |
| Lint.BuildAdjacency | src/graph_lint.rs:90-114 | the adjacency and reverse lists hold exactly the arcs of the resolvable edges, each ordered by neighbour and then by edge |
| Lint.ResourceConflicts | src/graph_lint.rs:583-642 | a finding is reported iff two mutually unreachable nodes claim one resource and one of them writes it or holds it exclusively; its code says whether both isolate a file |
| Lint.ProtectedIsOrdered | src/graph_lint.rs:583-642 | a direct exclusion edge already orders the pair, so the exemption never applies |
| Lint.ConflictFreeMeaning | src/graph_lint.rs:583-642 | without an unsafe-conflict finding, unordered nodes contend only for files that both isolate |
| Lint.ConflictFreeIffShareSafely | src/graph_lint.rs:583-642 | no unsafe finding is possible iff any two unordered nodes that claim one resource both read it or both isolate a file |
| Lint.JustifiedIsReported | src/graph_lint.rs:596-642 | the findings in terms of write and exclusive claims |
| Schedule.Progress | src/graph_simulation.rs:713-717 | with nodes left to complete something is always running after the start loop, so the progress expectation cannot fail |
| Schedule.InvGivesSafeRound | src/graph_simulation.rs:691-744 | in every state of the loop the running nodes respect slots, capacities and precedence |
| Simulation.StartReady | src/graph_simulation.rs:691-712 | the start loop keeps all counters and the log exact, keeps the times of started nodes, and tallies one wait for each candidate it looked at and could not start |
| Simulation.StartingFacts | src/graph_simulation.rs:691-712 | after the loop a slot is free only if everything ready is blocked, and the waits are exactly the nodes that lacked a resource held by running ones |
| Simulation.CompleteDue | src/graph_simulation.rs:718-744 | the reversed swap-remove loop completes exactly the nodes due at the new clock value and keeps all counters exact |
| Simulation.Simulate | src/graph_simulation.rs:673-751 | the loop completes every node once, after its predecessors and for exactly its duration in the plan (what that is for a topology, see TopologyRuns.DurationMeaning); slots, capacities and precedence hold in every round and at every instant; the clock goes from each round to the earliest finish in it; the peak and the wait events are exact; the makespan lies between every path and the sum of all durations; Graham's bound and equality with the critical path where nothing blocks |
| Simulation.SafeAtEveryInstant | src/graph_simulation.rs:691-744 | safety of the sampled rounds extends to every instant of the schedule |
| TopologyRuns.DurationMeaning | src/graph_simulation.rs:709-716 | a node's duration is its latency plus the penalty for each edge that ends at it and starts at a node, capped at 2^64 - 1 |
| TopologyRuns.LimitsMeaning | src/graph_simulation.rs:754-777 | in a safe round at most the declared number of nodes, or one, hold a resource by writing or exclusive claims or belong to a rate-limit group |
| TopologyRuns.SharingMeaning | src/graph_lint.rs:583-642 | in a safe round of a conflict-free topology nodes share resources only as readers or as owners of isolated files |
| TopologyRuns.RefusalMeaning | src/graph_simulation.rs:691-712 | a node is held up only by something it takes that running nodes hold to its limit |
| Timing.FinalSandwich | src/graph_simulation.rs:709-745 | elapsed time is at least the weight of every path and at most the sum of all durations, saturation included |
| Timing.FinalGraham | src/graph_simulation.rs:691-745 | slots times elapsed is at most total work plus slots minus one times the critical path |
| Timing.FinalExact | src/graph_simulation.rs:691-745 | with a slot per node elapsed is the saturated critical path |
| GraphSimulation.NewGraph | src/graph_simulation.rs:645-671 | successor lists and indegrees describe exactly the arcs of the topology |
| GraphSimulation.HasDeterministicErrors | src/graph_lint.rs:90-345 | an error is reported iff the topology is invalid, cyclic, has an expanding node without a budget, or has two unordered nodes that share a resource otherwise than as readers or as owners of isolated files |
| GraphSimulation.SimulateTopology | src/graph_simulation.rs:209-245 | refused iff there is no slot, a capacity is zero or for a blank name, the content hash is another, or the topology is not admissible; otherwise every node ends its latency and the penalty per incoming edge after its start, every edge is respected, the elapsed time is the latest end; at every instant and in every round, zero-length nodes included, slots, resource and group limits hold and nodes share resources only as readers or owners of isolated files; peak and wait events are exact, every wait is for something held to its limit, and the makespan bounds hold |
| GraphSimulation.CleanRoundsDoNotContend | src/graph_lint.rs:583-642 | a conflict-free report means that nodes running together never contend, whatever the capacities |
| GraphSimulation.UnsharedNeverBlocks | src/graph_simulation.rs:754-777 | if no key is shared and capacities are positive no node is ever refused a resource |
| GraphSimulation.CompareWithLinter | src/graph_simulation.rs:673-751 | on the nodes' own estimates, with enough slots, no penalty and no shared key, the simulated time equals the linter's critical path |
| LintOrder.LintForgetsOrder | src/graph_lint.rs:90-345 | whether there is a deterministic error is the same for every rearrangement of a topology |
| TimeOrder.AcceptanceForgetsOrder | src/graph_simulation.rs:209-245 | a request that fits one listing of a lint-clean topology fits every other |
| TimeOrder.ElapsedForgetsOrder | src/graph_simulation.rs:673-751 | where resources never block and every node has a slot the simulated time is the same for every rearrangement |
| TimeOrder.OrderShows | src/graph_simulation.rs:691-712 | one topology in two arrangements with the same latencies by node takes 3 and 2 |
| Sampling.DrawnInRange | src/graph_simulation.rs:872-900 | every draw stays inside its range; the largest 64-bit number is never drawn from the range of all numbers, and state zero draws the minimum |
| Sampling.DrawnMeaning | src/graph_simulation.rs:890-900 | a draw is the minimum plus the next number of the generator modulo the width, or the minimum alone |
| Sampling.ShiftedOne | src/graph_simulation.rs:879-888 | from state one the generator draws 1082269761 |
| Sampling.DrawsZeroIff | src/graph_simulation.rs:872-900 | the generator draws zero iff its seed is the mask, and then always |
| Sampling.SeededRng.Next | src/graph_simulation.rs:872-900 | one xorshift step |
| Sampling.SeededRng.Sample | src/graph_simulation.rs:872-900 | the drawn value and the new state; a range of one number draws nothing |
| Sampling.SeededRng.Attempts | src/graph_simulation.rs:252-330 | one draw per attempt, of which all but the last fail and the last does not or is the last allowed; the state afterwards; never a failure at probability zero and always one at certainty |
| Sampling.SampleNode | src/graph_simulation.rs:252-330 | the drawn expansion, the attempts made, and each value as its draw times attempts times spawned nodes, in the source's order of draws, as far as 64 bits go; hence in the scaled ranges |
| Iterations.Summarize | src/graph_simulation.rs:823-834 | least, lower median and greatest of the sorted samples |
| Iterations.SummaryMeaning | src/graph_simulation.rs:823-834 | all three are samples, and every sample lies between the least and the greatest |
| Iterations.RunIsBracketed | src/graph_simulation.rs:252-330 | a run on drawn latencies takes at least every path under the least latencies and no more than the bounds under the greatest |
| Iterations.SimulateIterations | src/graph_simulation.rs:209-372 | the iterations sample every node in turn on one generator from the masked seed and run the simulator if all latencies are known; the report gives the ranges of elapsed time, cost and tokens over them, the greatest parallelism, the sum of the waits and the exact number of iterations in which a node failed; least and greatest elapsed time lie between the bounds for the least and the greatest latencies that can be drawn |
| CanonicalForm.Normalize | src/execution_topology.rs:495-523 | the in-place nested sorting computes the canonical form |
| CanonicalForm.CanonicalIdempotent | src/execution_topology.rs:495-523 | canonicalization is idempotent on every topology |
| CanonicalMeaning.CanonicalIsOrdered | src/execution_topology.rs:494-531 | the canonical form is the topology with every list, at every depth, in its order, and changes nothing else |
| CanonicalForm.CanonicalIffSameUpToOrder | src/execution_topology.rs:495-523 | where entries with one sort key have one canonical form, two topologies have one canonical form iff they are rearrangements of each other at every depth |
| CanonicalForm.OrderForgottenIff | src/execution_topology.rs:495-523 | every rearrangement of a topology has its canonical form iff entries with one sort key have one canonical form |
| CanonicalForm.ValidKeysUnique | src/execution_topology.rs:175-240 | validation guarantees unique ids and names |
| Validation.ValidIffNothingReported | src/execution_topology.rs:175-466 | a topology is valid iff none of the nineteen codes has its condition met |
| Validation.DataEdgeFits | src/execution_topology.rs:533-578 | a data edge of a valid topology runs from the one output of its name to the one input of its name, and both have its schema |
| Validation.ExclusionOrders | src/execution_topology.rs:420-462 | an exclusion edge of a valid topology orders two claimants of every resource in its scope, one way only unless there is a cycle |
| Validation.ExclusionTakesTurns | src/graph_simulation.rs:691-744 | in a run the two claimants take turns |
| CanonicalForm.UniqueKeysAreHarmless | src/execution_topology.rs:495-523 | unique ids and names are enough for that condition |
| CanonicalForm.DuplicateIdsExposeOrder | src/execution_topology.rs:495-523 | two nodes with one id and different purposes make list order show |
| Rearrangement.ValidForgetsOrder | src/execution_topology.rs:175-460 | validation does not depend on the order of any list |
| Rearrangement.OneArrangementIff | src/execution_topology.rs:495-523 | a node is its own only rearrangement iff each of its lists repeats one entry |
| ControlPlane.Serve | src/control_plane.rs:998-1023 | whatever the journal holds, what is served satisfies the response contract and keeps sequence and identity |
| ControlPlane.FreshIsServable | src/control_plane.rs:701-727 | a response journaled by execute never trips the check made on replay |
| Answers.ExecuteMeaning | src/control_plane.rs:635-727 | what execute answers and files, from journal, request and decision, and which requests are delegated |
| Answers.ProblemMeaning | src/control_plane.rs:664-700 | a request is refused before delegation iff it is not well-formed, and for its first problem |
| Answers.TruthfulMeaning | src/control_plane.rs:862-900 | truthful values are the objects whose seven claim keys, where present, say what only a host may say |
| Answers.PublishMeaning | src/control_plane.rs:758-784 | what publishing answers and files |
| Answers.DurableMeaning | src/control_plane.rs:535-604 | answer, delegation, memory and file of an uninterrupted durable call under every fate of its two writes |
| ControlPlane.ExecuteKeepsOk | src/control_plane.rs:635-727 | execute keeps both response indexes mirrored, sequences positive and distinct, and the counter at the largest sequence |
| ControlPlane.PublishKeepsOk | src/control_plane.rs:758-784 | publishing keeps the same invariant, across responses and notifications |
| ControlPlane.LoadIsFaithful | src/control_plane.rs:402-530 | a journal written by the protocol is accepted on load and its derived counter is the stored one, so loading returns it unchanged |
| ControlPlane.CursorSplits | src/control_plane.rs:734-744 | for a at most b, the replay after a is its part up to b followed by the replay after b |
| ControlPlane.LaterSortsAfter | src/control_plane.rs:701-713 | within a process a new response sorts after everything journaled |
| Durability.StepKeepsJournals | src/control_plane.rs:535-633 | every step keeps every copy of the journal consistent |
| Durability.StepKeepsPromises | src/control_plane.rs:535-633 | every step keeps acknowledged answers held, in memory and on disk, and unmarked memory entries on disk |
| Durability.RunKeeps | src/control_plane.rs:535-633 | both invariants hold after every run |
| Delegation.StepKeepsKeys | src/control_plane.rs:535-604 | every step keeps delegated keys, and those the first file held, pending or journaled in every copy |
| Delegation.AtMostOnce | src/control_plane.rs:535-604 | over every run from any file no idempotency key is delegated twice, none that the file held as pending or journaled is delegated, and all of them stay pending or journaled in memory and on disk |
| Delegation.HandledIsAnsweredAtOnce | src/control_plane.rs:543-575 | such a key is answered without a write or a second call |
| DurableRuns.AcknowledgedIsDurable | src/control_plane.rs:588-603 | after any later run, crashes included, resending a request answered by the delegate or from the request index changes nothing and returns the same response marked as replayed |
| DurableRuns.RetryIsDurable | src/control_plane.rs:655-664 | a response served from the idempotency index stays journaled in every copy: after any later run the retry is answered at once, and with that response iff no other request was journaled under its id |
| DurableRuns.RestartIsExact | src/control_plane.rs:402-530 | in every reachable state loading succeeds and returns exactly the persisted journal, whose counter is the largest sequence |
| DurableRuns.ReplayNeverRefuses | src/control_plane.rs:998-1065 | no journaled response of a reachable state is refused on replay |
| DurableRuns.ReplayMatchesRequest | src/control_plane.rs:640-663 | a replayed answer is the journaled response to a request with the same key, tool, revision, audit context and payload |
| DurableRuns.EveryAnswerIsTruthful | src/control_plane.rs:862-900 | over every run no answer carries a claim outside the truthful vocabulary, or both a result and a refusal, or neither |
| Decisions.AnswerIsDecision | src/control_plane.rs:535-604 | over every run, each answer of the delegate and each replay of it carries the decision of the one step that called the delegate for that request |
| DurableRuns.CounterBounded | src/control_plane.rs:701-702 | the counter never exceeds the number of steps |
| DurableRuns.AcknowledgedSequencesIncrease | src/control_plane.rs:701-744 | across restarts a newly acknowledged response sorts after everything answered from the journal before |
| DurableRuns.ServingRecords | src/control_plane.rs:576-604 | an undisturbed new request is delegated once and recorded alike in memory and on disk |
| DurableRuns.CursorAcrossRestart | src/control_plane.rs:734-744 | a cursor sees the first response after a restart iff the file's counter had reached it |
| DurableRuns.PolledCursorCanRunAhead | src/control_plane.rs:588-603 | after a commit that failed before the rename, polling shows a sequence the file does not know |
| Histories.MemoryAheadIff | src/control_plane.rs:588-603 | between requests memory is ahead of the file iff a commit failed before the rename and since then the process lived on and no write reached the file |
| Histories.PolledCursorIsSafe | src/control_plane.rs:734-744 | unless a commit was lost that way, a polled cursor still sees the first new response after a crash |
| Ambiguity.AmbiguousIff | src/control_plane.rs:543-604 | between requests a request is refused as ambiguous iff an attempt of it was interrupted by a crash or a lost commit, or its commit failed after the rename and the process lived on or wrote again, or its marker write failed after the rename and the process died before the next write |
| Ambiguity.UndelegatedIff | src/control_plane.rs:543-604 | for a well-formed request whose key was never delegated: iff the process died between the marker and the call, or after a marker write that failed after the rename and before the next write |
| DurableRuns.RetryByKey | src/control_plane.rs:640-663 | in every reachable state a request whose key is journaled for the same content is served iff its id is not taken |
| DurableRuns.RetryIdCanBeTaken | src/control_plane.rs:640-663 | one run in which a retry is first served and, after another request took its id, refused |
| Polling.PollingSeesEachOnce | src/control_plane.rs:734-744 | while a process lives, whatever it does and whenever a client polls from its last sequence, the client has received exactly the journaled responses above its start, each once and in order |
| ControlPlaneState.ScanSequences | src/control_plane.rs:446-530 | the scan accepts iff sequences are positive and distinct, and finds the largest |
| ControlPlaneState.LoadDurable | src/control_plane.rs:402-413 | the loaded state is the file's journal with the derived counter, refused iff not orderable, empty without a file |
| ControlPlaneState.StateFile.Write | src/control_plane.rs:607-633 | the file afterwards under each of the three outcomes |
| ControlPlaneState.ControlPlaneState.Execute | src/control_plane.rs:635-727 | a fresh well-formed request gets the next number and the delegate's decision: a truthful object as the result, any other value refused as noncanonical, a refusal as it is; it is filed under id and key; a repeated one gets the journaled response; every other gets the refusal of its first problem and nothing is filed |
| ControlPlaneState.ControlPlaneState.ExecuteDurable | src/control_plane.rs:535-604 | an uninterrupted call is exactly the protocol's begin, invoke and commit steps; its answer, the delegation, memory and file for every fate of the two writes, in terms of journal, request and decision |
| ControlPlaneState.ControlPlaneState.ReplayAfter | src/control_plane.rs:734-744 | exactly the journaled responses above the cursor, in sequence order, strictly if the journal is orderable |
| ControlPlaneState.ControlPlaneState.PublishNotification | src/control_plane.rs:758-784 | a new id is numbered next and filed without authority, a used id with the same content gives the filed notification, with other content it is rejected and nothing changes |
| ControlPlaneState.ControlPlaneState.PublishNotificationDurable | src/control_plane.rs:787-802 | the protocol's announcement step; a failed write leaves memory as it was |
| Patch.OperationsFit | src/dynamic_expansion.rs:435-503 | operations without findings name disjoint, non-repeating ids that fit the base |
| PatchCodes.CodeMeaning | src/dynamic_expansion.rs:237-304 | each of the eight codes is reported iff its condition on patch and base applies |
| Patch.DiffIsPatch | src/dynamic_expansion.rs:237-433 | the diff computed after applying an accepted patch is exactly the patch's sorted added, removed and updated ids |
| Patch.PatchIsDetermined | src/dynamic_expansion.rs:330-382 | two accepted patches with the same result have the same canonical form |
| Patch.FindingsForgetOrder | src/dynamic_expansion.rs:237-295 | the findings of a patch do not depend on the order of its lists |
| Patch.CanonicalPatchForgetsOrder | src/dynamic_expansion.rs:306-319 | nor does its canonical form |
| Patch.ListedRoundTrip | src/dynamic_expansion.rs:363-365 | listing an ordered map and collecting the list again is the identity |
| PatchTargets.PatchReachesIff | src/dynamic_expansion.rs:237-382 | a topology is the result of an accepted patch iff it differs from the base only in nodes and edges, lists them by id, keeps common edges, touches only filled ids and changes something |
| PatchApplication.EditMap | src/dynamic_expansion.rs:334-361 | the in-place edits amount to removal, then replacement, then addition |
| PatchApplication.TopologyDiff | src/dynamic_expansion.rs:385-433 | the computed diff |
| PatchApplication.ApplyPatch | src/dynamic_expansion.rs:322-382 | refused iff the patch has findings, invalid iff the result does not validate, otherwise a valid topology whose diff is the patch |
| BudgetRuns.SpawnedIsStoredTotal | src/dynamic_expansion.rs:688-735 | the node counter is the capped total over exactly the stored proposals, which have distinct ids, and never exceeds its limit |
| BudgetRuns.SpawnedIsTrueTotal | src/dynamic_expansion.rs:688-727 | the counter is the true total over all runs iff the limit is below 2^32 - 1 |
| BudgetRuns.OversizedIsMiscounted | src/dynamic_expansion.rs:688-727 | at the limit 2^32 - 1 a first proposal adding 2^32 nodes is admitted and counted one short |
| BudgetRuns.FingerprintDecidedOnce | src/dynamic_expansion.rs:651-672 | over all rounds and attempts a well-formed fingerprint gets a decision other than duplicate at most once |
| BudgetRuns.NothingAfterExhaustion | src/dynamic_expansion.rs:644-687 | no proposal appears in or after a round that reached the cost or latency limit, and no such round invites another |
| BudgetRuns.FewRoundsStayOpen | src/dynamic_expansion.rs:626-637 | iterations never exceed their limit, and fewer rounds than the limit return Continue or NeedsReview |
| BudgetRuns.DryMeansNoNews | src/dynamic_expansion.rs:746-765 | a dry halt means that the required number of last rounds brought no unseen fingerprint |
| BudgetRuns.StoredWereOffered | src/dynamic_expansion.rs:736-740 | every stored proposal comes from a candidate that asked for it |
| BudgetRuns.RunIsSound | src/dynamic_expansion.rs:619-797 | the run invariant holds after every sequence of calls |
| Rounds.ProcessMeaning | src/dynamic_expansion.rs:619-797 | what a call to process a round decides, stores and returns, in terms of limits, counters and candidates |
| Rounds.RunHaltsExplained | src/dynamic_expansion.rs:766-773 | in every run each halt is explained by its own result and the limits: the first limit reached, else review iff something was created, else continue |
| ExpansionController.ExpansionController.Process | src/dynamic_expansion.rs:619-797 | new counters and result of a round: the decision and cause on every candidate, in order, from the limits and what came before; the stored items; and the halt by the limit reached, in the order cost, latency, nodes, iterations, dry rounds, or by whether anything was created |
| ExpansionController.ExpansionController.ConsiderCandidate | src/dynamic_expansion.rs:651-745 | one candidate: decision, created proposal and new counters |
| ExpansionController.ExpansionController.Begin | src/dynamic_expansion.rs:581-606 | given whether the attempt is usable, it starts iff no other is active |
| ExpansionController.ExpansionController.Finish | src/dynamic_expansion.rs:608-617 | only the active attempt may finish |
| Expansion.NewController | src/dynamic_expansion.rs:555-579 | a controller exists iff nothing about the policy is misstated (version, texts, dedupe keys, limits), and starts from zero |
| Expansion.StartAttempt | src/dynamic_expansion.rs:581-606 | an attempt starts iff it names the content of the base, has an id and no other is active |
| Expansion.ProcessCandidates | src/dynamic_expansion.rs:619-797 | the same for a round on the candidates themselves, with their fingerprints and proposals |
| Expansion.FingerprintIsDedupeKey | src/dynamic_expansion.rs:882-910 | two candidates share a fingerprint iff they agree on every dedupe key |
| Expansion.FingerprintMeaning | src/dynamic_expansion.rs:882-910 | a candidate has a fingerprint iff it names the schema and fills every dedupe key, and it consists of those values |
| Expansion.ItemMeaning | src/dynamic_expansion.rs:912-944 | the proposal of a candidate, its id and the number of nodes it adds |
| Expansion.ProposeItem | src/dynamic_expansion.rs:912-944 | a proposal exists iff the patch is accepted and the result validates |
| Expansion.ItemForgetsOrder | src/dynamic_expansion.rs:912-944 | proposal and proposal id do not depend on the order of the patch's lists |
| Expansion.IdIsResult | src/dynamic_expansion.rs:912-944 | against one base, proposals share an id iff they have the same result, list for list |
| Expansion.HashIsResultUpToOrder | src/dynamic_expansion.rs:912-944 | they share a content hash iff their results are rearrangements of each other |
| Expansion.NormalIdIsHash | src/dynamic_expansion.rs:912-944 | between two proposals whose lists inside nodes and edges are in canonical order, one content hash means one id |
| ProposalIdentity.HashIsIdIff | src/dynamic_expansion.rs:912-944 | for a proposal that changes more than list order, no other proposal has its content hash under another id iff every node of the result and every added edge has one arrangement only |
| ProposalIdentity.HashIsIdIffUnique | src/dynamic_expansion.rs:912-944 | the same for a base with unique ids and a result that is no rearrangement of it |
| ProposalIdentity.OneHashTwoIds | src/dynamic_expansion.rs:912-944 | two patches that give a node the same two inputs in different order have one content hash and two ids |
| ProposalIdentity.ReorderIsProposable | src/dynamic_expansion.rs:279-287 | a patch that only reorders the inputs of a node is admitted |
| Expansion.ReviewIsForTheProposal | src/dynamic_expansion.rs:799-859 | an accepted review is for the patched base, up to list order, of a patch this controller was offered, and differs from the base |
| Expansion.ReviewableIff | src/dynamic_expansion.rs:799-859 | a stored proposal can be accepted at all iff the patched base is lint-clean and no rearrangement of the base |
| CompilerProofs.RetainedModeExact | src/graph_compiler.rs:906-932 | profile 0 restores the mode it retained iff the reviewed identity is its own |
| CompilerProofs.CompileThenVerify | src/graph_compiler.rs:508-692 | every compiled bundle is accepted under either profile, in any artifact order |
| CompilerProofs.VerifiedIffCompiled | src/graph_compiler.rs:508-692 | a bundle is accepted under a digest iff the digest is its own and it is compiler output up to artifact order |
| Bundles.CompiledIff | src/graph_compiler.rs:1424-1571 | a request is compiled iff the canonical topology has no deterministic error, case space and ids fit, the review names exactly these contents, policy documents and mappings are exactly those named, and the parameters accept |
| Bundles.CompiledSays | src/graph_compiler.rs:1505-1529 | every file and the manifest of a compiled bundle, in any artifact order, say what was compiled |
| Bundles.VerifiedSays | src/graph_compiler.rs:508-692 | so do those of every accepted bundle, for the topology and the request it carries |
| Bundles.ReviewedPoliciesAreFiled | src/graph_compiler.rs:1648-1746 | hashing topology id, topology hash and the three policy maps read from the files of an accepted reviewed bundle gives what the review bound |
| CompilerProofs.VerifiedAgree | src/graph_compiler.rs:1120-1137 | accepted bundles with equal topology and compiler-input files agree on all artifacts and the manifest |
| CompilerProofs.VerifiedReviewIsBound | src/graph_compiler.rs:1648-1746 | a verified reviewed bundle carries exactly the topology, policies, case space, revision and compiler identity the review accepted |
| CompilerProofs.VerifiedIsLintClean | src/graph_compiler.rs:1455-1475 | the topology of a verified bundle is canonical, valid, acyclic, free of unsafe conflicts and budgeted |
| CompilerExample.SomethingCompiles | src/graph_compiler.rs:1424-1571 | a one-node topology compiles as a proposal and as a reviewed request, under both profiles |
| CompilerProofs.CompileForgetsOrder | src/graph_compiler.rs:1424-1571 | permuting the topology's lists or the plan mappings gives the same refusal or the identical bundle |
| CompilerProofs.OneStepPerNode | src/graph_compiler.rs:1938-1965 | the plan has exactly one step per node, in strictly increasing id order, each with the mapping of its node |
| CompilerSteps.ValidateMappings | src/graph_compiler.rs:1884-1936 | mappings are accepted iff they are complete and name every node exactly once |
| CompilerSteps.ValidatePolicies | src/graph_compiler.rs:1748-1807 | documents of a kind are accepted iff they are exactly those the topology names, once each, and each passes its validator |
| CompilerSteps.EmitArtifacts | src/graph_compiler.rs:1505-1529 | pushing, sorting, replacing the report and sorting again yields the required files in path order, among them the topology with its hash and the three policy maps, each under its own kind |
| CompilerSteps.CompileTopology | src/graph_compiler.rs:1424-1571 | linting, policy, mapping, review and plan checks and the artifact steps compute the compile function; what each file of the bundle and the manifest then say of topology and request |
| CompilerSteps.VerifyBundle | src/graph_compiler.rs:508-692 | the recompiling steps compute the verify function; what the files of an accepted bundle say |
| CompilerSteps.SimulateVerified | src/graph_simulation.rs:209-245 | a verified topology is refused by the simulator only for the request or the content hash it names |
| PathSegment.Render | src/native_cli_path.rs:4-15 | the byte loop computes the encoding, which decodes to the bytes |
| PathSegment.SegmentInjective | src/native_cli_path.rs:4-15 | distinct byte strings have distinct segments |
| PathSegment.DecodeSegment | src/native_cli_path.rs:4-15 | a decoder that keeps plain bytes and reads a tilde and two hexadecimal digits, the high one first, gives the bytes back |
| PathSegment.EncodeMeaning | src/native_cli_path.rs:4-15 | plain bytes are kept, every other byte is a tilde and its two digits |
| PathSegment.SegmentConcat | src/native_cli_path.rs:4-15 | the encoding distributes over concatenation |
| PathSegment.SegmentIsSafe | src/native_cli_path.rs:4-15 | only letters, digits, hyphen, underscore and tilde are produced |

## Left out

- GraphSimulation.SimulateTopology: models one iteration with given latencies; `Iterations.SimulateIterations` models the loop around it.
- Iterations.SimulateIterations: takes resolved calibrations; how they are looked up, budget violations and routing are not part of this model.
- ProposalIdentity.HashIsIdIff: excludes proposals that only reorder lists; for those the base's own listing is no patch result, so a second arrangement may be out of reach, and `Expansion.ReviewableIff` shows that they are never accepted.
- CompilerSteps.CompileTopology: the lint passes that read verification policies, the policy document validators and the plan validator are parameters, and the report's finding texts are dropped.
- ControlPlane.Serve: detail texts of refusals are empty strings here.
- notifications_after has the same shape as replay_after and is not repeated; resource reads and the JSON-RPC framing are not part of this model.
- A power failure that undoes a rename whose directory was never synced is not modelled; a crash loses memory and keeps the file.
- Serialization, SHA-256 and the file system are abstracted as described above; `reviewed_compilation_mode`, deployment authority and the bundle migration proposal are not part of this model.
- Validation of topologies, policies and requests is modelled as a predicate; finding texts, locations and their order are not.
- The deployment policy manifest is represented by its three maps, so the sorting of its bindings before hashing does not appear.
- The controller's per-round count of unseen candidates is unbounded here; the source uses a 32-bit counter that only a round of 2^32 candidates could exhaust.
- NaN and infinite round costs, which the source refuses, have no counterpart among the reals.
