# Change packets: a verified model

Merger turns a pull request into a *change packet*, works out what the change does and how risky it is, lets policy
rules ask for reviewers and evidence, assigns a merge lane (GREEN, YELLOW, RED, BLACK), and then reconciles the packet's
decision as evidence arrives. This project models that logic in Dafny and proves what it guarantees.

## How the model is organised

- `Domain`, `Text`, `Bags`: the shared vocabulary, the string operations the code relies on, and sums, bags and
  duplicate-free appends over sequences.
- `EvidenceStore`: the in-memory repository. `State` is its abstract content; the class `MemoryRepository` holds the
  maps and every method is proved against a function on `State`.
- `ControlPlane`: evidence updates and decision reconciliation. The class `Service` performs a request step by step
  on the repository; the function `Updated` says what one uninterrupted request does.
- `Transitions`, `Reports`: the status machine, refusals and records of a report, told by statuses and fields.
- `Invariants`, `SerialRuns`: what each repository step keeps, and what holds over every run in which requests do not
  overlap.
- `LaneMoves`: how a stored packet's lane moves, and when it is BLACK.
- `Approvability`: which packets further updates can still approve.
- `Interleaving`, `Overlap`, `Schedules`: requests as programs with a position and snapshots, free to interleave at
  every repository call and to stop anywhere; what still holds then, and schedules that show what does not.
- `OutstandingEvidence`, `Exclusion`: exactly when overlap misleads, and why one request at a time per packet is enough.
- `CheckRuns`, `CheckOutcomes`: GitHub check-run webhooks, their redelivery, and what they make of evidence.
- `RuntimeGraph`: the bounded breadth-first search for affected systems.
- `Policy`, `PolicyFold`, `PolicyLaws`, `PolicyRecords`: configuration checks, the fold of matched rules, its laws, and
  what it records.
- `Diff`, `Mutations`, `Conflict`, `RiskScore`, `Lanes`: diff parsing, classification, conflict assessment, risk
  scoring and lane assignment. `DiffNames`, `MutationLaws`, `ConflictLaws` and `RiskTypes` say what their results hold
  in terms of the inputs alone.
- `Pipeline`, `PipelineLaws`: the ingestion stages over one packet, and the theorems that join all parts.

`dafny verify dfyconfig.toml` checks everything.

## Where to start reading

`PipelineLaws.IngestedForLife` and `PipelineLaws.ApprovedExactlyWhenRulesAreMet` join policy, lanes and the control
plane. `Overlap.ApprovedWasComplete`, `Overlap.ChainsHoldExactlyWhenFresh` and `SerialRuns.ApprovalIsNeverLost` separate
what survives overlap from what needs serial execution. `Pipeline.Ingested`, the hypothesis of the pipeline laws, is
what `Pipeline.Ingestion.Process` establishes whenever it saves a packet.

## What turned out not to hold

- Terminal evidence statuses are not final once requests overlap: `StaleRecordBreaksApproval` is a schedule that shows
  it and `SettledLostExactlyWhen` the exact condition. They are final as long as each recorded transition starts from
  the status then on file (`FreshSettledStays`), and the audit logs are chains exactly that long
  (`ChainsHoldExactlyWhenFresh`).
- Approval does not mean completeness once requests overlap. The same schedule shows it; `MisleadsExactlyWhen` names
  the two kinds of step after which a packet is approved with evidence outstanding, and `NeverMisleadingExactlyWhen`
  says that without them it never is.
- An approval can be withdrawn although the evidence is complete, even if every recorded transition starts from the
  status on file: `StaleSaveLosesApproval` is a schedule, `ApprovalLostExactlyWhen` the exact condition. The next
  uninterrupted update of the packet would repair the decision (`AdmittedUpdateIsAccurate`).
- None of this happens to a packet of which at most one request at a time is between reading a status and saving, no
  matter what other packets go through (`ExclusiveRecordsAreFresh`, `ExclusiveSettledStays`,
  `ExclusiveApprovalIsNeverLost`, `ExclusiveIsAccurate`).
- A matched blocking rule does not always block: `BlockSurvivesExactlyWhen` gives the exact condition and
  `BlockCanBeForgotten` the failing family.
- The order of the rules can change the decision: exactly when some matched rule blocks, some does not and some demands
  (`OrderMattersExactlyWhen`).
- Asking for a canary can lower the lane: `CanaryPair` shows two packets, and `CanaryLowersLaneExactlyWhen` and, for
  policy rules, `CanaryRuleLowersLaneExactlyWhen` give the exact conditions.
- Approval can raise the lane and losing it can lower the lane: `ApprovalReachesBlack` is a run from RED to BLACK, and
  `LaneMovesExactlyWhen` gives the exact conditions for both directions at every step of every interleaving. Apart from
  approval nothing moves a lane after ingestion (`LaneForLife`).
- Not every packet can be approved. Some further updates approve it exactly when it is not blocked, has no mandatory
  reviewer and can be addressed (`CanBeApprovedExactlyWhen`); for an ingested packet this means that its verdict was
  not a block and that no matched rule asked for a reviewer (`CanBeApprovedExactlyWhenRulesAllow`), since every
  reviewer a rule asks for is mandatory.
- A pull request is ingested without a later base commit, so ingestion never reports base drift
  (`PullRequestFindings`).

Where the repository's own documentation says more than the code does, the model follows the code. `api/README.md:21-28`
promises that outstanding required evidence keeps a change at RED or above. That holds in every serial run
(`OutstandingIsAtLeastRed`); under overlap it fails exactly for approved packets that nothing fixed at ingestion holds
higher (`OutstandingBelowRedExactlyWhen`, `FallsBelowRedExactlyWhen`), and `StaleRecordLeavesGreen` is a schedule that
ends at GREEN with failed evidence. `README.md:127` describes BLACK as blocked; `StoredIsBlackExactlyWhen` lists what
else leads there, and `CanaryPair` and `ApprovalReachesBlack` show packets at BLACK that nothing has blocked.

## Assumptions

- Packet identifiers are fresh. The clock is strictly increasing where update times are compared, and arbitrary
  everywhere else.
- Slices and maps stored in a packet are values: nobody changes a stored slice in place.
- Each repository method is atomic, since it holds the repository's mutex throughout.
- Map iteration order is arbitrary; results are proved for every order.
- A lane assigner is optional, as in the code; statements that mention lanes assume one, and those about ingested
  packets assume that ingestion and control plane share one lane configuration.
- Case conversions, case-insensitive comparison (equality after a folding function), rule matching, policy-sensitive
  paths, signal extraction and analyzers are function parameters. Publications and clock readings are inputs.
- Confidence is a real number; no rounding is modelled.

## Model

| member | source | states |
|---|---|---|
| EvidenceStore.MemoryRepository.RecordEvidenceUpdate | internal/store/memory.go:49-61 | one execution replaced under its packet and name (stamped with now when it carries no time) and one audit entry appended; nothing else changes |
| EvidenceStore.MemoryRepository.SaveChangePacket | internal/store/memory.go:88-95 | the packet is filed under its id and its requirements get executions, as one atomic step |
| EvidenceStore.MemoryRepository.EnsureEvidenceLocked | internal/store/memory.go:186-209 | the stored executions become the ensured ones for every requirement of the packet |
| EvidenceStore.EnsuredKeepsStatuses | internal/store/memory.go:186-209 | saving creates executions for exactly the unseen requirement names, all pending, and changes nothing in the others but type and required flag |
| EvidenceStore.SavedKeepsStatuses | internal/store/memory.go:88-95 | saving a packet changes no evidence status of any packet |
| EvidenceStore.MemoryRepository.GetChangePacket | internal/store/memory.go:97-106 | the stored packet, or nothing when the id is unknown |
| EvidenceStore.MemoryRepository.FindLatestChangePacket | internal/store/memory.go:108-126 | whatever order the map is iterated in: nothing exactly when no packet has that repository, pull request and head commit, otherwise one of them with the greatest update time |
| EvidenceStore.LatestIsUnique | internal/store/memory.go:108-126 | with pairwise distinct update times every iteration order finds the same packet |
| EvidenceStore.MemoryRepository.ListEvidenceExecutions | internal/store/memory.go:168-181 | every stored execution of the packet once, strictly sorted by name |
| EvidenceStore.MemoryRepository.ListEvidenceAuditEntries | internal/store/memory.go:63-76 | the audit log newest first, cut to the limit when that is positive |
| Text.FirstDifferenceDecides | internal/store/memory.go:168-181 | names sort by the first character that differs, the smaller first, and a proper prefix comes first |
| Text.SortedListingIsUnique | internal/store/memory.go:168-181 | two strictly sorted listings of the same set are equal, so sorting by name leaves no choice |
| ControlPlane.Service.UpdateEvidenceExecution | internal/controlplane/service.go:178-242 | the step-by-step request changes the repository and answers exactly as the specification Updated says, on every path: five kinds of refusal, publication failure, success |
| ControlPlane.Service.ReconcileDecision | internal/controlplane/service.go:244-277 | the saved packet is the reconciled one, computed from the executions on file |
| ControlPlane.RequiredEvidenceComplete | internal/controlplane/service.go:279-294 | the map-building loops answer true exactly when every required requirement has a satisfied or waived execution |
| ControlPlane.Service.CurrentEvidenceStatus | internal/controlplane/service.go:314-325 | the stored status, pending when there is no execution |
| ControlPlane.FindRequirementFinds | internal/controlplane/service.go:305-312 | the search finds a requirement of that name exactly when there is one |
| ControlPlane.FindRequirementFindsFirst | internal/controlplane/service.go:305-312 | and the one it finds is the first of that name |
| Transitions.ReportTakesEffectExactlyWhen | internal/controlplane/service.go:178-242 | a well-formed report takes effect exactly when it repeats the status on file or makes one of nine listed changes; otherwise it is refused with both statuses and nothing happens |
| Transitions.RefusalTellsWhy | internal/controlplane/service.go:179-206 | any other report is refused for the first thing wrong with it and changes nothing |
| Transitions.AuditedChangesAreListed | internal/controlplane/service.go:340-362 | in every interleaving each audited change is one of the nine; nothing goes from failed to satisfied or back to pending |
| Transitions.FailedRunsBeforeSatisfied | internal/controlplane/service.go:340-362 | in every serial run evidence that failed and is satisfied later was running in between |
| Transitions.ApprovedExactlyWhenNothingIsOpen | internal/controlplane/service.go:279-303 | in every serial run a packet that is not blocked is approved exactly when each required piece of evidence is satisfied or waived and every reviewer is optional |
| Reports.AnswerRepeatsReport | internal/controlplane/service.go:220-241 | the answer repeats the report with type and required flag of the first requirement of that name and the time it was recorded |
| Reports.EntryTellsReport | internal/controlplane/service.go:223-237 | the one entry added goes from the status on file to the reported one, with the report's author, words, metadata and time |
| Reports.AuthorIsThePrincipal | internal/controlplane/service.go:188-190 | an authenticated author overrides the claimed one and nothing else changes |
| Reports.ExecutionOnFile | internal/store/memory.go:49-61 | the execution on file is the report's in everything but type and required flag |
| Reports.RecordedTime | internal/store/memory.go:49-61 | recording keeps the time an execution carries and supplies one only when it carries none |
| Reports.PacketIsStamped | internal/controlplane/service.go:250-258 | the packet carries the reconciliation time, and so does its decision unless it is blocked |
| Reports.EnsuredCarries | internal/store/memory.go:186-209 | a new name gets a pending execution with the last such requirement's type and flag, a known one only has these two refreshed |
| Reports.CheckSignsEntry | internal/ingest/processor.go:108-131 | a check run's entry is signed with its app's number, which reads back, and repeats the check's words, commit and name |
| SerialRuns.AdmittedExactlyWhen | internal/controlplane/service.go:178-218 | an update takes effect exactly when its fields are valid, a waiver is signed, the packet exists, it requires that evidence, and the status change is legal |
| SerialRuns.RejectionChangesNothing | internal/controlplane/service.go:178-242 | a rejected update leaves packets, executions and audit logs as they were; an admitted one fails only by publication |
| SerialRuns.UpdateSetsStatus | internal/controlplane/service.go:220-241 | an admitted update sets the one status it names and no other status anywhere |
| SerialRuns.UpdateAppendsEntry | internal/controlplane/service.go:223-237 | it appends exactly one entry to its own packet's log and leaves all other logs alone |
| SerialRuns.UpdateKeepsPackets | internal/controlplane/service.go:244-277 | it leaves other packets alone and of its own packet changes only decision status, lane and times, never the block |
| SerialRuns.UpdateStampsPacket | internal/controlplane/service.go:244-277 | the packet carries the reconciliation time; without an assigner its lane stays |
| SerialRuns.AdmittedUpdateIsAccurate | internal/controlplane/service.go:236-277 | an admitted, uninterrupted update leaves its packet's decision true to the evidence, even if it was not before |
| SerialRuns.RunInv | internal/controlplane/service.go:178-303 | the full invariant holds in every state of every serial run of ingestions and updates |
| SerialRuns.ApprovedExactlyWhenComplete | internal/controlplane/service.go:244-303 | in every serial run, a packet that is not blocked is approved exactly when all its required evidence is satisfied or waived and no reviewer is mandatory |
| SerialRuns.SettledForever | internal/controlplane/service.go:340-362 | in every serial run a satisfied or waived status never changes again, and the change itself and its block never vary |
| SerialRuns.ApprovalIsNeverLost | internal/controlplane/service.go:244-277 | in every serial run approval, once reached, stays |
| SerialRuns.AuditReplaysToStatuses | internal/controlplane/service.go:208-237 | in every serial run each audit log is a chain from pending, replaying it gives the stored statuses, and after satisfied or waived only self-transitions follow |
| SerialRuns.ReplayReproduces | internal/store/memory.go:49-61 | replaying a log gives, for every name, the target status of its last entry, pending when there is none |
| SerialRuns.SettledStays | internal/controlplane/service.go:340-362 | in a chained legal log only self-transitions follow a satisfied or waived entry of the same name |
| SerialRuns.IngestKeepsInv | internal/store/memory.go:88-95 | saving a newly ingested packet under a fresh id keeps the invariant |
| Invariants.RecordedKeepsInv | internal/store/memory.go:49-61 | recording a legal, attributed transition keeps the store invariant whatever the other requests did before |
| Invariants.SavedKeepsInv | internal/store/memory.go:88-95 | saving a sound packet keeps the store invariant |
| Invariants.ReconciledIsSound | internal/controlplane/service.go:244-277 | reconciliation yields a packet of the same change whose lane is the assigned one and whose approval means completeness of the executions it looked at |
| Interleaving.StoreStep | internal/controlplane/service.go:178-277 | every atomic repository call of any overlapping request keeps the store invariant, never loses a packet, never changes the change itself, and only extends audit logs |
| Interleaving.RunInv | internal/controlplane/service.go:178-277 | the invariant over store and in-flight snapshots holds in every state of every interleaving, with requests free to stop anywhere |
| Interleaving.RunGrows | internal/controlplane/service.go:178-277 | over any stretch of an interleaving packets stay the same change and logs only grow |
| Overlap.AuditIsFaithful | internal/controlplane/service.go:185-237 | in every interleaving the stored status is the target of the last audit entry, every entry is a legal transition, every waived execution has a non-blank author, and later logs extend earlier ones |
| Overlap.PacketsKeepTheirChange | internal/controlplane/service.go:251-270 | in every interleaving evidence, reviewers, conflict, risk and minimum lane never change; the stored lane is always the assigned one; a block is final and means BLACK; a mandatory reviewer means never approved and RED or above |
| Overlap.ApprovedWasComplete | internal/controlplane/service.go:244-277 | in every interleaving an approved packet has no mandatory reviewer and at some instant of the run had all required evidence satisfied or waived |
| Overlap.ChainsHoldExactlyWhenFresh | internal/controlplane/service.go:208-234 | the audit logs of an interleaving are chains exactly when every recorded transition started from the status then on file |
| Overlap.FreshSettledStays | internal/controlplane/service.go:208-237 | given that guard, satisfied and waived statuses are final even under overlap |
| Overlap.SettledLostExactlyWhen | internal/controlplane/service.go:208-237 | in any interleaving a satisfied or waived status is lost exactly in a record step for it that reports another status, and that step is always stale |
| Overlap.ApprovalLostExactlyWhen | internal/controlplane/service.go:244-277 | in any interleaving an approval is lost exactly in a save whose request reloaded the executions while they were incomplete |
| Overlap.FreshApprovedIsComplete | internal/controlplane/service.go:244-277 | given that guard, approved means complete now, even under overlap |
| OutstandingEvidence.MisleadsExactlyWhen | internal/controlplane/service.go:208-277 | in any interleaving a step makes a packet approved with required evidence outstanding exactly when it records an unsettled status for required evidence of an approved packet, or saves an approval from a complete reload while the evidence on file is incomplete |
| OutstandingEvidence.NeverMisleadingExactlyWhen | internal/controlplane/service.go:208-277 | up to any instant of an interleaving a packet was never approved with evidence outstanding exactly when no such step has happened to it |
| OutstandingEvidence.OutstandingIsAtLeastRed | internal/controlplane/service.go:244-277 | in every serial run a packet with required evidence outstanding is at RED or above |
| OutstandingEvidence.OutstandingBelowRedExactlyWhen | internal/controlplane/service.go:244-277 | in every interleaving a packet with evidence outstanding is below RED exactly when it is approved and nothing fixed at ingestion (conflict, minimum lane, reviewers, score, canary) holds it higher |
| OutstandingEvidence.FallsBelowRedExactlyWhen | internal/controlplane/service.go:208-277 | in any interleaving a step lets such a packet fall below RED exactly when it is one of the two misleading steps and nothing fixed at ingestion holds it higher |
| OutstandingEvidence.OverlooksExactlyWhen | internal/controlplane/service.go:208-277 | in any interleaving a step leaves a packet complete, unblocked and without mandatory reviewer but not approved exactly when it records the last evidence missing, or saves from an incomplete reload while the evidence on file is complete |
| OutstandingEvidence.NeverOverlookedExactlyWhen | internal/controlplane/service.go:208-277 | up to any instant of an interleaving a packet was never in that state exactly when no such step has happened to it |
| OutstandingEvidence.AccurateExactlyWhenNeither | internal/controlplane/service.go:251-257 | a stored decision is true to the evidence exactly when the packet is neither approved with evidence outstanding nor complete without being approved |
| LaneMoves.BlackExactlyWhen | internal/lanes/assigner.go:27-61 | a sound packet is at BLACK exactly when it is blocked, needs a human, has BLACK as its minimum, or is approved, unforced and past every threshold without a canary |
| LaneMoves.StoredIsBlackExactlyWhen | internal/lanes/assigner.go:27-61 | the same for every stored packet in every state of every interleaving |
| LaneMoves.LaneMovesExactlyWhen | internal/controlplane/service.go:258-266 | in any interleaving a step raises a stored lane exactly when it approves a packet past every threshold or withdraws an approval that had let it below RED, and lowers it exactly in the reverse cases |
| LaneMoves.CanaryPair | internal/lanes/assigner.go:40-44 | two packets ingestion may produce that differ in the canary alone, the one without it at BLACK and the one with it at RED, neither blocked |
| Approvability.CanBeApprovedExactlyWhen | internal/controlplane/service.go:178-303 | some further sequence of updates approves a packet exactly when it is not blocked, has no mandatory reviewer, and its id and the names of the evidence it waits for are not blank |
| Approvability.ReachableApproval | internal/controlplane/service.go:178-303 | the same in every state of every serial run |
| Approvability.WaiverIsAdmitted | internal/controlplane/service.go:185-218 | waiving is legal for required evidence that is neither satisfied nor waived, and moves only that status |
| Approvability.NeverUnknown | internal/controlplane/service.go:327-362 | a chained legal log never ends in a status the service does not know |
| Exclusion.ExclusiveRecordsAreFresh | internal/controlplane/service.go:208-237 | if at most one request on a packet is ever between reading a status and saving, every record on that packet starts from the status on file, whatever happens to other packets |
| Exclusion.ExclusiveSettledStays | internal/controlplane/service.go:208-237 | under the same condition its satisfied and waived statuses are final |
| Exclusion.ExclusiveApprovalIsNeverLost | internal/controlplane/service.go:236-277 | under the same condition its approval is never lost |
| Exclusion.ExclusiveIsAccurate | internal/controlplane/service.go:236-277 | under the same condition its decision is true to the evidence whenever no request owes it a save or has stopped before saving |
| Exclusion.NeverMisleads | internal/controlplane/service.go:208-277 | a step in such a run never makes the packet approved with evidence outstanding |
| Schedules.StaleRecordLeavesGreen | internal/controlplane/service.go:208-277 | the concrete schedule of the stale record leaves the packet at GREEN with its required evidence failed |
| Schedules.ApprovalReachesBlack | internal/controlplane/service.go:244-277 | a concrete serial run in which a packet waits at RED until the report that completes its evidence approves it and sends it to BLACK |
| Schedules.ContiguousRequestIsSerialUpdate | internal/controlplane/service.go:178-242 | a request scheduled without interruption does to the store exactly what the serial specification says, refused or admitted |
| Schedules.SerialRunIsInterleaving | internal/controlplane/service.go:178-242 | every serial run is one of the interleavings |
| Schedules.StaleRecordBreaksApproval | internal/controlplane/service.go:208-237 | a concrete schedule of two requests after which a satisfied status has become failed on an approved packet |
| Schedules.StaleSaveLosesApproval | internal/controlplane/service.go:236-277 | a concrete schedule, with no stale record in it, after which an approved packet is pending although its evidence is complete |
| CheckRuns.Processor.ProcessCheckRun | internal/ingest/processor.go:79-95 | a delivery is a sequence of handled pull requests ending at the first error; an irrelevant payload changes nothing |
| CheckRuns.Processor.ReconcilePullRequest | internal/ingest/processor.go:97-131 | the newest packet of that repository, pull request and commit is picked and its bound requirement updated, or nothing happens |
| CheckRuns.MatchingRequirementMatches | internal/ingest/check_reconciliation.go:20-28 | a hit is bound to exactly this check name and app; no hit means nothing is |
| CheckRuns.OnlyTheBoundCheckMovesEvidence | internal/ingest/check_reconciliation.go:7-28 | a check run changes a status only on a packet of exactly its repository, pull request and commit, only where exactly this check and app are bound, and to satisfied only on success |
| CheckOutcomes.StatusOfPayload | internal/ingest/check_reconciliation.go:7-18 | a payload says nothing unless the check has completed; then satisfied exactly for a success and failed for anything else |
| CheckOutcomes.HandledCheckDecides | internal/ingest/check_reconciliation.go:7-18 | handling a completed check satisfies the pending or running evidence bound to it exactly when the conclusion is success, and fails it for every other conclusion |
| CheckOutcomes.DeliveryDecides | internal/ingest/processor.go:79-131 | after a delivery that succeeds the evidence bound to the check on every packet picked is satisfied for a success and failed for anything else |
| CheckOutcomes.DecimalReadsBack | internal/ingest/processor.go:108-131 | the decimal numbers written into reports read back as what they were |
| CheckRuns.DeliveryMovesOnlyBoundEvidence | internal/ingest/processor.go:79-131 | a whole delivery changes a status only to the one its check reports, only on a packet of its repository and commit picked for one of its pull requests, and only where exactly its check and app are bound |
| CheckRuns.RunTimesAreDistinct | internal/store/memory.go:108-126 | under a ticking clock no two packets of a serial run ever carry the same update time |
| CheckRuns.RedeliveryInRunIsIdempotent | internal/ingest/processor.go:79-131 | so redelivery after any serial run under a ticking clock is idempotent |
| CheckRuns.LatestIsStable | internal/store/memory.go:108-126 | handling a pull request at a later time keeps the newest packet of every pull request and commit the newest |
| CheckRuns.SecondHandling | internal/ingest/processor.go:97-131 | handling a pull request whose packet already says what the check reports succeeds and changes only times |
| CheckRuns.RedeliveryIsIdempotent | internal/ingest/processor.go:79-131 | after a successful delivery, a second one under a strictly increasing clock succeeds, picks the same packets, leaves every status, decision and lane, and adds self-transitions only |
| RuntimeGraph.TraverseGraph | internal/runtimegraph/source_graph_manifest.go:68-109 | the systems emitted are exactly the known nodes within the depth (3 when not positive) of an affected id over undirected edges, in non-decreasing distance, unknown ids relaying; each id once, or as often as listed as affected; the criticality is the one of highest rank, empty when none is above low |
| RuntimeGraph.SystemsAreThoseWithin | internal/runtimegraph/source_graph_manifest.go:68-109 | a system is returned exactly when some id within the depth (3 when not positive) is declared and it shows name, owner and criticality of the last node declared with it |
| RuntimeGraph.SystemsComeNearestFirst | internal/runtimegraph/source_graph_manifest.go:88-107 | each system returned stands for a place in the order of visits, and an earlier one is at no greater distance than a later one |
| RuntimeGraph.AsManyAsDeclared | internal/runtimegraph/source_graph_manifest.go:91-96 | there are as many systems as places in the order of visits with a declared id |
| RuntimeGraph.CriticalityFound | internal/runtimegraph/source_graph_manifest.go:92-94 | the criticality is tier 0 if any system has it, else high if any, else normal if any, else empty |
| RuntimeGraph.TopRankIsHighest | internal/runtimegraph/source_graph_manifest.go:92-94 | the top rank bounds every emitted system and, above the lowest, is attained by one |
| RuntimeGraph.FinalSearch | internal/runtimegraph/source_graph_manifest.go:86-108 | when the queue is empty the ids handled are exactly those within the bound and each recorded depth is the true shortest distance |
| RuntimeGraph.ExpandsKeepsInv | internal/runtimegraph/source_graph_manifest.go:88-107 | one iteration of the search keeps the invariant linking queue, visited set, depths and walks |
| RuntimeGraph.HandleHead | internal/runtimegraph/source_graph_manifest.go:89-107 | handling the head of the queue is one expansion step of the search |
| RuntimeGraph.IndexEdges | internal/runtimegraph/source_graph_manifest.go:76-80 | the adjacency lists hold exactly the undirected links |
| RuntimeGraph.DropsByOne | internal/runtimegraph/source_graph_manifest.go:88-107 | queueing new ids takes as many out of the unvisited vertices, which is why the search ends |
| RuntimeGraph.NoRepeats | internal/runtimegraph/source_graph_manifest.go:81-107 | when no affected id is listed twice no id is handled twice |
| RuntimeGraph.WithinMonotone | internal/runtimegraph/source_graph_manifest.go:96-98 | a larger depth reaches everything a smaller one does |
| RuntimeGraph.WithinSymmetric | internal/runtimegraph/source_graph_manifest.go:77-80 | reachability within a depth from a single source is symmetric |
| RuntimeGraph.WithinUnion | internal/runtimegraph/source_graph_manifest.go:81-86 | what two lists of affected ids reach together is the union of what each reaches |
| Policy.Validate | internal/policy/validation.go:46-78 | accepts exactly the configurations whose rules are acceptable, whose names are distinct, and whose evidence and check bindings are one-to-one across rules; otherwise the error names the first rule at fault and its first fault |
| Policy.RequirementsError | internal/policy/validation.go:125-164 | rejects exactly the requirement clauses with blank entries, ill-formed or repeated bindings, or an unknown strategy |
| Policy.EnterBindings | internal/policy/validation.go:65-75 | entering a rule into the two binding maps keeps them exact, and a clash means the rules so far are incompatible in the way the error says |
| PolicyFold.Evaluate | internal/policy/engine.go:29-53 | an error exactly for an unacceptable configuration, otherwise the fold of the matched rules in order |
| PolicyFold.Accumulator.ApplyRule | internal/policy/evaluation.go:10-20 | one rule changes the evaluation in place exactly as the fold step says |
| PolicyFold.Accumulator.AppendUniqueEvidence | internal/policy/helpers.go:18-31 | a repeated name keeps its first requirement, which gains the binding in place when it has none; a new name is appended |
| PolicyFold.Accumulator.ApplyPolicyAction | internal/policy/evaluation.go:63-81 | minimum lane, status and violations after a rule, with the early return of a block |
| PolicyRecords.AcceptableExactlyWhen | internal/policy/validation.go:85-196 | what is insisted on of each rule, clause by clause |
| PolicyRecords.AppliedInOrder | internal/policy/evaluation.go:10-20 | the policies applied are the matched rules' names and the reasons their descriptions, in order |
| PolicyRecords.RequirementsTell | internal/policy/evaluation.go:32-50 | a requirement is called and typed by its evidence and gives the first rule that asked as its reason |
| PolicyRecords.ViolationsTell | internal/policy/evaluation.go:68-76 | each violation names its blocking rule and is critical |
| PolicyRecords.ConfigurationAcceptableExactlyWhen | internal/policy/validation.go:46-78 | what is insisted on across rules: names that differ beyond case and outer spaces, one binding per evidence, one evidence per check |
| PolicyRecords.EnvironmentsInOrder | internal/policy/evaluation.go:52-61 | the deployment environments are those of the matched rules, one after the other |
| PolicyRecords.ReviewersOnlyGrow | internal/policy/helpers.go:9-16 | one more rule leaves the reviewers there are and adds after them only teams it asks for, in its spelling and with itself as the reason |
| PolicyLaws.DecisionHasClosedForm | internal/policy/evaluation.go:63-81 | approved exactly when no matched rule blocks or demands anything; blocked exactly when the last one blocks, or one blocks and nothing is demanded; otherwise pending |
| PolicyLaws.BlockSurvivesExactlyWhen | internal/policy/evaluation.go:68-80 | given a blocking rule, the decision is blocked exactly when the last matched rule blocks or no matched rule demands anything |
| PolicyLaws.BlockCanBeForgotten | internal/policy/evaluation.go:68-80 | for a rule that only blocks and one that only demands, the order decides whether the block survives; the violation is recorded either way |
| PolicyLaws.ViolationPerBlock | internal/policy/evaluation.go:68-76 | one violation per matched blocking rule, in order |
| PolicyLaws.AccumulatesExactlyWhenDemanded | internal/policy/evaluation.go:22-50 | reviewers or evidence accumulate exactly when some matched rule asks for some |
| PolicyLaws.EvidenceIsUnambiguous | internal/policy/evaluation.go:32-50 | names are distinct and are exactly those matched rules ask for; a requirement carries a binding exactly when a matched rule binds its name, and that one; no two share a check |
| PolicyLaws.FirstMatchIsTheOnlyMatch | internal/ingest/check_reconciliation.go:20-28 | so the first requirement a check run matches is the only one |
| PolicyLaws.ReviewersAreThoseAsked | internal/policy/helpers.go:9-16 | up to case folding each team asked for appears exactly once and every reviewer is mandatory |
| PolicyLaws.LaneIsHighest | internal/policy/helpers.go:33-48 | the minimum lane is the highest one any matched rule names |
| PolicyLaws.FlagsAreDisjunctions | internal/policy/evaluation.go:52-61 | canary and rollback are required exactly when some matched rule requires them |
| PolicyLaws.AcceptanceIgnoresOrder | internal/policy/validation.go:46-78 | permuting an accepted configuration keeps it accepted |
| PolicyLaws.OrderMattersExactlyWhen | internal/policy/evaluation.go:63-81 | some two orders of the matched rules decide differently exactly when some rule blocks, some rule does not, and some rule demands |
| PolicyLaws.StrategyIsTheLastNamed | internal/policy/evaluation.go:52-61 | the deployment strategy is that of the last matched rule that names one, direct when none does |
| PolicyLaws.RuleOrderIsIrrelevant | internal/policy/engine.go:44-49 | permuting the rules of an accepted configuration keeps evidence names and bindings, teams, minimum lane, flags, the bags of environments and violations, and whether the change is approved |
| Diff.ParseUnified | pkg/diff/parser.go:25-84 | the line loop with its flush yields exactly the files of the groups of lines |
| DiffNames.OneModifiedFile | pkg/diff/parser.go:46-84 | a one-file diff without marker lines parses to that file, modified, with both names free of a/ and b/ |
| DiffNames.NamesFromHeader | pkg/diff/parser.go:46-53 | any parsed file without rename lines is called, before and after, what its header says |
| DiffNames.NamesFromRenames | pkg/diff/parser.go:69-74 | the last rename lines, where there are any, give the names instead |
| DiffNames.StatusFromMarkers | pkg/diff/parser.go:64-74 | the last marker line says whether a file was added, removed or renamed; without one it was modified |
| DiffNames.FilesPerHeader | pkg/diff/parser.go:45-56 | one file per line that starts with the diff header, which is the first of its lines and the only such |
| DiffNames.CountsOfFile | pkg/diff/parser.go:75-78 | additions and deletions of each file are its lines that start with one sign but not with three |
| Diff.ParsingLosesNothing | pkg/diff/parser.go:36-80 | the patches joined by newlines are the input from its first header line on, to its end |
| Diff.PatchReparses | pkg/diff/parser.go:25-84 | parsing the patch of any parsed file gives exactly that one file |
| Diff.ParsingConcatenates | pkg/diff/parser.go:45-82 | parsing two texts joined at a header is parsing each |
| Diff.CountsAreConserved | pkg/diff/parser.go:75-78 | total additions and deletions are the counts of lines from the first header on that start with one sign but not three |
| Diff.GroupsLoseNothing | pkg/diff/parser.go:36-80 | the groups concatenated are the lines from the first header on |
| Text.TrimSpaceFinds | internal/conflictrisk/analyzer.go:100-102 | trimming finds exactly what stands between outer spaces |
| Text.SplitJoin | pkg/diff/parser.go:30-43 | splitting a join of lines gives the lines back |
| Text.JoinSplit | pkg/diff/parser.go:30-43 | joining the lines of a text gives the text back |
| Mutations.Classify | internal/mutations/engine.go:63-133 | one mutation per kind in the index of all proposals, in any order, or the first error |
| Mutations.AddMutation | internal/mutations/mutation_index.go:8-36 | a proposal is entered or merged into its kind's mutation in place |
| Mutations.IndexGathers | internal/mutations/mutation_index.go:8-81 | a kind is present exactly when proposed; its files and signals are the unions, its confidence and severity rank the maxima, over everything proposed for it |
| MutationLaws.FilesOfKind | internal/mutations/engine.go:66-109 | the files of a classified kind are exactly those some rule for it matches and those some analyzer reports for it |
| MutationLaws.MatchedFileIsClassified | internal/mutations/engine.go:72-90 | a file some rule matches is in that kind's mutation, no less confident and no less severe than the rule |
| MutationLaws.MergedSeverity | internal/mutations/mutation_index.go:70-81 | the severity of a kind is critical if any proposal's is, else high if any, else medium if any |
| MutationLaws.FirstTextWins | internal/mutations/mutation_index.go:8-36 | title, description and detector come from the first proposal of the kind that has one |
| MutationLaws.SignalsStayDistinct | internal/mutations/mutation_index.go:54-68 | signals of one source and value are kept once, with their first weight |
| MutationLaws.NothingFoundIsUnknown | internal/mutations/engine.go:112-125 | a change nothing is proposed for is one unclassified mutation over all its files in order |
| MutationLaws.FirstFailureIsReported | internal/mutations/engine.go:66-105 | classification fails with the error of the first file that is not fine: of reading its signals, or else of the first analyzer failing on it |
| Mutations.MergingIgnoresOrder | internal/mutations/mutation_index.go:8-36 | files, signals, confidence and severity rank depend only on which proposals are made |
| Mutations.ClassifyIgnoresOrder | internal/mutations/engine.go:63-133 | reordering files, rules or analyzers neither makes classification fail nor changes what it finds |
| Mutations.ClassifiedIsNonEmpty | internal/mutations/engine.go:112-125 | a change with files always gets a mutation |
| Bags.AppendUniqueStrings | internal/mutations/mutation_index.go:38-52 | the nested search-and-append loops compute the duplicate-free append |
| Bags.AppendUniqueIsUnion | internal/mutations/mutation_index.go:38-52 | the result has exactly the members of both and no duplicates if there were none |
| Conflict.Analyze | internal/conflictrisk/analyzer.go:19-94 | for every iteration order: score min(100, 25 drift + 20 per overlapping path + 10 sensitive + 45 markers), the matching route, human resolution exactly on markers, and findings with their sorted paths |
| Conflict.Collect | internal/conflictrisk/analyzer.go:26-41 | each normalized path is seen with exactly the paths written for it, and sensitive and marker files are exactly those |
| Conflict.UniqueSorted | internal/conflictrisk/analyzer.go:112-123 | the distinct paths, strictly sorted |
| ConflictLaws.OverlapsExactlyWhenSpelledTwice | internal/conflictrisk/analyzer.go:29-41 | a plain path is reported as overlapping exactly when two diff entries spell it, with or without outer spaces and a leading ./ |
| ConflictLaws.NormalizesExactlySpellings | internal/conflictrisk/analyzer.go:100-102 | a plain path is what exactly its spellings normalize to |
| ConflictLaws.LeftOutExactlyWhen | internal/conflictrisk/analyzer.go:29-33 | a file is left out exactly when its path is blank but for at most one ./ |
| ConflictLaws.ScoreAddsUpFindings | internal/conflictrisk/analyzer.go:43-93 | the score adds up 25, 20, 10 or 45 per finding by its kind, up to 100 |
| ConflictLaws.HumanExactlyOnMarkers | internal/conflictrisk/analyzer.go:82-98 | a human is needed exactly when some file's patch contains all three markers |
| ConflictLaws.DriftIsFound | internal/conflictrisk/analyzer.go:43-50 | there is a drift finding exactly when both commits are known and differ, whatever spaces surround the later one |
| ConflictLaws.KindsFound | internal/conflictrisk/analyzer.go:43-91 | drift, sensitive and marker findings carry their severities and exactly the sorted paths as written |
| Conflict.NoneExactlyWhenNothingFound | internal/conflictrisk/analyzer.go:43-93 | no route, score 0 and no finding are the same thing; a human is routed to exactly on markers |
| Conflict.AppendingNeverLowers | internal/conflictrisk/analyzer.go:19-94 | another diff entry never lowers score or route |
| RiskScore.Evaluate | internal/risk/evaluation.go:10-42 | the summary is the clamped total with criticality and volume terms, and the risks are right for every type, whatever order the map is visited in |
| RiskScore.ApplyMutationRisk | internal/risk/evaluation.go:44-63 | one mutation keeps every type's entry equal to its weights' sum and its files' duplicate-free union |
| RiskScore.MaterializeRisks | internal/risk/evaluation.go:83-94 | every entry is listed once with its severity taken from its final score |
| RiskTypes.RisksByKind | internal/risk/classification.go:5-20 | there is a security, schema, dependency, rollout or runtime risk exactly when some mutation is of the kinds listed for it, and a conflict risk exactly for a positive conflict score |
| RiskTypes.SpecificRisk | internal/risk/evaluation.go:44-63 | a security, schema, dependency or rollout risk adds up the weights and gathers the files, without repeats, of the mutations of its kinds |
| RiskTypes.RuntimeRisk | internal/risk/evaluation.go:44-63 | the runtime risk does so for all other kinds |
| RiskTypes.SeverityRanges | internal/risk/helpers.go:5-16 | every severity stands for its range of scores |
| RiskTypes.TotalInFigures | internal/risk/evaluation.go:32-81 | the total is that of the returned risks plus 10 for high or 20 for tier 0 criticality and 8 for more than twenty files, kept between 0 and 100 |
| RiskTypes.OneDefaultMutation | internal/risk/defaults.go:5-18 | the totals the default weights give for one mutation of each kind |
| RiskTypes.ContributorsAreTypes | internal/risk/evaluation.go:83-94 | the contributors are the types of the risks, in their order |
| RiskScore.NeverConflict | internal/risk/classification.go:5-20 | no mutation is ever classified as conflict risk |
| RiskScore.ScoresAreConserved | internal/risk/evaluation.go:10-63 | the returned risks' scores sum to the mutations' weights plus the positive conflict score |
| RiskScore.MoreMutationsNeverLower | internal/risk/evaluation.go:10-42 | with weights that are never negative another mutation never lowers the total |
| RiskScore.DefaultWeightsCount | internal/risk/defaults.go:5-18 | with the default weights another mutation never lowers the total, and a kind adds to it exactly when it is a known one |
| RiskScore.AssessmentIgnoresOrder | internal/risk/evaluation.go:10-94 | permuting the mutations changes neither the total nor any risk's type, score, severity or set of systems |
| Lanes.AssignRespectsMinimum | internal/lanes/assigner.go:27-45 | helper for the pipeline laws: the lane is never below the policy minimum |
| Lanes.UnsettledIsAtLeastRed | internal/lanes/assigner.go:47-61 | helper for the pipeline laws: an unsettled decision or conflict means RED or above, a block or needed human resolution BLACK |
| Lanes.GreenExactlyWhen | internal/lanes/assigner.go:27-61 | helper for the pipeline laws: GREEN under exactly one conjunction |
| Lanes.MonotoneInScore | internal/lanes/assigner.go:27-45 | helper for the pipeline laws: a higher score alone never lowers the lane, for any thresholds |
| Lanes.CanaryLowersLaneExactlyWhen | internal/lanes/assigner.go:40-44 | requiring a canary lowers the lane exactly above the last threshold when nothing forces a lane and no reviewer is mandatory |
| Lanes.ApprovalRaisesLaneExactlyWhen | internal/lanes/assigner.go:40-61 | approving a pending packet raises its lane exactly in that same situation |
| Pipeline.Ingestion.constructor | internal/ingest/change_packet.go:30-69 | the packet built from a fetched pull request and diff: parsed files, pending, nothing analysed, no known later base commit |
| Pipeline.Ingestion.EnrichMutations | internal/ingest/stages.go:14-29 | sets only the mutations, to the classification of the files |
| Pipeline.Ingestion.EnrichRisk | internal/ingest/stages.go:48-58 | sets only conflict, risk summary and risks, to a correct assessment of the packet |
| Pipeline.Ingestion.ApplyPolicy | internal/ingest/stages.go:60-71 | sets decision, evidence, reviewers and deployment to the verdict of the rules matching the packet as it stood, or changes nothing |
| Pipeline.Ingestion.AssignMergeLane | internal/ingest/stages.go:73-82 | sets the assigned lane and the time |
| Pipeline.Ingestion.Finalize | internal/ingest/stages.go:84-116 | the packet is saved exactly when violations, if any, and lane were published, and before the check is |
| Pipeline.Ingestion.Process | internal/ingest/workflow.go:33-52 | on a built packet, succeeds exactly when every stage and publication from mutations to check does; the store gains exactly the fully ingested packet, carrying the resolved criticality and the times read, or stays as it was; the rules are matched against the packet as built but for mutations, runtime and risk |
| Pipeline.OpenedCarries | internal/ingest/change_packet.go:30-69 | the packet built carries number and commits as fetched, or as the webhook says when fetching fails, and the parsed paths and patches, with nothing decided |
| Pipeline.ProcessPROpened | internal/ingest/workflow.go:10-72 | the whole handling of an opened pull request, with the webhook data standing in for a failed fetch: a packet is answered exactly when the opening and creation are published, the diff is fetched and every stage succeeds; the store gains exactly that packet, carrying the resolved criticality and the times read, or stays as it was |
| PipelineLaws.IngestedIsProduced | internal/ingest/stages.go:60-82 | an ingested packet is what the control plane presumes of a new packet |
| PipelineLaws.IngestedIsStep | internal/ingest/stages.go:84-103 | saving it under a fresh id is a legal step of every serial run and every interleaving |
| PipelineLaws.CheckMatchesOneRequirement | internal/ingest/check_reconciliation.go:20-28 | a check run matches at most one requirement of an ingested packet |
| PipelineLaws.ScoreIsTheRisksTotal | internal/ingest/stages.go:48-58 | the packet's score is its risks' total with the criticality and volume terms, within 0 to 100 |
| PipelineLaws.PullRequestFindings | internal/ingest/change_packet.go:65-68 | an ingested pull request has a conflict finding exactly for overlapping entries, sensitive files or markers, never for drift |
| PipelineLaws.LaneHasClosedForm | internal/lanes/assigner.go:27-88 | the lane of an ingested packet is the higher of its matched rules' highest minimum and an order given by findings, blocks, demands, canaries and score |
| PipelineLaws.LaneIsJustified | internal/lanes/assigner.go:27-88 | the lane is at least every matched rule's minimum, at least RED on any block, demand or finding, and GREEN under exactly one conjunction over the matched rules |
| PipelineLaws.LaneIsMonotoneInScore | internal/lanes/assigner.go:27-45 | with the same rules matched and the same conflict, a higher score never means a lower lane |
| PipelineLaws.IngestedForLife | internal/controlplane/service.go:244-277 | in every interleaving after ingestion the packet stays at or above its rules' minimum lanes and, given findings, RED; markers and a block keep it at BLACK; a rule that asked for a reviewer keeps it unapproved |
| PipelineLaws.ApprovedExactlyWhenRulesAreMet | internal/controlplane/service.go:244-303 | in every serial run an ingested packet is approved exactly when its verdict was no block, no matched rule asked for a reviewer, and all evidence matched rules asked for is satisfied or waived; violations have no say |
| PipelineLaws.CanBeApprovedExactlyWhenRulesAllow | internal/controlplane/service.go:178-303 | at any instant of a serial run, some further updates can approve an ingested packet exactly when its verdict was no block and no matched rule asked for a reviewer |
| PipelineLaws.LaneForLife | internal/controlplane/service.go:244-277 | in every interleaving after ingestion the lane is the higher of the matched rules' highest minimum and an order given by findings, markers, the verdict, canaries, the score and whether the packet is approved by then |
| PipelineLaws.CanaryRuleLowersLaneExactlyWhen | internal/lanes/assigner.go:40-44 | one more matched rule, last in order, that only asks for a canary lowers the ingested lane exactly when nothing else raises it and either the score is past the last threshold with nothing demanded or found, or the rule makes the fold forget a block |

## Left out

- Transports, webhooks' authentication, the event bus, telemetry, command line and server code: input and output only.
- The PostgreSQL store: its semantics are SQL's; the model covers the in-memory one.
- YAML and JSON decoding, Go syntax analysis, regular expressions, globbing: parameters, as listed above.
- CODEOWNERS and topology sources, blast radius: shallow accumulation. The manifest source's path matching and merging
  of fragments: `TraverseGraph` starts from a fragment and a depth.
- Deployment outcomes, the calibration report, stored events: counters and appends with no invariant to keep.
- Explanatory texts: decision summaries, risk reasons, conflict mitigations and summaries, check-run output.
- Generated identifiers of mutations, risks and findings.
- The copying of audit metadata on reading: metadata are values here.
- A missing evidence updater in the check-run processor, and the separate read of the newest packet as a step of its own
  in the interleaving model: there a request may begin for any packet at any time, which covers every answer that read
  could have given.
- The spelling of reviewer teams that differ only in case: the first one is kept, and `Applied` says so.
- Deployment strategy: the last rule that names one wins (`StrategyIsTheLastNamed`), so it depends on rule order and is
  not among the order-independent results.
- Policy.Validate: tells the faults of a clause apart by clause, not by entry; the position within a list is text.
- Pipeline.ProcessPROpened: installation binding, correlation ids, owner and name of the repository, author, title and
  summary are carried along by the code and not modelled; nor is the resolution of ownership.
- Mutations.ClassifyIgnoresOrder: titles, descriptions, detectors and signal weights come from the first proposal and do
  depend on order.
