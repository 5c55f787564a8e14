/** Particular interleavings: the serial one, which is just contiguous scheduling, and the shortest
  * schedules that show what overlap can break. */
module Schedules {
  import opened Domain
  import opened Text
  import opened EvidenceStore
  import opened ControlPlane
  import opened Invariants
  import opened Interleaving
  import Overlap
  import OutstandingEvidence
  import LaneMoves
  import SerialRuns
  import Lanes

  /** Runs a schedule, stopping with None at an event that cannot happen. */
  ghost function ExecAll(y: System, events: seq<Event>, assigner: Assigner): Option<System>
    decreases |events|
  {
    if events == [] then Some(y)
    else
      match Exec(y, events[0], assigner)
      case None => None
      case Some(z) => ExecAll(z, events[1..], assigner)
  }

  lemma {:induction false} ExecAllAppend(y: System, a: seq<Event>, b: seq<Event>, assigner: Assigner)
    ensures ExecAll(y, a + b, assigner) ==
            (match ExecAll(y, a, assigner) case None => None case Some(z) => ExecAll(z, b, assigner))
    decreases |a|
  {
    if a == [] {
      assert a + b == b;
    } else {
      assert (a + b)[1..] == a[1..] + b;
      match Exec(y, a[0], assigner) {
        case None =>
        case Some(z) => ExecAllAppend(z, a[1..], b, assigner);
      }
    }
  }

  lemma ExecFirst(y: System, events: seq<Event>, assigner: Assigner) returns (z: System)
    requires events != [] && Exec(y, events[0], assigner).Some?
    ensures Exec(y, events[0], assigner) == Some(z)
    ensures ExecAll(y, events, assigner) == ExecAll(z, events[1..], assigner)
  {
    z := Exec(y, events[0], assigner).value;
  }

  // ---- Serial scheduling ----------------------------------------------------------------------------

  /** One request from its first call to its last, with nothing in between. */
  function Contiguous(r: nat, execution: EvidenceExecution, at: Surroundings): seq<Event> {
    [Begin(r, execution), ReadPacket(r), ReadStatus(r), Record(r, at.recordedAt), Reload(r),
     Save(r, at.reconciledAt, at.savedAt), Finish(r)]
  }

  /** The prefix of a contiguous request that actually happens before it is refused. */
  function Script(s: State, r: nat, execution: EvidenceExecution, at: Surroundings): seq<Event> {
    match Admit(s, execution)
    case Ok(_) => Contiguous(r, execution, at)
    case Err(InvalidField(_)) => []
    case Err(IllegalTransition(_, _, _)) => Contiguous(r, execution, at)[..3]
    case Err(_) => Contiguous(r, execution, at)[..2]
  }

  lemma ThreeReads(y: System, r: nat, execution: EvidenceExecution, at: Surroundings, assigner: Assigner)
    requires r !in y.requests && Admit(y.store, execution).Ok?
    ensures var admission := Admit(y.store, execution).value;
            ExecAll(y, Contiguous(r, execution, at)[..3], assigner) ==
            Some(y.(requests := y.requests[r :=
                      Request(execution, HoldsStatus(admission.packet, admission.requirement, admission.from))]))
  {
    var admission := Admit(y.store, execution).value;
    var events := Contiguous(r, execution, at)[..3];
    var y1 := ExecFirst(y, events, assigner);
    var y2 := ExecFirst(y1, events[1..], assigner);
    var y3 := ExecFirst(y2, events[1..][1..], assigner);
    assert events[1..][1..][1..] == [];
    assert y3.requests ==
           y.requests[r := Request(execution, HoldsStatus(admission.packet, admission.requirement, admission.from))];
  }

  lemma FourWrites(y: System, r: nat, execution: EvidenceExecution, at: Surroundings, assigner: Assigner,
                   admission: Admission)
    requires r in y.requests
    requires y.requests[r] == Request(execution, HoldsStatus(admission.packet, admission.requirement, admission.from))
    ensures ExecAll(y, Contiguous(r, execution, at)[3..], assigner) ==
            Some(System(AfterReconcile(AfterRecord(y.store, execution, admission, at), admission.packet, assigner, at),
                        y.requests - {r}))
  {
    var calls := Contiguous(r, execution, at);
    var y5 := TwoCalls(y, r, execution, at, assigner, admission);
    LastCalls(y5, r, execution, at, assigner, admission.packet);
    ExecAllAppend(y, calls[3..5], calls[5..], assigner);
    assert calls[3..] == calls[3..5] + calls[5..];
    assert y5.requests - {r} == y.requests - {r};
  }

  lemma LastCalls(y: System, r: nat, execution: EvidenceExecution, at: Surroundings, assigner: Assigner,
                  packet: ChangePacket)
    requires r in y.requests
    requires y.requests[r] == Request(execution, HasReloaded(packet, y.store.EvidenceOf(packet.id)))
    ensures ExecAll(y, Contiguous(r, execution, at)[5..], assigner) ==
            Some(System(AfterReconcile(y.store, packet, assigner, at), y.requests - {r}))
  {
    var events := Contiguous(r, execution, at)[5..];
    var y6 := ExecFirst(y, events, assigner);
    var y7 := ExecFirst(y6, events[1..], assigner);
    assert events[1..][1..] == [];
    assert y7.requests == y.requests - {r};
  }

  /** A request scheduled without interruption does to the store exactly what the serial service does,
    * whether it is refused or takes effect. */
  lemma ContiguousRequestIsSerialUpdate(y: System, r: nat, execution: EvidenceExecution, at: Surroundings,
                                        assigner: Assigner)
    requires r !in y.requests
    ensures ExecAll(y, Script(y.store, r, execution, at), assigner) ==
            Some(y.(store := Updated(y.store, execution, assigner, at).0))
  {
    var events := Contiguous(r, execution, at);
    match Admit(y.store, execution) {
      case Ok(admission) =>
        ThreeReads(y, r, execution, at, assigner);
        var y3 := ExecAll(y, events[..3], assigner).value;
        FourWrites(y3, r, execution, at, assigner, admission);
        ExecAllAppend(y, events[..3], events[3..], assigner);
        assert events == events[..3] + events[3..];
        assert y3.requests - {r} == y.requests;
      case Err(InvalidField(_)) =>
      case Err(IllegalTransition(_, _, _)) =>
        RefusedRequestEnds(y, r, execution, at, assigner);
      case Err(_) =>
        RefusedRequestEnds(y, r, execution, at, assigner);
    }
  }

  lemma RefusedRequestEnds(y: System, r: nat, execution: EvidenceExecution, at: Surroundings, assigner: Assigner)
    requires r !in y.requests
    requires Admit(y.store, execution).Err? && !Admit(y.store, execution).error.InvalidField?
    ensures ExecAll(y, Script(y.store, r, execution, at), assigner) == Some(y)
  {
    var events := Script(y.store, r, execution, at);
    var y1 := ExecFirst(y, events, assigner);
    var y2 := ExecFirst(y1, events[1..], assigner);
    if Admit(y.store, execution).error.IllegalTransition? {
      var y3 := ExecFirst(y2, events[1..][1..], assigner);
      assert events[1..][1..][1..] == [];
      assert y3.requests == y.requests;
    } else {
      assert events[1..][1..] == [];
      assert y2.requests == y.requests;
    }
  }

  function SerialSchedule(states: seq<State>, ops: seq<SerialRuns.Op>): seq<Event>
    requires |states| > |ops|
  {
    if ops == [] then []
    else
      var last := |ops| - 1;
      SerialSchedule(states, ops[..last]) +
      match ops[last]
      case Ingest(packet, now) => [Event.Ingest(packet, now)]
      case Update(execution, at) => Script(states[last], 0, execution, at)
  }

  /** Every serial run is an interleaving, one request at a time. */
  lemma {:induction false} SerialRunIsInterleaving(states: seq<State>, ops: seq<SerialRuns.Op>, assigner: Assigner)
    requires SerialRuns.IsRun(states, ops, assigner)
    ensures ExecAll(IDLE, SerialSchedule(states, ops), assigner) == Some(System(states[|ops|], map[]))
  {
    if ops != [] {
      var last := |ops| - 1;
      SerialRunIsInterleaving(states[..|ops|], ops[..last], assigner);
      ScheduleReadsPrefix(states, ops[..last]);
      var before := SerialSchedule(states, ops[..last]);
      var y := System(states[last], map[]);
      assert SerialRuns.Step(states[last], ops[last], states[last + 1], assigner);
      match ops[last] {
        case Ingest(packet, now) =>
          ExecAllAppend(IDLE, before, [Event.Ingest(packet, now)], assigner);
          assert [Event.Ingest(packet, now)][1..] == [];
        case Update(execution, at) =>
          ExecAllAppend(IDLE, before, Script(states[last], 0, execution, at), assigner);
          ContiguousRequestIsSerialUpdate(y, 0, execution, at, assigner);
      }
    }
  }

  lemma {:induction false} ScheduleReadsPrefix(states: seq<State>, ops: seq<SerialRuns.Op>)
    requires |states| > |ops| + 1
    ensures SerialSchedule(states[..|ops| + 1], ops) == SerialSchedule(states, ops)
  {
    if ops != [] {
      var last := |ops| - 1;
      ScheduleReadsPrefix(states, ops[..last]);
      ScheduleReadsPrefix(states[..|ops| + 1], ops[..last]);
      assert states[..|ops| + 1][..|ops|] == states[..|ops|];
    }
  }

  // ---- What overlap can break -----------------------------------------------------------------------

  /** The systems a schedule passes through. */
  ghost function Trace(y: System, events: seq<Event>, assigner: Assigner): (run: seq<System>)
    requires ExecAll(y, events, assigner).Some?
    ensures |run| == |events| + 1 && run[0] == y && run[|events|] == ExecAll(y, events, assigner).value
    ensures forall i | 0 <= i < |events| :: Exec(run[i], events[i], assigner) == Some(run[i + 1])
    decreases |events|
  {
    if events == [] then [y]
    else
      var z := Exec(y, events[0], assigner).value;
      var rest := Trace(z, events[1..], assigner);
      assert forall i | 0 < i < |events| :: events[i] == events[1..][i - 1];
      [y] + rest
  }

  const REQUIREMENT := EvidenceRequirement("unit_tests", "unit_tests", true, "", "policy-engine", None)

  /** A pending packet that waits for one piece of evidence and no reviewer. */
  function WaitingPacket(assigner: Assigner): ChangePacket {
    var decision := PolicyDecision(DecisionPending, [], [], ["tests"], MergeLaneUnset, 1);
    var packet := ChangePacket("cp", "org/repo", 7, "head", "base", "", [], [], CriticalityNormal,
                               ConflictAssessment(ConflictRouteNone, 0, false, []),
                               RiskSummary(0, SeverityLow, []), [], [REQUIREMENT], [],
                               DeploymentRequirement("direct", [], false, false), decision, MergeLaneRed, 1);
    if assigner.Some? then packet.(mergeLane := Lanes.Assign(assigner.value, packet)) else packet
  }

  function Report(status: EvidenceStatus): EvidenceExecution {
    EvidenceExecution("cp", "unit_tests", "", status, false, "", "", "ci", map[], 0)
  }

  const NOW := Surroundings(2, 3, 4, true)

  ghost predicate Shows(s: State, decision: DecisionStatus, evidence: EvidenceStatus) {
    && "cp" in s.packets
    && s.packets["cp"].decision.status == decision
    && s.packets["cp"].evidence == [REQUIREMENT]
    && s.packets["cp"].reviewers == []
    && s.StatusOf("cp", "unit_tests") == evidence
  }

  lemma WaitingStore(assigner: Assigner) returns (s: State)
    ensures Exec(IDLE, Event.Ingest(WaitingPacket(assigner), 1), assigner) == Some(System(s, map[]))
    ensures SerialRuns.SerialInv(s, assigner)
    ensures Shows(s, DecisionPending, EvidencePending)
    ensures s.packets["cp"].id == "cp"
  {
    var packet := WaitingPacket(assigner);
    s := Saved(EMPTY, packet, 1);
    assert Produced(packet, assigner);
    EmptyStoreInv(assigner);
    SerialRuns.IngestKeepsInv(EMPTY, packet, 1, assigner);
    SavedKeepsStatuses(EMPTY, packet, 1);
  }

  lemma ReportAdmitted(s: State, status: EvidenceStatus)
    requires "cp" in s.packets && s.packets["cp"].evidence == [REQUIREMENT]
    requires ValidEvidenceStatus(status) && CanTransition(s.StatusOf("cp", "unit_tests"), status)
    ensures Admit(s, Report(status)) == Ok(Admission(s.packets["cp"], REQUIREMENT, s.StatusOf("cp", "unit_tests")))
  {
    assert !IsSpace("cp"[0]) && "cp"[0] in "cp";
    assert !IsSpace("unit_tests"[0]) && "unit_tests"[0] in "unit_tests";
    assert !IsSpace("ci"[0]) && "ci"[0] in "ci";
  }

  lemma SettledShowsApproved(s: State, assigner: Assigner)
    requires StoreInv(s, assigner) && "cp" in s.packets && SerialRuns.Accurate(s, "cp")
    requires s.packets["cp"].evidence == [REQUIREMENT] && s.packets["cp"].reviewers == []
    requires !s.packets["cp"].decision.status.DecisionBlocked?
    requires s.StatusOf("cp", "unit_tests").EvidenceSatisfied?
    ensures Shows(s, DecisionApproved, EvidenceSatisfied)
  {
    assert [REQUIREMENT][0].name == "unit_tests";
    assert Names([REQUIREMENT], "unit_tests");
  }

  /** An uninterrupted report of success on the waiting packet approves it. */
  lemma SuccessApproves(s: State, assigner: Assigner) returns (t: State)
    requires StoreInv(s, assigner) && "cp" in s.packets
    requires s.packets["cp"].evidence == [REQUIREMENT] && s.packets["cp"].reviewers == []
    requires !s.packets["cp"].decision.status.DecisionBlocked?
    requires CanTransition(s.StatusOf("cp", "unit_tests"), EvidenceSatisfied)
    ensures t == Updated(s, Report(EvidenceSatisfied), assigner, NOW).0
    ensures StoreInv(t, assigner)
    ensures Shows(t, DecisionApproved, EvidenceSatisfied)
  {
    ReportAdmitted(s, EvidenceSatisfied);
    t := Updated(s, Report(EvidenceSatisfied), assigner, NOW).0;
    SerialRuns.UpdateKeepsStoreInv(s, Report(EvidenceSatisfied), assigner, NOW);
    SerialRuns.AdmittedUpdateIsAccurate(s, Report(EvidenceSatisfied), assigner, NOW);
    SerialRuns.UpdateSetsStatus(s, Report(EvidenceSatisfied), assigner, NOW, "cp", "unit_tests");
    SerialRuns.UpdateKeepsPackets(s, Report(EvidenceSatisfied), assigner, NOW, "cp");
    SettledShowsApproved(t, assigner);
  }

  /** Request 1 reads pending, request 0 satisfies the evidence and approves, request 1 records a failure. */
  function StaleRecord(assigner: Assigner): seq<Event> {
    [Event.Ingest(WaitingPacket(assigner), 1)]
    + Contiguous(1, Report(EvidenceFailed), NOW)[..3]
    + Contiguous(0, Report(EvidenceSatisfied), NOW)
    + [Record(1, 5)]
  }

  /** Terminal statuses are not absorbing once requests overlap, and an approved packet may have failed
    * evidence on file: the last two systems of this run show both. */
  lemma StaleRecordBreaksApproval(assigner: Assigner)
    ensures ExecAll(IDLE, StaleRecord(assigner), assigner).Some?
    ensures var run := Trace(IDLE, StaleRecord(assigner), assigner);
            && IsRun(run, StaleRecord(assigner), assigner)
            && Shows(run[11].store, DecisionApproved, EvidenceSatisfied)
            && Shows(run[12].store, DecisionApproved, EvidenceFailed)
  {
    hide Exec, Contiguous, WaitingPacket, Shows;
    var events := StaleRecord(assigner);
    var t, held := StaleRecordUntilSaved(assigner);
    var y := System(t, map[1 := held]);
    var z := LateRecord(y, held, assigner);
    LastOfStaleRecord(assigner);
    LastEvent(IDLE, events, assigner, y);
    TracePrefix(IDLE, events, assigner, 11);
  }

  lemma LastOfStaleRecord(assigner: Assigner)
    ensures |StaleRecord(assigner)| == 12 && StaleRecord(assigner)[11] == Record(1, 5)
  {
  }

  lemma LateRecord(y: System, held: Request, assigner: Assigner) returns (z: System)
    requires 1 in y.requests && y.requests[1] == held && held.execution == Report(EvidenceFailed)
    requires held.phase.HoldsStatus? && held.phase.requirement == REQUIREMENT && held.phase.from == EvidencePending
    requires Shows(y.store, DecisionApproved, EvidenceSatisfied)
    ensures Exec(y, Record(1, 5), assigner) == Some(z)
    ensures Shows(z.store, DecisionApproved, EvidenceFailed)
  {
    var stamped := Stamped(held.execution, REQUIREMENT, 5);
    RecordedStatuses(y.store, stamped, AuditEntry(stamped, EvidencePending), 5);
    z := Exec(y, Record(1, 5), assigner).value;
  }

  /** The same run leaves the packet at GREEN while its required evidence has failed. */
  lemma StaleRecordLeavesGreen(config: Lanes.Config) returns (run: seq<System>)
    requires config.greenMax >= 0
    ensures |run| == 13 && IsRun(run, StaleRecord(Some(config)), Some(config))
    ensures Shows(run[12].store, DecisionApproved, EvidenceFailed)
    ensures run[12].store.packets["cp"].mergeLane == MergeLaneGreen
    ensures OutstandingEvidence.BelowRed(run[12].store, "cp")
  {
    hide Exec, SameChange, WaitingPacket, Lanes.Assign;
    var events := StaleRecord(Some(config));
    StaleRecordBreaksApproval(Some(config));
    run := Trace(IDLE, events, Some(config));
    WaitingPacketStored(run, events, Some(config));
    Overlap.PacketsKeepTheirChange(run, events, config, 1, 12, "cp");
    ApprovedWaitingIsGreen(config, run[12].store);
    FailedIsOutstanding(run[12].store);
  }

  lemma WaitingPacketStored(run: seq<System>, events: seq<Event>, assigner: Assigner)
    requires IsRun(run, events, assigner) && events != [] && events[0] == Event.Ingest(WaitingPacket(assigner), 1)
    ensures "cp" in run[1].store.packets && run[1].store.packets["cp"] == WaitingPacket(assigner)
  {
    hide Produced;
    assert Exec(run[0], events[0], assigner) == Some(run[1]);
  }

  lemma ApprovedWaitingIsGreen(config: Lanes.Config, s: State)
    requires config.greenMax >= 0
    requires "cp" in s.packets && SameChange(WaitingPacket(Some(config)), s.packets["cp"])
    requires s.packets["cp"].decision.status.DecisionApproved?
    requires s.packets["cp"].mergeLane == Lanes.Assign(config, s.packets["cp"])
    ensures s.packets["cp"].mergeLane == MergeLaneGreen
  {
  }

  lemma FailedIsOutstanding(s: State)
    requires Shows(s, DecisionApproved, EvidenceFailed)
    ensures OutstandingEvidence.Outstanding(s, "cp")
  {
    assert [REQUIREMENT][0] in s.packets["cp"].evidence;
  }

  lemma LastEvent(y: System, events: seq<Event>, assigner: Assigner, z: System)
    requires events != []
    requires ExecAll(y, events[..|events| - 1], assigner) == Some(z)
    ensures ExecAll(y, events, assigner) == Exec(z, events[|events| - 1], assigner)
  {
    hide Exec;
    var last := [events[|events| - 1]];
    ExecAllAppend(y, events[..|events| - 1], last, assigner);
    assert events[..|events| - 1] + last == events;
    assert last[1..] == [];
  }

  lemma StaleRecordUntilSaved(assigner: Assigner) returns (t: State, held: Request)
    ensures ExecAll(IDLE, StaleRecord(assigner)[..11], assigner) == Some(System(t, map[1 := held]))
    ensures held.execution == Report(EvidenceFailed)
    ensures held.phase.HoldsStatus? && held.phase.requirement == REQUIREMENT && held.phase.from == EvidencePending
    ensures Shows(t, DecisionApproved, EvidenceSatisfied)
  {
    hide Exec, Updated, SerialRuns.Chained, StoreInv, WaitingPacket;
    var s := WaitingStore(assigner);
    ReportAdmitted(s, EvidenceFailed);
    ReportAdmitted(s, EvidenceSatisfied);
    t := SuccessApproves(s, assigner);
    held := Request(Report(EvidenceFailed), HoldsStatus(s.packets["cp"], REQUIREMENT, EvidencePending));
    NestedRequest(System(s, map[]), 1, Report(EvidenceFailed), 0, Report(EvidenceSatisfied), NOW, assigner);
    FirstEvent(StaleRecord(assigner)[..11], assigner, System(s, map[]));
    StaleRecordPrefix(assigner);
  }

  lemma StaleRecordPrefix(assigner: Assigner)
    ensures StaleRecord(assigner)[..11][0] == Event.Ingest(WaitingPacket(assigner), 1)
    ensures StaleRecord(assigner)[..11][1..] ==
            Contiguous(1, Report(EvidenceFailed), NOW)[..3] + Contiguous(0, Report(EvidenceSatisfied), NOW)
  {
  }

  lemma FirstEvent(events: seq<Event>, assigner: Assigner, y: System)
    requires events != [] && Exec(IDLE, events[0], assigner) == Some(y)
    ensures ExecAll(IDLE, events, assigner) == ExecAll(y, events[1..], assigner)
  {
  }

  /** One request reads its status, then another runs from start to end. */
  lemma NestedRequest(y: System, r: nat, outer: EvidenceExecution, q: nat, inner: EvidenceExecution,
                      at: Surroundings, assigner: Assigner)
    requires r !in y.requests && q !in y.requests && r != q
    requires Admit(y.store, outer).Ok? && Admit(y.store, inner).Ok?
    ensures var admission := Admit(y.store, outer).value;
            ExecAll(y, Contiguous(r, outer, at)[..3] + Contiguous(q, inner, at), assigner) ==
            Some(System(Updated(y.store, inner, assigner, at).0,
                        y.requests[r := Request(outer,
                                                HoldsStatus(admission.packet, admission.requirement, admission.from))]))
  {
    ThreeReads(y, r, outer, at, assigner);
    var z := ExecAll(y, Contiguous(r, outer, at)[..3], assigner).value;
    ContiguousRequestIsSerialUpdate(z, q, inner, at, assigner);
    ExecAllAppend(y, Contiguous(r, outer, at)[..3], Contiguous(q, inner, at), assigner);
  }

  lemma {:induction false} TracePrefix(y: System, events: seq<Event>, assigner: Assigner, n: nat)
    requires ExecAll(y, events, assigner).Some? && n <= |events|
    ensures ExecAll(y, events[..n], assigner) == Some(Trace(y, events, assigner)[n])
    decreases n
  {
    if n > 0 {
      var z := Exec(y, events[0], assigner).value;
      TracePrefix(z, events[1..], assigner, n - 1);
      assert events[..n][1..] == events[1..][..n - 1];
    }
  }

  /** Request 0 records running and reloads, request 1 satisfies the evidence and approves, request 0 saves. */
  function StaleSave(assigner: Assigner): seq<Event> {
    [Event.Ingest(WaitingPacket(assigner), 1)]
    + Contiguous(0, Report(EvidenceRunning), NOW)[..5]
    + Contiguous(1, Report(EvidenceSatisfied), NOW)
    + [Save(0, 6, 6)]
  }

  /** Even with every record fresh and every audit log a chain, a late save can withdraw an approval and
    * leave a packet pending although all its evidence is complete and no request is left to correct it. */
  lemma StaleSaveLosesApproval(assigner: Assigner)
    ensures ExecAll(IDLE, StaleSave(assigner), assigner).Some?
    ensures var run := Trace(IDLE, StaleSave(assigner), assigner);
            && IsRun(run, StaleSave(assigner), assigner)
            && Shows(run[13].store, DecisionApproved, EvidenceSatisfied)
            && Shows(run[14].store, DecisionPending, EvidenceSatisfied)
            && Overlap.ChainsHold(run[14].store)
  {
    var events := StaleSave(assigner);
    var t, held := StaleSaveUntilSaved(assigner);
    var y := System(t, map[0 := held]);
    var z := LateSave(y, held, assigner);
    LastEvent(IDLE, events, assigner, y);
    TracePrefix(IDLE, events, assigner, 13);
  }

  lemma LateSave(y: System, held: Request, assigner: Assigner) returns (z: System)
    requires 0 in y.requests && y.requests[0] == held && held.phase.HasReloaded?
    requires held.phase.packet.id == "cp" && held.phase.packet.decision.status.DecisionPending?
    requires held.phase.packet.evidence == [REQUIREMENT] && held.phase.packet.reviewers == []
    requires "unit_tests" in held.phase.executions && !Settled(held.phase.executions["unit_tests"].status)
    requires Overlap.ChainsHold(y.store) && y.store.StatusOf("cp", "unit_tests") == EvidenceSatisfied
    ensures Exec(y, Save(0, 6, 6), assigner) == Some(z)
    ensures Shows(z.store, DecisionPending, EvidenceSatisfied) && Overlap.ChainsHold(z.store)
  {
    z := Exec(y, Save(0, 6, 6), assigner).value;
    var phase := held.phase;
    assert REQUIREMENT in phase.packet.evidence && !Complete(phase.packet.evidence, phase.executions);
    var packet := Reconciled(phase.packet, phase.executions, assigner, 6);
    SavedKeepsStatuses(y.store, packet, 6);
    assert forall id :: Saved(y.store, packet, 6).AuditOf(id) == y.store.AuditOf(id);
  }

  lemma StaleSaveUntilSaved(assigner: Assigner) returns (t: State, held: Request)
    ensures ExecAll(IDLE, StaleSave(assigner)[..13], assigner) == Some(System(t, map[0 := held]))
    ensures held.phase.HasReloaded? && held.phase.packet.id == "cp"
    ensures held.phase.packet.decision.status.DecisionPending?
    ensures held.phase.packet.evidence == [REQUIREMENT] && held.phase.packet.reviewers == []
    ensures "unit_tests" in held.phase.executions && !Settled(held.phase.executions["unit_tests"].status)
    ensures Shows(t, DecisionApproved, EvidenceSatisfied)
    ensures Overlap.ChainsHold(t)
  {
    hide Exec, AfterRecord, Admit, Updated, Contiguous, StoreInv, StaleSave, WaitingPacket, Report, Overlap.ChainsHold;
    StaleSavePrefix(assigner);
    var s := WaitingStore(assigner);
    ReportAdmitted(s, EvidenceRunning);
    var admission := Admission(s.packets["cp"], REQUIREMENT, EvidencePending);
    var r := RunningRecorded(s, admission, assigner);
    t := SuccessApproves(r, assigner);
    ReportAdmitted(r, EvidenceSatisfied);
    SuccessKeepsChains(r, assigner);
    held := Request(Report(EvidenceRunning), HasReloaded(admission.packet, r.EvidenceOf("cp")));
    ReloadedThenOther(System(s, map[]), 0, Report(EvidenceRunning), 1, Report(EvidenceSatisfied), NOW, assigner,
                      admission, r);
    FirstEvent(StaleSave(assigner)[..13], assigner, System(s, map[]));
  }

  lemma SuccessKeepsChains(r: State, assigner: Assigner)
    requires Audited(r) && Overlap.ChainsHold(r)
    ensures Overlap.ChainsHold(Updated(r, Report(EvidenceSatisfied), assigner, NOW).0)
  {
    forall id
      ensures SerialRuns.Chained(Updated(r, Report(EvidenceSatisfied), assigner, NOW).0.AuditOf(id))
    {
      SerialRuns.UpdateKeepsChain(r, Report(EvidenceSatisfied), assigner, NOW, id);
    }
  }

  lemma RunningRecorded(s: State, admission: Admission, assigner: Assigner) returns (r: State)
    requires SerialRuns.SerialInv(s, assigner) && Shows(s, DecisionPending, EvidencePending)
    requires Admit(s, Report(EvidenceRunning)) == Ok(admission)
    ensures r == AfterRecord(s, Report(EvidenceRunning), admission, NOW)
    ensures StoreInv(r, assigner) && Overlap.ChainsHold(r)
    ensures r.packets == s.packets && r.StatusOf("cp", "unit_tests") == EvidenceRunning
    ensures "unit_tests" in r.EvidenceOf("cp")
  {
    var stamped := Stamped(Report(EvidenceRunning), admission.requirement, NOW.recordedAt);
    var entry := AuditEntry(stamped, admission.from);
    r := Recorded(s, stamped, entry, NOW.recordedAt);
    FindRequirementFinds(s.packets["cp"].evidence, "unit_tests");
    RecordedKeepsInv(s, stamped, entry, NOW.recordedAt, assigner);
    Overlap.RecordedChains(s, stamped, entry, NOW.recordedAt);
  }

  /** One request records and reloads, then another runs from start to end. */
  lemma ReloadedThenOther(y: System, r: nat, outer: EvidenceExecution, q: nat, inner: EvidenceExecution,
                          at: Surroundings, assigner: Assigner, admission: Admission, recorded: State)
    requires r !in y.requests && q !in y.requests && r != q
    requires Admit(y.store, outer) == Ok(admission)
    requires recorded == AfterRecord(y.store, outer, admission, at)
    requires Admit(recorded, inner).Ok?
    ensures ExecAll(y, Contiguous(r, outer, at)[..5] + Contiguous(q, inner, at), assigner) ==
            Some(System(Updated(recorded, inner, assigner, at).0,
                        y.requests[r := Request(outer,
                                                HasReloaded(admission.packet,
                                                            recorded.EvidenceOf(admission.packet.id)))]))
  {
    FiveCalls(y, r, outer, at, assigner, admission, recorded);
    var z := ExecAll(y, Contiguous(r, outer, at)[..5], assigner).value;
    ContiguousRequestIsSerialUpdate(z, q, inner, at, assigner);
    ExecAllAppend(y, Contiguous(r, outer, at)[..5], Contiguous(q, inner, at), assigner);
  }

  lemma FiveCalls(y: System, r: nat, execution: EvidenceExecution, at: Surroundings, assigner: Assigner,
                  admission: Admission, recorded: State)
    requires r !in y.requests
    requires Admit(y.store, execution) == Ok(admission)
    requires recorded == AfterRecord(y.store, execution, admission, at)
    ensures ExecAll(y, Contiguous(r, execution, at)[..5], assigner) ==
            Some(System(recorded, y.requests[r :=
                   Request(execution, HasReloaded(admission.packet, recorded.EvidenceOf(admission.packet.id)))]))
  {
    hide Exec, AfterRecord, Admit, Contiguous;
    var calls := Contiguous(r, execution, at);
    SevenEvents(r, execution, at);
    ThreeReads(y, r, execution, at, assigner);
    var y3 := ExecAll(y, calls[..3], assigner).value;
    var y5 := TwoCalls(y3, r, execution, at, assigner, admission);
    ExecAllAppend(y, calls[..3], calls[3..5], assigner);
    assert calls[..5] == calls[..3] + calls[3..5];
    assert y5.requests == y.requests[r :=
             Request(execution, HasReloaded(admission.packet, recorded.EvidenceOf(admission.packet.id)))];
  }

  lemma SevenEvents(r: nat, execution: EvidenceExecution, at: Surroundings)
    ensures |Contiguous(r, execution, at)| == 7
  {
  }

  lemma TwoCalls(y: System, r: nat, execution: EvidenceExecution, at: Surroundings, assigner: Assigner,
                 admission: Admission)
    returns (z: System)
    requires r in y.requests
    requires y.requests[r] == Request(execution, HoldsStatus(admission.packet, admission.requirement, admission.from))
    ensures ExecAll(y, Contiguous(r, execution, at)[3..5], assigner) == Some(z)
    ensures z.store == AfterRecord(y.store, execution, admission, at)
    ensures z.requests == y.requests[r :=
              Request(execution, HasReloaded(admission.packet, z.store.EvidenceOf(admission.packet.id)))]
  {
    var events := Contiguous(r, execution, at)[3..5];
    var y4 := ExecFirst(y, events, assigner);
    z := ExecFirst(y4, events[1..], assigner);
    assert events[1..][1..] == [];
  }

  lemma StaleSavePrefix(assigner: Assigner)
    ensures |StaleSave(assigner)| == 14
    ensures StaleSave(assigner)[..13][0] == Event.Ingest(WaitingPacket(assigner), 1)
    ensures StaleSave(assigner)[..13][1..] ==
            Contiguous(0, Report(EvidenceRunning), NOW)[..5] + Contiguous(1, Report(EvidenceSatisfied), NOW)
  {
  }

  // ---- What approval can do to a lane -----------------------------------------------------------------

  function RiskyRun(config: Lanes.Config): seq<SerialRuns.Op> {
    [SerialRuns.Ingest(LaneMoves.RiskyPacket(config, [REQUIREMENT], false), 1),
     SerialRuns.Update(Report(EvidenceSatisfied), NOW)]
  }

  /** A packet just past the last threshold waits at RED; the report that completes its evidence approves it
    * and sends it to BLACK. Nothing ever blocked it. */
  lemma ApprovalReachesBlack(config: Lanes.Config) returns (states: seq<State>)
    requires config.Increasing()
    ensures SerialRuns.IsRun(states, RiskyRun(config), Some(config))
    ensures Shows(states[1], DecisionPending, EvidencePending) && states[1].packets["cp"].mergeLane == MergeLaneRed
    ensures Shows(states[2], DecisionApproved, EvidenceSatisfied) && states[2].packets["cp"].mergeLane == MergeLaneBlack
  {
    hide Updated, StoreInv, SameChange, LaneMoves.RiskyPacket, LaneMoves.Overshoots, LaneMoves.Unforced;
    var s := RiskyStore(config);
    var t := SuccessApproves(s, Some(config));
    states := [EMPTY, s, t];
    SerialRuns.UpdateKeepsPackets(s, Report(EvidenceSatisfied), Some(config), NOW, "cp");
    LaneMoves.StoredIsSound(t, Some(config), "cp");
    RiskyIsBlackOnceApproved(config, t.packets["cp"]);
  }

  lemma RiskyStore(config: Lanes.Config) returns (s: State)
    requires config.Increasing()
    ensures SerialRuns.Step(EMPTY, RiskyRun(config)[0], s, Some(config))
    ensures StoreInv(s, Some(config)) && s.WellKeyed()
    ensures Shows(s, DecisionPending, EvidencePending)
    ensures s.packets["cp"] == LaneMoves.RiskyPacket(config, [REQUIREMENT], false)
    ensures s.packets["cp"].mergeLane == MergeLaneRed
  {
    hide StoreInv, SerialRuns.Chained, SerialRuns.Accurate;
    var packet := LaneMoves.RiskyPacket(config, [REQUIREMENT], false);
    s := Saved(EMPTY, packet, 1);
    assert Produced(packet, Some(config));
    EmptySerialInv(Some(config));
    SerialRuns.IngestKeepsInv(EMPTY, packet, 1, Some(config));
    SerialRuns.KeyedStore(s, Some(config));
    SavedKeepsStatuses(EMPTY, packet, 1);
  }

  lemma EmptySerialInv(assigner: Assigner)
    ensures SerialRuns.SerialInv(EMPTY, assigner)
  {
    hide StoreInv;
    EmptyStoreInv(assigner);
  }

  lemma RiskyIsBlackOnceApproved(config: Lanes.Config, packet: ChangePacket)
    requires config.Increasing()
    requires SameChange(LaneMoves.RiskyPacket(config, [REQUIREMENT], false), packet)
    requires packet.decision.status.DecisionApproved? && Sound(packet, Some(config))
    ensures packet.mergeLane == MergeLaneBlack
  {
    LaneMoves.BlackExactlyWhen(packet, config);
  }
}
