/** Runs in which every ingestion and every evidence update finishes before the next one starts. */
module SerialRuns {
  import opened Domain
  import opened Text
  import opened EvidenceStore
  import opened ControlPlane
  import opened Invariants
  import Lanes

  datatype Op =
    | Ingest(packet: ChangePacket, now: int)
    | Update(execution: EvidenceExecution, at: Surroundings)

  /** Ingestion saves policy-produced packets under fresh identifiers. */
  ghost predicate Step(s: State, op: Op, t: State, assigner: Assigner) {
    match op
    case Ingest(packet, now) => packet.id !in s.packets && Produced(packet, assigner) && t == Saved(s, packet, now)
    case Update(execution, at) => t == Updated(s, execution, assigner, at).0
  }

  ghost predicate IsRun(states: seq<State>, ops: seq<Op>, assigner: Assigner) {
    && |states| == |ops| + 1
    && states[0] == EMPTY
    && forall i | 0 <= i < |ops| :: Step(states[i], ops[i], states[i + 1], assigner)
  }

  // ---- One update ---------------------------------------------------------------------------------

  /** Exactly which requests take effect. */
  lemma AdmittedExactlyWhen(s: State, execution: EvidenceExecution)
    ensures Admit(s, execution).Ok? <==>
            && !Blank(execution.changePacketId)
            && !Blank(execution.name)
            && ValidEvidenceStatus(execution.status)
            && (execution.status.EvidenceWaived? ==> !Blank(execution.updatedBy))
            && execution.changePacketId in s.packets
            && Names(s.packets[execution.changePacketId].evidence, execution.name)
            && CanTransition(s.StatusOf(execution.changePacketId, execution.name), execution.status)
  {
    if execution.changePacketId in s.packets {
      FindRequirementFinds(s.packets[execution.changePacketId].evidence, execution.name);
    }
  }

  /** A rejected request leaves packets, executions and audit log untouched; an admitted one takes effect
    * even when publishing the refreshed check then fails. */
  lemma RejectionChangesNothing(s: State, execution: EvidenceExecution, assigner: Assigner, at: Surroundings)
    ensures var (t, result) := Updated(s, execution, assigner, at);
            && (Admit(s, execution).Err? ==> t == s && result == Err(Admit(s, execution).error))
            && (Admit(s, execution).Ok? ==> (result.Ok? <==> at.publishes))
  {
  }

  /** An admitted request sets the one status it names. */
  lemma UpdateSetsStatus(s: State, execution: EvidenceExecution, assigner: Assigner, at: Surroundings, id: string,
                         name: string)
    requires Admit(s, execution).Ok?
    ensures Updated(s, execution, assigner, at).0.StatusOf(id, name) ==
            if id == execution.changePacketId && name == execution.name then execution.status else s.StatusOf(id, name)
  {
    var admission := Admit(s, execution).value;
    var stamped := Stamped(execution, admission.requirement, at.recordedAt);
    var r := AfterRecord(s, execution, admission, at);
    RecordedStatuses(s, stamped, AuditEntry(stamped, admission.from), at.recordedAt);
    SavedKeepsStatuses(r, Reconciled(admission.packet, r.EvidenceOf(admission.packet.id), assigner, at.reconciledAt),
                       at.savedAt);
  }

  /** It appends one audit entry to the log of its packet and nothing anywhere else. */
  lemma UpdateAppendsEntry(s: State, execution: EvidenceExecution, assigner: Assigner, at: Surroundings, id: string)
    ensures Updated(s, execution, assigner, at).0.AuditOf(id) == s.AuditOf(id) + AddedEntries(s, execution, at, id)
  {
  }

  /** It leaves every other packet alone, and of its own packet changes only what reconciliation may. */
  lemma UpdateKeepsPackets(s: State, execution: EvidenceExecution, assigner: Assigner, at: Surroundings, id: string)
    requires s.WellKeyed()
    ensures var t := Updated(s, execution, assigner, at).0;
            && t.packets.Keys == s.packets.Keys
            && (id in s.packets ==> SameChange(s.packets[id], t.packets[id]))
            && (id in s.packets && id != execution.changePacketId ==>
                  t.packets[id] == s.packets[id] && t.EvidenceOf(id) == s.EvidenceOf(id))
  {
    hide Admit, AfterRecord, AfterReconcile;
    if Admit(s, execution).Ok? {
      AdmissionFacts(s, execution);
      var admission := Admit(s, execution).value;
      RecordKeepsPackets(s, execution, admission, at, id);
      ReconcileKeepsPackets(AfterRecord(s, execution, admission, at), admission.packet, assigner, at, id);
    }
  }

  lemma RecordKeepsPackets(s: State, execution: EvidenceExecution, admission: Admission, at: Surroundings, id: string)
    ensures var r := AfterRecord(s, execution, admission, at);
            r.packets == s.packets && (id != execution.changePacketId ==> r.EvidenceOf(id) == s.EvidenceOf(id))
  {
  }

  lemma ReconcileKeepsPackets(s: State, packet: ChangePacket, assigner: Assigner, at: Surroundings, id: string)
    ensures var t := AfterReconcile(s, packet, assigner, at);
            && t.packets.Keys == s.packets.Keys + {packet.id}
            && SameChange(packet, t.packets[packet.id])
            && (id in s.packets && id != packet.id ==>
                  t.packets[id] == s.packets[id] && t.EvidenceOf(id) == s.EvidenceOf(id))
  {
    ReconciledIsSound(packet, s.EvidenceOf(packet.id), assigner, at.reconciledAt);
  }

  lemma AdmissionFacts(s: State, execution: EvidenceExecution)
    requires Admit(s, execution).Ok?
    ensures var admission := Admit(s, execution).value;
            && execution.changePacketId in s.packets
            && admission.packet == s.packets[execution.changePacketId]
            && admission.from == s.StatusOf(execution.changePacketId, execution.name)
            && FindRequirement(admission.packet.evidence, execution.name) == Some(admission.requirement)
            && CanTransition(admission.from, execution.status)
  {
  }

  /** The packet itself is the reconciled one, stamped with the reconciliation time. */
  lemma UpdateStampsPacket(s: State, execution: EvidenceExecution, assigner: Assigner, at: Surroundings)
    requires s.WellKeyed() && Admit(s, execution).Ok?
    ensures var t := Updated(s, execution, assigner, at).0;
            && t.packets.Keys == s.packets.Keys
            && t.packets[execution.changePacketId].updatedAt == at.reconciledAt
            && (assigner.None? ==>
                  t.packets[execution.changePacketId].mergeLane == s.packets[execution.changePacketId].mergeLane)
  {
  }

  function AddedEntries(s: State, execution: EvidenceExecution, at: Surroundings, id: string): AuditLog {
    if id == execution.changePacketId && Admit(s, execution).Ok? then
      var admission := Admit(s, execution).value;
      [AuditEntry(Stamped(execution, admission.requirement, at.recordedAt), admission.from)]
    else []
  }

  lemma UpdateKeepsStoreInv(s: State, execution: EvidenceExecution, assigner: Assigner, at: Surroundings)
    requires StoreInv(s, assigner)
    ensures StoreInv(Updated(s, execution, assigner, at).0, assigner)
  {
    if Admit(s, execution).Ok? {
      AdmittedExactlyWhen(s, execution);
      FindRequirementFinds(s.packets[execution.changePacketId].evidence, execution.name);
      var admission := Admit(s, execution).value;
      var stamped := Stamped(execution, admission.requirement, at.recordedAt);
      RecordedKeepsInv(s, stamped, AuditEntry(stamped, admission.from), at.recordedAt, assigner);
      var r := AfterRecord(s, execution, admission, at);
      ReconciledIsSound(admission.packet, r.EvidenceOf(admission.packet.id), assigner, at.reconciledAt);
      SavedKeepsInv(r, Reconciled(admission.packet, r.EvidenceOf(admission.packet.id), assigner, at.reconciledAt),
                    at.savedAt, assigner);
    }
  }

  // ---- Audit chains -------------------------------------------------------------------------------

  /** Each entry starts from the status its predecessor for the same evidence ended in. */
  ghost predicate Chained(log: AuditLog) {
    log != [] ==>
      var last := log[|log| - 1];
      && Chained(log[..|log| - 1])
      && last.fromStatus == LastStatus(log[..|log| - 1], last.evidenceName)
  }

  function Replay(log: AuditLog): map<string, EvidenceStatus> {
    if log == [] then map[]
    else Replay(log[..|log| - 1])[log[|log| - 1].evidenceName := log[|log| - 1].toStatus]
  }

  lemma {:induction false} ReplayReproduces(log: AuditLog, name: string)
    ensures LastStatus(log, name) == if name in Replay(log) then Replay(log)[name] else EvidencePending
  {
    if log != [] {
      ReplayReproduces(log[..|log| - 1], name);
    }
  }

  /** In a chained legal log, once some evidence is satisfied or waived only self-transitions follow. */
  lemma {:induction false} SettledStays(log: AuditLog, i: nat)
    requires Chained(log) && LegalLog(log)
    requires i < |log| && Settled(log[i].toStatus)
    ensures LastStatus(log, log[i].evidenceName) == log[i].toStatus
    ensures forall j | i < j < |log| && log[j].evidenceName == log[i].evidenceName ::
              log[j].fromStatus == log[i].toStatus && log[j].toStatus == log[i].toStatus
  {
    if i < |log| - 1 {
      var before := log[..|log| - 1];
      assert LegalLog(before);
      SettledStays(before, i);
      var last := log[|log| - 1];
      assert LegalEntry(last);
    }
  }

  // ---- Runs ---------------------------------------------------------------------------------------

  /** The decision tells the truth about the evidence on file. */
  ghost predicate Accurate(s: State, id: string)
    requires id in s.packets
  {
    var packet := s.packets[id];
    !packet.decision.status.DecisionBlocked? ==>
      (packet.decision.status.DecisionApproved? <==>
         Complete(packet.evidence, s.EvidenceOf(id)) && !Lanes.HasMandatoryReviewer(packet.reviewers))
  }

  ghost predicate SerialInv(s: State, assigner: Assigner) {
    && StoreInv(s, assigner)
    && (forall id :: Chained(s.AuditOf(id)))
    && (forall id | id in s.packets :: Accurate(s, id))
  }

  /** Completeness is a matter of statuses alone, given that every requirement has an execution. */
  lemma CompleteByStatus(s: State, t: State, id: string, requirements: seq<EvidenceRequirement>)
    requires forall name | Names(requirements, name) :: name in s.EvidenceOf(id) && name in t.EvidenceOf(id)
    requires forall name | Names(requirements, name) :: Settled(s.StatusOf(id, name)) ==> Settled(t.StatusOf(id, name))
    ensures Complete(requirements, s.EvidenceOf(id)) ==> Complete(requirements, t.EvidenceOf(id))
  {
    forall r | r in requirements
      ensures Names(requirements, r.name)
    {
    }
  }

  lemma KeyedStore(s: State, assigner: Assigner)
    requires StoreInv(s, assigner)
    ensures s.WellKeyed()
  {
  }

  lemma NoEvidenceBeforeIngest(s: State, id: string, assigner: Assigner)
    requires StoreInv(s, assigner) && id !in s.packets
    ensures s.EvidenceOf(id) == map[]
  {
  }

  lemma IngestKeepsInv(s: State, packet: ChangePacket, now: int, assigner: Assigner)
    requires SerialInv(s, assigner)
    requires packet.id !in s.packets && Produced(packet, assigner)
    ensures SerialInv(Saved(s, packet, now), assigner)
  {
    hide StoreInv, Sound, Produced;
    var t := Saved(s, packet, now);
    NoEvidenceBeforeIngest(s, packet.id, assigner);
    ProducedIsSound(packet, assigner);
    SavedKeepsInv(s, packet, now, assigner);
    forall id
      ensures Chained(t.AuditOf(id))
    {
      assert t.AuditOf(id) == s.AuditOf(id);
    }
    forall id | id in t.packets
      ensures Accurate(t, id)
    {
      if id == packet.id {
        IngestedIsAccurate(s, packet, now, assigner);
      } else {
        assert Accurate(s, id) && t.EvidenceOf(id) == s.EvidenceOf(id);
      }
    }
  }

  /** A packet fresh from the policy engine: approved exactly when nothing is asked of it. */
  lemma IngestedIsAccurate(s: State, packet: ChangePacket, now: int, assigner: Assigner)
    requires s.EvidenceOf(packet.id) == map[]
    requires Produced(packet, assigner)
    ensures Accurate(Saved(s, packet, now), packet.id)
  {
    var t := Saved(s, packet, now);
    EnsuredKeepsStatuses(s.EvidenceOf(packet.id), packet.id, packet.evidence, now);
    if packet.evidence != [] {
      var first := packet.evidence[0];
      assert first in packet.evidence && first.required;
      assert Names(packet.evidence, first.name);
      assert !Complete(packet.evidence, t.EvidenceOf(packet.id));
    }
    if packet.reviewers != [] {
      assert packet.reviewers[0] in packet.reviewers;
    }
  }

  lemma UpdateKeepsInv(s: State, execution: EvidenceExecution, assigner: Assigner, at: Surroundings)
    requires SerialInv(s, assigner)
    ensures SerialInv(Updated(s, execution, assigner, at).0, assigner)
  {
    UpdateKeepsStoreInv(s, execution, assigner, at);
    var t := Updated(s, execution, assigner, at).0;
    forall id
      ensures Chained(t.AuditOf(id))
    {
      UpdateKeepsChain(s, execution, assigner, at, id);
    }
    forall id | id in t.packets
      ensures Accurate(t, id)
    {
      UpdateKeepsPackets(s, execution, assigner, at, id);
      UpdateKeepsAccuracy(s, execution, assigner, at, id);
    }
  }

  lemma UpdateKeepsChain(s: State, execution: EvidenceExecution, assigner: Assigner, at: Surroundings, id: string)
    requires Audited(s) && Chained(s.AuditOf(id))
    ensures Chained(Updated(s, execution, assigner, at).0.AuditOf(id))
  {
    hide Updated, Admit;
    UpdateAppendsEntry(s, execution, assigner, at, id);
    if Admit(s, execution).Ok? {
      AdmissionFacts(s, execution);
    }
    var added := AddedEntries(s, execution, at, id);
    if added == [] {
      assert s.AuditOf(id) + added == s.AuditOf(id);
    } else {
      assert (s.AuditOf(id) + added)[..|s.AuditOf(id)|] == s.AuditOf(id);
    }
  }

  lemma UpdateKeepsAccuracy(s: State, execution: EvidenceExecution, assigner: Assigner, at: Surroundings, id: string)
    requires SerialInv(s, assigner) && id in s.packets
    ensures id in Updated(s, execution, assigner, at).0.packets
    ensures Accurate(Updated(s, execution, assigner, at).0, id)
  {
    UpdateKeepsPackets(s, execution, assigner, at, id);
    assert Accurate(s, id);
    if Admit(s, execution).Ok? && id == execution.changePacketId {
      AdmittedUpdateIsAccurate(s, execution, assigner, at);
    }
  }

  /** An admitted, uninterrupted update leaves its packet accurate even if it was not before. */
  lemma AdmittedUpdateIsAccurate(s: State, execution: EvidenceExecution, assigner: Assigner, at: Surroundings)
    requires StoreInv(s, assigner) && Admit(s, execution).Ok?
    ensures execution.changePacketId in Updated(s, execution, assigner, at).0.packets
    ensures Accurate(Updated(s, execution, assigner, at).0, execution.changePacketId)
  {
    var admission := Admit(s, execution).value;
    ReconciliationIsAccurate(AfterRecord(s, execution, admission, at), admission.packet, assigner, at);
  }

  /** Reconciling with the evidence on file makes the decision accurate. */
  lemma ReconciliationIsAccurate(s: State, packet: ChangePacket, assigner: Assigner, at: Surroundings)
    requires forall name | Names(packet.evidence, name) :: name in s.EvidenceOf(packet.id)
    ensures packet.id in AfterReconcile(s, packet, assigner, at).packets
    ensures Accurate(AfterReconcile(s, packet, assigner, at), packet.id)
  {
    var t := AfterReconcile(s, packet, assigner, at);
    ReconciledIsSound(packet, s.EvidenceOf(packet.id), assigner, at.reconciledAt);
    SavedKeepsStatuses(s, Reconciled(packet, s.EvidenceOf(packet.id), assigner, at.reconciledAt), at.savedAt);
    EnsuredKeepsStatuses(s.EvidenceOf(packet.id), packet.id, packet.evidence, at.savedAt);
    CompleteByStatus(s, t, packet.id, packet.evidence);
    CompleteByStatus(t, s, packet.id, packet.evidence);
  }

  lemma {:induction false} RunInv(states: seq<State>, ops: seq<Op>, assigner: Assigner, i: nat)
    requires IsRun(states, ops, assigner) && i < |states|
    ensures SerialInv(states[i], assigner)
  {
    hide Updated, StoreInv, Produced, Saved;
    if i == 0 {
      EmptyStoreInv(assigner);
    } else {
      RunInv(states, ops, assigner, i - 1);
      assert Step(states[i - 1], ops[i - 1], states[i], assigner);
      match ops[i - 1] {
        case Ingest(packet, now) => IngestKeepsInv(states[i - 1], packet, now, assigner);
        case Update(execution, at) => UpdateKeepsInv(states[i - 1], execution, assigner, at);
      }
    }
  }

  /** At every instant of a serial run, a packet that is not blocked is approved exactly when all its
    * required evidence is satisfied or waived and no reviewer is mandatory. */
  lemma ApprovedExactlyWhenComplete(states: seq<State>, ops: seq<Op>, assigner: Assigner, i: nat, id: string)
    requires IsRun(states, ops, assigner) && i < |states| && id in states[i].packets
    ensures Accurate(states[i], id)
  {
    RunInv(states, ops, assigner, i);
  }

  lemma IngestKeepsRest(s: State, packet: ChangePacket, now: int, id: string, name: string)
    requires packet.id !in s.packets && id in s.packets
    ensures var t := Saved(s, packet, now);
            id in t.packets && t.packets[id] == s.packets[id] && t.StatusOf(id, name) == s.StatusOf(id, name)
  {
    SavedKeepsStatuses(s, packet, now);
  }

  /** A settled piece of evidence keeps its status in every later state of the run, and the change itself
    * and its block never vary. */
  lemma {:induction false} SettledForever(states: seq<State>, ops: seq<Op>, assigner: Assigner, i: nat, j: nat,
                                          id: string, name: string)
    requires IsRun(states, ops, assigner) && i <= j < |states| && id in states[i].packets
    ensures id in states[j].packets && SameChange(states[i].packets[id], states[j].packets[id])
    ensures Settled(states[i].StatusOf(id, name)) ==> states[j].StatusOf(id, name) == states[i].StatusOf(id, name)
    decreases j
  {
    hide Updated, Admit, StoreInv, Saved, Produced;
    if i < j {
      SettledForever(states, ops, assigner, i, j - 1, id, name);
      RunInv(states, ops, assigner, j - 1);
      var s := states[j - 1];
      assert Step(s, ops[j - 1], states[j], assigner);
      match ops[j - 1] {
        case Ingest(packet, now) =>
          IngestKeepsRest(s, packet, now, id, name);
        case Update(execution, at) =>
          KeyedStore(s, assigner);
          UpdateKeepsPackets(s, execution, assigner, at, id);
          RejectionChangesNothing(s, execution, assigner, at);
          if Admit(s, execution).Ok? {
            UpdateSetsStatus(s, execution, assigner, at, id, name);
            AdmittedExactlyWhen(s, execution);
          }
      }
    }
  }

  /** Approval, once reached, is never lost. */
  lemma ApprovalIsNeverLost(states: seq<State>, ops: seq<Op>, assigner: Assigner, i: nat, j: nat, id: string)
    requires IsRun(states, ops, assigner) && i <= j < |states| && id in states[i].packets
    requires states[i].packets[id].decision.status.DecisionApproved?
    ensures id in states[j].packets && states[j].packets[id].decision.status.DecisionApproved?
  {
    RunInv(states, ops, assigner, i);
    RunInv(states, ops, assigner, j);
    SettledForever(states, ops, assigner, i, j, id, "");
    var requirements := states[i].packets[id].evidence;
    forall name | Names(requirements, name)
      ensures Settled(states[i].StatusOf(id, name)) ==> Settled(states[j].StatusOf(id, name))
    {
      SettledForever(states, ops, assigner, i, j, id, name);
    }
    assert Accurate(states[i], id) && Accurate(states[j], id);
    CompleteByStatus(states[i], states[j], id, requirements);
  }

  /** Over every serial run the audit log of a packet is a chain from pending whose replay gives the
    * stored statuses, and after satisfied or waived it holds self-transitions only. */
  lemma AuditReplaysToStatuses(states: seq<State>, ops: seq<Op>, assigner: Assigner, i: nat, id: string)
    requires IsRun(states, ops, assigner) && i < |states|
    ensures var log := states[i].AuditOf(id);
            && Chained(log)
            && (forall name :: states[i].StatusOf(id, name) ==
                  if name in Replay(log) then Replay(log)[name] else EvidencePending)
            && (forall a, b | 0 <= a < b < |log| && log[a].evidenceName == log[b].evidenceName
                && Settled(log[a].toStatus) ::
                  log[b].fromStatus == log[a].toStatus && log[b].toStatus == log[a].toStatus)
  {
    RunInv(states, ops, assigner, i);
    var log := states[i].AuditOf(id);
    forall name
      ensures LastStatus(log, name) == if name in Replay(log) then Replay(log)[name] else EvidencePending
    {
      ReplayReproduces(log, name);
    }
    forall a | 0 <= a < |log| && Settled(log[a].toStatus)
      ensures forall b | a < b < |log| && log[b].evidenceName == log[a].evidenceName ::
                log[b].fromStatus == log[a].toStatus && log[b].toStatus == log[a].toStatus
    {
      SettledStays(log, a);
    }
  }
}
