/** What every atomic repository step keeps, whatever requests overlap. */
module Invariants {
  import opened Domain
  import opened Text
  import opened EvidenceStore
  import opened ControlPlane
  import Lanes

  // ---- Audit logs -------------------------------------------------------------------------------

  /** The status the log leaves a piece of evidence in: pending until an entry says otherwise. */
  function LastStatus(log: AuditLog, name: string): EvidenceStatus {
    if log == [] then EvidencePending
    else
      var last := log[|log| - 1];
      if last.evidenceName == name then last.toStatus else LastStatus(log[..|log| - 1], name)
  }

  /** Every entry is a transition the status machine allows, and every waiver names its author. */
  ghost predicate LegalLog(log: AuditLog) {
    forall e | e in log :: LegalEntry(e)
  }

  predicate LegalEntry(e: EvidenceAuditEntry) {
    && CanTransition(e.fromStatus, e.toStatus)
    && (e.toStatus.EvidenceWaived? ==> !Blank(e.actor))
  }

  // ---- Packets ----------------------------------------------------------------------------------

  /** What policy and lane assignment guarantee of a packet when ingestion first saves it. */
  ghost predicate Produced(packet: ChangePacket, assigner: Assigner) {
    && (forall r | r in packet.evidence :: r.required)
    && (forall r | r in packet.reviewers :: r.mandatory)
    && (packet.decision.status.DecisionApproved? <==>
          !packet.decision.status.DecisionBlocked? && packet.evidence == [] && packet.reviewers == [])
    && !packet.decision.status.DecisionEscalated?
    && (assigner.Some? ==> packet.mergeLane == Lanes.Assign(assigner.value, packet))
  }

  /** What stays true of every stored packet. */
  ghost predicate Sound(packet: ChangePacket, assigner: Assigner) {
    && (packet.decision.status.DecisionApproved? ==> !Lanes.HasMandatoryReviewer(packet.reviewers))
    && !packet.decision.status.DecisionEscalated?
    && (assigner.Some? ==> packet.mergeLane == Lanes.Assign(assigner.value, packet))
  }

  /** Only the decision status and its time, the lane and the update time may differ, and a block is final
    * both ways. */
  ghost predicate SameChange(a: ChangePacket, b: ChangePacket) {
    && b == a.(decision := a.decision.(status := b.decision.status, decidedAt := b.decision.decidedAt),
               mergeLane := b.mergeLane,
               updatedAt := b.updatedAt)
    && (a.decision.status.DecisionBlocked? <==> b.decision.status.DecisionBlocked?)
  }

  lemma SameChangeTransitive(a: ChangePacket, b: ChangePacket, c: ChangePacket)
    requires SameChange(a, b) && SameChange(b, c)
    ensures SameChange(a, c) && SameChange(b, a)
  {
  }

  lemma ProducedIsSound(packet: ChangePacket, assigner: Assigner)
    requires Produced(packet, assigner)
    ensures Sound(packet, assigner)
  {
  }

  lemma ReconciledIsSound(packet: ChangePacket, executions: Executions, assigner: Assigner, now: int)
    ensures var after := Reconciled(packet, executions, assigner, now);
            && SameChange(packet, after)
            && Sound(after, assigner)
            && (!packet.decision.status.DecisionBlocked? ==>
                  (after.decision.status.DecisionApproved? <==>
                     Complete(packet.evidence, executions) && !Lanes.HasMandatoryReviewer(packet.reviewers)))
  {
    var after := Reconciled(packet, executions, assigner, now);
    if assigner.Some? {
      Lanes.AssignReadsOnly(assigner.value, after, after.(mergeLane := packet.mergeLane));
    }
  }

  /** Blocked means BLACK; a mandatory reviewer means never approved, and RED or BLACK. */
  lemma SoundPacketLane(packet: ChangePacket, config: Lanes.Config)
    requires Sound(packet, Some(config))
    ensures packet.decision.status.DecisionBlocked? ==> packet.mergeLane == MergeLaneBlack
    ensures Lanes.HasMandatoryReviewer(packet.reviewers) ==>
              !packet.decision.status.DecisionApproved? && Lanes.LaneOrder(packet.mergeLane) >= 3
    ensures Lanes.LaneOrder(packet.mergeLane) >= Lanes.LaneOrder(packet.decision.minimumLane)
  {
  }

  // ---- The store --------------------------------------------------------------------------------

  ghost predicate StoreInv(s: State, assigner: Assigner) {
    Structured(s, assigner) && Audited(s) && WaiversAttributed(s)
  }

  /** Records sit under their own keys, every packet is sound, and every requirement has an execution. */
  ghost predicate Structured(s: State, assigner: Assigner) {
    && s.WellKeyed()
    && s.evidence.Keys <= s.packets.Keys
    && s.audit.Keys <= s.packets.Keys
    && (forall id | id in s.packets :: Sound(s.packets[id], assigner))
    && (forall id, name | id in s.packets && Names(s.packets[id].evidence, name) :: name in s.EvidenceOf(id))
  }

  /** The stored status is the one the audit log ends in, and every log is legal. */
  ghost predicate Audited(s: State) {
    && (forall id, name :: s.StatusOf(id, name) == LastStatus(s.AuditOf(id), name))
    && (forall id :: LegalLog(s.AuditOf(id)))
  }

  ghost predicate WaiversAttributed(s: State) {
    forall id, name | name in s.EvidenceOf(id) :: Attributed(s.EvidenceOf(id)[name])
  }

  predicate Attributed(e: EvidenceExecution) {
    e.status.EvidenceWaived? ==> !Blank(e.updatedBy)
  }

  lemma EmptyStoreInv(assigner: Assigner)
    ensures StoreInv(EMPTY, assigner)
  {
  }

  /** Recording a checked transition of a required piece of evidence. */
  ghost predicate Recordable(s: State, execution: EvidenceExecution, entry: EvidenceAuditEntry) {
    && execution.changePacketId == entry.changePacketId
    && execution.changePacketId in s.packets
    && Names(s.packets[execution.changePacketId].evidence, execution.name)
    && execution.name == entry.evidenceName
    && execution.status == entry.toStatus
    && LegalEntry(entry)
    && execution.updatedBy == entry.actor
  }

  lemma RecordedStatuses(s: State, execution: EvidenceExecution, entry: EvidenceAuditEntry, now: int)
    requires execution.changePacketId == entry.changePacketId
    requires execution.name == entry.evidenceName && execution.status == entry.toStatus
    ensures var t := Recorded(s, execution, entry, now);
            && (forall id, name :: t.StatusOf(id, name) ==
                  if id == execution.changePacketId && name == execution.name then execution.status
                  else s.StatusOf(id, name))
            && (forall id, name :: LastStatus(t.AuditOf(id), name) ==
                  if id == execution.changePacketId && name == execution.name then execution.status
                  else LastStatus(s.AuditOf(id), name))
  {
    var t := Recorded(s, execution, entry, now);
    var id := execution.changePacketId;
    assert t.AuditOf(id)[..|t.AuditOf(id)| - 1] == s.AuditOf(id);
  }

  lemma RecordedKeepsInv(s: State, execution: EvidenceExecution, entry: EvidenceAuditEntry, now: int,
                         assigner: Assigner)
    requires StoreInv(s, assigner)
    requires Recordable(s, execution, entry)
    ensures StoreInv(Recorded(s, execution, entry, now), assigner)
  {
    hide Audited, WaiversAttributed, LegalEntry;
    RecordedKeepsAudit(s, execution, entry, now);
    RecordedKeepsAttribution(s, execution, entry, now);
    RecordedKeepsStructure(s, execution, entry, now, assigner);
  }

  lemma RecordedKeepsStructure(s: State, execution: EvidenceExecution, entry: EvidenceAuditEntry, now: int,
                               assigner: Assigner)
    requires Structured(s, assigner)
    requires Recordable(s, execution, entry)
    ensures Structured(Recorded(s, execution, entry, now), assigner)
  {
    hide Sound, LegalEntry;
  }

  lemma RecordedKeepsAudit(s: State, execution: EvidenceExecution, entry: EvidenceAuditEntry, now: int)
    requires Audited(s)
    requires Recordable(s, execution, entry)
    ensures Audited(Recorded(s, execution, entry, now))
  {
    RecordedStatuses(s, execution, entry, now);
    var t := Recorded(s, execution, entry, now);
    forall id
      ensures LegalLog(t.AuditOf(id))
    {
      assert LegalLog(s.AuditOf(id));
      assert t.AuditOf(id) == s.AuditOf(id) || t.AuditOf(id) == s.AuditOf(id) + [entry];
    }
  }

  lemma RecordedKeepsAttribution(s: State, execution: EvidenceExecution, entry: EvidenceAuditEntry, now: int)
    requires WaiversAttributed(s)
    requires Recordable(s, execution, entry)
    ensures WaiversAttributed(Recorded(s, execution, entry, now))
  {
    var t := Recorded(s, execution, entry, now);
    forall id, name | name in t.EvidenceOf(id)
      ensures Attributed(t.EvidenceOf(id)[name])
    {
      if id != execution.changePacketId || name != execution.name {
        assert name in s.EvidenceOf(id);
      }
    }
  }

  lemma SavedKeepsInv(s: State, packet: ChangePacket, now: int, assigner: Assigner)
    requires StoreInv(s, assigner)
    requires Sound(packet, assigner)
    ensures StoreInv(Saved(s, packet, now), assigner)
    ensures Saved(s, packet, now).audit == s.audit
  {
    hide Sound, Structured, WaiversAttributed;
    SavedKeepsStatuses(s, packet, now);
    SavedKeepsAttribution(s, packet, now);
    SavedKeepsStructure(s, packet, now, assigner);
    assert forall id :: Saved(s, packet, now).AuditOf(id) == s.AuditOf(id);
  }

  lemma SavedKeepsStructure(s: State, packet: ChangePacket, now: int, assigner: Assigner)
    requires Structured(s, assigner)
    requires Sound(packet, assigner)
    ensures Structured(Saved(s, packet, now), assigner)
  {
    hide Sound, Ensured, WellNamed, Names;
    var t := Saved(s, packet, now);
    SavedIsWellKeyed(s, packet, now);
    forall id, name | id in t.packets && Names(t.packets[id].evidence, name)
      ensures name in t.EvidenceOf(id)
    {
      EnsuredAt(s.EvidenceOf(packet.id), packet.id, packet.evidence, now, name);
    }
  }

  lemma SavedIsWellKeyed(s: State, packet: ChangePacket, now: int)
    requires s.WellKeyed()
    ensures Saved(s, packet, now).WellKeyed()
  {
    hide Ensured;
    EnsuredIsWellNamed(s.EvidenceOf(packet.id), packet.id, packet.evidence, now);
  }

  lemma SavedKeepsAttribution(s: State, packet: ChangePacket, now: int)
    requires WaiversAttributed(s)
    ensures WaiversAttributed(Saved(s, packet, now))
  {
    EnsuredKeepsStatuses(s.EvidenceOf(packet.id), packet.id, packet.evidence, now);
    var t := Saved(s, packet, now);
    forall id, name | name in t.EvidenceOf(id)
      ensures Attributed(t.EvidenceOf(id)[name])
    {
      if name in s.EvidenceOf(id) {
        assert Attributed(s.EvidenceOf(id)[name]);
      }
    }
  }
}
