/** What an accepted report leaves behind: the answer, the audit entry, the execution and the packet's times;
  * and what ingestion leaves for evidence that has had no report yet. */
module Reports {
  import opened Domain
  import opened EvidenceStore
  import opened ControlPlane
  import opened Invariants
  import opened SerialRuns
  import opened CheckRuns
  import CheckOutcomes

  /** The answer repeats the report, with the type and the required flag of the packet's first requirement of
    * that name and the time it was recorded. */
  lemma AnswerRepeatsReport(s: State, execution: EvidenceExecution, assigner: Assigner, at: Surroundings, i: nat)
    requires Admit(s, execution).Ok? && at.publishes
    requires var evidence := s.packets[execution.changePacketId].evidence;
             && i < |evidence| && evidence[i].name == execution.name
             && forall k | 0 <= k < i :: evidence[k].name != execution.name
    ensures var result, r := Updated(s, execution, assigner, at).1, s.packets[execution.changePacketId].evidence[i];
            && result.Ok?
            && result.value == EvidenceExecution(execution.changePacketId, execution.name, r.kind, execution.status,
                                                 r.required,
                                                 execution.summary, execution.detailsURL, execution.updatedBy,
                                                 execution.metadata, at.recordedAt)
  {
    hide AfterRecord, AfterReconcile;
    FindRequirementFindsFirst(s.packets[execution.changePacketId].evidence, execution.name, i);
    AdmissionFacts(s, execution);
  }

  /** The log gains one entry: from the status on file to the reported one, by the report's author, at the time
    * it was recorded, with the report's own words. */
  lemma EntryTellsReport(s: State, execution: EvidenceExecution, assigner: Assigner, at: Surroundings)
    requires Admit(s, execution).Ok?
    ensures var id := execution.changePacketId;
            Updated(s, execution, assigner, at).0.AuditOf(id) == s.AuditOf(id) +
              [EvidenceAuditEntry(id, execution.name, s.StatusOf(id, execution.name), execution.status,
                                  execution.updatedBy, execution.summary, execution.detailsURL, execution.metadata,
                                  at.recordedAt)]
  {
    hide Updated;
    UpdateAppendsEntry(s, execution, assigner, at, execution.changePacketId);
    AdmissionFacts(s, execution);
  }

  /** An authenticated author overrides the one the report claims. */
  lemma AuthorIsThePrincipal(request: EvidenceExecution, principal: Option<string>)
    ensures var execution := WithActor(request, principal);
            && execution.updatedBy == (if principal.Some? then principal.value else request.updatedBy)
            && execution == request.(updatedBy := execution.updatedBy)
  {
  }

  /** The execution on file is the report's in everything but its type and required flag, which are those of a
    * requirement of the packet. */
  lemma ExecutionOnFile(s: State, execution: EvidenceExecution, assigner: Assigner, at: Surroundings)
    requires Admit(s, execution).Ok? && s.WellKeyed()
    requires at.recordedAt != ZERO_TIME
    ensures var id, t := execution.changePacketId, Updated(s, execution, assigner, at).0;
            && execution.name in t.EvidenceOf(id)
            && var filed := t.EvidenceOf(id)[execution.name];
               filed == execution.(kind := filed.kind, required := filed.required, updatedAt := at.recordedAt)
  {
    hide Admit, Ensured;
    AdmissionFacts(s, execution);
    var admission := Admit(s, execution).value;
    var r := AfterRecord(s, execution, admission, at);
    SameId(s, execution);
    var packet := Reconciled(admission.packet, r.EvidenceOf(admission.packet.id), assigner, at.reconciledAt);
    SameIdReconciled(admission.packet, r.EvidenceOf(admission.packet.id), assigner, at.reconciledAt);
    EnsuredAt(r.EvidenceOf(packet.id), packet.id, packet.evidence, at.savedAt, execution.name);
  }

  /** Recording keeps the time an execution carries and supplies one only when it carries none. */
  lemma RecordedTime(s: State, execution: EvidenceExecution, entry: EvidenceAuditEntry, now: int)
    ensures var filed := Recorded(s, execution, entry, now).EvidenceOf(execution.changePacketId);
            && execution.name in filed
            && filed[execution.name] == execution.(updatedAt := if execution.updatedAt == 0 then now
                                                   else execution.updatedAt)
  {
  }

  lemma SameId(s: State, execution: EvidenceExecution)
    requires Admit(s, execution).Ok? && s.WellKeyed()
    ensures Admit(s, execution).value.packet.id == execution.changePacketId
  {
    AdmissionFacts(s, execution);
  }

  lemma SameIdReconciled(packet: ChangePacket, executions: Executions, assigner: Assigner, now: int)
    ensures Reconciled(packet, executions, assigner, now).id == packet.id
  {
  }

  /** The packet is stamped with the time of the reconciliation, and so is its decision unless it is blocked. */
  lemma PacketIsStamped(s: State, execution: EvidenceExecution, assigner: Assigner, at: Surroundings)
    requires Admit(s, execution).Ok? && s.WellKeyed()
    ensures var id := execution.changePacketId;
            var before, after := s.packets[id], Updated(s, execution, assigner, at).0.packets[id];
            && after.updatedAt == at.reconciledAt
            && after.decision.decidedAt ==
               if before.decision.status.DecisionBlocked? then before.decision.decidedAt else at.reconciledAt
  {
    hide Admit, Ensured;
    AdmissionFacts(s, execution);
    SameId(s, execution);
  }

  // ---- Evidence without a report --------------------------------------------------------------------------

  /** The last requirement with the name is the one whose type and required flag are kept on file. */
  ghost predicate LastNamed(requirements: seq<EvidenceRequirement>, i: nat, name: string) {
    i < |requirements| && requirements[i].name == name && forall j | i < j < |requirements| ::
        requirements[j].name != name
  }

  /** Ensuring files a pending execution for a new name and refreshes type and required flag of a known one. */
  lemma {:induction false} EnsuredCarries(executions: Executions, id: string, requirements: seq<EvidenceRequirement>,
                                          now: int, name: string, i: nat)
    requires LastNamed(requirements, i, name)
    ensures var after, r := Ensured(executions, id, requirements, now), requirements[i];
            && name in after
            && after[name] ==
               if name in executions then executions[name].(kind := r.kind, required := r.required)
               else EvidenceExecution(id, name, r.kind, EvidencePending, r.required, "", "", "merger", map[], now)
  {
    var last := |requirements| - 1;
    if i < last {
      EnsuredCarries(executions, id, requirements[..last], now, name, i);
    } else {
      EnsuredStart(executions, id, requirements[..last], now, name);
    }
  }

  /** However often a name has come up before, its execution differs from the first only in those two fields. */
  lemma {:induction false} EnsuredStart(executions: Executions, id: string, requirements: seq<EvidenceRequirement>,
                                        now: int, name: string)
    ensures var after := Ensured(executions, id, requirements, now);
            && (name in executions ==>
                  && name in after
                  && after[name] == executions[name].(kind := after[name].kind, required := after[name].required))
            && (name !in executions && name in after ==>
                  after[name] == EvidenceExecution(id, name, after[name].kind, EvidencePending, after[name].required,
                                                   "", "",
                                                   "merger", map[], now))
  {
    if requirements != [] {
      EnsuredStart(executions, id, requirements[..|requirements| - 1], now, name);
    }
  }

  // ---- Check runs -----------------------------------------------------------------------------------------

  /** A check run signs its entry with its app's number, which reads back, and repeats the check's own words. */
  lemma CheckSignsEntry(s: State, t: State, error: Option<UpdateError>, pick: string, n: nat, payload: Payload,
                        status: EvidenceStatus, assigner: Assigner, at: seq<Surroundings>, i: nat)
    requires n < |payload.pullRequests| <= |at|
    requires Handled(s, t, error, Some(pick), n, payload, status, assigner, at) && error.None?
    requires pick in s.packets && CheckOutcomes.FirstBound(s.packets[pick], payload, i)
    requires payload.appId >= 0
    ensures |t.AuditOf(pick)| == |s.AuditOf(pick)| + 1
    ensures var e := t.AuditOf(pick)[|s.AuditOf(pick)|];
            && e.evidenceName == s.packets[pick].evidence[i].name && e.toStatus == status
            && "github-app:" <= e.actor && CheckOutcomes.Number(e.actor[|"github-app:"|..]) == payload.appId
            && e.summary == (if payload.summary == "" then payload.title else payload.summary)
            && e.detailsURL == payload.detailsURL
            && "github_head_sha" in e.metadata && e.metadata["github_head_sha"] == payload.headSHA
            && "github_check_name" in e.metadata && e.metadata["github_check_name"] == payload.name
  {
    hide IsLatest, Updated, Admit;
    CheckOutcomes.FirstBoundIsFound(s.packets[pick].evidence, payload.name, payload.appId, i);
    var report := ReportFor(payload, pick, s.packets[pick].evidence[i], status);
    RejectionChangesNothing(s, report, assigner, at[n]);
    EntryTellsReport(s, report, assigner, at[n]);
    CheckOutcomes.DecimalReadsBack(payload.appId);
    assert ("github-app:" + Decimal(payload.appId))[|"github-app:"|..] == Decimal(payload.appId);
  }
}
