/** What the status machine lets happen, said of requests, audit logs and runs by the statuses themselves. */
module Transitions {
  import opened Domain
  import opened Text
  import opened EvidenceStore
  import opened ControlPlane
  import opened Invariants
  import opened SerialRuns
  import Interleaving
  import Overlap

  /** The changes of status a report may bring about. */
  const CHANGES: set<(EvidenceStatus, EvidenceStatus)> := {
    (EvidencePending, EvidenceRunning),
    (EvidencePending, EvidenceSatisfied),
    (EvidencePending, EvidenceFailed),
    (EvidencePending, EvidenceWaived),
    (EvidenceRunning, EvidenceSatisfied),
    (EvidenceRunning, EvidenceFailed),
    (EvidenceRunning, EvidenceWaived),
    (EvidenceFailed, EvidenceRunning),
    (EvidenceFailed, EvidenceWaived)
  }

  // ---- Requests ---------------------------------------------------------------------------------------

  /** A well-formed report on required evidence of a stored packet. */
  predicate WellFormed(s: State, execution: EvidenceExecution) {
    && !Blank(execution.changePacketId) && !Blank(execution.name)
    && !execution.status.EvidenceOther?
    && (execution.status.EvidenceWaived? ==> !Blank(execution.updatedBy))
    && execution.changePacketId in s.packets
    && Names(s.packets[execution.changePacketId].evidence, execution.name)
  }

  /** A well-formed report takes effect exactly when it repeats the status on file or makes one of the nine
    * changes. Otherwise it is answered with the two statuses and nothing happens. */
  lemma ReportTakesEffectExactlyWhen(s: State, execution: EvidenceExecution, assigner: Assigner, at: Surroundings)
    requires WellFormed(s, execution)
    ensures var from, to := s.StatusOf(execution.changePacketId, execution.name), execution.status;
            var (t, result) := Updated(s, execution, assigner, at);
            && (Admit(s, execution).Ok? <==> from == to || (from, to) in CHANGES)
            && (from == to || (from, to) in CHANGES ==>
                  t.StatusOf(execution.changePacketId, execution.name) == to)
            && (from != to && (from, to) !in CHANGES ==>
                  t == s && result == Err(IllegalTransition(execution.name, from, to)))
  {
    hide Updated, Blank;
    FindRequirementFinds(s.packets[execution.changePacketId].evidence, execution.name);
    AdmittedExactlyWhen(s, execution);
    RejectionChangesNothing(s, execution, assigner, at);
    if Admit(s, execution).Ok? {
      UpdateSetsStatus(s, execution, assigner, at, execution.changePacketId, execution.name);
    }
  }

  /** Any other report is refused for the first thing that is wrong with it, and changes nothing. */
  lemma RefusalTellsWhy(s: State, execution: EvidenceExecution, assigner: Assigner, at: Surroundings)
    requires !WellFormed(s, execution)
    ensures var (t, result) := Updated(s, execution, assigner, at);
            && t == s
            && result == Err(
                 if Blank(execution.changePacketId) then InvalidField("changePacketId")
                 else if Blank(execution.name) then InvalidField("name")
                 else if execution.status.EvidenceOther? then InvalidField("status")
                 else if execution.status.EvidenceWaived? && Blank(execution.updatedBy) then InvalidField("updatedBy")
                 else if execution.changePacketId !in s.packets then PacketNotFound(execution.changePacketId)
                 else EvidenceNotRequired(execution.changePacketId, execution.name))
  {
    hide Blank;
    if execution.changePacketId in s.packets {
      FindRequirementFinds(s.packets[execution.changePacketId].evidence, execution.name);
    }
  }

  // ---- Audit logs -------------------------------------------------------------------------------------

  /** In every interleaving each audited change is one of the nine. In particular nothing ever goes from
    * failed to satisfied, and nothing goes back to pending. */
  lemma AuditedChangesAreListed(run: seq<Interleaving.System>, events: seq<Interleaving.Event>, assigner: Assigner,
                                i: nat, id: string, e: EvidenceAuditEntry)
    requires Interleaving.IsRun(run, events, assigner) && i < |run|
    requires e in run[i].store.AuditOf(id)
    ensures e.fromStatus == e.toStatus || (e.fromStatus, e.toStatus) in CHANGES
    ensures !(e.fromStatus.EvidenceFailed? && e.toStatus.EvidenceSatisfied?)
    ensures e.toStatus.EvidencePending? ==> e.fromStatus.EvidencePending?
  {
    hide Interleaving.Exec, Interleaving.IsRun;
    Overlap.AuditIsFaithful(run, events, assigner, i, i, id);
    assert LegalEntry(e);
  }

  /** Without a running entry in between, failed evidence stays failed or gets waived. */
  lemma {:induction false} FailedNeedsRunning(log: AuditLog, i: nat, name: string)
    requires Chained(log) && LegalLog(log)
    requires i < |log| && log[i].evidenceName == name && log[i].toStatus.EvidenceFailed?
    requires forall j | i < j < |log| && log[j].evidenceName == name :: !log[j].toStatus.EvidenceRunning?
    ensures LastStatus(log, name).EvidenceFailed? || LastStatus(log, name).EvidenceWaived?
  {
    if i < |log| - 1 {
      var before, last := log[..|log| - 1], log[|log| - 1];
      assert LegalLog(before);
      FailedNeedsRunning(before, i, name);
      assert LegalEntry(last);
    }
  }

  lemma {:induction false} ChainedPrefix(log: AuditLog, n: nat)
    requires Chained(log) && LegalLog(log) && n <= |log|
    ensures Chained(log[..n]) && LegalLog(log[..n])
  {
    if n == |log| {
      assert log[..n] == log;
    } else {
      var before := log[..|log| - 1];
      assert before[..n] == log[..n];
      assert LegalLog(before);
      ChainedPrefix(before, n);
    }
  }

  lemma LastIsAt(log: AuditLog, k: nat)
    requires k < |log|
    ensures LastStatus(log[..k + 1], log[k].evidenceName) == log[k].toStatus
  {
    assert log[..k + 1][k] == log[k];
  }

  /** In every serial run, evidence that failed and is satisfied later was running in between. */
  lemma FailedRunsBeforeSatisfied(states: seq<State>, ops: seq<Op>, assigner: Assigner, n: nat, id: string, i: nat,
                                  k: nat)
    requires IsRun(states, ops, assigner) && n < |states|
    requires i < k < |states[n].AuditOf(id)|
    requires var log := states[n].AuditOf(id);
             && log[i].evidenceName == log[k].evidenceName
             && log[i].toStatus.EvidenceFailed? && log[k].toStatus.EvidenceSatisfied?
    ensures var log := states[n].AuditOf(id);
            exists j | i < j < k :: log[j].evidenceName == log[i].evidenceName && log[j].toStatus.EvidenceRunning?
  {
    hide Structured, WaiversAttributed, Accurate, Step, LegalEntry, Chained;
    RunInv(states, ops, assigner, n);
    var log := states[n].AuditOf(id);
    var name := log[i].evidenceName;
    if forall j | i < j < k && log[j].evidenceName == name :: !log[j].toStatus.EvidenceRunning? {
      ChainedPrefix(log, k + 1);
      LastIsAt(log, k);
      FailedNeedsRunning(log[..k + 1], i, name);
    }
  }

  // ---- Decisions --------------------------------------------------------------------------------------

  /** In every serial run a packet that is not blocked is approved exactly when each required piece of evidence
    * is satisfied or waived and every reviewer is optional. */
  lemma ApprovedExactlyWhenNothingIsOpen(states: seq<State>, ops: seq<Op>, assigner: Assigner, n: nat, id: string)
    requires IsRun(states, ops, assigner) && n < |states| && id in states[n].packets
    ensures var packet := states[n].packets[id];
            !packet.decision.status.DecisionBlocked? ==>
              (packet.decision.status.DecisionApproved? <==>
                 && (forall r | r in packet.evidence && r.required ::
                       || states[n].StatusOf(id, r.name) == EvidenceSatisfied
                       || states[n].StatusOf(id, r.name) == EvidenceWaived)
                 && (forall r | r in packet.reviewers :: !r.mandatory))
  {
    hide IsRun;
    ApprovedExactlyWhenComplete(states, ops, assigner, n, id);
  }
}
