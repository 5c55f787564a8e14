/** Evidence updates: validation, the evidence status machine, and the reconciliation of a packet's
  * decision and lane with the evidence on file. The functions say what one uninterrupted request does to
  * the repository; Service performs it step by step on the repository object. */
module ControlPlane {
  import opened Domain
  import opened Text
  import opened EvidenceStore
  import Lanes

  datatype UpdateError =
    | InvalidField(field: string)
    | PacketNotFound(id: string)
    | EvidenceNotRequired(id: string, name: string)
    | IllegalTransition(name: string, from: EvidenceStatus, to: EvidenceStatus)
    | PublishFailed

  /** The clock readings of one request, and whether the check publisher accepts the refreshed check. */
  datatype Surroundings = Surroundings(recordedAt: int, reconciledAt: int, savedAt: int, publishes: bool)

  datatype Admission = Admission(packet: ChangePacket, requirement: EvidenceRequirement, from: EvidenceStatus)

  /** The lane assigner, when there is one. */
  type Assigner = Option<Lanes.Config>

  // ---- Pure rules -----------------------------------------------------------------------------

  predicate ValidEvidenceStatus(status: EvidenceStatus) {
    !status.EvidenceOther?
  }

  predicate CanTransition(from: EvidenceStatus, to: EvidenceStatus) {
    || from == to
    || match from
       case EvidencePending =>
         to.EvidenceRunning? || to.EvidenceSatisfied? || to.EvidenceFailed? || to.EvidenceWaived?
       case EvidenceRunning => to.EvidenceSatisfied? || to.EvidenceFailed? || to.EvidenceWaived?
       case EvidenceFailed => to.EvidenceRunning? || to.EvidenceWaived?
       case _ => false
  }

  predicate Settled(status: EvidenceStatus) {
    status.EvidenceSatisfied? || status.EvidenceWaived?
  }

  /** Every required requirement has a satisfied or waived execution. */
  predicate Complete(requirements: seq<EvidenceRequirement>, executions: Executions) {
    forall r | r in requirements && r.required :: r.name in executions && Settled(executions[r.name].status)
  }

  function FindRequirement(requirements: seq<EvidenceRequirement>, name: string): Option<EvidenceRequirement> {
    if requirements == [] then None
    else if requirements[0].name == name then Some(requirements[0])
    else FindRequirement(requirements[1..], name)
  }

  lemma {:induction false} FindRequirementFinds(requirements: seq<EvidenceRequirement>, name: string)
    ensures var found := FindRequirement(requirements, name);
            && (found.Some? <==> Names(requirements, name))
            && (found.Some? ==> found.value.name == name && found.value in requirements)
  {
    if requirements != [] && requirements[0].name != name {
      FindRequirementFinds(requirements[1..], name);
      assert requirements == [requirements[0]] + requirements[1..];
    }
  }

  /** The requirement found is the first of its name. */
  lemma {:induction false} FindRequirementFindsFirst(requirements: seq<EvidenceRequirement>, name: string, i: nat)
    requires i < |requirements| && requirements[i].name == name
    requires forall k | 0 <= k < i :: requirements[k].name != name
    ensures FindRequirement(requirements, name) == Some(requirements[i])
  {
    if i > 0 {
      FindRequirementFindsFirst(requirements[1..], name, i - 1);
    }
  }

  function WithActor(execution: EvidenceExecution, principal: Option<string>): EvidenceExecution {
    if principal.Some? then execution.(updatedBy := principal.value) else execution
  }

  /** The first of the request's fields that is unacceptable. */
  function InvalidRequestField(execution: EvidenceExecution): Option<UpdateError> {
    if Blank(execution.changePacketId) then Some(InvalidField("changePacketId"))
    else if Blank(execution.name) then Some(InvalidField("name"))
    else if !ValidEvidenceStatus(execution.status) then Some(InvalidField("status"))
    else if execution.status.EvidenceWaived? && Blank(execution.updatedBy) then Some(InvalidField("updatedBy"))
    else None
  }

  function Stamped(execution: EvidenceExecution, requirement: EvidenceRequirement, now: int): EvidenceExecution {
    execution.(kind := requirement.kind, required := requirement.required, updatedAt := now)
  }

  function AuditEntry(stamped: EvidenceExecution, from: EvidenceStatus): EvidenceAuditEntry {
    EvidenceAuditEntry(stamped.changePacketId, stamped.name, from, stamped.status, stamped.updatedBy,
                       stamped.summary, stamped.detailsURL, stamped.metadata, stamped.updatedAt)
  }

  /** The packet with its decision, times and lane brought up to date; a missing assigner leaves the lane. */
  function Reconciled(packet: ChangePacket, executions: Executions, assigner: Assigner, now: int)
    : ChangePacket
  {
    var status :=
      if packet.decision.status.DecisionBlocked? then DecisionBlocked
      else if Complete(packet.evidence, executions) && !Lanes.HasMandatoryReviewer(packet.reviewers) then
        DecisionApproved
      else DecisionPending;
    var decidedAt := if packet.decision.status.DecisionBlocked? then packet.decision.decidedAt else now;
    var decided := packet.(decision := packet.decision.(status := status, decidedAt := decidedAt), updatedAt := now);
    if assigner.Some? then decided.(mergeLane := Lanes.Assign(assigner.value, decided)) else decided
  }

  // ---- One uninterrupted request ----------------------------------------------------------------

  function Admit(s: State, execution: EvidenceExecution): Result<Admission, UpdateError> {
    var invalid := InvalidRequestField(execution);
    if invalid.Some? then Err(invalid.value)
    else if execution.changePacketId !in s.packets then Err(PacketNotFound(execution.changePacketId))
    else
      var packet := s.packets[execution.changePacketId];
      var requirement := FindRequirement(packet.evidence, execution.name);
      if requirement.None? then Err(EvidenceNotRequired(execution.changePacketId, execution.name))
      else
        var from := s.StatusOf(execution.changePacketId, execution.name);
        if !CanTransition(from, execution.status) then Err(IllegalTransition(execution.name, from, execution.status))
        else Ok(Admission(packet, requirement.value, from))
  }

  function AfterRecord(s: State, execution: EvidenceExecution, admission: Admission, at: Surroundings): State {
    var stamped := Stamped(execution, admission.requirement, at.recordedAt);
    Recorded(s, stamped, AuditEntry(stamped, admission.from), at.recordedAt)
  }

  function AfterReconcile(s: State, packet: ChangePacket, assigner: Assigner, at: Surroundings): State {
    Saved(s, Reconciled(packet, s.EvidenceOf(packet.id), assigner, at.reconciledAt), at.savedAt)
  }

  function Updated(s: State, execution: EvidenceExecution, assigner: Assigner, at: Surroundings)
    : (State, Result<EvidenceExecution, UpdateError>)
  {
    match Admit(s, execution)
    case Err(error) => (s, Err(error))
    case Ok(admission) =>
      var after := AfterReconcile(AfterRecord(s, execution, admission, at), admission.packet, assigner, at);
      if at.publishes then (after, Ok(Stamped(execution, admission.requirement, at.recordedAt)))
      else (after, Err(PublishFailed))
  }

  // ---- The service ------------------------------------------------------------------------------

  class Service {
    const repository: MemoryRepository
    const laneAssigner: Assigner

    constructor (repository: MemoryRepository, laneAssigner: Assigner)
      ensures this.repository == repository && this.laneAssigner == laneAssigner
    {
      this.repository := repository;
      this.laneAssigner := laneAssigner;
    }

    method UpdateEvidenceExecution(request: EvidenceExecution, principal: Option<string>, at: Surroundings)
      returns (result: Result<EvidenceExecution, UpdateError>)
      requires repository.Valid()
      modifies repository
      ensures repository.Valid()
      ensures (repository.Contents(), result) ==
              Updated(old(repository.Contents()), WithActor(request, principal), laneAssigner, at)
    {
      if Blank(request.changePacketId) {
        return Err(InvalidField("changePacketId"));
      }
      if Blank(request.name) {
        return Err(InvalidField("name"));
      }
      if !ValidEvidenceStatus(request.status) {
        return Err(InvalidField("status"));
      }
      var execution := request;
      if principal.Some? {
        execution := execution.(updatedBy := principal.value);
      }
      if execution.status.EvidenceWaived? && Blank(execution.updatedBy) {
        return Err(InvalidField("updatedBy"));
      }

      var found := repository.GetChangePacket(execution.changePacketId);
      if found.None? {
        return Err(PacketNotFound(execution.changePacketId));
      }
      var packet := found.value;
      var requirement := FindRequirement(packet.evidence, execution.name);
      if requirement.None? {
        return Err(EvidenceNotRequired(execution.changePacketId, execution.name));
      }
      var currentStatus := CurrentEvidenceStatus(execution.changePacketId, execution.name);
      if !CanTransition(currentStatus, execution.status) {
        return Err(IllegalTransition(execution.name, currentStatus, execution.status));
      }
      execution := execution.(kind := requirement.value.kind,
                              required := requirement.value.required,
                              updatedAt := at.recordedAt);
      var entry := EvidenceAuditEntry(execution.changePacketId, execution.name, currentStatus, execution.status,
                                      execution.updatedBy, execution.summary, execution.detailsURL,
                                      execution.metadata, execution.updatedAt);
      repository.RecordEvidenceUpdate(execution, entry, at.recordedAt);
      var published := ReconcileDecision(packet, at);
      if !published {
        return Err(PublishFailed);
      }
      return Ok(execution);
    }

    method ReconcileDecision(stored: ChangePacket, at: Surroundings) returns (published: bool)
      requires repository.Valid()
      modifies repository
      ensures repository.Valid()
      ensures repository.Contents() == AfterReconcile(old(repository.Contents()), stored, laneAssigner, at)
      ensures published == at.publishes
    {
      var packet := stored;
      var executions := repository.ListEvidenceExecutions(packet.id);
      if !packet.decision.status.DecisionBlocked? {
        packet := packet.(decision := packet.decision.(status := DecisionPending));
        var complete := RequiredEvidenceComplete(packet.evidence, executions,
                                                 repository.Contents().EvidenceOf(packet.id));
        if complete && !Lanes.HasMandatoryReviewer(packet.reviewers) {
          packet := packet.(decision := packet.decision.(status := DecisionApproved));
        }
        packet := packet.(decision := packet.decision.(decidedAt := at.reconciledAt));
      }
      packet := packet.(updatedAt := at.reconciledAt);
      if laneAssigner.Some? {
        packet := packet.(mergeLane := Lanes.Assign(laneAssigner.value, packet));
      }
      repository.SaveChangePacket(packet, at.savedAt);
      published := at.publishes;
    }

    method CurrentEvidenceStatus(id: string, name: string) returns (status: EvidenceStatus)
      requires repository.Valid()
      ensures status == repository.Contents().StatusOf(id, name)
    {
      var executions := repository.ListEvidenceExecutions(id);
      for i := 0 to |executions|
        invariant forall k | 0 <= k < i :: executions[k].name != name
      {
        if executions[i].name == name {
          return executions[i].status;
        }
      }
      return EvidencePending;
    }
  }

  /** Works on the listing, through a map from names to statuses, and agrees with the stored executions. */
  method RequiredEvidenceComplete(requirements: seq<EvidenceRequirement>, listing: seq<EvidenceExecution>,
                                  ghost executions: Executions)
    returns (complete: bool)
    requires IsListing(listing, executions)
    ensures complete <==> Complete(requirements, executions)
  {
    hide Settled, IsListing;
    var statusByName := StatusByName(listing, executions);
    for i := 0 to |requirements|
      invariant Complete(requirements[..i], executions)
    {
      assert requirements[..i + 1] == requirements[..i] + [requirements[i]];
      var requirement := requirements[i];
      if requirement.required {
        if requirement.name !in statusByName || !Settled(statusByName[requirement.name]) {
          assert requirement in requirements;
          return false;
        }
      }
    }
    assert requirements[..|requirements|] == requirements;
    return true;
  }

  method StatusByName(listing: seq<EvidenceExecution>, ghost executions: Executions)
    returns (statusByName: map<string, EvidenceStatus>)
    requires IsListing(listing, executions)
    ensures statusByName.Keys == executions.Keys
    ensures forall n | n in statusByName :: statusByName[n] == executions[n].status
  {
    statusByName := map[];
    for i := 0 to |listing|
      invariant forall k | 0 <= k < i :: listing[k].name in statusByName
      invariant forall n | n in statusByName :: n in executions && statusByName[n] == executions[n].status
    {
      statusByName := statusByName[listing[i].name := listing[i].status];
    }
    forall n | n in executions
      ensures n in statusByName
    {
      assert Lists(listing, n);
    }
  }
}
