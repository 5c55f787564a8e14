/** What overlapping requests can and cannot do to decisions and audit logs. */
module Overlap {
  import opened Domain
  import opened EvidenceStore
  import opened ControlPlane
  import opened Invariants
  import opened Interleaving
  import SerialRuns
  import Lanes

  // ---- In every interleaving ------------------------------------------------------------------------

  /** The stored status is the last one audited, every entry is a legal transition, every waiver is signed,
    * and later logs extend earlier ones. */
  lemma AuditIsFaithful(run: seq<System>, events: seq<Event>, assigner: Assigner, i: nat, j: nat, id: string)
    requires IsRun(run, events, assigner) && i <= j < |run|
    ensures forall name :: run[i].store.StatusOf(id, name) == LastStatus(run[i].store.AuditOf(id), name)
    ensures LegalLog(run[i].store.AuditOf(id))
    ensures forall name | name in run[i].store.EvidenceOf(id) :: Attributed(run[i].store.EvidenceOf(id)[name])
    ensures run[i].store.AuditOf(id) <= run[j].store.AuditOf(id)
  {
    RunInv(run, events, assigner, i);
    RunGrows(run, events, assigner, i, j);
  }

  /** After ingestion a packet keeps everything but its decision status, lane and times; a block is final;
    * blocked packets sit at BLACK; and a mandatory reviewer keeps a packet unapproved at RED or above. */
  lemma PacketsKeepTheirChange(run: seq<System>, events: seq<Event>, config: Lanes.Config, i: nat, j: nat, id: string)
    requires IsRun(run, events, Some(config)) && i <= j < |run| && id in run[i].store.packets
    ensures id in run[j].store.packets
    ensures SameChange(run[i].store.packets[id], run[j].store.packets[id])
    ensures var packet := run[j].store.packets[id];
            && packet.mergeLane == Lanes.Assign(config, packet)
            && (packet.decision.status.DecisionBlocked? ==> packet.mergeLane == MergeLaneBlack)
            && (Lanes.HasMandatoryReviewer(packet.reviewers) ==>
                  !packet.decision.status.DecisionApproved? && Lanes.LaneOrder(packet.mergeLane) >= 3)
  {
    RunInv(run, events, Some(config), j);
    RunGrows(run, events, Some(config), i, j);
    SoundPacketLane(run[j].store.packets[id], config);
  }

  ghost predicate CompleteIn(s: State, id: string) {
    id in s.packets && Complete(s.packets[id].evidence, s.EvidenceOf(id))
  }

  /** At some instant up to i all required evidence of the packet was satisfied or waived. */
  ghost predicate WasComplete(run: seq<System>, i: int, id: string) {
    exists j | 0 <= j <= i && j < |run| :: CompleteIn(run[j].store, id)
  }

  /** Approvals on file, and approvals about to be filed, each had their instant of completeness. */
  ghost predicate Grounded(run: seq<System>, i: nat)
    requires i < |run|
  {
    var y := run[i];
    && (forall id | id in y.store.packets && y.store.packets[id].decision.status.DecisionApproved? ::
        WasComplete(run, i, id))
    && (forall r | r in y.requests && y.requests[r].phase.HasReloaded? ::
          Complete(y.requests[r].phase.packet.evidence, y.requests[r].phase.executions) ==>
            WasComplete(run, i, y.requests[r].phase.packet.id))
  }

  /** In every interleaving, an approved packet has no mandatory reviewer and at some instant of the run
    * had all its required evidence satisfied or waived. */
  lemma ApprovedWasComplete(run: seq<System>, events: seq<Event>, assigner: Assigner, i: nat, id: string)
    requires IsRun(run, events, assigner) && i < |run|
    requires id in run[i].store.packets && run[i].store.packets[id].decision.status.DecisionApproved?
    ensures WasComplete(run, i, id)
    ensures !Lanes.HasMandatoryReviewer(run[i].store.packets[id].reviewers)
  {
    RunGrounded(run, events, assigner, i);
    RunInv(run, events, assigner, i);
  }

  lemma {:induction false} RunGrounded(run: seq<System>, events: seq<Event>, assigner: Assigner, i: nat)
    requires IsRun(run, events, assigner) && i < |run|
    ensures Grounded(run, i)
  {
    hide Exec, SystemInv;
    if i > 0 {
      RunGrounded(run, events, assigner, i - 1);
      RunInv(run, events, assigner, i - 1);
      RunInv(run, events, assigner, i);
      GroundedStep(run, events, assigner, i - 1);
    }
  }

  lemma GroundedStep(run: seq<System>, events: seq<Event>, assigner: Assigner, i: nat)
    requires IsRun(run, events, assigner) && i + 1 < |run|
    requires SystemInv(run[i], assigner) && SystemInv(run[i + 1], assigner)
    requires Grounded(run, i)
    ensures Grounded(run, i + 1)
  {
    var y, z := run[i], run[i + 1];
    forall id | id in z.store.packets && z.store.packets[id].decision.status.DecisionApproved?
      ensures WasComplete(run, i + 1, id)
    {
      ApprovalOrigin(y, events[i], z, assigner, id);
      if CompleteIn(z.store, id) {
        assert WasComplete(run, i + 1, id);
      } else {
        assert WasComplete(run, i, id);
        WasCompleteStays(run, i, id);
      }
    }
    forall r | r in z.requests && z.requests[r].phase.HasReloaded? &&
               Complete(z.requests[r].phase.packet.evidence, z.requests[r].phase.executions)
      ensures WasComplete(run, i + 1, z.requests[r].phase.packet.id)
    {
      ReloadOrigin(y, events[i], z, assigner, r);
      if CompleteIn(z.store, z.requests[r].phase.packet.id) {
        assert WasComplete(run, i + 1, z.requests[r].phase.packet.id);
      } else {
        WasCompleteStays(run, i, z.requests[r].phase.packet.id);
      }
    }
  }

  lemma WasCompleteStays(run: seq<System>, i: nat, id: string)
    requires WasComplete(run, i, id)
    ensures WasComplete(run, i + 1, id)
  {
  }

  /** An approval on file was there before, or is complete now, or was computed from a complete reload. */
  lemma ApprovalOrigin(y: System, event: Event, z: System, assigner: Assigner, id: string)
    requires SystemInv(y, assigner)
    requires Exec(y, event, assigner) == Some(z)
    requires id in z.store.packets && z.store.packets[id].decision.status.DecisionApproved?
    ensures || (id in y.store.packets && y.store.packets[id].decision.status.DecisionApproved?)
            || CompleteIn(z.store, id)
            || exists r | r in y.requests ::
                 && y.requests[r].phase.HasReloaded? && y.requests[r].phase.packet.id == id
                 && Complete(y.requests[r].phase.packet.evidence, y.requests[r].phase.executions)
  {
    hide StoreInv, CanTransition, FindRequirement, Reconciled;
    if id in y.store.packets && z.store.packets[id] == y.store.packets[id] {
    } else if event.Ingest? {
      assert z.store == Saved(y.store, event.packet, event.now);
    } else if event.Save? {
      SaveApproves(y, event.r, event.reconciledAt, event.savedAt, z, assigner, id);
    }
  }

  lemma SaveApproves(y: System, r: nat, reconciledAt: int, savedAt: int, z: System, assigner: Assigner, id: string)
    requires SystemInv(y, assigner)
    requires Exec(y, Save(r, reconciledAt, savedAt), assigner) == Some(z)
    requires id in z.store.packets && z.store.packets[id].decision.status.DecisionApproved?
    requires !(id in y.store.packets && z.store.packets[id] == y.store.packets[id])
    ensures y.requests[r].phase.packet.id == id
    ensures Complete(y.requests[r].phase.packet.evidence, y.requests[r].phase.executions)
  {
    var phase := y.requests[r].phase;
    ReconciledIsSound(phase.packet, phase.executions, assigner, reconciledAt);
    assert z.store.packets ==
           y.store.packets[phase.packet.id := Reconciled(phase.packet, phase.executions, assigner, reconciledAt)];
  }

  /** A request with a reloaded listing held it before, or has just copied what is on file. */
  lemma ReloadOrigin(y: System, event: Event, z: System, assigner: Assigner, r: nat)
    requires SystemInv(z, assigner)
    requires Exec(y, event, assigner) == Some(z)
    requires r in z.requests && z.requests[r].phase.HasReloaded?
    ensures || (r in y.requests && y.requests[r] == z.requests[r])
            || (Complete(z.requests[r].phase.packet.evidence, z.requests[r].phase.executions) ==>
                  CompleteIn(z.store, z.requests[r].phase.packet.id))
  {
    hide Complete, StoreInv, Recorded, Saved, Reconciled, CanTransition, FindRequirement;
    if event == Reload(r) {
      assert RequestInv(z.store, z.requests[r]);
    }
  }

  // ---- Lost updates ---------------------------------------------------------------------------------

  /** The recorded transition starts from the status on file: the guard a compare-and-set would check. */
  ghost predicate Fresh(y: System, event: Event) {
    event.Record? && event.r in y.requests && y.requests[event.r].phase.HoldsStatus? ==>
      var request := y.requests[event.r];
      request.phase.from == y.store.StatusOf(request.execution.changePacketId, request.execution.name)
  }

  ghost predicate ChainsHold(s: State) {
    forall id :: SerialRuns.Chained(s.AuditOf(id))
  }

  /** One step keeps the chains exactly when it is not a stale record. */
  lemma ChainStep(y: System, event: Event, z: System, assigner: Assigner)
    requires SystemInv(y, assigner)
    requires Exec(y, event, assigner) == Some(z)
    ensures ChainsHold(z.store) <==> ChainsHold(y.store) && Fresh(y, event)
  {
    hide Structured, WaiversAttributed, Grows, Saved, Recorded, CanTransition;
    StoreStep(y, event, z, assigner);
    if event.Record? {
      var request := y.requests[event.r];
      var stamped := Stamped(request.execution, request.phase.requirement, event.now);
      RecordedChains(y.store, stamped, AuditEntry(stamped, request.phase.from), event.now);
    } else {
      assert forall id :: z.store.AuditOf(id) == y.store.AuditOf(id);
      ChainsElsewhere(y.store, z.store, "");
    }
  }

  lemma RecordedChains(s: State, execution: EvidenceExecution, entry: EvidenceAuditEntry, now: int)
    requires Audited(s)
    requires execution.changePacketId == entry.changePacketId && execution.name == entry.evidenceName
    ensures ChainsHold(Recorded(s, execution, entry, now)) <==>
            ChainsHold(s) && entry.fromStatus == s.StatusOf(entry.changePacketId, entry.evidenceName)
  {
    var t := Recorded(s, execution, entry, now);
    var id := entry.changePacketId;
    assert t.AuditOf(id) == s.AuditOf(id) + [entry];
    assert t.AuditOf(id)[..|t.AuditOf(id)| - 1] == s.AuditOf(id);
    assert LastStatus(s.AuditOf(id), entry.evidenceName) == s.StatusOf(id, entry.evidenceName);
    ChainsElsewhere(s, t, id);
  }

  lemma ChainsElsewhere(s: State, t: State, id: string)
    requires forall other | other != id :: t.AuditOf(other) == s.AuditOf(other)
    ensures ChainsHold(t) && SerialRuns.Chained(s.AuditOf(id)) ==> ChainsHold(s)
    ensures ChainsHold(s) && SerialRuns.Chained(t.AuditOf(id)) ==> ChainsHold(t)
  {
  }

  /** In an interleaving the audit logs are chains at the end exactly when no record step was stale. */
  lemma {:induction false} ChainsHoldExactlyWhenFresh(run: seq<System>, events: seq<Event>, assigner: Assigner, n: nat)
    requires IsRun(run, events, assigner) && n < |run|
    ensures ChainsHold(run[n].store) <==> forall i | 0 <= i < n :: Fresh(run[i], events[i])
  {
    hide Exec, Fresh, SystemInv;
    if n > 0 {
      ChainsHoldExactlyWhenFresh(run, events, assigner, n - 1);
      RunInv(run, events, assigner, n - 1);
      ChainStep(run[n - 1], events[n - 1], run[n], assigner);
    }
  }

  /** Without stale records a settled status stays, whatever else overlaps. */
  lemma {:induction false} FreshSettledStays(run: seq<System>, events: seq<Event>, assigner: Assigner, i: nat, j: nat,
                                             id: string, name: string)
    requires IsRun(run, events, assigner) && i <= j < |run|
    requires forall k | i <= k < j :: Fresh(run[k], events[k])
    requires Settled(run[i].store.StatusOf(id, name))
    ensures run[j].store.StatusOf(id, name) == run[i].store.StatusOf(id, name)
    decreases j
  {
    hide Exec, Fresh, SystemInv;
    if i < j {
      FreshSettledStays(run, events, assigner, i, j - 1, id, name);
      RunInv(run, events, assigner, j - 1);
      RunInv(run, events, assigner, j);
      FreshStep(run[j - 1], events[j - 1], run[j], assigner, id, name);
    }
  }

  lemma FreshStep(y: System, event: Event, z: System, assigner: Assigner, id: string, name: string)
    requires SystemInv(y, assigner) && SystemInv(z, assigner)
    requires Exec(y, event, assigner) == Some(z) && Fresh(y, event)
    requires Settled(y.store.StatusOf(id, name))
    ensures z.store.StatusOf(id, name) == y.store.StatusOf(id, name)
  {
    StoreStep(y, event, z, assigner);
    if event.Record? {
      FreshRecord(y, event.r, event.now, z, assigner, id, name);
    } else {
      assert z.store.AuditOf(id) == y.store.AuditOf(id);
    }
  }

  lemma FreshRecord(y: System, r: nat, now: int, z: System, assigner: Assigner, id: string, name: string)
    requires SystemInv(y, assigner)
    requires Exec(y, Record(r, now), assigner) == Some(z) && Fresh(y, Record(r, now))
    requires Settled(y.store.StatusOf(id, name))
    ensures z.store.StatusOf(id, name) == y.store.StatusOf(id, name)
  {
    hide StoreInv, SameChange, Recorded;
    var request := y.requests[r];
    assert RequestInv(y.store, request);
    var stamped := Stamped(request.execution, request.phase.requirement, now);
    RecordedStatuses(y.store, stamped, AuditEntry(stamped, request.phase.from), now);
  }

  /** A settled status is lost exactly in a record step for that evidence that reports another status, and
    * such a step is always stale. */
  lemma SettledLostExactlyWhen(y: System, event: Event, z: System, assigner: Assigner, id: string, name: string)
    requires SystemInv(y, assigner)
    requires Exec(y, event, assigner) == Some(z)
    requires Settled(y.store.StatusOf(id, name))
    ensures z.store.StatusOf(id, name) != y.store.StatusOf(id, name) <==>
            && event.Record?
            && var execution := y.requests[event.r].execution;
               && execution.changePacketId == id && execution.name == name
               && execution.status != y.store.StatusOf(id, name)
    ensures z.store.StatusOf(id, name) != y.store.StatusOf(id, name) ==> !Fresh(y, event)
  {
    hide StoreInv, Fresh, CanTransition, Settled, Recorded;
    SystemStep(y, event, z, assigner);
    if event.Record? {
      RecordSets(y, event.r, event.now, z, assigner, id, name);
    } else {
      OnlyRecordsSet(y, event, z, assigner, id, name);
    }
    if Fresh(y, event) {
      FreshStep(y, event, z, assigner, id, name);
    }
  }

  lemma RecordSets(y: System, r: nat, now: int, z: System, assigner: Assigner, id: string, name: string)
    requires SystemInv(y, assigner)
    requires Exec(y, Record(r, now), assigner) == Some(z)
    ensures var execution := y.requests[r].execution;
            z.store.StatusOf(id, name) ==
            if execution.changePacketId == id && execution.name == name then execution.status
            else y.store.StatusOf(id, name)
  {
    hide StoreInv, SameChange, Recorded, CanTransition;
    var request := y.requests[r];
    var stamped := Stamped(request.execution, request.phase.requirement, now);
    RecordedStatuses(y.store, stamped, AuditEntry(stamped, request.phase.from), now);
  }

  lemma OnlyRecordsSet(y: System, event: Event, z: System, assigner: Assigner, id: string, name: string)
    requires SystemInv(y, assigner)
    requires Exec(y, event, assigner) == Some(z) && !event.Record?
    ensures z.store.StatusOf(id, name) == y.store.StatusOf(id, name)
  {
    hide Exec, Structured, WaiversAttributed, Grows;
    StoreStep(y, event, z, assigner);
    SystemStep(y, event, z, assigner);
    assert z.store.AuditOf(id) == y.store.AuditOf(id);
  }

  /** An approval is lost exactly in a save whose request reloaded the executions while they were incomplete. */
  lemma ApprovalLostExactlyWhen(y: System, event: Event, z: System, assigner: Assigner, id: string)
    requires SystemInv(y, assigner)
    requires Exec(y, event, assigner) == Some(z)
    requires id in y.store.packets && y.store.packets[id].decision.status.DecisionApproved?
    ensures id in z.store.packets
    ensures !z.store.packets[id].decision.status.DecisionApproved? <==>
            && event.Save?
            && var phase := y.requests[event.r].phase;
               phase.packet.id == id && !Complete(phase.packet.evidence, phase.executions)
  {
    hide Complete, StoreInv, RequestInv, Saved, CanTransition;
    StoreStep(y, event, z, assigner);
    if event.Save? {
      SaveDecides(y, event.r, event.reconciledAt, event.savedAt, z, assigner, id);
    } else {
      PacketStays(y, event, z, assigner, id);
    }
  }

  lemma PacketStays(y: System, event: Event, z: System, assigner: Assigner, id: string)
    requires Exec(y, event, assigner) == Some(z) && !event.Save? && id in y.store.packets
    ensures id in z.store.packets && z.store.packets[id] == y.store.packets[id]
  {
    hide CanTransition, Produced;
  }

  lemma SaveDecides(y: System, r: nat, reconciledAt: int, savedAt: int, z: System, assigner: Assigner, id: string)
    requires SystemInv(y, assigner)
    requires Exec(y, Save(r, reconciledAt, savedAt), assigner) == Some(z)
    requires id in y.store.packets && y.store.packets[id].decision.status.DecisionApproved?
    ensures id in z.store.packets
    ensures z.store.packets[id].decision.status.DecisionApproved? <==>
            var phase := y.requests[r].phase; phase.packet.id == id ==>
                Complete(phase.packet.evidence, phase.executions)
  {
    hide Complete, Audited, WaiversAttributed, Lanes.HasMandatoryReviewer, Lanes.Assign;
    var phase := y.requests[r].phase;
    assert RequestInv(y.store, y.requests[r]);
    ReconciledIsSound(phase.packet, phase.executions, assigner, reconciledAt);
  }

  /** Without stale records, approved means complete now, not only once. */
  lemma FreshApprovedIsComplete(run: seq<System>, events: seq<Event>, assigner: Assigner, i: nat, id: string)
    requires IsRun(run, events, assigner) && i < |run|
    requires forall k | 0 <= k < i :: Fresh(run[k], events[k])
    requires id in run[i].store.packets && run[i].store.packets[id].decision.status.DecisionApproved?
    ensures CompleteIn(run[i].store, id)
  {
    ApprovedWasComplete(run, events, assigner, i, id);
    var j :| 0 <= j <= i && CompleteIn(run[j].store, id);
    RunInv(run, events, assigner, j);
    RunInv(run, events, assigner, i);
    RunGrows(run, events, assigner, j, i);
    var requirements := run[j].store.packets[id].evidence;
    forall name | Names(requirements, name) && Settled(run[j].store.StatusOf(id, name))
      ensures Settled(run[i].store.StatusOf(id, name))
    {
      FreshSettledStays(run, events, assigner, j, i, id, name);
    }
    SerialRuns.CompleteByStatus(run[j].store, run[i].store, id, requirements);
  }
}
