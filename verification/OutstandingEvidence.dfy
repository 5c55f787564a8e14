/** When a packet counts as approved, or sits below RED, although evidence it requires is outstanding: never
  * in a serial run, and under overlap exactly after the steps named here. */
module OutstandingEvidence {
  import opened Domain
  import opened EvidenceStore
  import opened ControlPlane
  import opened Invariants
  import opened Interleaving
  import Overlap
  import SerialRuns
  import Lanes

  predicate Approved(s: State, id: string) {
    id in s.packets && s.packets[id].decision.status.DecisionApproved?
  }

  ghost predicate Outstanding(s: State, id: string) {
    id in s.packets && !Overlap.CompleteIn(s, id)
  }

  ghost predicate Misleading(s: State, id: string) {
    Approved(s, id) && Outstanding(s, id)
  }

  predicate Requires(requirements: seq<EvidenceRequirement>, name: string) {
    exists r | r in requirements :: r.required && r.name == name
  }

  /** Completeness read off the statuses, where an absent execution counts as pending. */
  lemma CompleteByStatuses(s: State, id: string, requirements: seq<EvidenceRequirement>)
    ensures Complete(requirements, s.EvidenceOf(id)) <==>
            forall name | Requires(requirements, name) :: Settled(s.StatusOf(id, name))
  {
    if forall name | Requires(requirements, name) :: Settled(s.StatusOf(id, name)) {
      forall r | r in requirements && r.required
        ensures r.name in s.EvidenceOf(id) && Settled(s.EvidenceOf(id)[r.name].status)
      {
        assert Requires(requirements, r.name);
      }
    }
  }

  // ---- The steps that make a packet misleading --------------------------------------------------------

  /** A record on an approved packet that reports required evidence as anything but satisfied or waived. */
  predicate Unsettles(y: System, event: Event, id: string) {
    && event.Record? && event.r in y.requests
    && var execution := y.requests[event.r].execution;
       && execution.changePacketId == id
       && Approved(y.store, id)
       && Requires(y.store.packets[id].evidence, execution.name)
       && !Settled(execution.status)
  }

  /** A save that approves from a complete reload while the evidence on file is no longer complete. */
  ghost predicate ApprovesLate(y: System, event: Event, id: string) {
    && event.Save? && event.r in y.requests && y.requests[event.r].phase.HasReloaded?
    && var phase := y.requests[event.r].phase;
       && phase.packet.id == id
       && !phase.packet.decision.status.DecisionBlocked?
       && Complete(phase.packet.evidence, phase.executions)
       && !Lanes.HasMandatoryReviewer(phase.packet.reviewers)
       && !Complete(phase.packet.evidence, y.store.EvidenceOf(id))
  }

  /** A step makes a packet approved with evidence outstanding exactly when it is one of these two. */
  lemma MisleadsExactlyWhen(y: System, event: Event, z: System, assigner: Assigner, id: string)
    requires SystemInv(y, assigner)
    requires Exec(y, event, assigner) == Some(z)
    requires !Misleading(y.store, id)
    ensures Misleading(z.store, id) <==> Unsettles(y, event, id) || ApprovesLate(y, event, id)
  {
    hide Exec, SystemInv, Misleading, Unsettles, ApprovesLate;
    match event
    case Ingest(packet, now) => IngestMisleadsNobody(y, packet, now, z, assigner, id);
    case Record(r, now) => RecordMisleads(y, r, now, z, assigner, id);
    case Save(r, reconciledAt, savedAt) => SaveMisleads(y, r, reconciledAt, savedAt, z, assigner, id);
    case _ => OthersMisleadNobody(y, event, z, assigner, id);
  }

  lemma OthersMisleadNobody(y: System, event: Event, z: System, assigner: Assigner, id: string)
    requires SystemInv(y, assigner)
    requires Exec(y, event, assigner) == Some(z)
    requires !event.Ingest? && !event.Record? && !event.Save?
    ensures z.store == y.store && !Unsettles(y, event, id) && !ApprovesLate(y, event, id)
    ensures Misleading(z.store, id) <==> Misleading(y.store, id)
  {
    hide Exec, StoreInv, RequestInv, Misleading;
    StoreStep(y, event, z, assigner);
  }

  lemma IngestMisleadsNobody(y: System, packet: ChangePacket, now: int, z: System, assigner: Assigner, id: string)
    requires SystemInv(y, assigner)
    requires Exec(y, Ingest(packet, now), assigner) == Some(z)
    requires !Misleading(y.store, id)
    ensures !Misleading(z.store, id)
    ensures !Unsettles(y, Ingest(packet, now), id) && !ApprovesLate(y, Ingest(packet, now), id)
  {
    hide StoreInv, RequestInv, Ensured, Settled, Lanes.Assign;
  }

  lemma RecordMisleads(y: System, r: nat, now: int, z: System, assigner: Assigner, id: string)
    requires SystemInv(y, assigner)
    requires Exec(y, Record(r, now), assigner) == Some(z)
    requires !Misleading(y.store, id)
    ensures !ApprovesLate(y, Record(r, now), id)
    ensures Misleading(z.store, id) <==> Unsettles(y, Record(r, now), id)
  {
    hide Exec, SystemInv, Complete, Settled, Requires;
    RecordKeeps(y, r, now, z, assigner, id);
    var execution := y.requests[r].execution;
    if Approved(y.store, id) {
      var requirements := y.store.packets[id].evidence;
      CompleteByStatuses(y.store, id, requirements);
      CompleteByStatuses(z.store, id, requirements);
      forall name
        ensures z.store.StatusOf(id, name) ==
                if execution.changePacketId == id && execution.name == name then execution.status
                else y.store.StatusOf(id, name)
      {
        Overlap.RecordSets(y, r, now, z, assigner, id, name);
      }
    }
  }

  lemma RecordKeeps(y: System, r: nat, now: int, z: System, assigner: Assigner, id: string)
    requires Exec(y, Record(r, now), assigner) == Some(z)
    ensures r in y.requests && z.store.packets == y.store.packets
  {
    hide CanTransition, Produced;
  }

  lemma SaveMisleads(y: System, r: nat, reconciledAt: int, savedAt: int, z: System, assigner: Assigner, id: string)
    requires SystemInv(y, assigner)
    requires Exec(y, Save(r, reconciledAt, savedAt), assigner) == Some(z)
    requires !Misleading(y.store, id)
    ensures !Unsettles(y, Save(r, reconciledAt, savedAt), id)
    ensures Misleading(z.store, id) <==> ApprovesLate(y, Save(r, reconciledAt, savedAt), id)
  {
    hide Exec, SystemInv, Complete, Settled, Requires, Lanes.HasMandatoryReviewer;
    SaveWrites(y, r, reconciledAt, savedAt, z, assigner, id);
    if id in z.store.packets {
      var requirements := z.store.packets[id].evidence;
      CompleteByStatuses(y.store, id, requirements);
      CompleteByStatuses(z.store, id, requirements);
      forall name
        ensures z.store.StatusOf(id, name) == y.store.StatusOf(id, name)
      {
        Overlap.OnlyRecordsSet(y, Save(r, reconciledAt, savedAt), z, assigner, id, name);
      }
    }
  }

  lemma SaveWrites(y: System, r: nat, reconciledAt: int, savedAt: int, z: System, assigner: Assigner, id: string)
    requires SystemInv(y, assigner)
    requires Exec(y, Save(r, reconciledAt, savedAt), assigner) == Some(z)
    ensures r in y.requests && y.requests[r].phase.HasReloaded?
    ensures var phase := y.requests[r].phase;
            && z.store.packets.Keys == y.store.packets.Keys
            && (id in y.store.packets ==> z.store.packets[id].evidence == y.store.packets[id].evidence)
            && (id in y.store.packets && id != phase.packet.id ==> z.store.packets[id] == y.store.packets[id])
            && (id == phase.packet.id ==>
                  && id in z.store.packets && z.store.packets[id].evidence == phase.packet.evidence
                  && (z.store.packets[id].decision.status.DecisionApproved? <==>
                        && !phase.packet.decision.status.DecisionBlocked?
                        && Complete(phase.packet.evidence, phase.executions)
                        && !Lanes.HasMandatoryReviewer(phase.packet.reviewers)))
  {
    hide Complete, StoreInv, Lanes.HasMandatoryReviewer, Lanes.Assign, Ensured;
    var phase := y.requests[r].phase;
    assert RequestInv(y.store, y.requests[r]);
    ReconciledIsSound(phase.packet, phase.executions, assigner, reconciledAt);
  }

  /** No packet is ever approved with evidence outstanding exactly when no such step has happened. */
  lemma {:induction false} NeverMisleadingExactlyWhen(run: seq<System>, events: seq<Event>, assigner: Assigner, n: nat,
                                                      id: string)
    requires IsRun(run, events, assigner) && n < |run|
    ensures (forall i | 0 <= i <= n :: !Misleading(run[i].store, id)) <==>
            (forall k | 0 <= k < n :: !Unsettles(run[k], events[k], id) && !ApprovesLate(run[k], events[k], id))
  {
    hide Exec, SystemInv, Misleading, Unsettles, ApprovesLate;
    if n == 0 {
      NothingMisleads(id);
    } else {
      NeverMisleadingExactlyWhen(run, events, assigner, n - 1, id);
      RunInv(run, events, assigner, n - 1);
      if !Misleading(run[n - 1].store, id) {
        MisleadsExactlyWhen(run[n - 1], events[n - 1], run[n], assigner, id);
      }
    }
  }

  lemma NothingMisleads(id: string)
    ensures !Misleading(EMPTY, id)
  {
  }

  // ---- The steps that overlook completeness -----------------------------------------------------------

  /** All required evidence is complete, nothing else is in the way, and the packet is not approved. */
  ghost predicate Overlooked(s: State, id: string) {
    && Overlap.CompleteIn(s, id)
    && !s.packets[id].decision.status.DecisionBlocked?
    && !Lanes.HasMandatoryReviewer(s.packets[id].reviewers)
    && !Approved(s, id)
  }

  /** A stored decision is accurate exactly when it neither misleads nor overlooks. */
  lemma AccurateExactlyWhenNeither(s: State, assigner: Assigner, id: string)
    requires StoreInv(s, assigner) && id in s.packets
    ensures SerialRuns.Accurate(s, id) <==> !Misleading(s, id) && !Overlooked(s, id)
  {
    hide Complete, Audited, WaiversAttributed, Lanes.HasMandatoryReviewer, Lanes.Assign;
  }

  /** A record that settles the last required evidence of a packet waiting for nothing else. */
  ghost predicate Completes(y: System, event: Event, id: string) {
    && event.Record? && event.r in y.requests
    && var execution := y.requests[event.r].execution;
       && execution.changePacketId == id && id in y.store.packets
       && var packet := y.store.packets[id];
          && packet.decision.status.DecisionPending?
          && !Lanes.HasMandatoryReviewer(packet.reviewers)
          && Requires(packet.evidence, execution.name) && Settled(execution.status)
          && forall name | Requires(packet.evidence, name) && name != execution.name ::
             Settled(y.store.StatusOf(id, name))
  }

  /** A save from an incomplete reload while the evidence on file is complete. */
  ghost predicate WithholdsLate(y: System, event: Event, id: string) {
    && event.Save? && event.r in y.requests && y.requests[event.r].phase.HasReloaded?
    && var phase := y.requests[event.r].phase;
       && phase.packet.id == id
       && !phase.packet.decision.status.DecisionBlocked?
       && !Complete(phase.packet.evidence, phase.executions)
       && !Lanes.HasMandatoryReviewer(phase.packet.reviewers)
       && Complete(phase.packet.evidence, y.store.EvidenceOf(id))
  }

  /** A step leaves a packet complete but not approved exactly when it is one of these two. */
  lemma OverlooksExactlyWhen(y: System, event: Event, z: System, assigner: Assigner, id: string)
    requires SystemInv(y, assigner)
    requires Exec(y, event, assigner) == Some(z)
    requires !Overlooked(y.store, id)
    ensures Overlooked(z.store, id) <==> Completes(y, event, id) || WithholdsLate(y, event, id)
  {
    hide Exec, SystemInv, Overlooked, Completes, WithholdsLate;
    match event
    case Ingest(packet, now) => IngestOverlooksNobody(y, packet, now, z, assigner, id);
    case Record(r, now) => RecordOverlooks(y, r, now, z, assigner, id);
    case Save(r, reconciledAt, savedAt) => SaveOverlooks(y, r, reconciledAt, savedAt, z, assigner, id);
    case _ => OthersOverlookNobody(y, event, z, assigner, id);
  }

  lemma OthersOverlookNobody(y: System, event: Event, z: System, assigner: Assigner, id: string)
    requires SystemInv(y, assigner)
    requires Exec(y, event, assigner) == Some(z)
    requires !event.Ingest? && !event.Record? && !event.Save?
    ensures !Completes(y, event, id) && !WithholdsLate(y, event, id)
    ensures Overlooked(z.store, id) <==> Overlooked(y.store, id)
  {
    hide Exec, StoreInv, RequestInv, Overlooked;
    StoreStep(y, event, z, assigner);
  }

  lemma IngestOverlooksNobody(y: System, packet: ChangePacket, now: int, z: System, assigner: Assigner, id: string)
    requires SystemInv(y, assigner)
    requires Exec(y, Ingest(packet, now), assigner) == Some(z)
    requires !Overlooked(y.store, id)
    ensures !Overlooked(z.store, id)
    ensures !Completes(y, Ingest(packet, now), id) && !WithholdsLate(y, Ingest(packet, now), id)
  {
    hide StoreInv, RequestInv, Produced, Saved, Complete, Lanes.HasMandatoryReviewer;
    IngestedElsewhere(y.store, packet, now, id);
    if id == packet.id {
      SerialRuns.NoEvidenceBeforeIngest(y.store, id, assigner);
      SerialRuns.IngestedIsAccurate(y.store, packet, now, assigner);
    }
  }

  lemma IngestedElsewhere(s: State, packet: ChangePacket, now: int, id: string)
    ensures packet.id in Saved(s, packet, now).packets
    ensures id != packet.id ==> (id in s.packets <==> id in Saved(s, packet, now).packets)
    ensures id != packet.id && id in s.packets ==>
              Saved(s, packet, now).packets[id] == s.packets[id]
                  && Saved(s, packet, now).EvidenceOf(id) == s.EvidenceOf(id)
  {
    hide Ensured;
  }

  lemma RecordOverlooks(y: System, r: nat, now: int, z: System, assigner: Assigner, id: string)
    requires SystemInv(y, assigner)
    requires Exec(y, Record(r, now), assigner) == Some(z)
    requires !Overlooked(y.store, id)
    ensures !WithholdsLate(y, Record(r, now), id)
    ensures Overlooked(z.store, id) <==> Completes(y, Record(r, now), id)
  {
    hide Exec, SystemInv, Complete, Settled, Requires, Lanes.HasMandatoryReviewer;
    RecordKeeps(y, r, now, z, assigner, id);
    if id in y.store.packets {
      NeverEscalated(y, assigner, id);
      var execution, requirements := y.requests[r].execution, y.store.packets[id].evidence;
      CompleteByStatuses(y.store, id, requirements);
      CompleteByStatuses(z.store, id, requirements);
      forall name
        ensures z.store.StatusOf(id, name) ==
                if execution.changePacketId == id && execution.name == name then execution.status
                else y.store.StatusOf(id, name)
      {
        Overlap.RecordSets(y, r, now, z, assigner, id, name);
      }
    }
  }

  lemma NeverEscalated(y: System, assigner: Assigner, id: string)
    requires SystemInv(y, assigner) && id in y.store.packets
    ensures !y.store.packets[id].decision.status.DecisionEscalated?
  {
    hide RequestInv, Audited, WaiversAttributed, Lanes.HasMandatoryReviewer, Lanes.Assign;
  }

  lemma SaveOverlooks(y: System, r: nat, reconciledAt: int, savedAt: int, z: System, assigner: Assigner, id: string)
    requires SystemInv(y, assigner)
    requires Exec(y, Save(r, reconciledAt, savedAt), assigner) == Some(z)
    requires !Overlooked(y.store, id)
    ensures !Completes(y, Save(r, reconciledAt, savedAt), id)
    ensures Overlooked(z.store, id) <==> WithholdsLate(y, Save(r, reconciledAt, savedAt), id)
  {
    hide Exec, SystemInv, Complete, Settled, Requires, Lanes.HasMandatoryReviewer;
    SaveWrites(y, r, reconciledAt, savedAt, z, assigner, id);
    SaveCarries(y, r, reconciledAt, savedAt, z, assigner, id);
    if id in z.store.packets {
      var requirements := z.store.packets[id].evidence;
      CompleteByStatuses(y.store, id, requirements);
      CompleteByStatuses(z.store, id, requirements);
      forall name
        ensures z.store.StatusOf(id, name) == y.store.StatusOf(id, name)
      {
        Overlap.OnlyRecordsSet(y, Save(r, reconciledAt, savedAt), z, assigner, id, name);
      }
    }
  }

  /** A save leaves the reviewers and the block of the snapshot it is made from. */
  lemma SaveCarries(y: System, r: nat, reconciledAt: int, savedAt: int, z: System, assigner: Assigner, id: string)
    requires SystemInv(y, assigner)
    requires Exec(y, Save(r, reconciledAt, savedAt), assigner) == Some(z)
    ensures r in y.requests && y.requests[r].phase.HasReloaded?
    ensures var packet := y.requests[r].phase.packet;
            packet.id == id ==>
              && id in z.store.packets
              && z.store.packets[id].reviewers == packet.reviewers
              && (z.store.packets[id].decision.status.DecisionBlocked? <==> packet.decision.status.DecisionBlocked?)
  {
    hide StoreInv, RequestInv, Complete, Ensured, Lanes.HasMandatoryReviewer, Lanes.Assign;
    var phase := y.requests[r].phase;
    ReconciledIsSound(phase.packet, phase.executions, assigner, reconciledAt);
  }

  /** No instant up to n shows a packet complete but not approved exactly when no such step has happened. */
  lemma {:induction false} NeverOverlookedExactlyWhen(run: seq<System>, events: seq<Event>, assigner: Assigner, n: nat,
                                                      id: string)
    requires IsRun(run, events, assigner) && n < |run|
    ensures (forall i | 0 <= i <= n :: !Overlooked(run[i].store, id)) <==>
            (forall k | 0 <= k < n :: !Completes(run[k], events[k], id) && !WithholdsLate(run[k], events[k], id))
  {
    hide Exec, SystemInv, Overlooked, Completes, WithholdsLate;
    if n == 0 {
      NothingOverlooked(id);
    } else {
      NeverOverlookedExactlyWhen(run, events, assigner, n - 1, id);
      RunInv(run, events, assigner, n - 1);
      if !Overlooked(run[n - 1].store, id) {
        OverlooksExactlyWhen(run[n - 1], events[n - 1], run[n], assigner, id);
      }
    }
  }

  lemma NothingOverlooked(id: string)
    ensures !Overlooked(EMPTY, id)
  {
  }

  // ---- The lane ---------------------------------------------------------------------------------------

  /** What lets a packet sit below RED once it is approved; none of it changes after ingestion. */
  predicate Relaxed(config: Lanes.Config, packet: ChangePacket) {
    && !packet.conflict.requiresHumanResolution
    && !packet.conflict.route.ConflictRouteRefreshAndVerify?
    && Lanes.LaneOrder(packet.decision.minimumLane) < 3
    && !Lanes.HasMandatoryReviewer(packet.reviewers)
    && (|| packet.riskSummary.score <= config.yellowMax
        || (packet.riskSummary.score <= config.greenMax && packet.reviewers == [] && !packet.deployment.requiresCanary))
  }

  lemma BelowRedExactlyWhen(packet: ChangePacket, config: Lanes.Config)
    requires Sound(packet, Some(config))
    ensures Lanes.LaneOrder(packet.mergeLane) < 3 <==>
            packet.decision.status.DecisionApproved? && Relaxed(config, packet)
  {
  }

  lemma RelaxedIsFixed(config: Lanes.Config, a: ChangePacket, b: ChangePacket)
    requires SameChange(a, b)
    ensures Relaxed(config, a) <==> Relaxed(config, b)
  {
  }

  /** In every serial run a packet with required evidence outstanding is at RED or above. */
  lemma OutstandingIsAtLeastRed(states: seq<State>, ops: seq<SerialRuns.Op>, config: Lanes.Config, i: nat, id: string)
    requires SerialRuns.IsRun(states, ops, Some(config)) && i < |states|
    requires Outstanding(states[i], id)
    ensures Lanes.LaneOrder(states[i].packets[id].mergeLane) >= 3
  {
    hide Complete, Relaxed, Audited, WaiversAttributed;
    SerialRuns.RunInv(states, ops, Some(config), i);
    assert SerialRuns.Accurate(states[i], id);
    BelowRedExactlyWhen(states[i].packets[id], config);
  }

  ghost predicate BelowRed(s: State, id: string) {
    Outstanding(s, id) && Lanes.LaneOrder(s.packets[id].mergeLane) < 3
  }

  /** In every interleaving a packet with evidence outstanding sits below RED exactly when it is approved
    * and nothing fixed at ingestion holds it higher. */
  lemma OutstandingBelowRedExactlyWhen(run: seq<System>, events: seq<Event>, config: Lanes.Config, i: nat, id: string)
    requires IsRun(run, events, Some(config)) && i < |run|
    ensures BelowRed(run[i].store, id) <==>
            Misleading(run[i].store, id) && Relaxed(config, run[i].store.packets[id])
  {
    RunInv(run, events, Some(config), i);
    StoredIsBelowRedExactlyWhen(run[i].store, config, id);
  }

  lemma StoredIsBelowRedExactlyWhen(s: State, config: Lanes.Config, id: string)
    requires StoreInv(s, Some(config))
    ensures BelowRed(s, id) <==> Misleading(s, id) && Relaxed(config, s.packets[id])
  {
    hide Complete, Relaxed, Audited, WaiversAttributed;
    if id in s.packets {
      BelowRedExactlyWhen(s.packets[id], config);
    }
  }

  /** A step lets a packet with evidence outstanding fall below RED exactly when it is one of the two steps
    * above and nothing fixed at ingestion holds the packet higher. */
  lemma FallsBelowRedExactlyWhen(y: System, event: Event, z: System, config: Lanes.Config, id: string)
    requires SystemInv(y, Some(config))
    requires Exec(y, event, Some(config)) == Some(z)
    requires id in y.store.packets && !BelowRed(y.store, id)
    ensures id in z.store.packets
    ensures BelowRed(z.store, id) <==>
            (Unsettles(y, event, id) || ApprovesLate(y, event, id)) && Relaxed(config, y.store.packets[id])
  {
    hide Exec, RequestInv, StoreInv, Misleading, BelowRed, Relaxed, Unsettles, ApprovesLate;
    StoreStep(y, event, z, Some(config));
    StoredIsBelowRedExactlyWhen(y.store, config, id);
    StoredIsBelowRedExactlyWhen(z.store, config, id);
    RelaxedIsFixed(config, y.store.packets[id], z.store.packets[id]);
    if !Misleading(y.store, id) {
      MisleadsExactlyWhen(y, event, z, Some(config), id);
    }
  }
}
