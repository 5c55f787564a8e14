/** How a stored packet's lane moves: only with its approval, up as well as down, and when it reaches BLACK. */
module LaneMoves {
  import opened Domain
  import opened EvidenceStore
  import opened ControlPlane
  import opened Invariants
  import opened Interleaving
  import opened OutstandingEvidence
  import Lanes

  /** A score past every threshold, with no canary to take the edge off. */
  predicate Overshoots(config: Lanes.Config, packet: ChangePacket) {
    && !packet.deployment.requiresCanary
    && packet.riskSummary.score > config.redMax
    && packet.riskSummary.score > config.yellowMax
    && (packet.riskSummary.score > config.greenMax || packet.reviewers != [])
  }

  /** Nothing forces the lane of the packet once it is approved, and its policy asks for less than BLACK. */
  predicate Unforced(packet: ChangePacket) {
    && !packet.conflict.requiresHumanResolution
    && !packet.conflict.route.ConflictRouteRefreshAndVerify?
    && !packet.decision.minimumLane.MergeLaneBlack?
  }

  lemma OvershootsWhenIncreasing(config: Lanes.Config, packet: ChangePacket)
    requires config.Increasing()
    ensures Overshoots(config, packet) <==>
            !packet.deployment.requiresCanary && packet.riskSummary.score > config.redMax
  {
  }

  /** A packet sits at BLACK exactly when it is blocked, needs a human, has BLACK as its minimum, or is approved
    * with a score past every threshold. */
  lemma BlackExactlyWhen(packet: ChangePacket, config: Lanes.Config)
    requires Sound(packet, Some(config))
    ensures packet.mergeLane == MergeLaneBlack <==>
              || packet.decision.status.DecisionBlocked?
              || packet.conflict.requiresHumanResolution
              || packet.decision.minimumLane.MergeLaneBlack?
              || (packet.decision.status.DecisionApproved? && Unforced(packet) && Overshoots(config, packet))
  {
  }

  /** So it does in every state of every interleaving. */
  lemma StoredIsBlackExactlyWhen(run: seq<System>, events: seq<Event>, config: Lanes.Config, i: nat, id: string)
    requires IsRun(run, events, Some(config)) && i < |run| && id in run[i].store.packets
    ensures var packet := run[i].store.packets[id];
            packet.mergeLane == MergeLaneBlack <==>
              || packet.decision.status.DecisionBlocked?
              || packet.conflict.requiresHumanResolution
              || packet.decision.minimumLane.MergeLaneBlack?
              || (packet.decision.status.DecisionApproved? && Unforced(packet) && Overshoots(config, packet))
  {
    hide Exec, RequestInv, Audited, WaiversAttributed, Sound, Overshoots, Unforced;
    RunInv(run, events, Some(config), i);
    BlackExactlyWhen(run[i].store.packets[id], config);
  }

  /** The lane of an approved packet lies below RED, above it, or is what it was while pending. */
  lemma ApprovedAgainstPending(config: Lanes.Config, pending: ChangePacket, approved: ChangePacket)
    requires SameChange(pending, approved) && Sound(pending, Some(config)) && Sound(approved, Some(config))
    requires pending.decision.status.DecisionPending? && approved.decision.status.DecisionApproved?
    ensures Lanes.LaneOrder(approved.mergeLane) > Lanes.LaneOrder(pending.mergeLane) <==>
            Unforced(pending) && Overshoots(config, pending)
    ensures Lanes.LaneOrder(approved.mergeLane) < Lanes.LaneOrder(pending.mergeLane) <==> Relaxed(config, pending)
  {
  }

  lemma SameStatusSameLane(config: Lanes.Config, a: ChangePacket, b: ChangePacket)
    requires SameChange(a, b) && Sound(a, Some(config)) && Sound(b, Some(config))
    requires a.decision.status == b.decision.status
    ensures a.mergeLane == b.mergeLane
  {
    Lanes.AssignReadsOnly(config, a, b);
  }

  lemma MovesAreFixed(config: Lanes.Config, a: ChangePacket, b: ChangePacket)
    requires SameChange(a, b)
    ensures Unforced(a) <==> Unforced(b)
    ensures Overshoots(config, a) <==> Overshoots(config, b)
    ensures Relaxed(config, a) <==> Relaxed(config, b)
  {
  }

  /** In any interleaving a step raises a stored packet's lane exactly when it approves a packet past every
    * threshold, or withdraws the approval of one that approval had let below RED; and it lowers the lane
    * exactly when it is the other way round. */
  lemma LaneMovesExactlyWhen(y: System, event: Event, z: System, config: Lanes.Config, id: string)
    requires SystemInv(y, Some(config))
    requires Exec(y, event, Some(config)) == Some(z)
    requires id in y.store.packets
    ensures id in z.store.packets
    ensures var before, after := y.store.packets[id], z.store.packets[id];
            var up, down := Unforced(before) && Overshoots(config, before), Relaxed(config, before);
            && (Lanes.LaneOrder(after.mergeLane) > Lanes.LaneOrder(before.mergeLane) <==>
                  || (!Approved(y.store, id) && Approved(z.store, id) && up)
                  || (Approved(y.store, id) && !Approved(z.store, id) && down))
            && (Lanes.LaneOrder(after.mergeLane) < Lanes.LaneOrder(before.mergeLane) <==>
                  || (!Approved(y.store, id) && Approved(z.store, id) && down)
                  || (Approved(y.store, id) && !Approved(z.store, id) && up))
  {
    hide Exec, RequestInv, StoreInv, Unforced, Overshoots, Relaxed, Sound, Lanes.LaneOrder;
    StoreStep(y, event, z, Some(config));
    StoredIsSound(y.store, Some(config), id);
    StoredIsSound(z.store, Some(config), id);
    var before, after := y.store.packets[id], z.store.packets[id];
    if before.decision.status == after.decision.status {
      SameStatusSameLane(config, before, after);
    } else if after.decision.status.DecisionApproved? {
      ApprovedAgainstPending(config, before, after);
    } else {
      SameBack(before, after);
      ApprovedAgainstPending(config, after, before);
      MovesAreFixed(config, before, after);
    }
  }

  lemma StoredIsSound(s: State, assigner: Assigner, id: string)
    requires StoreInv(s, assigner) && id in s.packets
    ensures Sound(s.packets[id], assigner)
    ensures !s.packets[id].decision.status.DecisionEscalated?
  {
    hide Audited, WaiversAttributed, Lanes.Assign;
  }

  lemma SameBack(a: ChangePacket, b: ChangePacket)
    requires SameChange(a, b)
    ensures SameChange(b, a)
  {
  }

  // ---- Packets that show it ---------------------------------------------------------------------------

  /** A packet just past the last threshold that waits for the given evidence, with or without a canary. */
  function RiskyPacket(config: Lanes.Config, evidence: seq<EvidenceRequirement>, canary: bool): ChangePacket {
    var status := if evidence == [] then DecisionApproved else DecisionPending;
    var packet := ChangePacket("cp", "org/repo", 7, "head", "base", "", [], [], CriticalityNormal,
                               ConflictAssessment(ConflictRouteNone, 0, false, []),
                               RiskSummary(config.redMax + 1, SeverityCritical, []), [], evidence, [],
                               DeploymentRequirement("direct", [], canary, false),
                               PolicyDecision(status, [], [], [], MergeLaneUnset, 1), MergeLaneRed, 1);
    packet.(mergeLane := Lanes.Assign(config, packet))
  }

  /** Two packets ingestion may produce that differ in the canary alone: the one without it is at BLACK, the
    * one with it at RED. Neither is blocked. */
  lemma CanaryPair(config: Lanes.Config)
    requires config.Increasing()
    ensures var plain, canary := RiskyPacket(config, [], false), RiskyPacket(config, [], true);
            && Produced(plain, Some(config)) && Produced(canary, Some(config))
            && canary == plain.(deployment := canary.deployment, mergeLane := canary.mergeLane)
            && plain.mergeLane == MergeLaneBlack && canary.mergeLane == MergeLaneRed
            && plain.decision.status == canary.decision.status == DecisionApproved
  {
  }
}
