/** Merge lane assignment: thresholds on the risk score below a ladder of forced lanes. */
module Lanes {
  import opened Domain

  datatype Config = Config(greenMax: int, yellowMax: int, redMax: int) {
    /** What configuration loading insists on. */
    predicate Increasing() {
      greenMax < yellowMax < redMax
    }
  }

  function LaneOrder(lane: MergeLane): nat {
    match lane
    case MergeLaneGreen => 1
    case MergeLaneYellow => 2
    case MergeLaneRed => 3
    case MergeLaneBlack => 4
    case _ => 0
  }

  function MaxLane(a: MergeLane, b: MergeLane): MergeLane {
    if b.MergeLaneUnset? then a
    else if LaneOrder(b) > LaneOrder(a) then b
    else a
  }

  predicate HasMandatoryReviewer(reviewers: seq<ReviewerRequirement>) {
    exists r | r in reviewers :: r.mandatory
  }

  function ForcedLane(packet: ChangePacket): Option<MergeLane> {
    var minimum := packet.decision.minimumLane;
    if packet.decision.status.DecisionBlocked? || packet.conflict.requiresHumanResolution then
      Some(MergeLaneBlack)
    else if packet.conflict.route.ConflictRouteRefreshAndVerify? then
      Some(MaxLane(MergeLaneRed, minimum))
    else if minimum.MergeLaneBlack? then
      Some(MergeLaneBlack)
    else if packet.decision.status.DecisionPending? || packet.decision.status.DecisionEscalated? then
      Some(MaxLane(MergeLaneRed, minimum))
    else
      None
  }

  function Assign(config: Config, packet: ChangePacket): MergeLane {
    var minimum := packet.decision.minimumLane;
    var score := packet.riskSummary.score;
    var forced := ForcedLane(packet);
    if forced.Some? then
      forced.value
    else if score <= config.greenMax && |packet.reviewers| == 0 && !packet.deployment.requiresCanary then
      MaxLane(MergeLaneGreen, minimum)
    else if score <= config.yellowMax && !HasMandatoryReviewer(packet.reviewers) then
      MaxLane(MergeLaneYellow, minimum)
    else if score <= config.redMax || HasMandatoryReviewer(packet.reviewers) || packet.deployment.requiresCanary then
      MaxLane(MergeLaneRed, minimum)
    else
      MergeLaneBlack
  }

  /** The lane never undercuts the policy minimum, and is one of the four real lanes. */
  lemma AssignRespectsMinimum(config: Config, packet: ChangePacket)
    ensures LaneOrder(Assign(config, packet)) >= LaneOrder(packet.decision.minimumLane)
    ensures LaneOrder(Assign(config, packet)) >= 1
  {
  }

  /** Anything unsettled keeps a packet at RED or above. */
  lemma UnsettledIsAtLeastRed(config: Config, packet: ChangePacket)
    requires !packet.decision.status.DecisionApproved?
          || !packet.conflict.route.ConflictRouteNone?
          || packet.conflict.requiresHumanResolution
    requires packet.conflict.route.ConflictRouteHumanResolution? ==> packet.conflict.requiresHumanResolution
    ensures LaneOrder(Assign(config, packet)) >= 3
    ensures packet.decision.status.DecisionBlocked? || packet.conflict.requiresHumanResolution ==>
              Assign(config, packet) == MergeLaneBlack
  {
  }

  /** GREEN under exactly one conjunction. */
  lemma GreenExactlyWhen(config: Config, packet: ChangePacket)
    ensures Assign(config, packet) == MergeLaneGreen <==>
            && packet.decision.status.DecisionApproved?
            && !packet.conflict.requiresHumanResolution
            && !packet.conflict.route.ConflictRouteRefreshAndVerify?
            && packet.riskSummary.score <= config.greenMax
            && packet.reviewers == []
            && !packet.deployment.requiresCanary
            && LaneOrder(packet.decision.minimumLane) <= 1
  {
  }

  /** Raising only the risk score never lowers the lane, whatever the thresholds. */
  lemma MonotoneInScore(config: Config, packet: ChangePacket, riskier: ChangePacket)
    requires packet.riskSummary.score <= riskier.riskSummary.score
    requires riskier == packet.(riskSummary := riskier.riskSummary)
    ensures LaneOrder(Assign(config, packet)) <= LaneOrder(Assign(config, riskier))
  {
  }

  /** Asking for a canary can lower the lane, from BLACK to RED, exactly above the last threshold. */
  lemma CanaryLowersLaneExactlyWhen(config: Config, packet: ChangePacket)
    requires config.Increasing()
    requires !packet.deployment.requiresCanary
    ensures var canary := packet.(deployment := packet.deployment.(requiresCanary := true));
            LaneOrder(Assign(config, canary)) < LaneOrder(Assign(config, packet)) <==>
            && packet.riskSummary.score > config.redMax
            && ForcedLane(packet).None?
            && !HasMandatoryReviewer(packet.reviewers)
  {
  }

  /** Approval can raise the lane, from RED to BLACK, exactly above the last threshold. */
  lemma ApprovalRaisesLaneExactlyWhen(config: Config, pending: ChangePacket)
    requires config.Increasing()
    requires pending.decision.status.DecisionPending?
    ensures var approved := pending.(decision := pending.decision.(status := DecisionApproved));
            LaneOrder(Assign(config, approved)) > LaneOrder(Assign(config, pending)) <==>
            && pending.riskSummary.score > config.redMax
            && ForcedLane(approved).None?
            && !HasMandatoryReviewer(pending.reviewers)
            && !pending.deployment.requiresCanary
  {
  }

  /** Two packets that agree on these fields share a lane: the stored lane and timestamps are not read. */
  lemma AssignReadsOnly(config: Config, a: ChangePacket, b: ChangePacket)
    requires a.decision.status == b.decision.status && a.decision.minimumLane == b.decision.minimumLane
    requires a.conflict == b.conflict && a.riskSummary == b.riskSummary
    requires a.reviewers == b.reviewers && a.deployment == b.deployment
    ensures Assign(config, a) == Assign(config, b)
  {
  }
}
