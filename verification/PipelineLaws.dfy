/** From pull request to lane: what ingestion promises about a packet, at first and for the rest of its life. */
module PipelineLaws {
  import opened Domain
  import opened EvidenceStore
  import opened Invariants
  import opened Pipeline
  import Bags
  import Text
  import Conflict
  import RiskScore
  import Policy
  import PolicyFold
  import PolicyLaws
  import CheckRuns
  import Lanes
  import ControlPlane
  import Approvability
  import OutstandingEvidence
  import LaneMoves
  import SerialRuns
  import Interleaving
  import Overlap

  // ---- Policy meets the control plane -----------------------------------------------------------------

  lemma FoldIsProduced(rules: seq<Policy.Rule>, fold: string -> string)
    requires Policy.BindingsCompatible(rules)
    ensures var e := PolicyFold.Fold(rules, fold);
            && (forall r | r in e.evidence :: r.required)
            && (forall r | r in e.reviewers :: r.mandatory)
            && !e.status.DecisionEscalated?
            && (e.status.DecisionApproved? <==> !e.status.DecisionBlocked? && e.evidence == [] && e.reviewers == [])
  {
    hide PolicyFold.Fold, Policy.BindingsCompatible;
    PolicyLaws.EvidenceIsUnambiguous(rules, fold);
    PolicyLaws.ReviewersAreThoseAsked(rules, fold, "");
    PolicyLaws.DecisionHasClosedForm(rules, fold);
    PolicyLaws.AccumulatesExactlyWhenDemanded(rules, fold);
  }

  /** An ingested packet is what the control plane expects of a new one. */
  lemma IngestedIsProduced(setup: Setup, seen: ChangePacket, packet: ChangePacket)
    requires Ingested(setup, seen, packet)
    ensures Produced(packet, Some(setup.lanes))
  {
    hide HasMutations, HasConflict, HasRisk, PolicyFold.Fold, PolicyFold.Matched, Policy.Acceptable, Lanes.Assign;
    PolicyLaws.MatchedIsAcceptable(setup.rules, Matching(setup, seen), setup.lower);
    FoldIsProduced(MatchedRules(setup, seen), setup.fold);
  }

  /** So saving it under a fresh identifier is a legal step of every run. */
  lemma IngestedIsStep(s: State, setup: Setup, seen: ChangePacket, packet: ChangePacket, now: int)
    requires Ingested(setup, seen, packet) && packet.id !in s.packets
    ensures SerialRuns.Step(s, SerialRuns.Ingest(packet, now), Saved(s, packet, now), Some(setup.lanes))
    ensures forall requests ::
              Interleaving.Exec(Interleaving.System(s, requests), Interleaving.Ingest(packet, now),
                                Some(setup.lanes)) ==
              Some(Interleaving.System(Saved(s, packet, now), requests))
  {
    hide Ingested, Produced, Saved;
    IngestedIsProduced(setup, seen, packet);
  }

  /** A check run matches at most one of an ingested packet's requirements. */
  lemma CheckMatchesOneRequirement(setup: Setup, seen: ChangePacket, packet: ChangePacket, e: EvidenceRequirement,
                                   name: string, appId: int)
    requires Ingested(setup, seen, packet)
    requires e in packet.evidence && e.githubCheck == Some(CheckBinding(name, appId))
    ensures CheckRuns.MatchingRequirement(packet.evidence, name, appId) == Some(e)
  {
    hide HasMutations, HasConflict, HasRisk, PolicyFold.Fold, PolicyFold.Matched, Policy.Acceptable,
         Policy.BindingsCompatible;
    PolicyLaws.MatchedIsAcceptable(setup.rules, Matching(setup, seen), setup.lower);
    PolicyLaws.FirstMatchIsTheOnlyMatch(MatchedRules(setup, seen), setup.fold, name, appId, e);
  }

  // ---- Risk -------------------------------------------------------------------------------------------

  /** The packet's score is its risks' total, with the runtime and volume terms, clamped to 0..100. */
  lemma ScoreIsTheRisksTotal(setup: Setup, seen: ChangePacket, packet: ChangePacket)
    requires Ingested(setup, seen, packet)
    ensures packet.riskSummary.score ==
            RiskScore.ClampScore(RiskScore.ApplyChangeVolume(
              RiskScore.ApplyRuntimeCriticality(Bags.Sum(packet.risks, RiskScore.ScoreOf), packet.runtimeCriticality),
              |packet.files|))
    ensures 0 <= packet.riskSummary.score <= 100
  {
    hide HasMutations, HasConflict, HasVerdict, RiskScore.AreRisks, Bags.Sum, Lanes.Assign, Policy.Acceptable;
    RiskScore.ScoresAreConserved(packet.risks, setup.weights, packet.mutations, packet.conflict);
  }

  /** A pull request is built without a later base commit, so ingestion finds no drift: a finding means
    * overlapping entries, policy-sensitive files or conflict markers. */
  lemma PullRequestFindings(setup: Setup, built: ChangePacket, seen: ChangePacket, packet: ChangePacket,
                            pr: PullRequest, id: string, now: int)
    requires built == Built(id, pr, now) && SameOrigin(built, packet) && Ingested(setup, seen, packet)
    ensures packet.conflict.findings == [] <==>
              && Conflict.Overlaps(built.files) == {}
              && Conflict.SensitivePaths(built.files, setup.sensitive) == {}
              && Conflict.MarkerPaths(built.files) == {}
    ensures packet.conflict.requiresHumanResolution <==> Conflict.MarkerPaths(built.files) != {}
  {
    hide HasMutations, HasRisk, HasVerdict, Conflict.IsAssessment, Conflict.Overlaps, Conflict.SensitivePaths,
         Conflict.MarkerPaths, Lanes.Assign, Policy.Acceptable, ChangedFiles;
    Conflict.NoneExactlyWhenNothingFound(packet.conflict, packet.files, Drifted(packet), setup.sensitive);
    Text.TrimSpaceEmpties("");
  }

  lemma RouteOfIngested(setup: Setup, packet: ChangePacket)
    requires HasConflict(setup, packet)
    ensures packet.conflict.route.ConflictRouteNone? <==> packet.conflict.findings == []
    ensures packet.conflict.route.ConflictRouteHumanResolution? <==> packet.conflict.requiresHumanResolution
  {
    hide Conflict.IsAssessment, Conflict.Overlaps, Conflict.SensitivePaths, Conflict.MarkerPaths, Drifted;
    Conflict.NoneExactlyWhenNothingFound(packet.conflict, packet.files, Drifted(packet), setup.sensitive);
  }

  // ---- The lane ---------------------------------------------------------------------------------------

  /** The highest minimum lane among the rules, 0 when none asks for one. */
  ghost predicate IsHighest(order: nat, rules: seq<Policy.Rule>) {
    && (forall r | r in rules :: Lanes.LaneOrder(r.minimumLane) <= order)
    && (order == 0 || exists r | r in rules :: Lanes.LaneOrder(r.minimumLane) == order)
  }

  ghost predicate AnyBlocks(rules: seq<Policy.Rule>) {
    exists r | r in rules :: r.block
  }

  ghost predicate AnyDemands(rules: seq<Policy.Rule>) {
    exists r | r in rules :: PolicyLaws.Demands(r)
  }

  ghost predicate AnyCanary(rules: seq<Policy.Rule>) {
    exists r | r in rules :: r.deployment.requiresCanary
  }

  /** The lane order before the rules' minimum is taken into account. */
  ghost function BaseOrder(config: Lanes.Config, rules: seq<Policy.Rule>, conflict: ConflictAssessment, score: int)
    : nat
  {
    if conflict.requiresHumanResolution || PolicyLaws.ClosedStatus(rules).DecisionBlocked? then 4
    else if conflict.findings != [] || AnyBlocks(rules) || AnyDemands(rules) then 3
    else if score <= config.greenMax && !AnyCanary(rules) then 1
    else if score <= config.yellowMax then 2
    else if score <= config.redMax || AnyCanary(rules) then 3
    else 4
  }

  function Higher(a: nat, b: nat): nat {
    if a < b then b else a
  }

  lemma HighestIsUnique(a: nat, b: nat, rules: seq<Policy.Rule>)
    requires IsHighest(a, rules) && IsHighest(b, rules)
    ensures a == b
  {
  }

  /** What the verdict on an ingested packet says about its matched rules. */
  lemma VerdictFacts(setup: Setup, seen: ChangePacket)
    requires Policy.Acceptable(setup.rules, setup.lower)
    ensures var rules, e := MatchedRules(setup, seen), Verdict(setup, seen);
            && e.status == PolicyLaws.ClosedStatus(rules)
            && (e.status.DecisionApproved? <==> !AnyBlocks(rules) && !AnyDemands(rules))
            && !e.status.DecisionEscalated?
            && (!AnyDemands(rules) ==> e.reviewers == [])
            && (e.deployment.requiresCanary <==> AnyCanary(rules))
            && IsHighest(Lanes.LaneOrder(e.minimumLane), rules)
            && !e.minimumLane.MergeLaneOther?
  {
    hide PolicyFold.Fold, PolicyFold.Matched, Policy.Acceptable, PolicyLaws.Demands, Lanes.LaneOrder,
         Policy.BindingsCompatible;
    var rules := MatchedRules(setup, seen);
    PolicyLaws.MatchedIsAcceptable(setup.rules, Matching(setup, seen), setup.lower);
    PolicyLaws.DecisionHasClosedForm(rules, setup.fold);
    PolicyLaws.AccumulatesExactlyWhenDemanded(rules, setup.fold);
    PolicyLaws.FlagsAreDisjunctions(rules, setup.fold);
    PolicyLaws.LaneIsHighest(rules, setup.fold);
    UnsetIsZero();
  }

  lemma UnsetIsZero()
    ensures Lanes.LaneOrder(MergeLaneUnset) == 0
  {
  }

  /** The lane of an ingested packet in closed form: the highest minimum lane of its matched rules or the
    * order its findings, blocks, demands, score and canaries call for, whichever is higher. */
  lemma LaneHasClosedForm(setup: Setup, seen: ChangePacket, packet: ChangePacket, highest: nat)
    requires Ingested(setup, seen, packet)
    requires IsHighest(highest, MatchedRules(setup, seen))
    ensures Lanes.LaneOrder(packet.mergeLane) ==
            Higher(highest, BaseOrder(setup.lanes, MatchedRules(setup, seen), packet.conflict,
                                      packet.riskSummary.score))
  {
    hide HasMutations, HasConflict, HasRisk, Verdict, MatchedRules, Policy.Acceptable, IsHighest, AnyBlocks, AnyDemands,
         AnyCanary, PolicyLaws.ClosedStatus;
    VerdictFacts(setup, seen);
    RouteOfIngested(setup, packet);
    HighestIsUnique(highest, Lanes.LaneOrder(Verdict(setup, seen).minimumLane), MatchedRules(setup, seen));
  }

  /** What follows for every ingested packet. */
  lemma LaneIsJustified(setup: Setup, seen: ChangePacket, packet: ChangePacket)
    requires Ingested(setup, seen, packet)
    ensures var rules, order := MatchedRules(setup, seen), Lanes.LaneOrder(packet.mergeLane);
            && (forall r | r in rules :: Lanes.LaneOrder(r.minimumLane) <= order)
            && (AnyBlocks(rules) || AnyDemands(rules) || packet.conflict.findings != [] ==> order >= 3)
            && (packet.mergeLane == MergeLaneGreen <==>
                  && !AnyBlocks(rules) && !AnyDemands(rules) && !AnyCanary(rules)
                  && (forall r | r in rules :: Lanes.LaneOrder(r.minimumLane) <= 1)
                  && packet.conflict.findings == []
                  && packet.riskSummary.score <= setup.lanes.greenMax)
  {
    hide HasMutations, HasConflict, HasRisk, HasVerdict, MatchedRules, Policy.Acceptable, AnyBlocks, AnyDemands,
         AnyCanary, PolicyLaws.ClosedStatus, Lanes.Assign;
    VerdictFacts(setup, seen);
    var highest := Lanes.LaneOrder(Verdict(setup, seen).minimumLane);
    LaneHasClosedForm(setup, seen, packet, highest);
    BlockedHasCause(setup, seen);
    RouteOfIngested(setup, packet);
    assert packet.mergeLane == MergeLaneGreen <==> Lanes.LaneOrder(packet.mergeLane) == 1;
  }

  lemma BlockedHasCause(setup: Setup, seen: ChangePacket)
    requires Policy.Acceptable(setup.rules, setup.lower)
    ensures PolicyLaws.ClosedStatus(MatchedRules(setup, seen)).DecisionBlocked? ==>
              AnyBlocks(MatchedRules(setup, seen)) || AnyDemands(MatchedRules(setup, seen))
  {
    hide MatchedRules, Policy.Acceptable, AnyBlocks, AnyDemands, PolicyLaws.ClosedStatus;
    VerdictFacts(setup, seen);
  }

  /** With the same rules matched and the same conflict, a higher score never means a lower lane. */
  lemma LaneIsMonotoneInScore(setup: Setup, seen: ChangePacket, packet: ChangePacket, riskierSeen: ChangePacket,
                              riskier: ChangePacket)
    requires Ingested(setup, seen, packet) && Ingested(setup, riskierSeen, riskier)
    requires MatchedRules(setup, seen) == MatchedRules(setup, riskierSeen) && packet.conflict == riskier.conflict
    requires packet.riskSummary.score <= riskier.riskSummary.score
    ensures Lanes.LaneOrder(packet.mergeLane) <= Lanes.LaneOrder(riskier.mergeLane)
  {
    hide HasMutations, HasConflict, HasRisk, HasVerdict, MatchedRules, Policy.Acceptable, AnyBlocks, AnyDemands,
         AnyCanary, PolicyLaws.ClosedStatus, Lanes.Assign, Lanes.LaneOrder, IsHighest;
    VerdictFacts(setup, seen);
    var highest := Lanes.LaneOrder(Verdict(setup, seen).minimumLane);
    LaneHasClosedForm(setup, seen, packet, highest);
    LaneHasClosedForm(setup, riskierSeen, riskier, highest);
  }

  // ---- The rest of its life ---------------------------------------------------------------------------

  /** However requests overlap afterwards, the stored packet stays at or above every minimum lane its rules
    * asked for and, given a conflict finding, at RED or above; conflict markers and a block keep it at BLACK;
    * and a rule that asked for a reviewer keeps it from ever being approved. */
  lemma IngestedForLife(run: seq<Interleaving.System>, events: seq<Interleaving.Event>, setup: Setup,
                        seen: ChangePacket, packet: ChangePacket, k: nat, i: nat, now: int)
    requires Ingested(setup, seen, packet)
    requires Interleaving.IsRun(run, events, Some(setup.lanes))
    requires k < i < |run| && events[k] == Interleaving.Ingest(packet, now)
    ensures packet.id in run[i].store.packets
    ensures var rules, later := MatchedRules(setup, seen), run[i].store.packets[packet.id];
            && SameChange(packet, later)
            && (forall r | r in rules :: Lanes.LaneOrder(r.minimumLane) <= Lanes.LaneOrder(later.mergeLane))
            && (packet.conflict.findings != [] ==> Lanes.LaneOrder(later.mergeLane) >= 3)
            && (packet.conflict.requiresHumanResolution ==> later.mergeLane == MergeLaneBlack)
            && (PolicyLaws.ClosedStatus(rules).DecisionBlocked? ==>
                  later.decision.status.DecisionBlocked? && later.mergeLane == MergeLaneBlack)
            && ((exists r | r in rules :: r.reviewers != []) ==>
                  !later.decision.status.DecisionApproved? && Lanes.LaneOrder(later.mergeLane) >= 3)
  {
    hide Ingested, Lanes.Assign, Interleaving.Exec, Interleaving.IsRun, MatchedRules, SameChange,
         PolicyLaws.ClosedStatus, Lanes.HasMandatoryReviewer, Lanes.LaneOrder;
    IngestStores(run, events, Some(setup.lanes), packet, k, now);
    Overlap.PacketsKeepTheirChange(run, events, setup.lanes, k + 1, i, packet.id);
    LifeFacts(setup, seen, packet, run[i].store.packets[packet.id]);
  }

  lemma IngestStores(run: seq<Interleaving.System>, events: seq<Interleaving.Event>, assigner: ControlPlane.Assigner,
                     packet: ChangePacket, k: nat, now: int)
    requires Interleaving.IsRun(run, events, assigner)
    requires k + 1 < |run| && events[k] == Interleaving.Ingest(packet, now)
    ensures packet.id in run[k + 1].store.packets && run[k + 1].store.packets[packet.id] == packet
  {
    hide Produced;
    assert Interleaving.Exec(run[k], events[k], assigner) == Some(run[k + 1]);
  }

  lemma LifeFacts(setup: Setup, seen: ChangePacket, packet: ChangePacket, later: ChangePacket)
    requires Ingested(setup, seen, packet) && SameChange(packet, later)
    requires later.mergeLane == Lanes.Assign(setup.lanes, later)
    ensures var rules := MatchedRules(setup, seen);
            && (forall r | r in rules :: Lanes.LaneOrder(r.minimumLane) <= Lanes.LaneOrder(later.mergeLane))
            && (packet.conflict.findings != [] ==> Lanes.LaneOrder(later.mergeLane) >= 3)
            && (packet.conflict.requiresHumanResolution ==> later.mergeLane == MergeLaneBlack)
            && (PolicyLaws.ClosedStatus(rules).DecisionBlocked? ==>
                  later.decision.status.DecisionBlocked? && later.mergeLane == MergeLaneBlack)
            && ((exists r | r in rules :: r.reviewers != []) ==> Lanes.HasMandatoryReviewer(later.reviewers))
  {
    hide HasMutations, HasConflict, HasRisk, MatchedRules, Policy.Acceptable, PolicyLaws.ClosedStatus, Verdict,
         Lanes.HasMandatoryReviewer, AnyBlocks, AnyDemands, AnyCanary;
    VerdictFacts(setup, seen);
    RouteOfIngested(setup, packet);
    Lanes.AssignRespectsMinimum(setup.lanes, later);
    if exists r | r in MatchedRules(setup, seen) :: r.reviewers != [] {
      AskedIsMandatory(setup, seen);
    }
  }

  lemma AskedIsMandatory(setup: Setup, seen: ChangePacket)
    requires exists r | r in MatchedRules(setup, seen) :: r.reviewers != []
    ensures Lanes.HasMandatoryReviewer(Verdict(setup, seen).reviewers)
  {
    hide PolicyFold.Fold, MatchedRules;
    var rules := MatchedRules(setup, seen);
    var r :| r in rules && r.reviewers != [];
    var key := setup.fold(r.reviewers[0]);
    PolicyLaws.ReviewersAreThoseAsked(rules, setup.fold, key);
    assert PolicyLaws.Asked(rules, key, setup.fold);
  }

  // ---- What it takes to be approved --------------------------------------------------------------------

  /** In a serial run an ingested packet is approved, at any later instant, exactly when its verdict was not a
    * block, no matched rule asked for a reviewer, and all evidence any matched rule asked for is satisfied or
    * waived. Violations have no say in it. */
  lemma ApprovedExactlyWhenRulesAreMet(states: seq<State>, ops: seq<SerialRuns.Op>, setup: Setup, seen: ChangePacket,
                                       packet: ChangePacket, k: nat, i: nat, now: int)
    requires Ingested(setup, seen, packet)
    requires SerialRuns.IsRun(states, ops, Some(setup.lanes))
    requires k < i < |states| && ops[k] == SerialRuns.Ingest(packet, now)
    ensures packet.id in states[i].packets
    ensures states[i].packets[packet.id].decision.status.DecisionApproved? <==>
              RulesAreMet(MatchedRules(setup, seen), states[i], packet.id)
  {
    hide Ingested, MatchedRules, SameChange, RulesAreMet, ControlPlane.Complete, SerialRuns.Accurate, SerialRuns.IsRun;
    SerialIngestStores(states, ops, Some(setup.lanes), packet, k, now);
    SerialRuns.SettledForever(states, ops, Some(setup.lanes), k + 1, i, packet.id, "");
    SerialRuns.ApprovedExactlyWhenComplete(states, ops, Some(setup.lanes), i, packet.id);
    ApprovalFacts(states[i], setup, seen, packet);
  }

  ghost predicate RulesAreMet(rules: seq<Policy.Rule>, s: State, id: string) {
    && !PolicyLaws.ClosedStatus(rules).DecisionBlocked?
    && (forall r | r in rules :: r.reviewers == [])
    && (forall r, name | r in rules && name in r.evidence :: ControlPlane.Settled(s.StatusOf(id, name)))
  }

  lemma SerialIngestStores(states: seq<State>, ops: seq<SerialRuns.Op>, assigner: ControlPlane.Assigner,
                           packet: ChangePacket, k: nat, now: int)
    requires SerialRuns.IsRun(states, ops, assigner)
    requires k + 1 < |states| && ops[k] == SerialRuns.Ingest(packet, now)
    ensures packet.id in states[k + 1].packets && states[k + 1].packets[packet.id] == packet
  {
    hide Produced;
    assert SerialRuns.Step(states[k], ops[k], states[k + 1], assigner);
  }

  lemma ApprovalFacts(s: State, setup: Setup, seen: ChangePacket, packet: ChangePacket)
    requires Ingested(setup, seen, packet)
    requires packet.id in s.packets && SameChange(packet, s.packets[packet.id]) && SerialRuns.Accurate(s, packet.id)
    ensures s.packets[packet.id].decision.status.DecisionApproved? <==>
            RulesAreMet(MatchedRules(setup, seen), s, packet.id)
  {
    hide HasMutations, HasConflict, HasRisk, MatchedRules, Policy.Acceptable, Verdict, PolicyLaws.ClosedStatus,
         ControlPlane.Complete, Lanes.HasMandatoryReviewer, Lanes.Assign;
    VerdictFacts(setup, seen);
    MandatoryExactlyWhenAsked(setup, seen);
    CompleteExactlyWhenSettled(s, setup, seen, packet.id);
  }

  lemma MandatoryExactlyWhenAsked(setup: Setup, seen: ChangePacket)
    ensures Lanes.HasMandatoryReviewer(Verdict(setup, seen).reviewers) <==>
              exists r | r in MatchedRules(setup, seen) :: r.reviewers != []
  {
    hide PolicyFold.Fold, MatchedRules;
    var rules := MatchedRules(setup, seen);
    if exists r | r in rules :: r.reviewers != [] {
      AskedIsMandatory(setup, seen);
    }
    if Lanes.HasMandatoryReviewer(Verdict(setup, seen).reviewers) {
      var v :| v in Verdict(setup, seen).reviewers;
      var key := setup.fold(v.team);
      PolicyLaws.ReviewersAreThoseAsked(rules, setup.fold, key);
      assert PolicyLaws.HasTeam(Verdict(setup, seen).reviewers, key, setup.fold);
    }
  }

  lemma CompleteExactlyWhenSettled(s: State, setup: Setup, seen: ChangePacket, id: string)
    requires Policy.Acceptable(setup.rules, setup.lower)
    ensures ControlPlane.Complete(Verdict(setup, seen).evidence, s.EvidenceOf(id)) <==>
              forall r, name | r in MatchedRules(setup, seen) && name in r.evidence ::
                ControlPlane.Settled(s.StatusOf(id, name))
  {
    hide PolicyFold.Fold, PolicyFold.Matched, Policy.Acceptable, Policy.BindingsCompatible, ControlPlane.Settled,
         PolicyLaws.DistinctNames, PolicyLaws.Binds;
    var rules, evidence := MatchedRules(setup, seen), Verdict(setup, seen).evidence;
    PolicyLaws.MatchedIsAcceptable(setup.rules, Matching(setup, seen), setup.lower);
    PolicyLaws.EvidenceIsUnambiguous(rules, setup.fold);
    PendingIsNotSettled();
    if ControlPlane.Complete(evidence, s.EvidenceOf(id)) {
      forall r, name | r in rules && name in r.evidence
        ensures ControlPlane.Settled(s.StatusOf(id, name))
      {
        assert Names(evidence, name);
        var n :| 0 <= n < |evidence| && evidence[n].name == name;
        assert evidence[n] in evidence;
      }
    }
    if forall r, name | r in rules && name in r.evidence :: ControlPlane.Settled(s.StatusOf(id, name)) {
      forall e | e in evidence
        ensures e.name in s.EvidenceOf(id) && ControlPlane.Settled(s.EvidenceOf(id)[e.name].status)
      {
        var r :| r in rules && e.name in r.evidence;
        assert ControlPlane.Settled(s.StatusOf(id, e.name));
      }
    }
  }

  lemma PendingIsNotSettled()
    ensures !ControlPlane.Settled(EvidencePending)
  {
  }

  /** At any instant of a serial run, some further updates can approve an ingested packet exactly when its
    * verdict was not a block and no matched rule asked for a reviewer. */
  lemma CanBeApprovedExactlyWhenRulesAllow(states: seq<State>, ops: seq<SerialRuns.Op>, setup: Setup,
                                           seen: ChangePacket, packet: ChangePacket, k: nat, i: nat, now: int)
    requires Ingested(setup, seen, packet) && !Text.Blank(packet.id)
    requires SerialRuns.IsRun(states, ops, Some(setup.lanes))
    requires k < i < |states| && ops[k] == SerialRuns.Ingest(packet, now)
    ensures packet.id in states[i].packets
    ensures var rules := MatchedRules(setup, seen);
            Approvability.CanBeApproved(states[i], packet.id, Some(setup.lanes)) <==>
            !PolicyLaws.ClosedStatus(rules).DecisionBlocked? && forall r | r in rules :: r.reviewers == []
  {
    hide Ingested, MatchedRules, SameChange, SerialRuns.IsRun, Approvability.CanBeApproved, Approvability.Addressable,
         PolicyLaws.ClosedStatus, Lanes.HasMandatoryReviewer, Text.Blank;
    SerialIngestStores(states, ops, Some(setup.lanes), packet, k, now);
    SerialRuns.SettledForever(states, ops, Some(setup.lanes), k + 1, i, packet.id, "");
    Approvability.ReachableApproval(states, ops, Some(setup.lanes), i, packet.id);
    ObstacleFacts(states[i], setup, seen, packet);
  }

  lemma ObstacleFacts(s: State, setup: Setup, seen: ChangePacket, packet: ChangePacket)
    requires Ingested(setup, seen, packet) && !Text.Blank(packet.id)
    requires packet.id in s.packets && SameChange(packet, s.packets[packet.id])
    ensures var rules, later := MatchedRules(setup, seen), s.packets[packet.id];
            && Approvability.Addressable(s, packet.id)
            && (later.decision.status.DecisionBlocked? <==> PolicyLaws.ClosedStatus(rules).DecisionBlocked?)
            && (Lanes.HasMandatoryReviewer(later.reviewers) <==> exists r | r in rules :: r.reviewers != [])
  {
    hide HasMutations, HasConflict, HasRisk, MatchedRules, Policy.Acceptable, Verdict, PolicyLaws.ClosedStatus,
         Lanes.HasMandatoryReviewer, Lanes.Assign, Text.Blank, OutstandingEvidence.Requires;
    VerdictFacts(setup, seen);
    MandatoryExactlyWhenAsked(setup, seen);
    forall name | OutstandingEvidence.Requires(packet.evidence, name)
      ensures !Text.Blank(name)
    {
      RequiredNamesAreNotBlank(setup, seen, name);
    }
  }

  lemma RequiredNamesAreNotBlank(setup: Setup, seen: ChangePacket, name: string)
    requires Policy.Acceptable(setup.rules, setup.lower)
    requires OutstandingEvidence.Requires(Verdict(setup, seen).evidence, name)
    ensures !Text.Blank(name)
  {
    hide PolicyFold.Fold, PolicyFold.Matched, Policy.BindingsCompatible, Policy.NamesDistinct, Text.Blank,
         PolicyLaws.DistinctNames, PolicyLaws.Binds;
    var rules := MatchedRules(setup, seen);
    PolicyLaws.MatchedIsAcceptable(setup.rules, Matching(setup, seen), setup.lower);
    PolicyLaws.EvidenceIsUnambiguous(rules, setup.fold);
    var e :| e in Verdict(setup, seen).evidence && e.name == name;
    var r :| r in rules && e.name in r.evidence;
    PolicyLaws.MatchedAreRules(setup.rules, Matching(setup, seen), r);
    var i :| 0 <= i < |setup.rules| && setup.rules[i] == r;
    assert Policy.RuleAcceptable(setup.rules[i]);
  }

  // ---- The lane for life --------------------------------------------------------------------------------

  /** The lane order, before the rules' minimum, of an ingested packet at any later time. */
  ghost function LifeOrder(config: Lanes.Config, rules: seq<Policy.Rule>, conflict: ConflictAssessment, score: int,
                           approved: bool)
    : nat
  {
    if conflict.requiresHumanResolution || PolicyLaws.ClosedStatus(rules).DecisionBlocked? then 4
    else if conflict.findings != [] || !approved then 3
    else if score <= config.greenMax && !AnyCanary(rules) then 1
    else if score <= config.yellowMax then 2
    else if score <= config.redMax || AnyCanary(rules) then 3
    else 4
  }

  /** However requests overlap after ingestion, the lane is the higher of the matched rules' highest minimum
    * and an order that depends on nothing that changes but whether the packet is approved. */
  lemma LaneForLife(run: seq<Interleaving.System>, events: seq<Interleaving.Event>, setup: Setup, seen: ChangePacket,
                    packet: ChangePacket, k: nat, i: nat, now: int, highest: nat)
    requires Ingested(setup, seen, packet)
    requires Interleaving.IsRun(run, events, Some(setup.lanes))
    requires k < i < |run| && events[k] == Interleaving.Ingest(packet, now)
    requires IsHighest(highest, MatchedRules(setup, seen))
    ensures packet.id in run[i].store.packets
    ensures var later := run[i].store.packets[packet.id];
            Lanes.LaneOrder(later.mergeLane) ==
            Higher(highest, LifeOrder(setup.lanes, MatchedRules(setup, seen), packet.conflict, packet.riskSummary.score,
                                      later.decision.status.DecisionApproved?))
  {
    hide Ingested, Lanes.Assign, Interleaving.Exec, Interleaving.IsRun, MatchedRules, SameChange, LifeOrder, IsHighest,
         Lanes.LaneOrder, Sound;
    IngestStores(run, events, Some(setup.lanes), packet, k, now);
    Overlap.PacketsKeepTheirChange(run, events, setup.lanes, k + 1, i, packet.id);
    Interleaving.RunInv(run, events, Some(setup.lanes), i);
    LaneMoves.StoredIsSound(run[i].store, Some(setup.lanes), packet.id);
    LaterLane(setup, seen, packet, run[i].store.packets[packet.id], highest);
  }

  lemma LaterLane(setup: Setup, seen: ChangePacket, packet: ChangePacket, later: ChangePacket, highest: nat)
    requires Ingested(setup, seen, packet) && SameChange(packet, later) && Sound(later, Some(setup.lanes))
    requires IsHighest(highest, MatchedRules(setup, seen))
    ensures Lanes.LaneOrder(later.mergeLane) ==
            Higher(highest, LifeOrder(setup.lanes, MatchedRules(setup, seen), packet.conflict, packet.riskSummary.score,
                                      later.decision.status.DecisionApproved?))
  {
    hide HasMutations, HasConflict, HasRisk, Verdict, MatchedRules, Policy.Acceptable, IsHighest, AnyBlocks, AnyDemands,
         AnyCanary, PolicyLaws.ClosedStatus, Lanes.HasMandatoryReviewer;
    VerdictFacts(setup, seen);
    RouteOfIngested(setup, packet);
    HighestIsUnique(highest, Lanes.LaneOrder(Verdict(setup, seen).minimumLane), MatchedRules(setup, seen));
    AnyReviewerIsMandatory(setup, seen);
  }

  lemma AnyReviewerIsMandatory(setup: Setup, seen: ChangePacket)
    ensures Verdict(setup, seen).reviewers == [] <==> !Lanes.HasMandatoryReviewer(Verdict(setup, seen).reviewers)
  {
    hide PolicyFold.Fold, MatchedRules;
    PolicyLaws.ReviewersAreThoseAsked(MatchedRules(setup, seen), setup.fold, "");
    var reviewers := Verdict(setup, seen).reviewers;
    assert reviewers != [] ==> reviewers[0] in reviewers;
  }

  /** The rule asks for a canary and for nothing else. */
  predicate OnlyCanary(rule: Policy.Rule) {
    rule.deployment.requiresCanary && !rule.block && !PolicyLaws.Demands(rule) && rule.minimumLane.MergeLaneUnset?
  }

  /** One more matched rule, last in order, that only asks for a canary lowers the lane of an ingested packet
    * exactly when it takes the edge off a score past every threshold, or makes the fold forget a block. */
  lemma CanaryRuleLowersLaneExactlyWhen(setup: Setup, seen: ChangePacket, packet: ChangePacket, other: Setup,
                                        otherSeen: ChangePacket, safer: ChangePacket, rule: Policy.Rule, highest: nat)
    requires Ingested(setup, seen, packet) && Ingested(other, otherSeen, safer)
    requires setup.lanes == other.lanes && setup.lanes.Increasing()
    requires MatchedRules(other, otherSeen) == MatchedRules(setup, seen) + [rule] && OnlyCanary(rule)
    requires packet.conflict == safer.conflict && packet.riskSummary.score == safer.riskSummary.score
    requires IsHighest(highest, MatchedRules(setup, seen))
    ensures var rules := MatchedRules(setup, seen);
            Lanes.LaneOrder(safer.mergeLane) < Lanes.LaneOrder(packet.mergeLane) <==>
              && highest < 4
              && !packet.conflict.requiresHumanResolution
              && (|| (PolicyLaws.ClosedStatus(rules).DecisionBlocked? && AnyDemands(rules))
                  || (!AnyBlocks(rules) && !AnyDemands(rules) && !AnyCanary(rules) && packet.conflict.findings == []
                      && packet.riskSummary.score > setup.lanes.redMax))
  {
    hide HasMutations, HasConflict, HasRisk, HasVerdict, MatchedRules, Policy.Acceptable, Lanes.Assign, Lanes.LaneOrder,
         AnyBlocks, AnyDemands, AnyCanary, PolicyLaws.ClosedStatus, IsHighest, OnlyCanary;
    var rules := MatchedRules(setup, seen);
    OneMoreCanary(rules, rule, highest);
    LaneHasClosedForm(setup, seen, packet, highest);
    LaneHasClosedForm(other, otherSeen, safer, highest);
    HighestIsALane(highest, rules);
    BlockedHasCause(setup, seen);
  }

  lemma HighestIsALane(highest: nat, rules: seq<Policy.Rule>)
    requires IsHighest(highest, rules)
    ensures highest <= 4
  {
  }

  lemma OneMoreCanary(rules: seq<Policy.Rule>, rule: Policy.Rule, highest: nat)
    requires OnlyCanary(rule) && IsHighest(highest, rules)
    ensures IsHighest(highest, rules + [rule])
    ensures AnyBlocks(rules + [rule]) <==> AnyBlocks(rules)
    ensures AnyDemands(rules + [rule]) <==> AnyDemands(rules)
    ensures AnyCanary(rules + [rule])
    ensures PolicyLaws.ClosedStatus(rules + [rule]) == if AnyDemands(rules) then DecisionPending
            else PolicyLaws.ClosedStatus(rules)
  {
    hide PolicyLaws.Demands, PolicyLaws.ClosedStatus;
    var all := rules + [rule];
    assert all[|rules|] == rule && rule in all;
    assert forall r :: r in all <==> r in rules || r == rule;
    PolicyLaws.ClosedStatusNext(rules, rule);
  }
}
