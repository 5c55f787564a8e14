/** Evaluating a configuration: matched rules are folded, in order, into one evaluation. */
module PolicyFold {
  import opened Domain
  import opened Policy
  import Lanes

  datatype Evaluation = Evaluation(
    status: DecisionStatus,
    appliedPolicies: seq<string>,
    reasons: seq<string>,
    violations: seq<PolicyViolation>,
    minimumLane: MergeLane,
    evidence: seq<EvidenceRequirement>,
    reviewers: seq<ReviewerRequirement>,
    deployment: DeploymentRequirement)

  const START := Evaluation(DecisionApproved, [], [], [], MergeLaneUnset, [], [],
                            DeploymentRequirement("direct", [], false, false))

  // ---- One rule -------------------------------------------------------------------------------------

  function BindingFor(checks: seq<Binding>, evidence: string): Option<CheckBinding> {
    if checks == [] then None
    else if checks[0].evidence == evidence then Some(CheckBinding(checks[0].name, checks[0].appId))
    else BindingFor(checks[1..], evidence)
  }

  function Requirement(rule: Rule, evidence: string): EvidenceRequirement {
    EvidenceRequirement(evidence, evidence, true, "required by policy " + rule.name, "policy-engine",
                        BindingFor(rule.checks, evidence))
  }

  function Reviewer(rule: Rule, team: string): ReviewerRequirement {
    ReviewerRequirement(team, "required by policy " + rule.name, true)
  }

  function Violation(rule: Rule): PolicyViolation {
    PolicyViolation(rule.name, "policy blocked change propagation", SeverityCritical)
  }

  /** A repeated evidence name keeps its first requirement, which may gain the binding. */
  function MergeEvidence(values: seq<EvidenceRequirement>, candidate: EvidenceRequirement): seq<EvidenceRequirement> {
    if values == [] then [candidate]
    else if values[0].name == candidate.name then
      [if values[0].githubCheck.None? then values[0].(githubCheck := candidate.githubCheck) else values[0]]
      + values[1..]
    else [values[0]] + MergeEvidence(values[1..], candidate)
  }

  lemma {:induction false} MergeHits(values: seq<EvidenceRequirement>, candidate: EvidenceRequirement, index: nat)
    requires index < |values| && values[index].name == candidate.name
    requires forall k | 0 <= k < index :: values[k].name != candidate.name
    ensures var value := values[index];
            MergeEvidence(values, candidate) ==
            if value.githubCheck.None? && candidate.githubCheck.Some?
            then values[index := value.(githubCheck := candidate.githubCheck)] else values
  {
    assert values == [values[0]] + values[1..];
    if index > 0 {
      MergeHits(values[1..], candidate, index - 1);
    }
  }

  lemma {:induction false} MergeMisses(values: seq<EvidenceRequirement>, candidate: EvidenceRequirement)
    requires forall v | v in values :: v.name != candidate.name
    ensures MergeEvidence(values, candidate) == values + [candidate]
  {
    if values != [] {
      MergeMisses(values[1..], candidate);
      assert values == [values[0]] + values[1..];
    }
  }

  function MergeReviewer(values: seq<ReviewerRequirement>, candidate: ReviewerRequirement, fold: string -> string)
    : seq<ReviewerRequirement>
  {
    if exists v | v in values :: fold(v.team) == fold(candidate.team) then values else values + [candidate]
  }

  function MaxLane(a: MergeLane, b: MergeLane): MergeLane {
    if a.MergeLaneUnset? then b
    else if Lanes.LaneOrder(b) > Lanes.LaneOrder(a) then b
    else a
  }

  function AddEvidence(values: seq<EvidenceRequirement>, rule: Rule, names: seq<string>): seq<EvidenceRequirement> {
    if names == [] then values
    else MergeEvidence(AddEvidence(values, rule, names[..|names| - 1]), Requirement(rule, names[|names| - 1]))
  }

  function AddReviewers(values: seq<ReviewerRequirement>, rule: Rule, teams: seq<string>, fold: string -> string)
    : seq<ReviewerRequirement>
  {
    if teams == [] then values
    else MergeReviewer(AddReviewers(values, rule, teams[..|teams| - 1], fold), Reviewer(rule, teams[|teams| - 1]), fold)
  }

  function AddDeployment(d: DeploymentRequirement, clause: DeploymentClause): DeploymentRequirement {
    DeploymentRequirement(if clause.strategy != "" then clause.strategy else d.strategy,
                          d.environments + clause.environments,
                          d.requiresCanary || clause.requiresCanary,
                          d.requiresRollbackPlan || clause.requiresRollbackPlan)
  }

  function Applied(e: Evaluation, rule: Rule, fold: string -> string): Evaluation {
    var reviewers := AddReviewers(e.reviewers, rule, rule.reviewers, fold);
    var evidence := AddEvidence(e.evidence, rule, rule.evidence);
    Evaluation(
      if rule.block then DecisionBlocked
      else if |reviewers| > 0 || |evidence| > 0 then DecisionPending
      else e.status,
      e.appliedPolicies + [rule.name],
      if rule.description != "" then e.reasons + [rule.description] else e.reasons,
      if rule.block then e.violations + [Violation(rule)] else e.violations,
      if rule.minimumLane.MergeLaneUnset? then e.minimumLane else MaxLane(e.minimumLane, rule.minimumLane),
      evidence,
      reviewers,
      AddDeployment(e.deployment, rule.deployment))
  }

  function Fold(rules: seq<Rule>, fold: string -> string): Evaluation {
    if rules == [] then START else Applied(Fold(rules[..|rules| - 1], fold), rules[|rules| - 1], fold)
  }

  function Matched(rules: seq<Rule>, matches: Rule -> bool): seq<Rule> {
    if rules == [] then []
    else
      var last := rules[|rules| - 1];
      Matched(rules[..|rules| - 1], matches) + if matches(last) then [last] else []
  }

  // ---- The accumulator ------------------------------------------------------------------------------

  class Accumulator {
    var status: DecisionStatus
    var appliedPolicies: seq<string>
    var reasons: seq<string>
    var violations: seq<PolicyViolation>
    var minimumLane: MergeLane
    var evidence: seq<EvidenceRequirement>
    var reviewers: seq<ReviewerRequirement>
    var deployment: DeploymentRequirement

    function Value(): Evaluation
      reads this
    {
      Evaluation(status, appliedPolicies, reasons, violations, minimumLane, evidence, reviewers, deployment)
    }

    constructor ()
      ensures Value() == START
    {
      status, appliedPolicies, reasons, violations := DecisionApproved, [], [], [];
      minimumLane, evidence, reviewers := MergeLaneUnset, [], [];
      deployment := DeploymentRequirement("direct", [], false, false);
    }

    method ApplyRule(rule: Rule, fold: string -> string)
      modifies this
      ensures Value() == Applied(old(Value()), rule, fold)
    {
      appliedPolicies := appliedPolicies + [rule.name];
      if rule.description != "" {
        reasons := reasons + [rule.description];
      }
      ApplyReviewerRequirements(rule, fold);
      ApplyEvidenceRequirements(rule);
      ApplyDeploymentRequirements(rule);
      ApplyPolicyAction(rule);
    }

    method ApplyReviewerRequirements(rule: Rule, fold: string -> string)
      modifies this`reviewers
      ensures reviewers == AddReviewers(old(reviewers), rule, rule.reviewers, fold)
    {
      for i := 0 to |rule.reviewers|
        invariant reviewers == AddReviewers(old(reviewers), rule, rule.reviewers[..i], fold)
      {
        reviewers := MergeReviewer(reviewers, Reviewer(rule, rule.reviewers[i]), fold);
        assert rule.reviewers[..i + 1][..i] == rule.reviewers[..i];
      }
      assert rule.reviewers[..|rule.reviewers|] == rule.reviewers;
    }

    method ApplyEvidenceRequirements(rule: Rule)
      modifies this`evidence
      ensures evidence == AddEvidence(old(evidence), rule, rule.evidence)
    {
      for i := 0 to |rule.evidence|
        invariant evidence == AddEvidence(old(evidence), rule, rule.evidence[..i])
      {
        var githubCheck := FindBinding(rule.checks, rule.evidence[i]);
        var candidate := EvidenceRequirement(rule.evidence[i], rule.evidence[i], true,
                                             "required by policy " + rule.name,
                                             "policy-engine", githubCheck);
        AppendUniqueEvidence(candidate);
        assert rule.evidence[..i + 1][..i] == rule.evidence[..i];
      }
      assert rule.evidence[..|rule.evidence|] == rule.evidence;
    }

    /** Writes the binding into the existing requirement in place. */
    method AppendUniqueEvidence(candidate: EvidenceRequirement)
      modifies this`evidence
      ensures evidence == MergeEvidence(old(evidence), candidate)
    {
      for index := 0 to |evidence|
        invariant evidence == old(evidence)
        invariant forall k | 0 <= k < index :: evidence[k].name != candidate.name
      {
        var value := evidence[index];
        if value.name == candidate.name {
          MergeHits(evidence, candidate, index);
          if value.githubCheck.None? && candidate.githubCheck.Some? {
            evidence := evidence[index := value.(githubCheck := candidate.githubCheck)];
          }
          return;
        }
      }
      MergeMisses(evidence, candidate);
      evidence := evidence + [candidate];
    }

    method ApplyDeploymentRequirements(rule: Rule)
      modifies this`deployment
      ensures deployment == AddDeployment(old(deployment), rule.deployment)
    {
      if rule.deployment.strategy != "" {
        deployment := deployment.(strategy := rule.deployment.strategy);
      }
      if |rule.deployment.environments| > 0 {
        deployment := deployment.(environments := deployment.environments + rule.deployment.environments);
      }
      deployment := deployment.(requiresCanary := deployment.requiresCanary || rule.deployment.requiresCanary);
      deployment := deployment.(requiresRollbackPlan :=
                                  deployment.requiresRollbackPlan || rule.deployment.requiresRollbackPlan);
    }

    method ApplyPolicyAction(rule: Rule)
      modifies this`minimumLane, this`status, this`violations
      ensures minimumLane == if rule.minimumLane.MergeLaneUnset? then old(minimumLane)
                             else MaxLane(old(minimumLane), rule.minimumLane)
      ensures status == if rule.block then DecisionBlocked
                        else if |reviewers| > 0 || |evidence| > 0 then DecisionPending
                        else old(status)
      ensures violations == if rule.block then old(violations) + [Violation(rule)] else old(violations)
    {
      if !rule.minimumLane.MergeLaneUnset? {
        minimumLane := MaxLane(minimumLane, rule.minimumLane);
      }
      if rule.block {
        status := DecisionBlocked;
        violations := violations + [PolicyViolation(rule.name, "policy blocked change propagation", SeverityCritical)];
        return;
      }
      if |reviewers| > 0 || |evidence| > 0 {
        status := DecisionPending;
      }
    }
  }

  method FindBinding(checks: seq<Binding>, evidence: string) returns (found: Option<CheckBinding>)
    ensures found == BindingFor(checks, evidence)
  {
    for i := 0 to |checks|
      invariant BindingFor(checks, evidence) == BindingFor(checks[i..], evidence)
    {
      if checks[i].evidence == evidence {
        return Some(CheckBinding(checks[i].name, checks[i].appId));
      }
      assert checks[i..][1..] == checks[i + 1..];
    }
    return None;
  }

  lemma FoldNothing(matches: Rule -> bool, fold: string -> string)
    ensures Fold(Matched([], matches), fold) == START
  {
  }

  lemma FoldNext(rules: seq<Rule>, rule: Rule, matches: Rule -> bool, fold: string -> string)
    ensures Fold(Matched(rules + [rule], matches), fold) ==
            if matches(rule) then Applied(Fold(Matched(rules, matches), fold), rule, fold)
            else Fold(Matched(rules, matches), fold)
  {
    hide Applied;
    assert (rules + [rule])[..|rules|] == rules;
    assert Matched(rules, matches) + [] == Matched(rules, matches);
    assert (Matched(rules, matches) + [rule])[..|Matched(rules, matches)|] == Matched(rules, matches);
  }

  /** Rejects exactly the unacceptable configurations, and otherwise folds the matched rules. */
  method Evaluate(rules: seq<Rule>, matches: Rule -> bool, lower: string -> string, fold: string -> string)
    returns (result: Result<Evaluation, ConfigError>)
    ensures result.Ok? <==> Acceptable(rules, lower)
    ensures result.Ok? ==> result.value == Fold(Matched(rules, matches), fold)
  {
    hide Acceptable, Applied, Matched, Fold;
    var error := Validate(rules, lower);
    if error.Some? {
      return Err(error.value);
    }
    var evaluation := new Accumulator();
    FoldNothing(matches, fold);
    for i := 0 to |rules|
      invariant evaluation.Value() == Fold(Matched(rules[..i], matches), fold)
    {
      var rule := rules[i];
      FoldNext(rules[..i], rule, matches, fold);
      assert rules[..i + 1] == rules[..i] + [rule];
      if matches(rule) {
        evaluation.ApplyRule(rule, fold);
      }
    }
    assert rules[..|rules|] == rules;
    return Ok(evaluation.Value());
  }
}
