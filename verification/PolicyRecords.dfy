/** What an evaluation records of the rules behind it, and which rules a configuration may hold. */
module PolicyRecords {
  import opened Domain
  import opened Text
  import opened Policy
  import opened PolicyFold
  import opened PolicyLaws

  function Descriptions(rules: seq<Rule>): seq<string> {
    if rules == [] then []
    else if rules[0].description == "" then Descriptions(rules[1..])
    else [rules[0].description] + Descriptions(rules[1..])
  }

  lemma {:induction false} DescriptionsAppend(rules: seq<Rule>, last: Rule)
    ensures Descriptions(rules + [last]) == Descriptions(rules) + if last.description == "" then []
            else [last.description]
  {
    if rules == [] {
      assert rules + [last] == [last];
      assert [last][1..] == [];
    } else {
      DescriptionsAppend(rules[1..], last);
      assert (rules + [last])[1..] == rules[1..] + [last];
    }
  }

  /** The policies applied are the matched rules by name, and the reasons their descriptions, both in order. */
  lemma {:induction false} AppliedInOrder(rules: seq<Rule>, fold: string -> string)
    ensures |Fold(rules, fold).appliedPolicies| == |rules|
    ensures forall i | 0 <= i < |rules| :: Fold(rules, fold).appliedPolicies[i] == rules[i].name
    ensures Fold(rules, fold).reasons == Descriptions(rules)
  {
    hide AddEvidence, AddReviewers, Descriptions;
    if rules == [] {
      NoDescriptions();
    } else {
      var before, last := rules[..|rules| - 1], rules[|rules| - 1];
      AppliedInOrder(before, fold);
      DescriptionsAppend(before, last);
      assert rules == before + [last];
    }
  }

  lemma NoDescriptions()
    ensures Descriptions([]) == []
  {
  }

  /** The first of the rules that asks for the evidence. */
  ghost predicate FirstAsks(rules: seq<Rule>, i: nat, name: string) {
    i < |rules| && name in rules[i].evidence && forall j | 0 <= j < i :: name !in rules[j].evidence
  }

  /** A requirement is called and typed by the evidence it asks for and names the first rule that asked. */
  lemma {:induction false} RequirementsTell(rules: seq<Rule>, fold: string -> string, name: string, i: nat)
    requires FirstAsks(rules, i, name)
    ensures var found := Lookup(Fold(rules, fold).evidence, name);
            && found.Some?
            && found.value.name == name && found.value.kind == name && found.value.required
            && found.value.reason == "required by policy " + rules[i].name
            && found.value.producer == "policy-engine"
  {
    hide AddEvidence, AddReviewers, Binds;
    var before, last := rules[..|rules| - 1], rules[|rules| - 1];
    LookupAdded(Fold(before, fold).evidence, last, last.evidence, name);
    if i < |before| {
      RequirementsTell(before, fold, name, i);
    } else {
      UnaskedIsAbsent(before, fold, name);
    }
  }

  lemma UnaskedIsAbsent(rules: seq<Rule>, fold: string -> string, name: string)
    requires forall j | 0 <= j < |rules| :: name !in rules[j].evidence
    ensures Lookup(Fold(rules, fold).evidence, name) == None
  {
    hide Fold, Lookup, DistinctNames, Binds;
    EvidenceReflectsRules(rules, fold, name);
  }

  /** Each violation names its blocking rule and is critical. */
  lemma ViolationsTell(rules: seq<Rule>, fold: string -> string, i: nat)
    requires i < |Fold(rules, fold).violations|
    ensures i < |BlockingRules(rules)| && BlockingRules(rules)[i] in rules && BlockingRules(rules)[i].block
    ensures Fold(rules, fold).violations[i].policy == BlockingRules(rules)[i].name
    ensures Fold(rules, fold).violations[i].severity == SeverityCritical
  {
    hide Fold, BlockingRules;
    ViolationPerBlock(rules, fold);
    BlockingRulesBlock(rules, i);
  }

  lemma {:induction false} BlockingRulesBlock(rules: seq<Rule>, i: nat)
    requires i < |BlockingRules(rules)|
    ensures BlockingRules(rules)[i] in rules && BlockingRules(rules)[i].block
  {
    if rules[0].block {
      if i > 0 {
        BlockingRulesBlock(rules[1..], i - 1);
      }
    } else {
      BlockingRulesBlock(rules[1..], i);
    }
  }

  /** The environments are those of the matched rules, one rule after the other. */
  function Environments(rules: seq<Rule>): seq<string> {
    if rules == [] then [] else rules[0].deployment.environments + Environments(rules[1..])
  }

  lemma {:induction false} EnvironmentsAppend(rules: seq<Rule>, last: Rule)
    ensures Environments(rules + [last]) == Environments(rules) + last.deployment.environments
  {
    if rules == [] {
      assert rules + [last] == [last] && [last][1..] == [];
    } else {
      EnvironmentsAppend(rules[1..], last);
      assert (rules + [last])[1..] == rules[1..] + [last];
    }
  }

  lemma {:induction false} EnvironmentsInOrder(rules: seq<Rule>, fold: string -> string)
    ensures Fold(rules, fold).deployment.environments == Environments(rules)
  {
    hide AddEvidence, AddReviewers, Environments;
    if rules == [] {
      NoEnvironments();
    } else {
      var before, last := rules[..|rules| - 1], rules[|rules| - 1];
      EnvironmentsInOrder(before, fold);
      EnvironmentsAppend(before, last);
      assert rules == before + [last];
    }
  }

  lemma NoEnvironments()
    ensures Environments([]) == []
  {
  }

  /** One more rule leaves the reviewers there are as they are and adds, after them, only teams it asks for,
    * in its own spelling and with itself as the reason. */
  lemma ReviewersOnlyGrow(rules: seq<Rule>, next: Rule, fold: string -> string)
    ensures var before, after := Fold(rules, fold).reviewers, Fold(rules + [next], fold).reviewers;
            && before <= after
            && forall k | |before| <= k < |after| ::
                 after[k].team in next.reviewers && after[k].reason == "required by policy " + next.name
                     && after[k].mandatory
  {
    hide AddEvidence, AddReviewers;
    assert (rules + [next])[..|rules|] == rules;
    TeamsAreAppended(Fold(rules, fold).reviewers, next, next.reviewers, fold);
  }

  lemma {:induction false} TeamsAreAppended(values: seq<ReviewerRequirement>, rule: Rule, teams: seq<string>,
                                            fold: string -> string)
    ensures var added := AddReviewers(values, rule, teams, fold);
            && values <= added
            && forall k | |values| <= k < |added| ::
                 added[k].team in teams && added[k].reason == "required by policy " + rule.name && added[k].mandatory
  {
    if teams != [] {
      TeamsAreAppended(values, rule, teams[..|teams| - 1], fold);
      assert teams == teams[..|teams| - 1] + [teams[|teams| - 1]];
    }
  }

  // ---- Rules a configuration may hold -------------------------------------------------------------------

  ghost predicate NoBlanks(values: seq<string>) {
    forall i | 0 <= i < |values| :: !Blank(values[i])
  }

  /** What the engine insists on of each rule, clause by clause. */
  lemma AcceptableExactlyWhen(rule: Rule)
    ensures RuleAcceptable(rule) <==>
              && !Blank(rule.name)
              && (|rule.when.mutations| + |rule.when.paths| + |rule.when.criticalities| + |rule.when.ownershipTeams| > 0
                  || rule.when.riskScoreGTE > 0)
              && 0 <= rule.when.riskScoreGTE <= 100
              && (forall m | m in rule.when.mutations :: !m.MutationOther?)
              && (forall c | c in rule.when.criticalities :: !c.CriticalityOther?)
              && NoBlanks(rule.when.paths) && NoBlanks(rule.when.ownershipTeams)
              && NoBlanks(rule.reviewers) && NoBlanks(rule.evidence) && NoBlanks(rule.deployment.environments)
              && (|rule.reviewers| + |rule.evidence| + |rule.deployment.environments| > 0 || rule.block
                  || rule.deployment.strategy != "" || rule.deployment.requiresCanary
                  || rule.deployment.requiresRollbackPlan || rule.minimumLane != MergeLaneUnset)
              && (forall b | b in rule.checks ::
                    b.evidence in rule.evidence && !Blank(b.evidence) && !Blank(b.name) && b.appId >= 1)
              && (forall i, j | 0 <= i < |rule.checks| && 0 <= j < |rule.checks| && i != j ::
                    rule.checks[i].evidence != rule.checks[j].evidence)
              && (rule.deployment.strategy == "" || rule.deployment.strategy == "direct"
                  || rule.deployment.strategy == "canary" || rule.deployment.strategy == "phased"
                  || rule.deployment.strategy == "manual_approval")
              && rule.minimumLane in {MergeLaneUnset, MergeLaneGreen, MergeLaneYellow, MergeLaneRed, MergeLaneBlack}
  {
    hide Blank;
    CheckNeedsEvidence(rule);
    SameBlanks(rule.when.paths);
    SameBlanks(rule.when.ownershipTeams);
    SameBlanks(rule.reviewers);
    SameBlanks(rule.evidence);
    SameBlanks(rule.deployment.environments);
  }

  lemma SameBlanks(values: seq<string>)
    ensures AllNonBlank(values) <==> NoBlanks(values)
  {
    hide Blank;
  }

  lemma CheckNeedsEvidence(rule: Rule)
    ensures (forall b | b in rule.checks :: b.evidence in rule.evidence) && rule.checks != [] ==> rule.evidence != []
  {
    if rule.checks != [] {
      assert rule.checks[0] in rule.checks;
    }
  }

  /** What the engine insists on across rules: names that differ beyond case and outer spaces, one binding per
    * piece of evidence, and one piece of evidence per check. */
  lemma ConfigurationAcceptableExactlyWhen(rules: seq<Rule>, lower: string -> string)
    ensures Acceptable(rules, lower) <==>
              && (forall i | 0 <= i < |rules| :: RuleAcceptable(rules[i]))
              && (forall i, j | 0 <= i < j < |rules| ::
                    lower(TrimSpace(rules[i].name)) != lower(TrimSpace(rules[j].name)))
              && (forall r, s, a, b | r in rules && s in rules && a in r.checks && b in s.checks ::
                    && (a.evidence == b.evidence ==> a.name == b.name && a.appId == b.appId)
                    && (a.name == b.name && a.appId == b.appId ==> a.evidence == b.evidence))
  {
    hide RuleAcceptable, TrimSpace;
    forall a, b {
      CompatibleExactlyWhen(a, b);
    }
  }

  lemma CompatibleExactlyWhen(a: Binding, b: Binding)
    ensures Compatible(a, b) <==>
              && (a.evidence == b.evidence ==> a.name == b.name && a.appId == b.appId)
              && (a.name == b.name && a.appId == b.appId ==> a.evidence == b.evidence)
  {
  }
}
