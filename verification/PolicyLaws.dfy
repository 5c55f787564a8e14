/** What the rule fold guarantees, for every sequence of matched rules and, where it says so, for every
  * order of the rules of an acceptable configuration. */
module PolicyLaws {
  import opened Domain
  import opened Bags
  import opened EvidenceStore
  import opened Policy
  import opened PolicyFold
  import ControlPlane
  import CheckRuns
  import Lanes

  predicate Demands(rule: Rule) {
    rule.reviewers != [] || rule.evidence != []
  }

  // ---- The decision ---------------------------------------------------------------------------------

  lemma {:induction false} MergeEvidenceGrows(values: seq<EvidenceRequirement>, candidate: EvidenceRequirement)
    ensures |MergeEvidence(values, candidate)| >= 1 && |MergeEvidence(values, candidate)| >= |values|
  {
    if values != [] && values[0].name != candidate.name {
      MergeEvidenceGrows(values[1..], candidate);
    }
  }

  lemma {:induction false} AddEvidenceEmpty(values: seq<EvidenceRequirement>, rule: Rule, names: seq<string>)
    ensures AddEvidence(values, rule, names) == [] <==> values == [] && names == []
  {
    if names != [] {
      AddEvidenceEmpty(values, rule, names[..|names| - 1]);
      MergeEvidenceGrows(AddEvidence(values, rule, names[..|names| - 1]), Requirement(rule, names[|names| - 1]));
    }
  }

  lemma {:induction false} AddReviewersEmpty(values: seq<ReviewerRequirement>, rule: Rule, teams: seq<string>,
                                             fold: string -> string)
    ensures AddReviewers(values, rule, teams, fold) == [] <==> values == [] && teams == []
  {
    if teams != [] {
      AddReviewersEmpty(values, rule, teams[..|teams| - 1], fold);
    }
  }

  /** Something has accumulated exactly when some rule demanded something. */
  lemma {:induction false} AccumulatesExactlyWhenDemanded(rules: seq<Rule>, fold: string -> string)
    ensures var e := Fold(rules, fold);
            |e.reviewers| > 0 || |e.evidence| > 0 <==> exists r | r in rules :: Demands(r)
  {
    hide AddEvidence, AddReviewers;
    if rules != [] {
      var last := rules[|rules| - 1];
      var before := Fold(rules[..|rules| - 1], fold);
      AccumulatesExactlyWhenDemanded(rules[..|rules| - 1], fold);
      AddEvidenceEmpty(before.evidence, last, last.evidence);
      AddReviewersEmpty(before.reviewers, last, last.reviewers, fold);
      assert rules == rules[..|rules| - 1] + [last];
      assert last in rules && forall r | r in rules[..|rules| - 1] :: r in rules;
    }
  }

  function ClosedStatus(rules: seq<Rule>): DecisionStatus {
    if forall r | r in rules :: !r.block && !Demands(r) then DecisionApproved
    else if rules[|rules| - 1].block || forall r | r in rules :: !Demands(r) then DecisionBlocked
    else DecisionPending
  }

  /** Approved when no matched rule blocks or demands anything; blocked when the last one blocks, or some
    * one blocks and nothing is demanded; pending otherwise. In particular a block is forgotten when a later
    * rule does not block and anything has been demanded by then. */
  lemma {:induction false} DecisionHasClosedForm(rules: seq<Rule>, fold: string -> string)
    ensures Fold(rules, fold).status == ClosedStatus(rules)
  {
    hide AddEvidence, AddReviewers, Demands, ClosedStatus;
    if rules == [] {
      ClosedStatusOfNone();
    } else {
      var before, last := rules[..|rules| - 1], rules[|rules| - 1];
      DecisionHasClosedForm(before, fold);
      AccumulatesExactlyWhenDemanded(rules, fold);
      assert rules == before + [last];
      ClosedStatusNext(before, last);
    }
  }

  lemma ClosedStatusOfNone()
    ensures ClosedStatus([]) == DecisionApproved
  {
  }

  lemma ClosedStatusNext(rules: seq<Rule>, last: Rule)
    ensures ClosedStatus(rules + [last]) ==
            if last.block then DecisionBlocked
            else if exists r | r in rules + [last] :: Demands(r) then DecisionPending
            else ClosedStatus(rules)
  {
    hide Demands;
    var all := rules + [last];
    assert all[|rules|] == last && last in all;
    assert forall r :: r in all <==> r in rules || r == last;
  }

  /** When some matched rule blocks, the decision stays blocked exactly when the last matched rule blocks or
    * no matched rule demands a reviewer or evidence. */
  lemma BlockSurvivesExactlyWhen(rules: seq<Rule>, fold: string -> string)
    requires exists r | r in rules :: r.block
    ensures Fold(rules, fold).status.DecisionBlocked? <==>
            rules[|rules| - 1].block || forall r | r in rules :: !Demands(r)
  {
    DecisionHasClosedForm(rules, fold);
  }

  /** For a rule that only blocks and one that only demands, which comes first decides: the block is forgotten
    * when the other rule follows it, though its violation is recorded either way. */
  lemma BlockCanBeForgotten(freeze: Rule, tests: Rule, fold: string -> string)
    requires freeze.block && !Demands(freeze) && !tests.block && Demands(tests)
    ensures Fold([freeze, tests], fold).status == DecisionPending
    ensures Fold([tests, freeze], fold).status == DecisionBlocked
    ensures Fold([freeze, tests], fold).violations == [Violation(freeze)]
  {
    hide Fold, Demands, Violation;
    assert freeze in [freeze, tests] && tests in [freeze, tests] && tests in [tests, freeze];
    DecisionHasClosedForm([freeze, tests], fold);
    DecisionHasClosedForm([tests, freeze], fold);
    ViolationPerBlock([freeze, tests], fold);
    BlockingRulesAppend([freeze], tests);
    BlockingRulesAppend([], freeze);
    assert [freeze] + [tests] == [freeze, tests] && [] + [freeze] == [freeze];
  }

  function BlockingRules(rules: seq<Rule>): seq<Rule> {
    if rules == [] then []
    else (if rules[0].block then [rules[0]] else []) + BlockingRules(rules[1..])
  }

  lemma {:induction false} BlockingRulesAppend(rules: seq<Rule>, last: Rule)
    ensures BlockingRules(rules + [last]) == BlockingRules(rules) + if last.block then [last] else []
  {
    if rules == [] {
      assert rules + [last] == [last];
    } else {
      BlockingRulesAppend(rules[1..], last);
      assert (rules + [last])[1..] == rules[1..] + [last];
    }
  }

  /** One violation per blocking rule, in order, whatever the decision ends up as. */
  lemma {:induction false} ViolationPerBlock(rules: seq<Rule>, fold: string -> string)
    ensures var violations := Fold(rules, fold).violations;
            && |violations| == |BlockingRules(rules)|
            && forall i | 0 <= i < |violations| :: violations[i] == Violation(BlockingRules(rules)[i])
  {
    if rules != [] {
      var before, last := rules[..|rules| - 1], rules[|rules| - 1];
      ViolationPerBlock(before, fold);
      BlockingRulesAppend(before, last);
      assert rules == before + [last];
    }
  }

  // ---- Evidence -------------------------------------------------------------------------------------

  /** The requirement of that name. */
  function Lookup(values: seq<EvidenceRequirement>, name: string): Option<EvidenceRequirement> {
    ControlPlane.FindRequirement(values, name)
  }

  ghost predicate DistinctNames(values: seq<EvidenceRequirement>) {
    forall i, j | 0 <= i < j < |values| :: values[i].name != values[j].name
  }

  lemma {:induction false} DistinctLookup(values: seq<EvidenceRequirement>, e: EvidenceRequirement)
    requires DistinctNames(values) && e in values
    ensures Lookup(values, e.name) == Some(e)
  {
    if values[0] != e {
      assert values == [values[0]] + values[1..];
      var i :| 0 < i < |values| && values[i] == e;
      DistinctLookup(values[1..], e);
    }
  }

  lemma {:induction false} LookupIsMember(values: seq<EvidenceRequirement>, name: string)
    requires Lookup(values, name).Some?
    ensures Lookup(values, name).value in values && Lookup(values, name).value.name == name
  {
    if values[0].name != name {
      LookupIsMember(values[1..], name);
      assert values == [values[0]] + values[1..];
    }
  }

  lemma {:induction false} LookupMerged(values: seq<EvidenceRequirement>, candidate: EvidenceRequirement, name: string)
    ensures Lookup(MergeEvidence(values, candidate), name) ==
            if name != candidate.name then Lookup(values, name)
            else match Lookup(values, name)
                 case None => Some(candidate)
                 case Some(v) => Some(if v.githubCheck.None? then v.(githubCheck := candidate.githubCheck) else v)
  {
    var merged := MergeEvidence(values, candidate);
    if values == [] {
      assert merged[1..] == [];
    } else if values[0].name == candidate.name {
      assert merged[1..] == values[1..];
    } else {
      LookupMerged(values[1..], candidate, name);
      assert merged[1..] == MergeEvidence(values[1..], candidate);
    }
  }

  lemma {:induction false} MergedNamesDistinct(values: seq<EvidenceRequirement>, candidate: EvidenceRequirement)
    requires DistinctNames(values)
    ensures DistinctNames(MergeEvidence(values, candidate))
    ensures forall v | v in MergeEvidence(values, candidate) ::
              v.name == candidate.name || exists w | w in values :: w.name == v.name
  {
    if values != [] && values[0].name != candidate.name {
      hide DistinctNames;
      DistinctHead(values);
      MergedNamesDistinct(values[1..], candidate);
      assert values == [values[0]] + values[1..];
      DistinctCons(values[0], MergeEvidence(values[1..], candidate));
    }
  }

  lemma DistinctHead(values: seq<EvidenceRequirement>)
    requires DistinctNames(values) && values != []
    ensures DistinctNames(values[1..]) && forall w | w in values[1..] :: w.name != values[0].name
  {
    forall w | w in values[1..]
      ensures w.name != values[0].name
    {
      var i :| 0 <= i < |values[1..]| && values[1..][i] == w;
      assert values[i + 1] == w;
    }
  }

  lemma DistinctCons(first: EvidenceRequirement, rest: seq<EvidenceRequirement>)
    requires DistinctNames(rest) && forall w | w in rest :: w.name != first.name
    ensures DistinctNames([first] + rest)
  {
  }

  ghost predicate Binds(rule: Rule, name: string, check: CheckBinding) {
    name in rule.evidence && BindingFor(rule.checks, name) == Some(check)
  }

  /** What the evidence says about the rules folded so far. */
  ghost predicate Reflects(found: Option<EvidenceRequirement>, rules: seq<Rule>, name: string) {
    match found
    case None => forall r | r in rules :: name !in r.evidence
    case Some(e) =>
      && e.name == name && e.required
      && (exists r | r in rules :: name in r.evidence)
      && (e.githubCheck.Some? ==> exists r | r in rules :: Binds(r, name, e.githubCheck.value))
      && (e.githubCheck.None? ==> forall r, c | r in rules :: !Binds(r, name, c))
  }

  lemma {:induction false} LookupAdded(values: seq<EvidenceRequirement>, rule: Rule, names: seq<string>, name: string)
    ensures Lookup(AddEvidence(values, rule, names), name) ==
            if name !in names then Lookup(values, name)
            else match Lookup(values, name)
                 case None => Some(Requirement(rule, name))
                 case Some(v) =>
                   Some(if v.githubCheck.None? then v.(githubCheck := BindingFor(rule.checks, name)) else v)
  {
    if names != [] {
      var before, last := names[..|names| - 1], names[|names| - 1];
      LookupAdded(values, rule, before, name);
      LookupMerged(AddEvidence(values, rule, before), Requirement(rule, last), name);
      assert names == before + [last];
    }
  }

  lemma {:induction false} AddedNamesDistinct(values: seq<EvidenceRequirement>, rule: Rule, names: seq<string>)
    requires DistinctNames(values)
    ensures DistinctNames(AddEvidence(values, rule, names))
  {
    if names != [] {
      AddedNamesDistinct(values, rule, names[..|names| - 1]);
      MergedNamesDistinct(AddEvidence(values, rule, names[..|names| - 1]), Requirement(rule, names[|names| - 1]));
    }
  }

  lemma {:induction false} EvidenceReflectsRules(rules: seq<Rule>, fold: string -> string, name: string)
    ensures DistinctNames(Fold(rules, fold).evidence)
    ensures Reflects(Lookup(Fold(rules, fold).evidence, name), rules, name)
  {
    if rules != [] {
      var before, last := rules[..|rules| - 1], rules[|rules| - 1];
      EvidenceReflectsRules(before, fold, name);
      AddedNamesDistinct(Fold(before, fold).evidence, last, last.evidence);
      LookupAdded(Fold(before, fold).evidence, last, last.evidence, name);
      assert rules == before + [last];
      ReflectsNext(Lookup(Fold(before, fold).evidence, name), before, last, name);
    }
  }

  lemma ReflectsNext(found: Option<EvidenceRequirement>, rules: seq<Rule>, last: Rule, name: string)
    requires Reflects(found, rules, name)
    ensures Reflects(if name !in last.evidence then found
                     else match found
                          case None => Some(Requirement(last, name))
                          case Some(v) =>
                            Some(if v.githubCheck.None? then v.(githubCheck := BindingFor(last.checks, name)) else v),
                     rules + [last], name)
  {
    var binding := BindingFor(last.checks, name);
    if name in last.evidence {
      assert last in rules + [last];
      if binding.Some? {
        assert Binds(last, name, binding.value);
      }
    }
    forall r | r in rules
      ensures r in rules + [last]
    {
    }
  }

  lemma {:induction false} BindingForIsPresent(checks: seq<Binding>, name: string)
    ensures var found := BindingFor(checks, name);
            && (found.Some? ==> Binding(name, found.value.name, found.value.appId) in checks)
            && (found.None? ==> forall b | b in checks :: b.evidence != name)
  {
    if checks != [] {
      BindingForIsPresent(checks[1..], name);
      assert checks == [checks[0]] + checks[1..];
    }
  }

  /** In an acceptable configuration a name has one binding. */
  lemma BindsOneCheck(rules: seq<Rule>, r: Rule, s: Rule, name: string, c: CheckBinding, d: CheckBinding)
    requires BindingsCompatible(rules) && r in rules && s in rules
    requires Binds(r, name, c) && Binds(s, name, d)
    ensures c == d
  {
    BindingForIsPresent(r.checks, name);
    BindingForIsPresent(s.checks, name);
    assert Compatible(Binding(name, c.name, c.appId), Binding(name, d.name, d.appId));
  }

  /** The other way round: a check is bound to one name. */
  lemma CheckBindsOneName(rules: seq<Rule>, r: Rule, s: Rule, name: string, other: string, c: CheckBinding)
    requires BindingsCompatible(rules) && r in rules && s in rules
    requires Binds(r, name, c) && Binds(s, other, c)
    ensures name == other
  {
    BindingForIsPresent(r.checks, name);
    BindingForIsPresent(s.checks, other);
    assert Compatible(Binding(name, c.name, c.appId), Binding(other, c.name, c.appId));
  }

  /** For compatible rules, evidence names are distinct, a requirement carries the one binding any matched
    * rule gives its name and carries one exactly when there is one, and no two requirements share a check. */
  lemma EvidenceIsUnambiguous(rules: seq<Rule>, fold: string -> string)
    requires BindingsCompatible(rules)
    ensures var evidence := Fold(rules, fold).evidence;
            && DistinctNames(evidence)
            && (forall e | e in evidence :: e.required && exists r | r in rules :: e.name in r.evidence)
            && (forall r, name | r in rules && name in r.evidence :: Names(evidence, name))
            && (forall e, c | e in evidence :: e.githubCheck == Some(c) <==>
                exists r | r in rules :: Binds(r, e.name, c))
            && (forall e, f | e in evidence && f in evidence && e.githubCheck.Some? && e.githubCheck == f.githubCheck ::
                e == f)
  {
    var evidence := Fold(rules, fold).evidence;
    EvidenceReflectsRules(rules, fold, "");
    forall e | e in evidence
      ensures Lookup(evidence, e.name) == Some(e) && Reflects(Some(e), rules, e.name)
      ensures forall c :: e.githubCheck == Some(c) <==> exists r | r in rules :: Binds(r, e.name, c)
    {
      DistinctLookup(evidence, e);
      EvidenceReflectsRules(rules, fold, e.name);
      forall c, r | r in rules && Binds(r, e.name, c)
        ensures e.githubCheck == Some(c)
      {
        var s :| s in rules && Binds(s, e.name, e.githubCheck.value);
        BindsOneCheck(rules, r, s, e.name, c, e.githubCheck.value);
      }
    }
    forall r, name | r in rules && name in r.evidence
      ensures Names(evidence, name)
    {
      EvidenceReflectsRules(rules, fold, name);
      ControlPlane.FindRequirementFinds(evidence, name);
    }
    forall e, f | e in evidence && f in evidence && e.githubCheck.Some? && e.githubCheck == f.githubCheck
      ensures e == f
    {
      var c := e.githubCheck.value;
      var r :| r in rules && Binds(r, e.name, c);
      var s :| s in rules && Binds(s, f.name, c);
      CheckBindsOneName(rules, r, s, e.name, f.name, c);
    }
  }

  /** So the first requirement a check run matches is the only one. */
  lemma FirstMatchIsTheOnlyMatch(rules: seq<Rule>, fold: string -> string, name: string, appId: int,
                                 e: EvidenceRequirement)
    requires BindingsCompatible(rules)
    requires e in Fold(rules, fold).evidence && e.githubCheck == Some(CheckBinding(name, appId))
    ensures CheckRuns.MatchingRequirement(Fold(rules, fold).evidence, name, appId) == Some(e)
  {
    EvidenceIsUnambiguous(rules, fold);
    CheckRuns.MatchingRequirementMatches(Fold(rules, fold).evidence, name, appId);
  }

  // ---- Reviewers, lane, deployment --------------------------------------------------------------------

  ghost predicate Asked(rules: seq<Rule>, key: string, fold: string -> string) {
    exists r, t | r in rules && t in r.reviewers :: fold(t) == key
  }

  predicate HasTeam(values: seq<ReviewerRequirement>, key: string, fold: string -> string) {
    exists v | v in values :: fold(v.team) == key
  }

  ghost predicate TeamsDistinct(values: seq<ReviewerRequirement>, fold: string -> string) {
    forall i, j | 0 <= i < j < |values| :: fold(values[i].team) != fold(values[j].team)
  }

  lemma {:induction false} AddedTeams(values: seq<ReviewerRequirement>, rule: Rule, teams: seq<string>,
                                      fold: string -> string, key: string)
    requires TeamsDistinct(values, fold) && forall v | v in values :: v.mandatory
    ensures var added := AddReviewers(values, rule, teams, fold);
            && TeamsDistinct(added, fold)
            && (forall v | v in added :: v.mandatory)
            && (HasTeam(added, key, fold) <==> HasTeam(values, key, fold) || exists t | t in teams :: fold(t) == key)
  {
    if teams != [] {
      var before, last := teams[..|teams| - 1], teams[|teams| - 1];
      AddedTeams(values, rule, before, fold, key);
      var smaller := AddReviewers(values, rule, before, fold);
      var added := AddReviewers(values, rule, teams, fold);
      assert teams == before + [last];
      if added != smaller {
        assert added == smaller + [Reviewer(rule, last)];
        assert HasTeam(added, key, fold) <==> HasTeam(smaller, key, fold) || fold(last) == key;
      } else {
        assert exists v | v in smaller :: fold(v.team) == fold(last);
      }
    }
  }

  /** Up to case folding each team asked for appears once, and every reviewer is mandatory. */
  lemma {:induction false} ReviewersAreThoseAsked(rules: seq<Rule>, fold: string -> string, key: string)
    ensures var reviewers := Fold(rules, fold).reviewers;
            && TeamsDistinct(reviewers, fold)
            && (forall v | v in reviewers :: v.mandatory)
            && (HasTeam(reviewers, key, fold) <==> Asked(rules, key, fold))
  {
    hide TeamsDistinct, HasTeam, Asked, AddReviewers, AddEvidence;
    if rules == [] {
      NobodyAsked(key, fold);
    } else {
      var before, last := rules[..|rules| - 1], rules[|rules| - 1];
      ReviewersAreThoseAsked(before, fold, key);
      AddedTeams(Fold(before, fold).reviewers, last, last.reviewers, fold, key);
      assert rules == before + [last];
      AskedMore(before, last, key, fold);
    }
  }

  lemma NobodyAsked(key: string, fold: string -> string)
    ensures TeamsDistinct([], fold) && !HasTeam([], key, fold) && !Asked([], key, fold)
  {
  }

  lemma AskedMore(rules: seq<Rule>, last: Rule, key: string, fold: string -> string)
    ensures Asked(rules + [last], key, fold) <==>
            Asked(rules, key, fold) || exists t | t in last.reviewers :: fold(t) == key
  {
    assert forall r :: r in rules + [last] <==> r in rules || r == last;
  }

  /** The minimum lane is a highest lane among the rules. */
  lemma {:induction false} LaneIsHighest(rules: seq<Rule>, fold: string -> string)
    requires forall r | r in rules :: !r.minimumLane.MergeLaneOther?
    ensures var lane := Fold(rules, fold).minimumLane;
            && !lane.MergeLaneOther?
            && (forall r | r in rules :: Lanes.LaneOrder(r.minimumLane) <= Lanes.LaneOrder(lane))
            && (lane.MergeLaneUnset? || exists r | r in rules :: r.minimumLane == lane)
  {
    if rules != [] {
      var before, last := rules[..|rules| - 1], rules[|rules| - 1];
      assert rules == before + [last];
      assert last in rules && forall r | r in before :: r in rules;
      LaneIsHighest(before, fold);
    }
  }

  /** Flags accumulate by disjunction. */
  lemma {:induction false} FlagsAreDisjunctions(rules: seq<Rule>, fold: string -> string)
    ensures var d := Fold(rules, fold).deployment;
            && (d.requiresCanary <==> exists r | r in rules :: r.deployment.requiresCanary)
            && (d.requiresRollbackPlan <==> exists r | r in rules :: r.deployment.requiresRollbackPlan)
  {
    if rules != [] {
      var before, last := rules[..|rules| - 1], rules[|rules| - 1];
      FlagsAreDisjunctions(before, fold);
      assert rules == before + [last];
      assert last in rules && forall r | r in before :: r in rules;
    }
  }

  // ---- Order independence -----------------------------------------------------------------------------

  function MatchesOf(matches: Rule -> bool): Rule -> multiset<Rule> {
    (r: Rule) => if matches(r) then multiset{r} else multiset{}
  }

  function KeyOf(lower: string -> string): Rule -> multiset<string> {
    (r: Rule) => multiset{NameKey(r, lower)}
  }

  function ViolationsOf(rule: Rule): multiset<PolicyViolation> {
    if rule.block then multiset{Violation(rule)} else multiset{}
  }

  function EnvironmentsOf(rule: Rule): multiset<string> {
    multiset(rule.deployment.environments)
  }

  lemma {:induction false} MatchedBag(rules: seq<Rule>, matches: Rule -> bool)
    ensures multiset(Matched(rules, matches)) == Bag(rules, MatchesOf(matches))
  {
    if rules != [] {
      MatchedBag(rules[..|rules| - 1], matches);
    }
  }

  lemma {:induction false} ViolationsBag(rules: seq<Rule>, fold: string -> string)
    ensures multiset(Fold(rules, fold).violations) == Bag(rules, ViolationsOf)
  {
    if rules != [] {
      ViolationsBag(rules[..|rules| - 1], fold);
    }
  }

  lemma {:induction false} EnvironmentsBag(rules: seq<Rule>, fold: string -> string)
    ensures multiset(Fold(rules, fold).deployment.environments) == Bag(rules, EnvironmentsOf)
  {
    if rules != [] {
      EnvironmentsBag(rules[..|rules| - 1], fold);
    }
  }

  /** Two evaluations that differ at most in who asked first: texts, casing, order, deployment strategy, and
    * which of blocked and pending an unapproved change is. */
  ghost predicate SameRequirements(e: Evaluation, f: Evaluation, fold: string -> string) {
    && (forall name :: Lookup(e.evidence, name).Some? <==> Lookup(f.evidence, name).Some?)
    && (forall name :: Lookup(e.evidence, name).Some? && Lookup(f.evidence, name).Some? ==>
          Lookup(e.evidence, name).value.githubCheck == Lookup(f.evidence, name).value.githubCheck)
    && (forall key :: HasTeam(e.reviewers, key, fold) <==> HasTeam(f.reviewers, key, fold))
    && e.minimumLane == f.minimumLane
    && e.deployment.requiresCanary == f.deployment.requiresCanary
    && e.deployment.requiresRollbackPlan == f.deployment.requiresRollbackPlan
    && multiset(e.deployment.environments) == multiset(f.deployment.environments)
    && multiset(e.violations) == multiset(f.violations)
    && (e.status.DecisionApproved? <==> f.status.DecisionApproved?)
  }

  lemma SameEvidence(a: seq<Rule>, b: seq<Rule>, fold: string -> string, name: string)
    requires forall r :: r in a <==> r in b
    requires BindingsCompatible(a)
    ensures var e, f := Lookup(Fold(a, fold).evidence, name), Lookup(Fold(b, fold).evidence, name);
            && (e.Some? <==> f.Some?)
            && (e.Some? && f.Some? ==> e.value.githubCheck == f.value.githubCheck)
  {
    EvidenceReflectsRules(a, fold, name);
    EvidenceReflectsRules(b, fold, name);
    var e, f := Lookup(Fold(a, fold).evidence, name), Lookup(Fold(b, fold).evidence, name);
    if e.Some? && e.value.githubCheck.Some? {
      var r :| r in a && Binds(r, name, e.value.githubCheck.value);
      assert r in b;
      if f.Some? && f.value.githubCheck.Some? {
        var s :| s in b && Binds(s, name, f.value.githubCheck.value);
        BindsOneCheck(a, r, s, name, e.value.githubCheck.value, f.value.githubCheck.value);
      }
    }
  }

  lemma FoldIgnoresOrder(a: seq<Rule>, b: seq<Rule>, fold: string -> string)
    requires multiset(a) == multiset(b)
    requires BindingsCompatible(a)
    requires forall r | r in a :: !r.minimumLane.MergeLaneOther?
    ensures SameRequirements(Fold(a, fold), Fold(b, fold), fold)
  {
    hide Fold, HasTeam, Lookup, ClosedStatus, Bag;
    SameMembers(a, b);
    forall name {
      SameEvidence(a, b, fold, name);
    }
    forall key
      ensures HasTeam(Fold(a, fold).reviewers, key, fold) <==> HasTeam(Fold(b, fold).reviewers, key, fold)
    {
      ReviewersAreThoseAsked(a, fold, key);
      ReviewersAreThoseAsked(b, fold, key);
    }
    SameLane(a, b, fold);
    FlagsAreDisjunctions(a, fold);
    FlagsAreDisjunctions(b, fold);
    ViolationsBag(a, fold);
    ViolationsBag(b, fold);
    BagIgnoresOrder(a, b, ViolationsOf);
    EnvironmentsBag(a, fold);
    EnvironmentsBag(b, fold);
    BagIgnoresOrder(a, b, EnvironmentsOf);
    SameApproval(a, b, fold);
  }

  lemma SameLane(a: seq<Rule>, b: seq<Rule>, fold: string -> string)
    requires forall r :: r in a <==> r in b
    requires forall r | r in a :: !r.minimumLane.MergeLaneOther?
    ensures Fold(a, fold).minimumLane == Fold(b, fold).minimumLane
  {
    hide Fold;
    LaneIsHighest(a, fold);
    LaneIsHighest(b, fold);
  }

  lemma SameApproval(a: seq<Rule>, b: seq<Rule>, fold: string -> string)
    requires forall r :: r in a <==> r in b
    ensures Fold(a, fold).status.DecisionApproved? <==> Fold(b, fold).status.DecisionApproved?
  {
    hide Fold;
    DecisionHasClosedForm(a, fold);
    DecisionHasClosedForm(b, fold);
  }

  lemma {:induction false} KeysBag(rules: seq<Rule>, lower: string -> string, key: string)
    ensures key in Bag(rules, KeyOf(lower)) <==> exists r | r in rules :: NameKey(r, lower) == key
  {
    if rules != [] {
      var before, last := rules[..|rules| - 1], rules[|rules| - 1];
      KeysBag(before, lower, key);
      assert rules == before + [last];
      assert last in rules && forall r | r in before :: r in rules;
    }
  }

  lemma NamesDistinctNext(rules: seq<Rule>, last: Rule, lower: string -> string)
    ensures NamesDistinct(rules + [last], lower) <==>
            NamesDistinct(rules, lower) && forall r | r in rules :: NameKey(r, lower) != NameKey(last, lower)
  {
    hide NameKey;
    var all := rules + [last];
    assert forall i | 0 <= i < |rules| :: all[i] == rules[i];
    if NamesDistinct(all, lower) {
      forall r | r in rules
        ensures NameKey(r, lower) != NameKey(last, lower)
      {
        var i :| 0 <= i < |rules| && rules[i] == r;
        assert NameKey(all[i], lower) != NameKey(all[|rules|], lower);
      }
    }
  }

  /** Name keys are distinct exactly when no key occurs twice in the bag of keys, which ignores order. */
  lemma {:induction false} DistinctByBag(rules: seq<Rule>, lower: string -> string)
    ensures NamesDistinct(rules, lower) <==> AtMostOnce(Bag(rules, KeyOf(lower)))
  {
    hide NameKey, NamesDistinct;
    if rules == [] {
      NoNames(lower);
    } else {
      var before, last := rules[..|rules| - 1], rules[|rules| - 1];
      var bag := Bag(before, KeyOf(lower));
      DistinctByBag(before, lower);
      NamesDistinctNext(before, last, lower);
      assert rules == before + [last];
      KeysBag(before, lower, NameKey(last, lower));
      hide AtMostOnce;
      AtMostOnceAdd(bag, NameKey(last, lower));
      assert Bag(rules, KeyOf(lower)) == bag + multiset{NameKey(last, lower)};
    }
  }

  ghost predicate AtMostOnce(bag: multiset<string>) {
    forall key :: bag[key] <= 1
  }

  lemma AtMostOnceAdd(bag: multiset<string>, key: string)
    ensures AtMostOnce(bag + multiset{key}) <==> AtMostOnce(bag) && key !in bag
  {
    if AtMostOnce(bag + multiset{key}) {
      assert (bag + multiset{key})[key] <= 1;
      forall k
        ensures bag[k] <= 1
      {
        assert (bag + multiset{key})[k] <= 1;
      }
    }
  }

  lemma NoNames(lower: string -> string)
    ensures NamesDistinct([], lower)
  {
  }

  lemma AcceptanceIgnoresOrder(a: seq<Rule>, b: seq<Rule>, lower: string -> string)
    requires multiset(a) == multiset(b) && Acceptable(a, lower)
    ensures Acceptable(b, lower)
  {
    hide RuleAcceptable, NameKey, NamesDistinct, Bag;
    SameMembers(a, b);
    DistinctByBag(a, lower);
    DistinctByBag(b, lower);
    BagIgnoresOrder(a, b, KeyOf(lower));
    forall i | 0 <= i < |b|
      ensures RuleAcceptable(b[i])
    {
      assert b[i] in b;
      var j :| 0 <= j < |a| && a[j] == b[i];
    }
  }

  lemma {:induction false} MatchedAreRules(rules: seq<Rule>, matches: Rule -> bool, r: Rule)
    ensures r in Matched(rules, matches) <==> r in rules && matches(r)
  {
    if rules != [] {
      MatchedAreRules(rules[..|rules| - 1], matches, r);
      assert rules == rules[..|rules| - 1] + [rules[|rules| - 1]];
    }
  }

  /** Reordering the rules of an acceptable configuration keeps it acceptable and changes no requirement,
    * lane or flag, no environment or violation, and not whether the change is approved. */
  lemma RuleOrderIsIrrelevant(a: seq<Rule>, b: seq<Rule>, matches: Rule -> bool, lower: string -> string,
                              fold: string -> string)
    requires multiset(a) == multiset(b) && Acceptable(a, lower)
    ensures Acceptable(b, lower)
    ensures SameRequirements(Fold(Matched(a, matches), fold), Fold(Matched(b, matches), fold), fold)
  {
    AcceptanceIgnoresOrder(a, b, lower);
    MatchedBag(a, matches);
    MatchedBag(b, matches);
    BagIgnoresOrder(a, b, MatchesOf(matches));
    MatchedIsAcceptable(a, matches, lower);
    FoldIgnoresOrder(Matched(a, matches), Matched(b, matches), fold);
  }

  /** What the matched rules of an acceptable configuration inherit from it. */
  lemma MatchedIsAcceptable(rules: seq<Rule>, matches: Rule -> bool, lower: string -> string)
    requires Acceptable(rules, lower)
    ensures BindingsCompatible(Matched(rules, matches))
    ensures forall r | r in Matched(rules, matches) :: !r.minimumLane.MergeLaneOther?
  {
    forall r | r in Matched(rules, matches)
      ensures r in rules && !r.minimumLane.MergeLaneOther?
    {
      MatchedAreRules(rules, matches, r);
      var i :| 0 <= i < |rules| && rules[i] == r;
      assert RuleAcceptable(rules[i]);
    }
  }

  // ---- What does depend on order ------------------------------------------------------------------------

  /** Some two orders of the rules lead to different decisions. */
  ghost predicate OrderMatters(rules: seq<Rule>, fold: string -> string) {
    exists a, b :: StatusesDiffer(a, b, rules, fold)
  }

  ghost predicate StatusesDiffer(a: seq<Rule>, b: seq<Rule>, rules: seq<Rule>, fold: string -> string) {
    && multiset(a) == multiset(rules) && multiset(b) == multiset(rules)
    && Fold(a, fold).status != Fold(b, fold).status
  }

  /** The order of the matched rules can change the decision exactly when some rule blocks, some rule does not,
    * and some rule demands a reviewer or evidence. */
  lemma OrderMattersExactlyWhen(rules: seq<Rule>, fold: string -> string)
    ensures OrderMatters(rules, fold) <==>
              && (exists r | r in rules :: r.block)
              && (exists r | r in rules :: !r.block)
              && (exists r | r in rules :: Demands(r))
  {
    hide Fold, Demands;
    if OrderMatters(rules, fold) {
      var a, b :| StatusesDiffer(a, b, rules, fold);
      SameMembers(a, rules);
      SameMembers(b, rules);
      DecisionHasClosedForm(a, fold);
      DecisionHasClosedForm(b, fold);
      OnlyMixedRulesDiffer(rules, a, b);
    }
    if r, s, t :| r in rules && s in rules && t in rules && r.block && !s.block && Demands(t) {
      var a := EndingIn(rules, r);
      var b := EndingIn(rules, s);
      SameMembers(a, rules);
      SameMembers(b, rules);
      DecisionHasClosedForm(a, fold);
      DecisionHasClosedForm(b, fold);
      assert t in a && t in b && r in a && r in b;
      assert StatusesDiffer(a, b, rules, fold);
    }
  }

  lemma OnlyMixedRulesDiffer(rules: seq<Rule>, a: seq<Rule>, b: seq<Rule>)
    requires (forall r :: r in a <==> r in rules) && forall r :: r in b <==> r in rules
    requires ClosedStatus(a) != ClosedStatus(b)
    ensures exists r | r in rules :: r.block
    ensures exists r | r in rules :: !r.block
    ensures exists r | r in rules :: Demands(r)
  {
    hide Demands;
    if a != [] && b != [] {
      assert a[|a| - 1] in a && b[|b| - 1] in b;
    }
  }

  /** The same rules in an order that ends in the given one. */
  lemma EndingIn(rules: seq<Rule>, last: Rule) returns (order: seq<Rule>)
    requires last in rules
    ensures multiset(order) == multiset(rules)
    ensures order != [] && order[|order| - 1] == last
  {
    var i :| 0 <= i < |rules| && rules[i] == last;
    order := rules[..i] + rules[i + 1..] + [last];
    Without(rules, i);
  }

  /** The deployment strategy is that of the last rule that names one, direct when none does. */
  lemma {:induction false} StrategyIsTheLastNamed(rules: seq<Rule>, fold: string -> string, i: int)
    requires -1 <= i < |rules|
    requires i >= 0 ==> rules[i].deployment.strategy != ""
    requires forall j | i < j < |rules| :: rules[j].deployment.strategy == ""
    ensures Fold(rules, fold).deployment.strategy == if i < 0 then "direct" else rules[i].deployment.strategy
  {
    if |rules| > 0 && i < |rules| - 1 {
      StrategyIsTheLastNamed(rules[..|rules| - 1], fold, i);
    }
  }
}
