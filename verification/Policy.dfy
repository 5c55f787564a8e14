/** The policy engine: configuration checks, and the fold that turns matched rules into reviewers, evidence,
  * deployment requirements, a decision and a minimum lane. Rule matching is a parameter, as are the two
  * case conversions: lower stands for strings.ToLower, and strings.EqualFold(a, b) is fold(a) == fold(b). */
module Policy {
  import opened Domain
  import opened Text

  datatype Binding = Binding(evidence: string, name: string, appId: int)

  datatype WhenClause = WhenClause(
    mutations: seq<MutationKind>,
    paths: seq<string>,
    criticalities: seq<Criticality>,
    riskScoreGTE: int,
    ownershipTeams: seq<string>)

  datatype DeploymentClause = DeploymentClause(
    strategy: string,
    requiresCanary: bool,
    requiresRollbackPlan: bool,
    environments: seq<string>)

  datatype Rule = Rule(
    name: string,
    description: string,
    when: WhenClause,
    reviewers: seq<string>,
    evidence: seq<string>,
    checks: seq<Binding>,
    deployment: DeploymentClause,
    block: bool,
    minimumLane: MergeLane)

  // ---- Configurations -------------------------------------------------------------------------------

  datatype ConfigError =
    | EmptyName(index: nat)
    | DuplicateName(name: string)
    | NoCondition(index: nat)
    | NoEffect(index: nat)
    | BadWhenClause(index: nat)
    | BadRequirements(index: nat)
    | BadMinimumLane(index: nat)
    | ConflictingBindings(evidence: string)
    | CheckBoundTwice(name: string, appId: int)

  predicate AllNonBlank(values: seq<string>) {
    forall v | v in values :: !Blank(v)
  }

  predicate HasCondition(when: WhenClause) {
    || when.mutations != [] || when.paths != [] || when.criticalities != [] || when.riskScoreGTE != 0
    || when.ownershipTeams != []
  }

  predicate HasEffect(rule: Rule) {
    || rule.reviewers != [] || rule.evidence != [] || rule.checks != []
    || rule.deployment.strategy != "" || rule.deployment.requiresCanary || rule.deployment.requiresRollbackPlan
    || rule.deployment.environments != [] || rule.block || !rule.minimumLane.MergeLaneUnset?
  }

  predicate WhenAcceptable(when: WhenClause) {
    && (forall m | m in when.mutations :: !m.MutationOther?)
    && (forall c | c in when.criticalities :: !c.CriticalityOther?)
    && 0 <= when.riskScoreGTE <= 100
    && AllNonBlank(when.paths)
    && AllNonBlank(when.ownershipTeams)
  }

  predicate BindingAcceptable(binding: Binding, evidence: seq<string>) {
    !Blank(binding.evidence) && !Blank(binding.name) && binding.appId > 0 && binding.evidence in evidence
  }

  ghost predicate RequirementsAcceptable(rule: Rule) {
    && AllNonBlank(rule.reviewers)
    && AllNonBlank(rule.evidence)
    && (forall i | 0 <= i < |rule.checks| :: BindingAcceptable(rule.checks[i], rule.evidence))
    && (forall i, j | 0 <= i < j < |rule.checks| :: rule.checks[i].evidence != rule.checks[j].evidence)
    && AllNonBlank(rule.deployment.environments)
    && StrategyAcceptable(rule.deployment.strategy)
  }

  predicate StrategyAcceptable(strategy: string) {
    strategy in ["", "direct", "canary", "phased", "manual_approval"]
  }

  ghost predicate RuleAcceptable(rule: Rule) {
    && !Blank(rule.name)
    && HasCondition(rule.when)
    && HasEffect(rule)
    && WhenAcceptable(rule.when)
    && RequirementsAcceptable(rule)
    && !rule.minimumLane.MergeLaneOther?
  }

  function NameKey(rule: Rule, lower: string -> string): string {
    lower(TrimSpace(rule.name))
  }

  /** Across rules, an evidence name has one binding and a check has one evidence name. */
  predicate Compatible(a: Binding, b: Binding) {
    && (a.evidence == b.evidence ==> a == b)
    && (a.name == b.name && a.appId == b.appId ==> a.evidence == b.evidence)
  }

  ghost predicate BindingsCompatible(rules: seq<Rule>) {
    forall r, s, a, b | r in rules && s in rules && a in r.checks && b in s.checks :: Compatible(a, b)
  }

  ghost predicate NamesDistinct(rules: seq<Rule>, lower: string -> string) {
    forall i, j | 0 <= i < j < |rules| :: NameKey(rules[i], lower) != NameKey(rules[j], lower)
  }

  /** The configurations the engine works with. */
  ghost predicate Acceptable(rules: seq<Rule>, lower: string -> string) {
    && (forall i | 0 <= i < |rules| :: RuleAcceptable(rules[i]))
    && NamesDistinct(rules, lower)
    && BindingsCompatible(rules)
  }

  method RequirementsError(rule: Rule) returns (bad: bool)
    ensures bad <==> !RequirementsAcceptable(rule)
  {
    if !AllNonBlank(rule.reviewers) || !AllNonBlank(rule.evidence) {
      return true;
    }
    var boundEvidence: set<string> := {};
    for i := 0 to |rule.checks|
      invariant forall k | 0 <= k < i :: BindingAcceptable(rule.checks[k], rule.evidence)
      invariant forall e :: e in boundEvidence <==> exists k | 0 <= k < i :: rule.checks[k].evidence == e
      invariant forall k, l | 0 <= k < l < i :: rule.checks[k].evidence != rule.checks[l].evidence
    {
      var binding := rule.checks[i];
      if !BindingAcceptable(binding, rule.evidence) || binding.evidence in boundEvidence {
        return true;
      }
      boundEvidence := boundEvidence + {binding.evidence};
    }
    return !AllNonBlank(rule.deployment.environments) || !StrategyAcceptable(rule.deployment.strategy);
  }

  /** The first thing wrong with a rule that has a name. */
  ghost predicate RuleFault(rule: Rule, index: nat, error: ConfigError) {
    match error
    case NoCondition(i) => i == index && !HasCondition(rule.when)
    case NoEffect(i) => i == index && HasCondition(rule.when) && !HasEffect(rule)
    case BadWhenClause(i) => i == index && HasCondition(rule.when) && HasEffect(rule) && !WhenAcceptable(rule.when)
    case BadRequirements(i) =>
      && i == index && HasCondition(rule.when) && HasEffect(rule) && WhenAcceptable(rule.when)
      && !RequirementsAcceptable(rule)
    case BadMinimumLane(i) =>
      && i == index && HasCondition(rule.when) && HasEffect(rule) && WhenAcceptable(rule.when)
      && RequirementsAcceptable(rule) && rule.minimumLane.MergeLaneOther?
    case _ => false
  }

  method RuleError(index: nat, rule: Rule) returns (error: Option<ConfigError>)
    requires !Blank(rule.name)
    ensures error.None? <==> RuleAcceptable(rule)
    ensures error.Some? ==> RuleFault(rule, index, error.value)
  {
    hide HasCondition, HasEffect, WhenAcceptable, RequirementsAcceptable;
    if !HasCondition(rule.when) {
      return Some(NoCondition(index));
    }
    if !HasEffect(rule) {
      return Some(NoEffect(index));
    }
    if !WhenAcceptable(rule.when) {
      return Some(BadWhenClause(index));
    }
    var bad := RequirementsError(rule);
    if bad {
      return Some(BadRequirements(index));
    }
    if rule.minimumLane.MergeLaneOther? {
      return Some(BadMinimumLane(index));
    }
    return None;
  }

  /** All bindings of the first n rules, and of the next rule up to its k-th binding. */
  ghost predicate Seen(rules: seq<Rule>, n: nat, k: nat, binding: Binding)
    requires n <= |rules|
  {
    || (exists r | r in rules[..n] :: binding in r.checks)
    || (n < |rules| && exists i | 0 <= i < k && i < |rules[n].checks| :: rules[n].checks[i] == binding)
  }

  /** The two maps hold exactly what has been seen, and it is compatible. */
  ghost predicate MapsHold(rules: seq<Rule>, n: nat, k: nat, bindings: map<string, Binding>,
                           checks: map<(string, int), string>)
    requires n <= |rules|
  {
    && (forall b | Seen(rules, n, k, b) ::
          && b.evidence in bindings && bindings[b.evidence] == b
          && (b.name, b.appId) in checks && checks[(b.name, b.appId)] == b.evidence)
    && (forall e | e in bindings :: Seen(rules, n, k, bindings[e]) && bindings[e].evidence == e)
    && (forall c | c in checks :: exists b :: Seen(rules, n, k, b) && (b.name, b.appId) == c)
  }

  lemma SeenNext(rules: seq<Rule>, n: nat, k: nat, binding: Binding)
    requires n < |rules| && k < |rules[n].checks|
    ensures Seen(rules, n, k + 1, binding) <==> Seen(rules, n, k, binding) || binding == rules[n].checks[k]
  {
  }

  lemma SeenRule(rules: seq<Rule>, n: nat, binding: Binding)
    requires n < |rules|
    ensures Seen(rules, n + 1, 0, binding) <==> Seen(rules, n, |rules[n].checks|, binding)
  {
    assert rules[..n + 1] == rules[..n] + [rules[n]];
  }

  /** Everything held by the maps is pairwise compatible, since each map has one value per key. */
  lemma HeldIsCompatible(rules: seq<Rule>, n: nat, k: nat, bindings: map<string, Binding>,
                         checks: map<(string, int), string>, a: Binding, b: Binding)
    requires n <= |rules| && MapsHold(rules, n, k, bindings, checks)
    requires Seen(rules, n, k, a) && Seen(rules, n, k, b)
    ensures Compatible(a, b)
  {
  }

  lemma SeenIsPresent(rules: seq<Rule>, n: nat, k: nat, binding: Binding) returns (rule: Rule)
    requires n < |rules| && Seen(rules, n, k, binding)
    ensures rule in rules[..n + 1] && binding in rule.checks
  {
    assert rules[..n + 1] == rules[..n] + [rules[n]];
    if r :| r in rules[..n] && binding in r.checks {
      rule := r;
    } else {
      rule := rules[n];
    }
  }

  /** A binding that clashes with a held one rules the configuration out. */
  lemma ClashIsIncompatible(rules: seq<Rule>, n: nat, k: nat, held: Binding, next: Binding)
    requires n < |rules| && k < |rules[n].checks| && next == rules[n].checks[k]
    requires Seen(rules, n, k, held) && !Compatible(held, next)
    ensures !BindingsCompatible(rules[..n + 1])
    ensures held.evidence == next.evidence && held != next ==>
            BindingFault(rules[..n + 1], ConflictingBindings(next.evidence))
    ensures held.name == next.name && held.appId == next.appId && held.evidence != next.evidence ==>
              BindingFault(rules[..n + 1], CheckBoundTwice(next.name, next.appId))
  {
    hide Seen;
    var r := SeenIsPresent(rules, n, k, held);
    assert rules[..n + 1][n] == rules[n] && next in rules[n].checks;
  }

  lemma MapsHoldNext(rules: seq<Rule>, n: nat, k: nat, bindings: map<string, Binding>,
                     checks: map<(string, int), string>)
    requires n < |rules| && k < |rules[n].checks|
    requires MapsHold(rules, n, k, bindings, checks)
    requires var b := rules[n].checks[k];
             && (b.evidence in bindings ==> bindings[b.evidence] == b)
             && ((b.name, b.appId) in checks ==> checks[(b.name, b.appId)] == b.evidence)
    ensures var b := rules[n].checks[k];
            MapsHold(rules, n, k + 1, bindings[b.evidence := b], checks[(b.name, b.appId) := b.evidence])
  {
    hide Seen;
    var b := rules[n].checks[k];
    forall c {
      SeenNext(rules, n, k, c);
    }
    var next := checks[(b.name, b.appId) := b.evidence];
    forall c | c in next
      ensures exists d :: Seen(rules, n, k + 1, d) && (d.name, d.appId) == c
    {
      if c == (b.name, b.appId) {
        assert Seen(rules, n, k + 1, b);
      } else {
        var d :| Seen(rules, n, k, d) && (d.name, d.appId) == c;
        assert Seen(rules, n, k + 1, d);
      }
    }
  }

  lemma MapsHoldRule(rules: seq<Rule>, n: nat, bindings: map<string, Binding>, checks: map<(string, int), string>)
    requires n < |rules| && MapsHold(rules, n, |rules[n].checks|, bindings, checks)
    ensures MapsHold(rules, n + 1, 0, bindings, checks)
  {
    hide Seen;
    forall b {
      SeenRule(rules, n, b);
    }
    forall c | c in checks
      ensures exists d :: Seen(rules, n + 1, 0, d) && (d.name, d.appId) == c
    {
      var d :| Seen(rules, n, |rules[n].checks|, d) && (d.name, d.appId) == c;
      assert Seen(rules, n + 1, 0, d);
    }
  }

  lemma HeldConfigIsCompatible(rules: seq<Rule>, n: nat, bindings: map<string, Binding>,
                               checks: map<(string, int), string>)
    requires n <= |rules| && MapsHold(rules, n, 0, bindings, checks)
    ensures BindingsCompatible(rules[..n])
  {
    forall r, s, a, b | r in rules[..n] && s in rules[..n] && a in r.checks && b in s.checks
      ensures Compatible(a, b)
    {
      assert Seen(rules, n, 0, a) && Seen(rules, n, 0, b);
      HeldIsCompatible(rules, n, 0, bindings, checks, a, b);
    }
  }

  /** Two bindings of the first rules that clash in the way the error says. */
  ghost predicate BindingFault(rules: seq<Rule>, error: ConfigError) {
    exists r, s, a, b | r in rules && s in rules && a in r.checks && b in s.checks ::
      || (error == ConflictingBindings(a.evidence) && a.evidence == b.evidence && a != b)
      || (error == CheckBoundTwice(a.name, a.appId) && a.name == b.name && a.appId == b.appId
          && a.evidence != b.evidence)
  }

  /** Enters the bindings of rule n into both maps, or stops at a clash. */
  method EnterBindings(rules: seq<Rule>, n: nat, bindings0: map<string, Binding>, checks0: map<(string, int), string>)
    returns (error: Option<ConfigError>, bindings: map<string, Binding>, checks: map<(string, int), string>)
    requires n < |rules| && MapsHold(rules, n, 0, bindings0, checks0)
    ensures error.None? ==> MapsHold(rules, n + 1, 0, bindings, checks)
    ensures error.Some? ==> !BindingsCompatible(rules[..n + 1]) && BindingFault(rules[..n + 1], error.value)
  {
    hide MapsHold, Seen, BindingsCompatible, BindingFault;
    bindings, checks, error := bindings0, checks0, None;
    for k := 0 to |rules[n].checks|
      invariant MapsHold(rules, n, k, bindings, checks)
    {
      var binding := rules[n].checks[k];
      if binding.evidence in bindings && bindings[binding.evidence] != binding {
        EvidenceClash(rules, n, k, bindings, checks);
        return Some(ConflictingBindings(binding.evidence)), bindings, checks;
      }
      var identity := (binding.name, binding.appId);
      if identity in checks && checks[identity] != binding.evidence {
        CheckClash(rules, n, k, bindings, checks);
        return Some(CheckBoundTwice(binding.name, binding.appId)), bindings, checks;
      }
      MapsHoldNext(rules, n, k, bindings, checks);
      bindings := bindings[binding.evidence := binding];
      checks := checks[identity := binding.evidence];
    }
    MapsHoldRule(rules, n, bindings, checks);
  }

  lemma EvidenceClash(rules: seq<Rule>, n: nat, k: nat, bindings: map<string, Binding>,
                      checks: map<(string, int), string>)
    requires n < |rules| && k < |rules[n].checks| && MapsHold(rules, n, k, bindings, checks)
    requires var b := rules[n].checks[k]; b.evidence in bindings && bindings[b.evidence] != b
    ensures !BindingsCompatible(rules[..n + 1])
    ensures BindingFault(rules[..n + 1], ConflictingBindings(rules[n].checks[k].evidence))
  {
    hide Seen, BindingFault, BindingsCompatible;
    var b := rules[n].checks[k];
    ClashIsIncompatible(rules, n, k, bindings[b.evidence], b);
  }

  lemma CheckClash(rules: seq<Rule>, n: nat, k: nat, bindings: map<string, Binding>, checks: map<(string, int), string>)
    requires n < |rules| && k < |rules[n].checks| && MapsHold(rules, n, k, bindings, checks)
    requires var b := rules[n].checks[k]; (b.name, b.appId) in checks && checks[(b.name, b.appId)] != b.evidence
    ensures !BindingsCompatible(rules[..n + 1])
    ensures BindingFault(rules[..n + 1], CheckBoundTwice(rules[n].checks[k].name, rules[n].checks[k].appId))
  {
    hide Seen, BindingFault, BindingsCompatible;
    var b := rules[n].checks[k];
    var held :| Seen(rules, n, k, held) && (held.name, held.appId) == (b.name, b.appId);
    ClashIsIncompatible(rules, n, k, held, b);
  }

  /** The rules up to this one were fine, this one is not, and the error says what is wrong with it: its name,
    * then its own clauses in order, then its bindings against those before. */
  ghost predicate FirstFault(rules: seq<Rule>, n: nat, error: ConfigError, lower: string -> string)
    requires n < |rules|
  {
    && Acceptable(rules[..n], lower) && !Acceptable(rules[..n + 1], lower)
    && var rule := rules[n];
       var repeated := exists k | 0 <= k < n :: NameKey(rules[k], lower) == NameKey(rule, lower);
       match error
       case EmptyName(i) => i == n && Blank(rule.name)
       case DuplicateName(name) => name == TrimSpace(rule.name) && !Blank(rule.name) && repeated
       case ConflictingBindings(_) => !repeated && RuleAcceptable(rule) && BindingFault(rules[..n + 1], error)
       case CheckBoundTwice(_, _) => !repeated && RuleAcceptable(rule) && BindingFault(rules[..n + 1], error)
       case _ => !Blank(rule.name) && !repeated && RuleFault(rule, n, error)
  }

  /** Accepts exactly the acceptable configurations, and otherwise names the first fault. */
  method Validate(rules: seq<Rule>, lower: string -> string) returns (error: Option<ConfigError>)
    ensures error.None? <==> Acceptable(rules, lower)
    ensures error.Some? ==> exists n | 0 <= n < |rules| :: FirstFault(rules, n, error.value, lower)
  {
    hide RuleAcceptable, RuleFault, MapsHold, BindingsCompatible, BindingFault, NamesDistinct, NameKey, Blank,
         TrimSpace;
    var names: set<string> := {};
    var bindings: map<string, Binding> := map[];
    var checks: map<(string, int), string> := map[];
    NothingHeld(rules);
    NoNamesYet(rules, lower);
    for i := 0 to |rules|
      invariant forall k | 0 <= k < i :: RuleAcceptable(rules[k])
      invariant forall name :: name in names <==> exists k | 0 <= k < i :: NameKey(rules[k], lower) == name
      invariant NamesDistinct(rules[..i], lower)
      invariant MapsHold(rules, i, 0, bindings, checks)
    {
      var rule := rules[i];
      HeldConfigIsCompatible(rules, i, bindings, checks);
      PrefixOfAcceptable(rules, i, lower);
      NamesNext(rules, i, lower);
      if Blank(rule.name) {
        BlankNameUnacceptable(rule);
        assert FirstFault(rules, i, EmptyName(i), lower);
        return Some(EmptyName(i));
      }
      var key := NameKey(rule, lower);
      if key in names {
        assert FirstFault(rules, i, DuplicateName(TrimSpace(rule.name)), lower);
        return Some(DuplicateName(TrimSpace(rule.name)));
      }
      names := names + {key};
      error := RuleError(i, rule);
      if error.Some? {
        FaultIsNoOther(rule, i, error.value);
        assert FirstFault(rules, i, error.value, lower);
        return;
      }
      error, bindings, checks := EnterBindings(rules, i, bindings, checks);
      if error.Some? {
        FaultIsBinding(rules[..i + 1], error.value);
        assert FirstFault(rules, i, error.value, lower);
        return;
      }
    }
    assert rules[..|rules|] == rules;
    HeldConfigIsCompatible(rules, |rules|, bindings, checks);
    return None;
  }

  /** If the first rules and the next one are not acceptable together, neither is the configuration. */
  lemma PrefixOfAcceptable(rules: seq<Rule>, n: nat, lower: string -> string)
    requires n < |rules|
    ensures Acceptable(rules, lower) ==> Acceptable(rules[..n + 1], lower)
  {
    hide RuleAcceptable, NameKey, Compatible;
    assert forall r | r in rules[..n + 1] :: r in rules;
  }

  lemma NamesNext(rules: seq<Rule>, n: nat, lower: string -> string)
    requires n < |rules| && NamesDistinct(rules[..n], lower)
    ensures NamesDistinct(rules[..n + 1], lower) <==>
            forall k | 0 <= k < n :: NameKey(rules[k], lower) != NameKey(rules[n], lower)
  {
    hide NameKey;
    assert forall k | 0 <= k < n :: rules[..n + 1][k] == rules[..n][k] == rules[k];
    assert rules[..n + 1][n] == rules[n];
  }

  lemma NoNamesYet(rules: seq<Rule>, lower: string -> string)
    ensures NamesDistinct(rules[..0], lower)
  {
  }

  lemma FaultIsNoOther(rule: Rule, index: nat, error: ConfigError)
    requires RuleFault(rule, index, error)
    ensures !error.EmptyName? && !error.DuplicateName? && !error.ConflictingBindings? && !error.CheckBoundTwice?
  {
  }

  lemma FaultIsBinding(rules: seq<Rule>, error: ConfigError)
    requires BindingFault(rules, error)
    ensures error.ConflictingBindings? || error.CheckBoundTwice?
  {
  }

  lemma BlankNameUnacceptable(rule: Rule)
    requires Blank(rule.name)
    ensures !RuleAcceptable(rule)
  {
  }

  lemma NothingHeld(rules: seq<Rule>)
    ensures MapsHold(rules, 0, 0, map[], map[])
  {
  }
}
