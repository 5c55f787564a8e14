/** Scoring a change: each mutation adds its kind's weight to one risk, the conflict assessment adds its own,
  * and the summary is the clamped total with terms for runtime criticality and change volume. */
module RiskScore {
  import opened Domain
  import opened Bags

  type Weights = map<MutationKind, int>
  type Tally = map<RiskType, Risk>

  const DEFAULT_WEIGHTS: Weights := map[
    MutationAuthBehaviorChange := 35,
    MutationDatabaseSchema := 32,
    MutationRuntimeConfig := 20,
    MutationAPIContract := 26,
    MutationDependency := 15,
    MutationInfrastructure := 28,
    MutationDataAccess := 24,
    MutationDeploymentWorkflow := 24,
    MutationObservabilityContract := 12,
    MutationUnknown := 8
  ]

  /** A kind without a weight adds nothing. */
  function Weight(weights: Weights, kind: MutationKind): int {
    if kind in weights then weights[kind] else 0
  }

  function ClassifyRisk(kind: MutationKind): RiskType {
    match kind
    case MutationAuthBehaviorChange => RiskSecurity
    case MutationDatabaseSchema => RiskSchema
    case MutationRuntimeConfig | MutationDeploymentWorkflow => RiskRollout
    case MutationDependency => RiskDependency
    case _ => RiskRuntime
  }

  function SeverityFromScore(score: int): Severity {
    if score >= 80 then SeverityCritical
    else if score >= 55 then SeverityHigh
    else if score >= 25 then SeverityMedium
    else SeverityLow
  }

  function ClampScore(score: int): int {
    if score > 100 then 100 else if score < 0 then 0 else score
  }

  function ApplyRuntimeCriticality(score: int, criticality: Criticality): int {
    match criticality
    case CriticalityHigh => score + 10
    case CriticalityTier0 => score + 20
    case _ => score
  }

  function ApplyChangeVolume(score: int, fileCount: nat): int {
    if fileCount > 20 then score + 8 else score
  }

  // ---- What the scores mean -------------------------------------------------------------------------

  function WeightOf(weights: Weights): Mutation -> int {
    (m: Mutation) => Weight(weights, m.kind)
  }

  /** What a mutation adds to the risk of one type. */
  function ShareOf(weights: Weights, t: RiskType): Mutation -> int {
    (m: Mutation) => if ClassifyRisk(m.kind) == t then Weight(weights, m.kind) else 0
  }

  function ScoreOf(risk: Risk): int {
    risk.score
  }

  ghost predicate Raised(mutations: seq<Mutation>, t: RiskType) {
    exists m | m in mutations :: ClassifyRisk(m.kind) == t
  }

  ghost predicate Touches(mutations: seq<Mutation>, t: RiskType, path: string) {
    exists m | m in mutations :: ClassifyRisk(m.kind) == t && path in m.files
  }

  ghost predicate Reports(findings: seq<ConflictFinding>, path: string) {
    exists f | f in findings :: path in f.paths
  }

  /** The risk of a type is the sum of its mutations' weights over the duplicate-free union of their files. */
  ghost predicate Reflects(risk: Risk, weights: Weights, mutations: seq<Mutation>, t: RiskType) {
    && risk.riskType == t
    && risk.score == Sum(mutations, ShareOf(weights, t))
    && NoDuplicates(risk.affectedSystems)
    && forall path :: path in risk.affectedSystems <==> Touches(mutations, t, path)
  }

  ghost predicate ReflectsConflict(risk: Risk, conflict: ConflictAssessment) {
    && risk.riskType.RiskConflict?
    && risk.score == conflict.score
    && NoDuplicates(risk.affectedSystems)
    && forall path :: path in risk.affectedSystems <==> Reports(conflict.findings, path)
  }

  /** Whether a tally has the right entry for one type. */
  ghost predicate TalliedAt(tally: Tally, weights: Weights, mutations: seq<Mutation>, t: RiskType) {
    && (t in tally <==> Raised(mutations, t))
    && (t in tally ==> Reflects(tally[t], weights, mutations, t))
  }

  ghost predicate Tallied(tally: Tally, weights: Weights, mutations: seq<Mutation>) {
    forall t :: TalliedAt(tally, weights, mutations, t)
  }

  function Positive(score: int): nat {
    if score > 0 then score else 0
  }

  /** Which risk a type has, if any: mutations never raise the conflict type, the assessment only that one. */
  ghost predicate IsRiskOf(risk: Risk, t: RiskType, weights: Weights, mutations: seq<Mutation>,
                           conflict: ConflictAssessment) {
    && (if t.RiskConflict? then ReflectsConflict(risk, conflict) else Reflects(risk, weights, mutations, t))
    && risk.severity == SeverityFromScore(risk.score)
  }

  ghost predicate HasRisk(t: RiskType, mutations: seq<Mutation>, conflict: ConflictAssessment) {
    if t.RiskConflict? then conflict.score > 0 else Raised(mutations, t)
  }

  predicate HasType(risks: seq<Risk>, t: RiskType) {
    exists i | 0 <= i < |risks| :: risks[i].riskType == t
  }

  ghost predicate DistinctTypes(risks: seq<Risk>) {
    forall i, j | 0 <= i < j < |risks| :: risks[i].riskType != risks[j].riskType
  }

  /** One risk for every type that has one, in any order. */
  ghost predicate AreRisks(risks: seq<Risk>, weights: Weights, mutations: seq<Mutation>, conflict: ConflictAssessment) {
    && DistinctTypes(risks)
    && (forall t :: HasType(risks, t) <==> HasRisk(t, mutations, conflict))
    && (forall i | 0 <= i < |risks| :: IsRiskOf(risks[i], risks[i].riskType, weights, mutations, conflict))
  }

  function TotalScore(weights: Weights, mutations: seq<Mutation>, conflict: ConflictAssessment,
                      criticality: Criticality, fileCount: nat)
    : int
  {
    var base := Sum(mutations, WeightOf(weights)) + Positive(conflict.score);
    ClampScore(ApplyChangeVolume(ApplyRuntimeCriticality(base, criticality), fileCount))
  }

  // ---- The engine -----------------------------------------------------------------------------------

  method ApplyMutationRisk(tally0: Tally, weights: Weights, mutation: Mutation, ghost before: seq<Mutation>)
    returns (tally: Tally, added: int)
    requires Tallied(tally0, weights, before)
    ensures Tallied(tally, weights, before + [mutation])
    ensures added == Weight(weights, mutation.kind)
  {
    hide AppendUnique, Reflects;
    added := Weight(weights, mutation.kind);
    var riskType := ClassifyRisk(mutation.kind);
    tally := tally0;
    if riskType !in tally {
      tally := tally[riskType := Risk(riskType, 0, mutation.severity, [])];
    }
    var current := tally[riskType];
    current := current.(score := current.score + added);
    var systems := AppendUniqueStrings(current.affectedSystems, mutation.files);
    current := current.(affectedSystems := systems);
    tally := tally[riskType := current];
    forall t
      ensures TalliedAt(tally, weights, before + [mutation], t)
    {
      assert TalliedAt(tally0, weights, before, t);
      RaisedMore(before, mutation, t);
      if t == riskType {
        if t in tally0 {
          ReflectsMore(tally0[t], weights, before, mutation);
        } else {
          ReflectsFirst(weights, before, mutation);
        }
      } else if t in tally0 {
        ReflectsOther(tally0[t], weights, before, mutation, t);
      }
    }
  }

  lemma RaisedMore(before: seq<Mutation>, mutation: Mutation, t: RiskType)
    ensures Raised(before + [mutation], t) <==> Raised(before, t) || ClassifyRisk(mutation.kind) == t
    ensures forall path :: Touches(before + [mutation], t, path) <==>
              Touches(before, t, path) || (ClassifyRisk(mutation.kind) == t && path in mutation.files)
  {
    hide ClassifyRisk;
    assert forall m :: m in before + [mutation] <==> m in before || m == mutation;
  }

  lemma ReflectsMore(risk: Risk, weights: Weights, before: seq<Mutation>, mutation: Mutation)
    requires Reflects(risk, weights, before, ClassifyRisk(mutation.kind))
    ensures Reflects(risk.(score := risk.score + Weight(weights, mutation.kind),
                           affectedSystems := AppendUnique(risk.affectedSystems, mutation.files)),
                     weights, before + [mutation], ClassifyRisk(mutation.kind))
  {
    hide ClassifyRisk;
    RaisedMore(before, mutation, ClassifyRisk(mutation.kind));
    AppendUniqueIsUnion(risk.affectedSystems, mutation.files);
    assert (before + [mutation])[..|before|] == before;
  }

  lemma {:induction false} NoShare(weights: Weights, mutations: seq<Mutation>, t: RiskType)
    requires !Raised(mutations, t)
    ensures Sum(mutations, ShareOf(weights, t)) == 0
    ensures forall path :: !Touches(mutations, t, path)
  {
    hide ClassifyRisk;
    if mutations != [] {
      var last := mutations[|mutations| - 1];
      assert last in mutations;
      assert mutations == mutations[..|mutations| - 1] + [last];
      RaisedMore(mutations[..|mutations| - 1], last, t);
      NoShare(weights, mutations[..|mutations| - 1], t);
    }
  }

  lemma ReflectsFirst(weights: Weights, before: seq<Mutation>, mutation: Mutation)
    requires !Raised(before, ClassifyRisk(mutation.kind))
    ensures Reflects(Risk(ClassifyRisk(mutation.kind), 0 + Weight(weights, mutation.kind), mutation.severity,
                          AppendUnique([], mutation.files)),
                     weights, before + [mutation], ClassifyRisk(mutation.kind))
  {
    var t := ClassifyRisk(mutation.kind);
    NoShare(weights, before, t);
    assert Reflects(Risk(t, 0, mutation.severity, []), weights, before, t);
    ReflectsMore(Risk(t, 0, mutation.severity, []), weights, before, mutation);
  }

  lemma ReflectsOther(risk: Risk, weights: Weights, before: seq<Mutation>, mutation: Mutation, t: RiskType)
    requires Reflects(risk, weights, before, t) && ClassifyRisk(mutation.kind) != t
    ensures Reflects(risk, weights, before + [mutation], t)
  {
    hide ClassifyRisk;
    RaisedMore(before, mutation, t);
    assert (before + [mutation])[..|before|] == before;
  }

  method ConflictRisk(conflict: ConflictAssessment) returns (risk: Risk)
    ensures risk.score == conflict.score
    ensures ReflectsConflict(risk, conflict)
  {
    hide AppendUnique;
    var systems: seq<string> := [];
    for i := 0 to |conflict.findings|
      invariant NoDuplicates(systems)
      invariant forall path :: path in systems <==> Reports(conflict.findings[..i], path)
    {
      var finding := conflict.findings[i];
      AppendUniqueIsUnion(systems, finding.paths);
      systems := AppendUniqueStrings(systems, finding.paths);
      ReportsMore(conflict.findings[..i], finding);
      assert conflict.findings[..i + 1] == conflict.findings[..i] + [finding];
    }
    assert conflict.findings[..|conflict.findings|] == conflict.findings;
    risk := Risk(RiskConflict, conflict.score, SeverityFromScore(conflict.score), systems);
  }

  lemma ReportsMore(findings: seq<ConflictFinding>, finding: ConflictFinding)
    ensures forall path :: Reports(findings + [finding], path) <==> Reports(findings, path) || path in finding.paths
  {
    assert forall f :: f in findings + [finding] <==> f in findings || f == finding;
  }

  ghost predicate IsListingOf(risks: seq<Risk>, tally: Tally, visited: set<RiskType>) {
    && DistinctTypes(risks)
    && (forall t :: HasType(risks, t) <==> t in visited)
    && forall i | 0 <= i < |risks| ::
         && risks[i].riskType in tally
         && risks[i] == tally[risks[i].riskType].(severity := SeverityFromScore(risks[i].score))
  }

  function TypesOf(risks: seq<Risk>): seq<RiskType> {
    seq(|risks|, i requires 0 <= i < |risks| => risks[i].riskType)
  }

  /** Visits the tally in arbitrary order, rewriting each severity from the final score. */
  method MaterializeRisks(tally: Tally) returns (risks: seq<Risk>, contributors: seq<RiskType>)
    requires forall t | t in tally :: tally[t].riskType == t
    ensures IsListingOf(risks, tally, tally.Keys)
    ensures contributors == TypesOf(risks)
  {
    hide SeverityFromScore, IsListingOf;
    risks, contributors := [], [];
    NothingListed(tally);
    var left := tally.Keys;
    while left != {}
      invariant left <= tally.Keys
      invariant IsListingOf(risks, tally, tally.Keys - left)
      invariant contributors == TypesOf(risks)
    {
      var t :| t in left;
      var risk := tally[t].(severity := SeverityFromScore(tally[t].score));
      ListsMore(risks, tally, tally.Keys - left, t);
      assert tally.Keys - (left - {t}) == (tally.Keys - left) + {t};
      left := left - {t};
      risks := risks + [risk];
      contributors := contributors + [risk.riskType];
    }
    assert tally.Keys - left == tally.Keys;
  }

  lemma NothingListed(tally: Tally)
    ensures IsListingOf([], tally, tally.Keys - tally.Keys)
  {
  }

  lemma ListsMore(risks: seq<Risk>, tally: Tally, visited: set<RiskType>, t: RiskType)
    requires IsListingOf(risks, tally, visited) && t in tally && t !in visited && tally[t].riskType == t
    ensures IsListingOf(risks + [tally[t].(severity := SeverityFromScore(tally[t].score))], tally, visited + {t})
  {
    hide SeverityFromScore;
    var next := risks + [tally[t].(severity := SeverityFromScore(tally[t].score))];
    forall u
      ensures HasType(next, u) <==> u in visited || u == t
    {
      assert next[|risks|].riskType == t;
      if HasType(risks, u) {
        var i :| 0 <= i < |risks| && risks[i].riskType == u;
        assert next[i].riskType == u;
      }
    }
    assert !HasType(risks, t);
  }

  /** The summary and the risks, whatever order the tally is visited in. */
  method Evaluate(weights: Weights, mutations: seq<Mutation>, conflict: ConflictAssessment, criticality: Criticality,
                  fileCount: nat)
    returns (summary: RiskSummary, risks: seq<Risk>)
    ensures AreRisks(risks, weights, mutations, conflict)
    ensures var total := TotalScore(weights, mutations, conflict, criticality, fileCount);
            summary == RiskSummary(total, SeverityFromScore(total), TypesOf(risks))
  {
    hide AreRisks, Tallied, IsListingOf, ReflectsConflict, SeverityFromScore;
    var tally: Tally := map[];
    var score := 0;
    NothingTallied(weights);
    for i := 0 to |mutations|
      invariant Tallied(tally, weights, mutations[..i])
      invariant score == Sum(mutations[..i], WeightOf(weights))
    {
      var added;
      tally, added := ApplyMutationRisk(tally, weights, mutations[i], mutations[..i]);
      score := score + added;
      assert mutations[..i + 1] == mutations[..i] + [mutations[i]];
      assert mutations[..i + 1][..i] == mutations[..i];
    }
    assert mutations[..|mutations|] == mutations;
    ghost var tallied := tally;
    if conflict.score > 0 {
      var risk := ConflictRisk(conflict);
      tally := tally[RiskConflict := risk];
      score := score + risk.score;
    }
    score := ApplyRuntimeCriticality(score, criticality);
    score := ApplyChangeVolume(score, fileCount);
    score := ClampScore(score);
    var contributors;
    TallyIsKeyed(tallied, tally, weights, mutations, conflict);
    risks, contributors := MaterializeRisks(tally);
    ListingIsRisks(risks, tallied, tally, weights, mutations, conflict);
    summary := RiskSummary(score, SeverityFromScore(score), contributors);
  }

  lemma NothingTallied(weights: Weights)
    ensures Tallied(map[], weights, [])
  {
  }

  ghost predicate WithConflict(tallied: Tally, tally: Tally, conflict: ConflictAssessment) {
    if conflict.score > 0 then
      && RiskConflict in tally && ReflectsConflict(tally[RiskConflict], conflict)
      && tally == tallied[RiskConflict := tally[RiskConflict]]
    else
      tally == tallied
  }

  lemma TallyIsKeyed(tallied: Tally, tally: Tally, weights: Weights, mutations: seq<Mutation>,
                     conflict: ConflictAssessment)
    requires Tallied(tallied, weights, mutations) && WithConflict(tallied, tally, conflict)
    ensures forall t | t in tally :: tally[t].riskType == t
  {
    forall t | t in tally
      ensures tally[t].riskType == t
    {
      assert TalliedAt(tallied, weights, mutations, t);
    }
  }

  lemma NeverConflict(mutations: seq<Mutation>)
    ensures !Raised(mutations, RiskConflict)
  {
  }

  lemma ListingIsRisks(risks: seq<Risk>, tallied: Tally, tally: Tally, weights: Weights, mutations: seq<Mutation>,
                       conflict: ConflictAssessment)
    requires Tallied(tallied, weights, mutations) && WithConflict(tallied, tally, conflict)
    requires IsListingOf(risks, tally, tally.Keys)
    ensures AreRisks(risks, weights, mutations, conflict)
  {
    hide SeverityFromScore, Raised, HasType, Touches, Reports, NoDuplicates;
    NeverConflict(mutations);
    forall t
      ensures HasType(risks, t) <==> HasRisk(t, mutations, conflict)
    {
      assert TalliedAt(tallied, weights, mutations, t);
    }
    forall i | 0 <= i < |risks|
      ensures IsRiskOf(risks[i], risks[i].riskType, weights, mutations, conflict)
    {
      assert TalliedAt(tallied, weights, mutations, risks[i].riskType);
    }
  }

  // ---- Laws -----------------------------------------------------------------------------------------

  /** The score found for a type, nothing when it is absent. */
  function ScoreAt(risks: seq<Risk>, t: RiskType): int {
    if risks == [] then 0
    else if risks[|risks| - 1].riskType == t then risks[|risks| - 1].score
    else ScoreAt(risks[..|risks| - 1], t)
  }

  function OverTypes(f: RiskType -> int): int {
    f(RiskRuntime) + f(RiskSecurity) + f(RiskSchema) + f(RiskDependency) + f(RiskRollout) + f(RiskConflict)
  }

  lemma {:induction false} SumIsOverTypes(risks: seq<Risk>)
    requires DistinctTypes(risks)
    ensures Sum(risks, ScoreOf) == OverTypes(t => ScoreAt(risks, t))
  {
    if risks != [] {
      var before, last := risks[..|risks| - 1], risks[|risks| - 1];
      SumIsOverTypes(before);
      AbsentScore(before, last.riskType);
    }
  }

  lemma {:induction false} AbsentScore(risks: seq<Risk>, t: RiskType)
    requires forall i | 0 <= i < |risks| :: risks[i].riskType != t
    ensures ScoreAt(risks, t) == 0
  {
    if risks != [] {
      AbsentScore(risks[..|risks| - 1], t);
    }
  }

  lemma {:induction false} PresentScore(risks: seq<Risk>, i: nat)
    requires DistinctTypes(risks) && i < |risks|
    ensures ScoreAt(risks, risks[i].riskType) == risks[i].score
  {
    if i < |risks| - 1 {
      PresentScore(risks[..|risks| - 1], i);
    }
  }

  /** Every mutation's weight lands in exactly one of the mutation risk types. */
  lemma {:induction false} SharesAddUp(weights: Weights, mutations: seq<Mutation>)
    ensures OverTypes(t => Sum(mutations, ShareOf(weights, t))) == Sum(mutations, WeightOf(weights))
  {
    if mutations != [] {
      SharesAddUp(weights, mutations[..|mutations| - 1]);
    }
  }

  lemma ScoreAtType(risks: seq<Risk>, weights: Weights, mutations: seq<Mutation>, conflict: ConflictAssessment,
                    t: RiskType)
    requires AreRisks(risks, weights, mutations, conflict)
    ensures ScoreAt(risks, t) == if t.RiskConflict? then Positive(conflict.score)
            else Sum(mutations, ShareOf(weights, t))
  {
    hide SeverityFromScore, Touches, Reports, NoDuplicates, Raised, DistinctTypes;
    if HasType(risks, t) {
      var i :| 0 <= i < |risks| && risks[i].riskType == t;
      PresentScore(risks, i);
    } else {
      AbsentScore(risks, t);
      if !t.RiskConflict? {
        NoShare(weights, mutations, t);
      }
    }
  }

  /** Conservation: the returned risks carry all the mutations' weight and the conflict's score, once. */
  lemma ScoresAreConserved(risks: seq<Risk>, weights: Weights, mutations: seq<Mutation>, conflict: ConflictAssessment)
    requires AreRisks(risks, weights, mutations, conflict)
    ensures Sum(risks, ScoreOf) == Sum(mutations, WeightOf(weights)) + Positive(conflict.score)
  {
    hide AreRisks, Sum, ScoreAt, ClassifyRisk, DistinctTypes;
    TypesAreDistinct(risks, weights, mutations, conflict);
    SumIsOverTypes(risks);
    SharesAddUp(weights, mutations);
    forall t {
      ScoreAtType(risks, weights, mutations, conflict, t);
    }
    NeverConflict(mutations);
    NoShare(weights, mutations, RiskConflict);
  }

  lemma TypesAreDistinct(risks: seq<Risk>, weights: Weights, mutations: seq<Mutation>, conflict: ConflictAssessment)
    requires AreRisks(risks, weights, mutations, conflict)
    ensures DistinctTypes(risks)
  {
  }

  /** The same type, score and severity over the same set of systems. */
  ghost predicate SameRisk(a: Risk, b: Risk) {
    && a.riskType == b.riskType && a.score == b.score && a.severity == b.severity
    && forall path :: path in a.affectedSystems <==> path in b.affectedSystems
  }

  ghost predicate Covers(a: seq<Risk>, b: seq<Risk>) {
    forall i | 0 <= i < |a| :: Covered(a[i], b)
  }

  ghost predicate Covered(risk: Risk, risks: seq<Risk>) {
    exists j | 0 <= j < |risks| :: SameRisk(risk, risks[j])
  }

  /** Neither the order of the mutations nor the order the tally is visited in changes the assessed risks
    * or the total. */
  lemma AssessmentIgnoresOrder(risks: seq<Risk>, others: seq<Risk>, weights: Weights, mutations: seq<Mutation>,
                               permuted: seq<Mutation>, conflict: ConflictAssessment, criticality: Criticality,
                               fileCount: nat)
    requires multiset(mutations) == multiset(permuted)
    requires AreRisks(risks, weights, mutations, conflict) && AreRisks(others, weights, permuted, conflict)
    ensures Covers(risks, others)
    ensures TotalScore(weights, mutations, conflict, criticality, fileCount) ==
            TotalScore(weights, permuted, conflict, criticality, fileCount)
  {
    hide IsRiskOf, SameRisk, Sum, ClassifyRisk, ApplyRuntimeCriticality, ClampScore, ApplyChangeVolume;
    SumIgnoresOrder(mutations, permuted, WeightOf(weights));
    SameMembers(mutations, permuted);
    forall i | 0 <= i < |risks|
      ensures Covered(risks[i], others)
    {
      var t := risks[i].riskType;
      assert HasType(risks, t);
      assert HasType(others, t);
      var j :| 0 <= j < |others| && others[j].riskType == t;
      SameRiskOf(risks[i], others[j], t, weights, mutations, permuted, conflict);
    }
  }

  lemma SameRiskOf(a: Risk, b: Risk, t: RiskType, weights: Weights, mutations: seq<Mutation>, permuted: seq<Mutation>,
                   conflict: ConflictAssessment)
    requires multiset(mutations) == multiset(permuted)
    requires IsRiskOf(a, t, weights, mutations, conflict) && IsRiskOf(b, t, weights, permuted, conflict)
    ensures SameRisk(a, b)
  {
    hide ClassifyRisk, SeverityFromScore, NoDuplicates, Reports;
    SumIgnoresOrder(mutations, permuted, ShareOf(weights, t));
    SameMembers(mutations, permuted);
  }

  /** With weights that are never negative another mutation never lowers the total. */
  lemma MoreMutationsNeverLower(weights: Weights, mutations: seq<Mutation>, mutation: Mutation,
                                conflict: ConflictAssessment, criticality: Criticality, fileCount: nat)
    requires forall kind | kind in weights :: weights[kind] >= 0
    ensures TotalScore(weights, mutations, conflict, criticality, fileCount) <=
            TotalScore(weights, mutations + [mutation], conflict, criticality, fileCount)
  {
    assert (mutations + [mutation])[..|mutations|] == mutations;
  }

  /** In particular with the default weights, where moreover a mutation of a known kind always counts. */
  lemma DefaultWeightsCount(mutations: seq<Mutation>, mutation: Mutation, conflict: ConflictAssessment,
                            criticality: Criticality, fileCount: nat)
    ensures TotalScore(DEFAULT_WEIGHTS, mutations, conflict, criticality, fileCount) <=
            TotalScore(DEFAULT_WEIGHTS, mutations + [mutation], conflict, criticality, fileCount)
    ensures Weight(DEFAULT_WEIGHTS, mutation.kind) > 0 <==> !mutation.kind.MutationOther?
  {
    MoreMutationsNeverLower(DEFAULT_WEIGHTS, mutations, mutation, conflict, criticality, fileCount);
  }
}
