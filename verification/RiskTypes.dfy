/** Which risks an assessment holds, told from the kinds of the mutations. */
module RiskTypes {
  import opened Domain
  import opened Bags
  import opened RiskScore

  predicate AnyOf(mutations: seq<Mutation>, kinds: set<MutationKind>) {
    exists m | m in mutations :: m.kind in kinds
  }

  predicate AnyBut(mutations: seq<Mutation>, kinds: set<MutationKind>) {
    exists m | m in mutations :: m.kind !in kinds
  }

  function WeightIn(weights: Weights, kinds: set<MutationKind>): Mutation -> int {
    (m: Mutation) => if m.kind in kinds && m.kind in weights then weights[m.kind] else 0
  }

  function WeightOut(weights: Weights, kinds: set<MutationKind>): Mutation -> int {
    (m: Mutation) => if m.kind !in kinds && m.kind in weights then weights[m.kind] else 0
  }

  const ROLLOUT: set<MutationKind> := {MutationRuntimeConfig, MutationDeploymentWorkflow}

  /** The kinds with a risk type of their own; all others bear on runtime. */
  const SPECIFIC: set<MutationKind> := {
    MutationAuthBehaviorChange, MutationDatabaseSchema, MutationDependency, MutationRuntimeConfig,
    MutationDeploymentWorkflow
  }

  /** The kinds a risk type is about, of those that have one of their own. */
  function KindsOf(t: RiskType): set<MutationKind> {
    match t
    case RiskSecurity => {MutationAuthBehaviorChange}
    case RiskSchema => {MutationDatabaseSchema}
    case RiskDependency => {MutationDependency}
    case RiskRollout => ROLLOUT
    case _ => {}
  }

  // ---- Which risks there are --------------------------------------------------------------------------

  /** Every kind of mutation raises the one type of risk it is about, and nothing else raises that type. */
  lemma RisksByKind(risks: seq<Risk>, weights: Weights, mutations: seq<Mutation>, conflict: ConflictAssessment)
    requires AreRisks(risks, weights, mutations, conflict)
    ensures HasType(risks, RiskSecurity) <==> AnyOf(mutations, {MutationAuthBehaviorChange})
    ensures HasType(risks, RiskSchema) <==> AnyOf(mutations, {MutationDatabaseSchema})
    ensures HasType(risks, RiskDependency) <==> AnyOf(mutations, {MutationDependency})
    ensures HasType(risks, RiskRollout) <==> AnyOf(mutations, {MutationRuntimeConfig, MutationDeploymentWorkflow})
    ensures HasType(risks, RiskRuntime) <==> AnyBut(mutations, SPECIFIC)
    ensures HasType(risks, RiskConflict) <==> conflict.score > 0
  {
    hide HasType, IsRiskOf, DistinctTypes, Raised, AnyOf, AnyBut;
    forall t
      ensures HasType(risks, t) <==> HasRisk(t, mutations, conflict)
    {
    }
    RaisedByKind(mutations, RiskSecurity);
    RaisedByKind(mutations, RiskSchema);
    RaisedByKind(mutations, RiskDependency);
    RaisedByKind(mutations, RiskRollout);
    RaisedByKind(mutations, RiskRuntime);
  }

  lemma RaisedByKind(mutations: seq<Mutation>, t: RiskType)
    ensures t != RiskRuntime ==> (Raised(mutations, t) <==> AnyOf(mutations, KindsOf(t)))
    ensures t == RiskRuntime ==> (Raised(mutations, t) <==> AnyBut(mutations, SPECIFIC))
  {
    hide ClassifyRisk, KindsOf, SPECIFIC;
    forall kind {
      TypeOfKind(t, kind);
    }
  }

  lemma TypeOfKind(t: RiskType, kind: MutationKind)
    ensures t != RiskRuntime ==> (ClassifyRisk(kind) == t <==> kind in KindsOf(t))
    ensures ClassifyRisk(kind) == RiskRuntime <==> kind !in SPECIFIC
  {
  }

  // ---- What they hold ---------------------------------------------------------------------------------

  lemma {:induction false} SharesByKind(weights: Weights, mutations: seq<Mutation>, t: RiskType)
    ensures t != RiskRuntime ==> Sum(mutations, ShareOf(weights, t)) == Sum(mutations, WeightIn(weights, KindsOf(t)))
    ensures t == RiskRuntime ==> Sum(mutations, ShareOf(weights, t)) == Sum(mutations, WeightOut(weights, SPECIFIC))
  {
    hide ClassifyRisk, KindsOf, SPECIFIC;
    if mutations != [] {
      SharesByKind(weights, mutations[..|mutations| - 1], t);
      TypeOfKind(t, mutations[|mutations| - 1].kind);
    }
  }

  ghost predicate Covers(systems: seq<string>, mutations: seq<Mutation>, kinds: set<MutationKind>) {
    forall path :: path in systems <==> exists m | m in mutations :: m.kind in kinds && path in m.files
  }

  /** A risk of one of the specific types adds up the weights and gathers the files of its kinds' mutations. */
  lemma SpecificRisk(risks: seq<Risk>, weights: Weights, mutations: seq<Mutation>, conflict: ConflictAssessment, i: nat)
    requires AreRisks(risks, weights, mutations, conflict) && i < |risks|
    requires risks[i].riskType != RiskRuntime && risks[i].riskType != RiskConflict
    ensures risks[i].score == Sum(mutations, WeightIn(weights, KindsOf(risks[i].riskType)))
    ensures Covers(risks[i].affectedSystems, mutations, KindsOf(risks[i].riskType))
    ensures NoDuplicates(risks[i].affectedSystems)
  {
    hide ClassifyRisk, HasType, DistinctTypes, KindsOf, Sum, NoDuplicates, SeverityFromScore;
    assert IsRiskOf(risks[i], risks[i].riskType, weights, mutations, conflict);
    SharesByKind(weights, mutations, risks[i].riskType);
    forall kind {
      TypeOfKind(risks[i].riskType, kind);
    }
  }

  /** The runtime risk does so for all the other kinds. */
  lemma RuntimeRisk(risks: seq<Risk>, weights: Weights, mutations: seq<Mutation>, conflict: ConflictAssessment, i: nat)
    requires AreRisks(risks, weights, mutations, conflict) && i < |risks| && risks[i].riskType == RiskRuntime
    ensures risks[i].score == Sum(mutations, WeightOut(weights, SPECIFIC))
    ensures forall path :: path in risks[i].affectedSystems <==>
              exists m | m in mutations :: m.kind !in SPECIFIC && path in m.files
    ensures NoDuplicates(risks[i].affectedSystems)
  {
    hide ClassifyRisk, HasType, DistinctTypes, SPECIFIC, Sum, NoDuplicates, SeverityFromScore;
    assert IsRiskOf(risks[i], RiskRuntime, weights, mutations, conflict);
    SharesByKind(weights, mutations, RiskRuntime);
    forall kind {
      TypeOfKind(RiskRuntime, kind);
    }
  }

  // ---- Figures ----------------------------------------------------------------------------------------

  /** Every severity in an assessment stands for a range of scores. */
  lemma SeverityRanges(risks: seq<Risk>, weights: Weights, mutations: seq<Mutation>, conflict: ConflictAssessment,
                       i: nat)
    requires AreRisks(risks, weights, mutations, conflict) && i < |risks|
    ensures risks[i].severity == SeverityCritical <==> 80 <= risks[i].score
    ensures risks[i].severity == SeverityHigh <==> 55 <= risks[i].score < 80
    ensures risks[i].severity == SeverityMedium <==> 25 <= risks[i].score < 55
    ensures risks[i].severity == SeverityLow <==> risks[i].score < 25
  {
    hide HasType, DistinctTypes, HasRisk, Reflects, ReflectsConflict;
    assert IsRiskOf(risks[i], risks[i].riskType, weights, mutations, conflict);
  }

  function Larger(a: int, b: int): int {
    if a < b then b else a
  }

  function Smaller(a: int, b: int): int {
    if a < b then a else b
  }

  /** The total is that of the returned risks, with 10 for high and 20 for tier 0 criticality and 8 for more
    * than twenty files, kept between 0 and 100. */
  lemma TotalInFigures(risks: seq<Risk>, weights: Weights, mutations: seq<Mutation>, conflict: ConflictAssessment,
                       criticality: Criticality, fileCount: nat)
    requires AreRisks(risks, weights, mutations, conflict)
    ensures var runtime := if criticality == CriticalityTier0 then 20 else if criticality == CriticalityHigh then 10
            else 0;
            var volume := if fileCount > 20 then 8 else 0;
            TotalScore(weights, mutations, conflict, criticality, fileCount) ==
            Smaller(100, Larger(0, Sum(risks, ScoreOf) + runtime + volume))
  {
    hide AreRisks, Sum;
    ScoresAreConserved(risks, weights, mutations, conflict);
  }

  /** With the default weights, the total for one mutation of a kind alone. */
  lemma OneDefaultMutation(mutation: Mutation, conflict: ConflictAssessment)
    requires conflict.score <= 0
    ensures var total := TotalScore(DEFAULT_WEIGHTS, [mutation], conflict, CriticalityNormal, 1);
            && (mutation.kind == MutationAuthBehaviorChange ==> total == 35)
            && (mutation.kind == MutationDatabaseSchema ==> total == 32)
            && (mutation.kind == MutationInfrastructure ==> total == 28)
            && (mutation.kind == MutationAPIContract ==> total == 26)
            && (mutation.kind == MutationDataAccess || mutation.kind == MutationDeploymentWorkflow ==> total == 24)
            && (mutation.kind == MutationRuntimeConfig ==> total == 20)
            && (mutation.kind == MutationDependency ==> total == 15)
            && (mutation.kind == MutationObservabilityContract ==> total == 12)
            && (mutation.kind == MutationUnknown ==> total == 8)
            && (mutation.kind.MutationOther? ==> total == 0)
  {
    hide Weight, DEFAULT_WEIGHTS;
    SumOfOne(mutation, WeightOf(DEFAULT_WEIGHTS));
    assert WeightOf(DEFAULT_WEIGHTS)(mutation) == Weight(DEFAULT_WEIGHTS, mutation.kind);
    DefaultWeight(mutation.kind);
  }

  lemma SumOfOne<T>(item: T, f: T -> int)
    ensures Sum([item], f) == f(item)
  {
    assert [item][..0] == [];
    assert Sum([], f) == 0;
  }

  lemma DefaultWeight(kind: MutationKind)
    ensures Weight(DEFAULT_WEIGHTS, kind) ==
            match kind
            case MutationAuthBehaviorChange => 35
            case MutationDatabaseSchema => 32
            case MutationInfrastructure => 28
            case MutationAPIContract => 26
            case MutationDataAccess | MutationDeploymentWorkflow => 24
            case MutationRuntimeConfig => 20
            case MutationDependency => 15
            case MutationObservabilityContract => 12
            case MutationUnknown => 8
            case _ => 0
  {
  }

  /** The contributors are the types of the risks, in their order. */
  lemma ContributorsAreTypes(risks: seq<Risk>)
    ensures |TypesOf(risks)| == |risks| && forall i | 0 <= i < |risks| :: TypesOf(risks)[i] == risks[i].riskType
  {
  }
}
