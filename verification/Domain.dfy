/** The vocabulary shared by every component: change packets and the parts they are made of.
  * A Go string type with named constants becomes a datatype whose last constructor keeps any
  * other text, so unsupported values stay representable. Times are integers; 0 is the zero time. */
module Domain {

  datatype Option<+T> = None | Some(value: T)

  datatype Result<+T, +E> = Ok(value: T) | Err(error: E)

  datatype MergeLane =
    | MergeLaneUnset
    | MergeLaneGreen
    | MergeLaneYellow
    | MergeLaneRed
    | MergeLaneBlack
    | MergeLaneOther(text: string)

  datatype DecisionStatus = DecisionPending | DecisionApproved | DecisionEscalated | DecisionBlocked

  datatype EvidenceStatus =
    | EvidencePending
    | EvidenceRunning
    | EvidenceSatisfied
    | EvidenceFailed
    | EvidenceWaived
    | EvidenceOther(text: string)

  datatype Severity = SeverityLow | SeverityMedium | SeverityHigh | SeverityCritical | SeverityOther(text: string)

  datatype Criticality =
    | CriticalityLow
    | CriticalityNormal
    | CriticalityHigh
    | CriticalityTier0
    | CriticalityOther(text: string)

  datatype MutationKind =
    | MutationUnknown
    | MutationAuthBehaviorChange
    | MutationDatabaseSchema
    | MutationRuntimeConfig
    | MutationAPIContract
    | MutationDependency
    | MutationInfrastructure
    | MutationDataAccess
    | MutationDeploymentWorkflow
    | MutationObservabilityContract
    | MutationOther(text: string)

  datatype ConflictRoute = ConflictRouteNone | ConflictRouteRefreshAndVerify | ConflictRouteHumanResolution

  datatype RiskType =
    | RiskRuntime
    | RiskSecurity
    | RiskSchema
    | RiskDependency
    | RiskRollout
    | RiskConflict

  datatype CheckBinding = CheckBinding(name: string, appId: int)

  datatype EvidenceRequirement = EvidenceRequirement(
    kind: string,
    name: string,
    required: bool,
    reason: string,
    producer: string,
    githubCheck: Option<CheckBinding>)

  datatype ReviewerRequirement = ReviewerRequirement(team: string, reason: string, mandatory: bool)

  datatype DeploymentRequirement = DeploymentRequirement(
    strategy: string,
    environments: seq<string>,
    requiresCanary: bool,
    requiresRollbackPlan: bool)

  datatype PolicyViolation = PolicyViolation(policy: string, reason: string, severity: Severity)

  datatype PolicyDecision = PolicyDecision(
    status: DecisionStatus,
    reasons: seq<string>,
    violations: seq<PolicyViolation>,
    appliedPolicies: seq<string>,
    minimumLane: MergeLane,
    decidedAt: int)

  datatype ConflictFinding = ConflictFinding(kind: string, severity: Severity, paths: seq<string>)

  datatype ConflictAssessment = ConflictAssessment(
    route: ConflictRoute,
    score: int,
    requiresHumanResolution: bool,
    findings: seq<ConflictFinding>)

  datatype ChangedFile = ChangedFile(path: string, patch: string)

  datatype MutationSignal = MutationSignal(source: string, value: string, weight: int)

  datatype Mutation = Mutation(
    kind: MutationKind,
    severity: Severity,
    confidence: real,
    title: string,
    description: string,
    files: seq<string>,
    signals: seq<MutationSignal>,
    detector: string)

  datatype Risk = Risk(riskType: RiskType, score: int, severity: Severity, affectedSystems: seq<string>)

  datatype RiskSummary = RiskSummary(score: int, severity: Severity, contributors: seq<RiskType>)

  datatype ChangePacket = ChangePacket(
    id: string,
    repoFullName: string,
    prNumber: int,
    headSHA: string,
    baseSHA: string,
    currentBaseSHA: string,
    files: seq<ChangedFile>,
    mutations: seq<Mutation>,
    runtimeCriticality: Criticality,
    conflict: ConflictAssessment,
    riskSummary: RiskSummary,
    risks: seq<Risk>,
    evidence: seq<EvidenceRequirement>,
    reviewers: seq<ReviewerRequirement>,
    deployment: DeploymentRequirement,
    decision: PolicyDecision,
    mergeLane: MergeLane,
    updatedAt: int)

  datatype EvidenceExecution = EvidenceExecution(
    changePacketId: string,
    name: string,
    kind: string,
    status: EvidenceStatus,
    required: bool,
    summary: string,
    detailsURL: string,
    updatedBy: string,
    metadata: map<string, string>,
    updatedAt: int)

  datatype EvidenceAuditEntry = EvidenceAuditEntry(
    changePacketId: string,
    evidenceName: string,
    fromStatus: EvidenceStatus,
    toStatus: EvidenceStatus,
    actor: string,
    summary: string,
    detailsURL: string,
    metadata: map<string, string>,
    occurredAt: int)
}
