/** Ingesting a pull request: the stages fill in one change packet in place, save it and publish it. The
  * clock, the runtime graph's answer and whether each publication succeeds are inputs. */
module Pipeline {
  import opened Domain
  import opened EvidenceStore
  import Text
  import Diff
  import Mutations
  import Conflict
  import RiskScore
  import Policy
  import PolicyFold
  import Lanes

  datatype Setup = Setup(
    engine: Mutations.Engine,
    sensitive: string -> bool,
    weights: RiskScore.Weights,
    rules: seq<Policy.Rule>,
    matches: (Policy.Rule, ChangePacket) -> bool,
    lower: string -> string,
    fold: string -> string,
    lanes: Lanes.Config)

  /** What a pull request webhook says of the pull request. */
  datatype Payload = Payload(repoFullName: string, number: int, headSHA: string, baseSHA: string)

  /** What the hosting service says of it. */
  datatype Details = Details(number: int, headSHA: string, baseSHA: string)

  /** What the world answers: the pull request and its diff, the resolved runtime criticality, which
    * publications succeed, and what the clock reads. */
  datatype World = World(
    openingPublished: bool,
    details: Option<Details>,
    diff: Result<string, string>,
    creationPublished: bool,
    builtAt: int,
    runtime: Result<Criticality, string>,
    mutationsPublished: bool,
    risksPublished: bool,
    violationsPublished: bool,
    lanePublished: bool,
    checkPublished: bool,
    now: int)

  datatype PullRequest = PullRequest(repoFullName: string, number: int, headSHA: string, baseSHA: string, diff: string)

  /** The pull request as fetched; the webhook's own data stand in when fetching fails. */
  function Fetched(payload: Payload, details: Option<Details>, diff: string): PullRequest {
    match details
    case None => PullRequest(payload.repoFullName, payload.number, payload.headSHA, payload.baseSHA, diff)
    case Some(d) => PullRequest(payload.repoFullName, d.number, d.headSHA, d.baseSHA, diff)
  }

  function ChangedFiles(files: seq<Diff.File>): seq<ChangedFile> {
    seq(|files|, i requires 0 <= i < |files| => ChangedFile(files[i].path, files[i].patch))
  }

  /** The packet as first built from a pull request: nothing analysed, no known later base commit. */
  function Built(id: string, pr: PullRequest, now: int): ChangePacket {
    ChangePacket(
      id, pr.repoFullName, pr.number, pr.headSHA, pr.baseSHA, "",
      ChangedFiles(Diff.Parsed(pr.diff)), [], CriticalityOther(""),
      ConflictAssessment(ConflictRouteNone, 0, false, []),
      RiskSummary(0, SeverityOther(""), []), [],
      [], [], DeploymentRequirement("direct", [], false, false),
      PolicyDecision(DecisionPending, [], [], [], MergeLaneUnset, 0),
      MergeLaneYellow, now)
  }

  // ---- What each stage establishes --------------------------------------------------------------------

  function Matching(setup: Setup, seen: ChangePacket): Policy.Rule -> bool {
    (rule: Policy.Rule) => setup.matches(rule, seen)
  }

  /** The rules that match the packet as the policy stage sees it. */
  function MatchedRules(setup: Setup, seen: ChangePacket): seq<Policy.Rule> {
    PolicyFold.Matched(setup.rules, Matching(setup, seen))
  }

  function Verdict(setup: Setup, seen: ChangePacket): PolicyFold.Evaluation {
    PolicyFold.Fold(MatchedRules(setup, seen), setup.fold)
  }

  predicate Drifted(packet: ChangePacket) {
    Conflict.Drifted(packet.baseSHA, Text.TrimSpace(packet.currentBaseSHA))
  }

  ghost predicate HasMutations(setup: Setup, packet: ChangePacket) {
    match Mutations.FromFiles(setup.engine, packet.files)
    case Err(_) => false
    case Ok(candidates) => Mutations.Lists(packet.mutations, Mutations.Classified(candidates, packet.files))
  }

  ghost predicate HasConflict(setup: Setup, packet: ChangePacket) {
    Conflict.IsAssessment(packet.conflict, packet.files, Drifted(packet), setup.sensitive)
  }

  ghost predicate HasRisk(setup: Setup, packet: ChangePacket) {
    var total := RiskScore.TotalScore(setup.weights, packet.mutations, packet.conflict, packet.runtimeCriticality,
                                      |packet.files|);
    && RiskScore.AreRisks(packet.risks, setup.weights, packet.mutations, packet.conflict)
    && packet.riskSummary == RiskSummary(total, RiskScore.SeverityFromScore(total), RiskScore.TypesOf(packet.risks))
  }

  /** The packet carries the verdict of the rules on the packet seen, which differs only in what the verdict
    * and the later stages write. */
  ghost predicate HasVerdict(setup: Setup, seen: ChangePacket, packet: ChangePacket) {
    var e := Verdict(setup, seen);
    && packet == seen.(decision := PolicyDecision(e.status, e.reasons, e.violations, e.appliedPolicies, e.minimumLane,
                                                  packet.decision.decidedAt),
                       evidence := e.evidence,
                       reviewers := e.reviewers,
                       deployment := e.deployment,
                       mergeLane := packet.mergeLane,
                       updatedAt := packet.updatedAt)
  }

  /** Everything the stages establish before the packet is saved. */
  ghost predicate Ingested(setup: Setup, seen: ChangePacket, packet: ChangePacket) {
    && HasMutations(setup, packet)
    && HasConflict(setup, packet)
    && HasRisk(setup, packet)
    && Policy.Acceptable(setup.rules, setup.lower)
    && HasVerdict(setup, seen, packet)
    && packet.mergeLane == Lanes.Assign(setup.lanes, packet)
  }

  ghost predicate SameOrigin(a: ChangePacket, b: ChangePacket) {
    && a.id == b.id && a.repoFullName == b.repoFullName && a.prNumber == b.prNumber && a.headSHA == b.headSHA
    && a.baseSHA == b.baseSHA && a.currentBaseSHA == b.currentBaseSHA && a.files == b.files
  }

  /** The packet the rules are matched against: as built, but for what mutations, runtime and risk wrote. */
  ghost predicate Undecided(built: ChangePacket, seen: ChangePacket) {
    seen == built.(mutations := seen.mutations, runtimeCriticality := seen.runtimeCriticality, conflict :=
                   seen.conflict,
                   riskSummary := seen.riskSummary, risks := seen.risks)
  }

  /** What the world told is on the packet. */
  ghost predicate Stamped(world: World, packet: ChangePacket) {
    && world.runtime == Ok(packet.runtimeCriticality)
    && packet.decision.decidedAt == world.now
    && packet.updatedAt == world.now
  }

  // ---- The stages -------------------------------------------------------------------------------------

  class Ingestion {
    const setup: Setup
    const store: MemoryRepository?
    var packet: ChangePacket

    constructor (setup: Setup, store: MemoryRepository?, id: string, pr: PullRequest, now: int)
      ensures packet == Built(id, pr, now) && this.setup == setup && this.store == store
    {
      var files := Diff.ParseUnified(pr.diff);
      this.setup, this.store := setup, store;
      packet := ChangePacket(
        id, pr.repoFullName, pr.number, pr.headSHA, pr.baseSHA, "",
        ChangedFiles(files), [], CriticalityOther(""),
        ConflictAssessment(ConflictRouteNone, 0, false, []),
        RiskSummary(0, SeverityOther(""), []), [],
        [], [], DeploymentRequirement("direct", [], false, false),
        PolicyDecision(DecisionPending, [], [], [], MergeLaneUnset, 0),
        MergeLaneYellow, now);
    }

    method EnrichMutations(world: World) returns (ok: bool)
      modifies this`packet
      ensures ok <==> Mutations.FromFiles(setup.engine, packet.files).Ok? && world.mutationsPublished
      ensures packet == old(packet).(mutations := packet.mutations)
      ensures ok ==> HasMutations(setup, packet)
    {
      hide Mutations.FromFiles, Mutations.Classified, Mutations.Lists;
      var result := Mutations.Classify(setup.engine, packet.files);
      if result.Err? {
        return false;
      }
      packet := packet.(mutations := result.value);
      return world.mutationsPublished;
    }

    method EnrichRuntimeImpact(world: World) returns (ok: bool)
      modifies this`packet
      ensures ok <==> world.runtime.Ok?
      ensures packet == if ok then old(packet).(runtimeCriticality := world.runtime.value) else old(packet)
    {
      if world.runtime.Err? {
        return false;
      }
      packet := packet.(runtimeCriticality := world.runtime.value);
      return true;
    }

    method EnrichRisk(world: World) returns (ok: bool)
      modifies this`packet
      ensures ok <==> world.risksPublished
      ensures packet == old(packet).(conflict := packet.conflict, riskSummary := packet.riskSummary,
                                     risks := packet.risks)
      ensures HasConflict(setup, packet) && HasRisk(setup, packet)
    {
      hide Conflict.IsAssessment, RiskScore.AreRisks, RiskScore.TotalScore, RiskScore.SeverityFromScore;
      var assessment := Conflict.Analyze(packet.files, packet.baseSHA, packet.currentBaseSHA, setup.sensitive);
      packet := packet.(conflict := assessment);
      var summary, risks := RiskScore.Evaluate(setup.weights, packet.mutations, packet.conflict,
                                               packet.runtimeCriticality, |packet.files|);
      packet := packet.(riskSummary := summary);
      packet := packet.(risks := risks);
      return world.risksPublished;
    }

    method ApplyPolicy(world: World) returns (ok: bool)
      modifies this`packet
      ensures ok <==> Policy.Acceptable(setup.rules, setup.lower)
      ensures ok ==> HasVerdict(setup, old(packet), packet) && packet.decision.decidedAt == world.now
      ensures ok ==> packet.mergeLane == old(packet).mergeLane && packet.updatedAt == old(packet).updatedAt
      ensures !ok ==> packet == old(packet)
    {
      hide Policy.Acceptable, PolicyFold.Fold, PolicyFold.Matched;
      var result := PolicyFold.Evaluate(setup.rules, Matching(setup, packet), setup.lower, setup.fold);
      if result.Err? {
        return false;
      }
      var e := result.value;
      packet := packet.(decision := PolicyDecision(e.status, e.reasons, e.violations, e.appliedPolicies, e.minimumLane,
                                                   world.now));
      packet := packet.(evidence := e.evidence);
      packet := packet.(reviewers := e.reviewers);
      packet := packet.(deployment := e.deployment);
      return true;
    }

    method AssignMergeLane(world: World)
      modifies this`packet
      ensures packet == old(packet).(mergeLane := Lanes.Assign(setup.lanes, old(packet)), updatedAt := world.now)
    {
      packet := packet.(mergeLane := Lanes.Assign(setup.lanes, packet));
      packet := packet.(updatedAt := world.now);
    }

    /** The packet is stored before its check run is published. */
    method Finalize(world: World) returns (ok: bool)
      requires store != null ==> store.Valid()
      modifies store
      ensures store != null ==> store.Valid()
      ensures var announced := (packet.decision.violations == [] || world.violationsPublished) && world.lanePublished;
              && (ok <==> announced && world.checkPublished)
              && (store != null ==>
                    store.Contents() == if announced then Saved(old(store.Contents()), packet, world.now)
                                        else old(store.Contents()))
    {
      if |packet.decision.violations| > 0 && !world.violationsPublished {
        return false;
      }
      if !world.lanePublished {
        return false;
      }
      if store != null {
        store.SaveChangePacket(packet, world.now);
      }
      return world.checkPublished;
    }

    /** Succeeds exactly when every stage and publication does. Unless all but the last publication succeed
      * the store is unchanged; otherwise it has gained exactly the ingested packet. */
    method Process(world: World) returns (ok: bool, ghost seen: ChangePacket)
      requires store != null ==> store.Valid()
      modifies this`packet, store
      ensures store != null ==> store.Valid()
      ensures SameOrigin(old(packet), packet)
      ensures var announced := Announced(setup, world, packet.files, seen);
              && (ok <==> announced && world.checkPublished)
              && (announced ==>
                    Ingested(setup, seen, packet) && Undecided(old(packet), seen) && Stamped(world, packet))
              && (store != null ==>
                    store.Contents() == if announced then Saved(old(store.Contents()), packet, world.now)
                                        else old(store.Contents()))
    {
      hide HasMutations, HasConflict, HasRisk, Policy.Acceptable, Verdict, Lanes.Assign, Saved;
      hide Mutations.FromFiles;
      seen := packet;
      ok := EnrichMutations(world);
      if !ok {
        return;
      }
      ghost var classified := packet;
      ok := EnrichRuntimeImpact(world);
      if !ok {
        return;
      }
      ghost var resolved := packet;
      ok := EnrichRisk(world);
      if !ok {
        return;
      }
      seen := packet;
      ok := ApplyPolicy(world);
      if !ok {
        return;
      }
      ghost var decided := packet;
      AssignMergeLane(world);
      StagesKeep(setup, classified, seen, decided, packet);
      ok := Finalize(world);
    }
  }

  /** The packet a webhook leads to, if it gets as far as building one. */
  function Opened(payload: Payload, id: string, world: World): Option<ChangePacket> {
    if world.openingPublished && world.diff.Ok? && world.creationPublished then
      Some(Built(id, Fetched(payload, world.details, world.diff.value), world.builtAt))
    else None
  }

  /** Which packet a webhook is built into: that of the details fetched, or of the webhook itself when fetching
    * fails, with the parsed files of the diff and nothing decided. */
  lemma OpenedCarries(payload: Payload, id: string, world: World)
    ensures Opened(payload, id, world).Some? <==> world.openingPublished && world.diff.Ok? && world.creationPublished
    ensures Opened(payload, id, world).Some? ==>
              var built, files := Opened(payload, id, world).value, Diff.Parsed(world.diff.value);
              && built.id == id && built.repoFullName == payload.repoFullName
              && built.prNumber == (if world.details.Some? then world.details.value.number else payload.number)
              && built.headSHA == (if world.details.Some? then world.details.value.headSHA else payload.headSHA)
              && built.baseSHA == (if world.details.Some? then world.details.value.baseSHA else payload.baseSHA)
              && built.currentBaseSHA == ""
              && |built.files| == |files|
              && (forall i | 0 <= i < |files| ::
                    built.files[i].path == files[i].path && built.files[i].patch == files[i].patch)
              && built.mutations == [] && built.risks == [] && built.evidence == [] && built.reviewers == []
              && built.decision.status == DecisionPending && built.mergeLane == MergeLaneYellow
              && built.updatedAt == world.builtAt
  {
    hide Diff.Parsed;
  }

  /** The whole handling of an opened pull request: the answer is a packet exactly when every stage and every
    * publication succeeds; the store gains exactly the ingested packet, even if its check cannot be
    * published, or stays as it was. */
  method ProcessPROpened(setup: Setup, store: MemoryRepository?, payload: Payload, id: string, world: World)
    returns (answer: Option<ChangePacket>, ghost ingested: ChangePacket, ghost seen: ChangePacket)
    requires store != null ==> store.Valid()
    modifies store
    ensures store != null ==> store.Valid()
    ensures var built := Opened(payload, id, world);
            var announced := built.Some? && Announced(setup, world, built.value.files, seen);
            && answer == (if announced && world.checkPublished then Some(ingested) else None)
            && (announced ==>
                  && Ingested(setup, seen, ingested) && Undecided(built.value, seen) && Stamped(world, ingested)
                  && SameOrigin(built.value, ingested))
            && (store != null ==>
                  store.Contents() == if announced then Saved(old(store.Contents()), ingested, world.now)
                                      else old(store.Contents()))
  {
    hide Ingested, Announced, Built;
    ingested, seen := NOTHING, NOTHING;
    if !world.openingPublished {
      return None, ingested, seen;
    }
    if world.diff.Err? {
      return None, ingested, seen;
    }
    var ingestion := new Ingestion(setup, store, id, Fetched(payload, world.details, world.diff.value), world.builtAt);
    if !world.creationPublished {
      return None, ingested, seen;
    }
    var ok;
    ok, seen := ingestion.Process(world);
    ingested := ingestion.packet;
    answer := if ok then Some(ingestion.packet) else None;
  }

  ghost const NOTHING := Built("", PullRequest("", 0, "", "", ""), 0)

  /** The stages and publications before saving all succeed. */
  ghost predicate Announced(setup: Setup, world: World, files: seq<ChangedFile>, seen: ChangePacket) {
    && Mutations.FromFiles(setup.engine, files).Ok? && world.mutationsPublished
    && world.runtime.Ok?
    && world.risksPublished
    && Policy.Acceptable(setup.rules, setup.lower)
    && (Verdict(setup, seen).violations == [] || world.violationsPublished)
    && world.lanePublished
  }

  /** Later stages do not disturb what earlier ones established. */
  lemma StagesKeep(setup: Setup, classified: ChangePacket, seen: ChangePacket, decided: ChangePacket,
                   packet: ChangePacket)
    requires HasMutations(setup, classified) && SameOrigin(classified, seen) && seen.mutations == classified.mutations
    requires HasConflict(setup, seen) && HasRisk(setup, seen)
    requires Policy.Acceptable(setup.rules, setup.lower)
    requires HasVerdict(setup, seen, decided)
    requires packet == decided.(mergeLane := Lanes.Assign(setup.lanes, decided), updatedAt := packet.updatedAt)
    ensures Ingested(setup, seen, packet)
  {
    hide Conflict.IsAssessment, RiskScore.AreRisks, RiskScore.TotalScore, Policy.Acceptable, Verdict,
         Mutations.FromFiles, Mutations.Lists, Lanes.Assign;
    SameLane(setup, decided, packet);
  }

  lemma SameLane(setup: Setup, decided: ChangePacket, packet: ChangePacket)
    requires packet == decided.(mergeLane := packet.mergeLane, updatedAt := packet.updatedAt)
    ensures Lanes.Assign(setup.lanes, decided) == Lanes.Assign(setup.lanes, packet)
  {
    Lanes.AssignReadsOnly(setup.lanes, decided, packet);
  }
}
