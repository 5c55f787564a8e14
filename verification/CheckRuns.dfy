/** Webhook delivery of GitHub check runs: each bound check updates the evidence of the newest packet of
  * every pull request the run names. */
module CheckRuns {
  import opened Domain
  import opened EvidenceStore
  import opened ControlPlane
  import opened Invariants
  import opened SerialRuns
  import Lanes

  datatype Payload = Payload(
    action: string,
    repoFullName: string,
    headSHA: string,
    runId: int,
    name: string,
    appId: int,
    status: string,
    conclusion: string,
    title: string,
    summary: string,
    detailsURL: string,
    pullRequests: seq<int>)

  function EvidenceStatusForCheckRun(status: string, conclusion: string): Option<EvidenceStatus> {
    if status != "completed" then None
    else if conclusion == "success" then Some(EvidenceSatisfied)
    else Some(EvidenceFailed)
  }

  /** The first requirement bound to the check. */
  function MatchingRequirement(requirements: seq<EvidenceRequirement>, name: string, appId: int)
    : Option<EvidenceRequirement>
  {
    if requirements == [] then None
    else if requirements[0].githubCheck == Some(CheckBinding(name, appId)) then Some(requirements[0])
    else MatchingRequirement(requirements[1..], name, appId)
  }

  lemma {:induction false} MatchingRequirementMatches(requirements: seq<EvidenceRequirement>, name: string, appId: int)
    ensures var found := MatchingRequirement(requirements, name, appId);
            && (found.Some? ==>
                  found.value in requirements && found.value.githubCheck == Some(CheckBinding(name, appId)))
            && (found.None? ==> forall r | r in requirements :: r.githubCheck != Some(CheckBinding(name, appId)))
  {
    if requirements != [] {
      MatchingRequirementMatches(requirements[1..], name, appId);
      assert requirements == [requirements[0]] + requirements[1..];
    }
  }

  function Decimal(n: int): string
    decreases n < 0, if n < 0 then -n else n
  {
    if n < 0 then "-" + Decimal(-n)
    else if n < 10 then ["0123456789"[n]]
    else Decimal(n / 10) + ["0123456789"[n % 10]]
  }

  function ReportFor(payload: Payload, packetId: string, requirement: EvidenceRequirement, status: EvidenceStatus)
    : EvidenceExecution
  {
    var summary := if payload.summary == "" then payload.title else payload.summary;
    EvidenceExecution(packetId, requirement.name, "", status, false, summary, payload.detailsURL,
                      "github-app:" + Decimal(payload.appId),
                      map["github_check_run_id" := Decimal(payload.runId),
                          "github_check_name" := payload.name,
                          "github_app_id" := Decimal(payload.appId),
                          "github_head_sha" := payload.headSHA],
                      0)
  }

  /** One pull request of a run, given the packet found for it. */
  function Checked(s: State, payload: Payload, status: EvidenceStatus, pick: Option<string>, assigner: Assigner,
                   at: Surroundings)
    : (State, Option<UpdateError>)
  {
    if pick.None? || pick.value !in s.packets then (s, None)
    else
      var requirement := MatchingRequirement(s.packets[pick.value].evidence, payload.name, payload.appId);
      if requirement.None? then (s, None)
      else
        var (t, result) := Updated(s, ReportFor(payload, pick.value, requirement.value, status), assigner, at);
        (t, if result.Err? then Some(result.error) else None)
  }

  /** Pull request number i of the run is resolved to the pick, and handling it leads from s to t. */
  ghost predicate Handled(s: State, t: State, error: Option<UpdateError>, pick: Option<string>, i: nat,
                          payload: Payload, status: EvidenceStatus, assigner: Assigner, at: seq<Surroundings>)
    requires i < |payload.pullRequests| <= |at|
  {
    && IsLatest(s, pick, payload.repoFullName, payload.pullRequests[i], payload.headSHA)
    && (t, error) == Checked(s, payload, status, pick, assigner, at[i])
  }

  datatype Handling = Handling(pick: Option<string>, error: Option<UpdateError>)

  /** The stores a delivery passes through, with the packet picked for each pull request handled and the
    * error it met; an error is the end of it. */
  ghost predicate Delivery(states: seq<State>, handled: seq<Handling>, payload: Payload, status: EvidenceStatus,
                           assigner: Assigner, at: seq<Surroundings>)
  {
    && |states| == |handled| + 1
    && |handled| <= |payload.pullRequests| <= |at|
    && (forall i | 0 <= i < |handled| ::
          Handled(states[i], states[i + 1], handled[i].error, handled[i].pick, i, payload, status, assigner, at))
    && (forall i | 0 <= i < |handled| - 1 :: handled[i].error.None?)
    && (|handled| < |payload.pullRequests| ==> handled != [] && handled[|handled| - 1].error.Some?)
  }

  ghost predicate Succeeds(handled: seq<Handling>) {
    forall i | 0 <= i < |handled| :: handled[i].error.None?
  }

  /** A completed check that can be attributed to a repository and a commit. */
  predicate Relevant(payload: Payload) {
    payload.action == "completed" && payload.status == "completed" && payload.headSHA != ""
        && payload.repoFullName != ""
  }

  /** What a completed check says of the evidence it is bound to. */
  function Verdict(payload: Payload): EvidenceStatus {
    if payload.conclusion == "success" then EvidenceSatisfied else EvidenceFailed
  }

  class Processor {
    const store: MemoryRepository
    const evidence: Service

    constructor (evidence: Service)
      ensures this.evidence == evidence && store == evidence.repository
    {
      this.evidence := evidence;
      this.store := evidence.repository;
    }

    /** Stops at the first error; a run that is not relevant does nothing. */
    method ProcessCheckRun(payload: Payload, at: seq<Surroundings>)
      returns (error: Option<UpdateError>, ghost states: seq<State>, ghost handled: seq<Handling>)
      requires store == evidence.repository && store.Valid()
      requires |at| >= |payload.pullRequests|
      modifies store
      ensures store.Valid()
      ensures states != [] && states[0] == old(store.Contents()) && states[|states| - 1] == store.Contents()
      ensures !Relevant(payload) ==> error.None? && |states| == 1
      ensures Relevant(payload) ==>
                && Delivery(states, handled, payload, Verdict(payload), evidence.laneAssigner, at)
                && error == (if handled == [] then None else handled[|handled| - 1].error)
    {
      hide Checked, IsLatest;
      states, handled, error := [store.Contents()], [], None;
      if payload.action != "completed" {
        return;
      }
      var status := EvidenceStatusForCheckRun(payload.status, payload.conclusion);
      if status.None? || payload.headSHA == "" || payload.repoFullName == "" {
        return;
      }
      for i := 0 to |payload.pullRequests|
        invariant store.Valid() && |handled| == i && |states| == i + 1
        invariant forall k | 0 <= k < i ::
                    Handled(states[k], states[k + 1], handled[k].error, handled[k].pick, k, payload, status.value,
                            evidence.laneAssigner, at)
        invariant states[0] == old(store.Contents()) && states[i] == store.Contents()
        invariant error.None? && forall k | 0 <= k < i :: handled[k].error.None?
      {
        ghost var before := store.Contents();
        ghost var pick;
        error, pick := ReconcilePullRequest(payload, payload.pullRequests[i], status.value, at[i]);
        assert Handled(before, store.Contents(), error, pick, i, payload, status.value, evidence.laneAssigner, at);
        states, handled := states + [store.Contents()], handled + [Handling(pick, error)];
        if error.Some? {
          return;
        }
      }
    }

    method ReconcilePullRequest(payload: Payload, prNumber: int, status: EvidenceStatus, at: Surroundings)
      returns (error: Option<UpdateError>, ghost pick: Option<string>)
      requires store == evidence.repository && store.Valid()
      modifies store
      ensures store.Valid()
      ensures IsLatest(old(store.Contents()), pick, payload.repoFullName, prNumber, payload.headSHA)
      ensures (store.Contents(), error) ==
              Checked(old(store.Contents()), payload, status, pick, evidence.laneAssigner, at)
    {
      var found := store.FindLatestChangePacket(payload.repoFullName, prNumber, payload.headSHA);
      pick := if found.Some? then Some(found.value.id) else None;
      if found.None? {
        return None, pick;
      }
      var packet := found.value;
      var requirement := MatchingRequirement(packet.evidence, payload.name, payload.appId);
      if requirement.None? {
        return None, pick;
      }
      var report := ReportFor(payload, packet.id, requirement.value, status);
      var result := evidence.UpdateEvidenceExecution(report, None, at);
      error := if result.Err? then Some(result.error) else None;
    }
  }

  // ---- What a delivery may change -------------------------------------------------------------------

  /** A check run moves evidence only on a packet of exactly this repository, pull request and commit, only
    * where the requirement is bound to exactly this check and app, and to satisfied only on success. */
  lemma OnlyTheBoundCheckMovesEvidence(s: State, payload: Payload, prNumber: int, pick: Option<string>,
                                       assigner: Assigner, at: Surroundings, status: EvidenceStatus, id: string,
                                       name: string)
    requires StoreInv(s, assigner)
    requires IsLatest(s, pick, payload.repoFullName, prNumber, payload.headSHA)
    requires EvidenceStatusForCheckRun(payload.status, payload.conclusion) == Some(status)
    requires Checked(s, payload, status, pick, assigner, at).0.StatusOf(id, name) != s.StatusOf(id, name)
    ensures pick == Some(id) && Belongs(s.packets[id], payload.repoFullName, prNumber, payload.headSHA)
    ensures exists r | r in s.packets[id].evidence ::
              r.name == name && r.githubCheck == Some(CheckBinding(payload.name, payload.appId))
    ensures Checked(s, payload, status, pick, assigner, at).0.StatusOf(id, name) == status
    ensures status.EvidenceSatisfied? ==> payload.status == "completed" && payload.conclusion == "success"
  {
    var packet := s.packets[pick.value];
    MatchingRequirementMatches(packet.evidence, payload.name, payload.appId);
    var requirement := MatchingRequirement(packet.evidence, payload.name, payload.appId).value;
    var report := ReportFor(payload, pick.value, requirement, status);
    if Admit(s, report).Ok? {
      UpdateSetsStatus(s, report, assigner, at, id, name);
    }
  }

  // ---- Redelivery -----------------------------------------------------------------------------------

  ghost predicate Before(s: State, time: int) {
    forall id | id in s.packets :: s.packets[id].updatedAt < time
  }

  /** The reconciliation times of two consecutive deliveries, read from one strictly increasing clock. */
  ghost predicate Ticking(at: seq<Surroundings>) {
    forall i, j | 0 <= i < j < |at| :: at[i].reconciledAt < at[j].reconciledAt
  }

  /** The picked packet already says what the check reports, or has nothing bound to it. */
  ghost predicate UpToDate(s: State, payload: Payload, status: EvidenceStatus, pick: Option<string>) {
    pick.Some? ==>
      && pick.value in s.packets
      && var requirement := MatchingRequirement(s.packets[pick.value].evidence, payload.name, payload.appId);
         requirement.Some? ==>
           && Admit(s, ReportFor(payload, pick.value, requirement.value, status)).Ok?
           && s.StatusOf(pick.value, requirement.value.name) == status
           && Accurate(s, pick.value)
  }

  /** Same packets up to their times, same statuses. */
  ghost predicate SameOutcome(s: State, t: State) {
    && s.packets.Keys == t.packets.Keys
    && (forall id | id in s.packets :: SameButTimes(s.packets[id], t.packets[id]))
    && (forall id, name :: s.StatusOf(id, name) == t.StatusOf(id, name))
  }

  predicate SameButTimes(a: ChangePacket, b: ChangePacket) {
    b == a.(decision := a.decision.(decidedAt := b.decision.decidedAt), updatedAt := b.updatedAt)
  }

  /** The second log is the first followed by self-transitions. */
  ghost predicate OnlySelfTransitionsAdded(s: State, t: State) {
    forall id ::
      && s.AuditOf(id) <= t.AuditOf(id)
      && forall k | |s.AuditOf(id)| <= k < |t.AuditOf(id)| :: t.AuditOf(id)[k].fromStatus == t.AuditOf(id)[k].toStatus
  }

  /** What handling one pull request does to the packets. */
  ghost predicate Touches(s: State, t: State, pick: Option<string>, now: int) {
    && t.packets.Keys == s.packets.Keys
    && (forall id | id in s.packets :: SameChange(s.packets[id], t.packets[id]))
    && (forall id | id in s.packets && pick != Some(id) ::
          t.packets[id] == s.packets[id] && t.EvidenceOf(id) == s.EvidenceOf(id))
    && (pick.Some? && pick.value in s.packets ==>
          t == s || t.packets[pick.value].updatedAt == now)
  }

  lemma ReportNames(payload: Payload, packetId: string, requirement: EvidenceRequirement, status: EvidenceStatus)
    ensures var report := ReportFor(payload, packetId, requirement, status);
            report.changePacketId == packetId && report.name == requirement.name && report.status == status
  {
  }

  lemma CheckedTouches(s: State, payload: Payload, status: EvidenceStatus, pick: Option<string>, assigner: Assigner,
                       at: Surroundings)
    requires s.WellKeyed()
    ensures Touches(s, Checked(s, payload, status, pick, assigner, at).0, pick, at.reconciledAt)
  {
    hide Touches, Updated, ReportFor, MatchingRequirement;
    NothingTouched(s, pick, at.reconciledAt);
    if pick.Some? && pick.value in s.packets {
      var requirement := MatchingRequirement(s.packets[pick.value].evidence, payload.name, payload.appId);
      if requirement.Some? {
        ReportNames(payload, pick.value, requirement.value, status);
        UpdateTouches(s, ReportFor(payload, pick.value, requirement.value, status), assigner, at);
      }
    }
  }

  lemma NothingTouched(s: State, pick: Option<string>, now: int)
    ensures Touches(s, s, pick, now)
  {
  }

  lemma UpdateTouches(s: State, execution: EvidenceExecution, assigner: Assigner, at: Surroundings)
    requires s.WellKeyed()
    ensures Touches(s, Updated(s, execution, assigner, at).0, Some(execution.changePacketId), at.reconciledAt)
  {
    if Admit(s, execution).Ok? {
      UpdateStampsPacket(s, execution, assigner, at);
      var t := Updated(s, execution, assigner, at).0;
      forall id | id in s.packets
        ensures SameChange(s.packets[id], t.packets[id])
        ensures id != execution.changePacketId ==>
                  t.packets[id] == s.packets[id] && t.EvidenceOf(id) == s.EvidenceOf(id)
      {
        UpdateKeepsPackets(s, execution, assigner, at, id);
      }
    } else {
      RejectionChangesNothing(s, execution, assigner, at);
    }
  }

  /** The packet a pull request resolves to does not change while check runs are reconciled. */
  lemma LatestIsStable(s: State, t: State, payload: Payload, prNumber: int, pick: Option<string>, now: int,
                       otherPR: int, other: Option<string>)
    requires Touches(s, t, pick, now) && Before(s, now)
    requires IsLatest(s, pick, payload.repoFullName, prNumber, payload.headSHA)
    requires IsLatest(s, other, payload.repoFullName, otherPR, payload.headSHA)
    requires DistinctTimes(s)
    ensures IsLatest(t, other, payload.repoFullName, otherPR, payload.headSHA)
  {
    if prNumber == otherPR {
      LatestIsUnique(s, pick, other, payload.repoFullName, prNumber, payload.headSHA);
    }
  }

  lemma TimesStayDistinct(s: State, t: State, pick: Option<string>, now: int)
    requires Touches(s, t, pick, now) && Before(s, now) && DistinctTimes(s)
    ensures DistinctTimes(t)
    ensures forall next | next > now :: Before(t, next)
  {
  }

  /** Handling a pull request without error brings its packet up to date. */
  lemma HandledIsUpToDate(s: State, payload: Payload, status: EvidenceStatus, pick: Option<string>, assigner: Assigner,
                          at: Surroundings)
    requires StoreInv(s, assigner)
    requires pick.Some? ==> pick.value in s.packets
    requires Checked(s, payload, status, pick, assigner, at).1.None?
    ensures UpToDate(Checked(s, payload, status, pick, assigner, at).0, payload, status, pick)
  {
    if pick.Some? {
      var requirement := MatchingRequirement(s.packets[pick.value].evidence, payload.name, payload.appId);
      if requirement.Some? {
        var report := ReportFor(payload, pick.value, requirement.value, status);
        ReportedIsUpToDate(s, report, assigner, at);
      }
    }
  }

  /** After an admitted report the same report is admitted again, as a self-transition. */
  lemma ReportedIsUpToDate(s: State, report: EvidenceExecution, assigner: Assigner, at: Surroundings)
    requires StoreInv(s, assigner) && Admit(s, report).Ok?
    ensures var t := Updated(s, report, assigner, at).0;
            && report.changePacketId in t.packets
            && t.packets[report.changePacketId].evidence == s.packets[report.changePacketId].evidence
            && Admit(t, report).Ok?
            && t.StatusOf(report.changePacketId, report.name) == report.status
            && Accurate(t, report.changePacketId)
  {
    var t := Updated(s, report, assigner, at).0;
    UpdateSetsStatus(s, report, assigner, at, report.changePacketId, report.name);
    UpdateKeepsPackets(s, report, assigner, at, report.changePacketId);
    AdmittedUpdateIsAccurate(s, report, assigner, at);
    AdmittedExactlyWhen(s, report);
    AdmittedExactlyWhen(t, report);
  }

  /** Handling another pull request of the same run keeps it up to date. */
  lemma UpToDateStays(s: State, payload: Payload, status: EvidenceStatus, pick: Option<string>, other: Option<string>,
                      assigner: Assigner, at: Surroundings)
    requires StoreInv(s, assigner) && UpToDate(s, payload, status, other)
    ensures UpToDate(Checked(s, payload, status, pick, assigner, at).0, payload, status, other)
  {
    var t := Checked(s, payload, status, pick, assigner, at).0;
    CheckedTouches(s, payload, status, pick, assigner, at);
    if other.Some? {
      if pick != other {
        var requirement := MatchingRequirement(s.packets[other.value].evidence, payload.name, payload.appId);
        if requirement.Some? {
          AdmittedExactlyWhen(s, ReportFor(payload, other.value, requirement.value, status));
          AdmittedExactlyWhen(t, ReportFor(payload, other.value, requirement.value, status));
        }
      } else {
        SecondHandlingIsUpToDate(s, payload, status, pick, assigner, at);
      }
    }
  }

  /** Handling an up-to-date pull request again fails only in publishing, keeps every status, decision and
    * lane, and audits at most a self-transition. */
  lemma SecondHandling(s: State, payload: Payload, status: EvidenceStatus, pick: Option<string>, assigner: Assigner,
                       at: Surroundings)
    requires StoreInv(s, assigner) && UpToDate(s, payload, status, pick)
    ensures var (t, error) := Checked(s, payload, status, pick, assigner, at);
            && (at.publishes ==> error.None?)
            && SameOutcome(s, t)
            && OnlySelfTransitionsAdded(s, t)
  {
    hide Updated, Admit, Accurate, SameOutcome, OnlySelfTransitionsAdded, StoreInv, ReportFor, MatchingRequirement;
    NothingChanged(s);
    if pick.Some? {
      var requirement := MatchingRequirement(s.packets[pick.value].evidence, payload.name, payload.appId);
      if requirement.Some? {
        var report := ReportFor(payload, pick.value, requirement.value, status);
        ReportNames(payload, pick.value, requirement.value, status);
        RejectionChangesNothing(s, report, assigner, at);
        SecondReport(s, report, assigner, at);
        SecondReportAudit(s, report, assigner, at);
      }
    }
  }

  lemma SecondHandlingIsUpToDate(s: State, payload: Payload, status: EvidenceStatus, pick: Option<string>,
                                 assigner: Assigner, at: Surroundings)
    requires StoreInv(s, assigner) && UpToDate(s, payload, status, pick)
    ensures UpToDate(Checked(s, payload, status, pick, assigner, at).0, payload, status, pick)
  {
    hide Updated, Admit, Accurate, StoreInv, ReportFor, MatchingRequirement;
    if pick.Some? {
      var requirement := MatchingRequirement(s.packets[pick.value].evidence, payload.name, payload.appId);
      if requirement.Some? {
        ReportNames(payload, pick.value, requirement.value, status);
        ReportedIsUpToDate(s, ReportFor(payload, pick.value, requirement.value, status), assigner, at);
      }
    }
  }

  lemma SecondReport(s: State, report: EvidenceExecution, assigner: Assigner, at: Surroundings)
    requires StoreInv(s, assigner) && Admit(s, report).Ok?
    requires s.StatusOf(report.changePacketId, report.name) == report.status
    requires Accurate(s, report.changePacketId)
    ensures SameOutcome(s, Updated(s, report, assigner, at).0)
  {
    var t := Updated(s, report, assigner, at).0;
    var id := report.changePacketId;
    forall other, name
      ensures t.StatusOf(other, name) == s.StatusOf(other, name)
    {
      UpdateSetsStatus(s, report, assigner, at, other, name);
    }
    UpdateKeepsPackets(s, report, assigner, at, id);
    forall other | other in s.packets
      ensures SameButTimes(s.packets[other], t.packets[other])
    {
      UpdateKeepsPackets(s, report, assigner, at, other);
      if other == id {
        AdmittedUpdateIsAccurate(s, report, assigner, at);
        UpdateKeepsStoreInv(s, report, assigner, at);
        UpdateStampsPacket(s, report, assigner, at);
        SameStatusSameOutcome(s, t, id, assigner);
      }
    }
  }

  lemma SameStatusSameOutcome(s: State, t: State, id: string, assigner: Assigner)
    requires StoreInv(s, assigner) && StoreInv(t, assigner)
    requires id in s.packets && id in t.packets && SameChange(s.packets[id], t.packets[id])
    requires Accurate(s, id) && Accurate(t, id)
    requires forall name :: t.StatusOf(id, name) == s.StatusOf(id, name)
    requires assigner.None? ==> t.packets[id].mergeLane == s.packets[id].mergeLane
    ensures SameButTimes(s.packets[id], t.packets[id])
  {
    CompleteByStatus(s, t, id, s.packets[id].evidence);
    CompleteByStatus(t, s, id, s.packets[id].evidence);
    if assigner.Some? {
      Lanes.AssignReadsOnly(assigner.value, s.packets[id], t.packets[id]);
    }
  }

  lemma SecondReportAudit(s: State, report: EvidenceExecution, assigner: Assigner, at: Surroundings)
    requires Admit(s, report).Ok?
    requires s.StatusOf(report.changePacketId, report.name) == report.status
    ensures OnlySelfTransitionsAdded(s, Updated(s, report, assigner, at).0)
  {
    hide Updated, InvalidRequestField, FindRequirement, CanTransition;
    forall id
      ensures Updated(s, report, assigner, at).0.AuditOf(id) == s.AuditOf(id) + AddedEntries(s, report, at, id)
    {
      UpdateAppendsEntry(s, report, assigner, at, id);
    }
  }

  // ---- Whole deliveries -----------------------------------------------------------------------------

  /** The clock never goes back: readings of one delivery increase, and lie after every stored time. */
  ghost predicate ClockAfter(s: State, at: seq<Surroundings>) {
    && (forall i | 0 <= i < |at| :: Before(s, at[i].reconciledAt))
    && Ticking(at)
  }

  lemma {:induction false} DeliveryKeepsInv(states: seq<State>, handled: seq<Handling>, payload: Payload,
                                            status: EvidenceStatus, assigner: Assigner, at: seq<Surroundings>, i: nat)
    requires Delivery(states, handled, payload, status, assigner, at) && i < |states|
    requires StoreInv(states[0], assigner) && DistinctTimes(states[0]) && ClockAfter(states[0], at)
    ensures StoreInv(states[i], assigner) && DistinctTimes(states[i])
    ensures forall next | i == 0 || next > at[i - 1].reconciledAt :: Before(states[0], next) ==> Before(states[i], next)
  {
    if i > 0 {
      DeliveryKeepsInv(states, handled, payload, status, assigner, at, i - 1);
      var s, t := states[i - 1], states[i];
      assert Handled(s, t, handled[i - 1].error, handled[i - 1].pick, i - 1, payload, status, assigner, at);
      CheckedTouches(s, payload, status, handled[i - 1].pick, assigner, at[i - 1]);
      CheckedKeepsInv(s, payload, status, handled[i - 1].pick, assigner, at[i - 1]);
      TimesStayDistinct(s, t, handled[i - 1].pick, at[i - 1].reconciledAt);
    }
  }

  lemma HandledKeepsLatest(s: State, t: State, handling: Handling, i: nat, payload: Payload, status: EvidenceStatus,
                           assigner: Assigner, at: seq<Surroundings>, prNumber: int, pick: Option<string>)
    requires i < |payload.pullRequests| <= |at|
    requires StoreInv(s, assigner) && DistinctTimes(s) && Before(s, at[i].reconciledAt)
    requires Handled(s, t, handling.error, handling.pick, i, payload, status, assigner, at)
    requires IsLatest(s, pick, payload.repoFullName, prNumber, payload.headSHA)
    ensures IsLatest(t, pick, payload.repoFullName, prNumber, payload.headSHA)
  {
    hide StoreInv, IsLatest, Touches, Before, DistinctTimes, Checked;
    KeyedStore(s, assigner);
    CheckedTouches(s, payload, status, handling.pick, assigner, at[i]);
    LatestIsStable(s, t, payload, payload.pullRequests[i], handling.pick, at[i].reconciledAt, prNumber, pick);
  }

  /** Resolutions do not move while a delivery is handled. */
  lemma {:induction false} DeliveryKeepsLatest(states: seq<State>, handled: seq<Handling>, payload: Payload,
                                               status: EvidenceStatus, assigner: Assigner, at: seq<Surroundings>,
                                               j: nat, i: nat, prNumber: int, pick: Option<string>)
    requires Delivery(states, handled, payload, status, assigner, at) && j <= i < |states|
    requires StoreInv(states[0], assigner) && DistinctTimes(states[0]) && ClockAfter(states[0], at)
    requires IsLatest(states[j], pick, payload.repoFullName, prNumber, payload.headSHA)
    ensures IsLatest(states[i], pick, payload.repoFullName, prNumber, payload.headSHA)
    decreases i
  {
    hide StoreInv, Handled, DistinctTimes, IsLatest, Before;
    if j < i {
      DeliveryKeepsLatest(states, handled, payload, status, assigner, at, j, i - 1, prNumber, pick);
      DeliveryKeepsInv(states, handled, payload, status, assigner, at, i - 1);
      var s, t := states[i - 1], states[i];
      assert Handled(s, t, handled[i - 1].error, handled[i - 1].pick, i - 1, payload, status, assigner, at);
      HandledKeepsLatest(s, t, handled[i - 1], i - 1, payload, status, assigner, at, prNumber, pick);
    }
  }

  lemma HandledStep(s: State, t: State, handling: Handling, i: nat, payload: Payload, status: EvidenceStatus,
                    assigner: Assigner, at: seq<Surroundings>, other: Option<string>)
    requires i < |payload.pullRequests| <= |at|
    requires StoreInv(s, assigner)
    requires Handled(s, t, handling.error, handling.pick, i, payload, status, assigner, at)
    ensures handling.error.None? ==> UpToDate(t, payload, status, handling.pick)
    ensures UpToDate(s, payload, status, other) ==> UpToDate(t, payload, status, other)
  {
    if handling.error.None? {
      HandledIsUpToDate(s, payload, status, handling.pick, assigner, at[i]);
    }
    if UpToDate(s, payload, status, other) {
      UpToDateStays(s, payload, status, handling.pick, other, assigner, at[i]);
    }
  }

  lemma HandledPicksLatest(s: State, t: State, handling: Handling, i: nat, payload: Payload, status: EvidenceStatus,
                           assigner: Assigner, at: seq<Surroundings>)
    requires i < |payload.pullRequests| <= |at|
    requires Handled(s, t, handling.error, handling.pick, i, payload, status, assigner, at)
    ensures IsLatest(s, handling.pick, payload.repoFullName, payload.pullRequests[i], payload.headSHA)
  {
  }

  lemma SecondStep(s: State, t: State, handling: Handling, i: nat, payload: Payload, status: EvidenceStatus,
                   assigner: Assigner, at: seq<Surroundings>)
    requires i < |payload.pullRequests| <= |at| && at[i].publishes
    requires StoreInv(s, assigner) && UpToDate(s, payload, status, handling.pick)
    requires Handled(s, t, handling.error, handling.pick, i, payload, status, assigner, at)
    ensures handling.error.None? && SameOutcome(s, t) && OnlySelfTransitionsAdded(s, t)
  {
    SecondHandling(s, payload, status, handling.pick, assigner, at[i]);
  }

  /** After a successful delivery every pick is up to date. */
  lemma {:induction false} DeliveryBringsUpToDate(states: seq<State>, handled: seq<Handling>, payload: Payload,
                                                  status: EvidenceStatus, assigner: Assigner, at: seq<Surroundings>,
                                                  i: nat, k: nat)
    requires Delivery(states, handled, payload, status, assigner, at) && Succeeds(handled) && k < i < |states|
    requires StoreInv(states[0], assigner) && DistinctTimes(states[0]) && ClockAfter(states[0], at)
    ensures UpToDate(states[i], payload, status, handled[k].pick)
    decreases i
  {
    hide UpToDate, StoreInv, Handled, DistinctTimes, ClockAfter;
    DeliveryKeepsInv(states, handled, payload, status, assigner, at, i - 1);
    assert Handled(states[i - 1], states[i], handled[i - 1].error, handled[i - 1].pick, i - 1, payload, status,
                   assigner, at);
    if k < i - 1 {
      DeliveryBringsUpToDate(states, handled, payload, status, assigner, at, i - 1, k);
    }
    HandledStep(states[i - 1], states[i], handled[i - 1], i - 1, payload, status, assigner, at, handled[k].pick);
  }

  /** A second delivery, started from a store where every pick is up to date. */
  lemma {:induction false} SecondDelivery(states: seq<State>, handled: seq<Handling>, payload: Payload,
                                          status: EvidenceStatus, assigner: Assigner, at: seq<Surroundings>,
                                          picks: seq<Option<string>>, i: nat)
    requires Delivery(states, handled, payload, status, assigner, at) && i < |states|
    requires StoreInv(states[0], assigner) && DistinctTimes(states[0]) && ClockAfter(states[0], at)
    requires forall k | 0 <= k < |at| :: at[k].publishes
    requires |picks| == |payload.pullRequests|
    requires forall k | 0 <= k < |picks| ::
               && UpToDate(states[0], payload, status, picks[k])
               && IsLatest(states[0], picks[k], payload.repoFullName, payload.pullRequests[k], payload.headSHA)
    ensures SameOutcome(states[0], states[i]) && OnlySelfTransitionsAdded(states[0], states[i])
    ensures forall k | 0 <= k < |picks| :: UpToDate(states[i], payload, status, picks[k])
    ensures forall k | 0 <= k < i :: handled[k].error.None? && handled[k].pick == picks[k]
  {
    hide UpToDate, StoreInv, Handled, DistinctTimes, ClockAfter, IsLatest, OnlySelfTransitionsAdded, SameOutcome;
    if i == 0 {
      NothingChanged(states[0]);
    } else {
      var n := i - 1;
      SecondDelivery(states, handled, payload, status, assigner, at, picks, n);
      DeliveryKeepsInv(states, handled, payload, status, assigner, at, n);
      var s, t := states[n], states[i];
      assert Handled(s, t, handled[n].error, handled[n].pick, n, payload, status, assigner, at);
      DeliveryKeepsLatest(states, handled, payload, status, assigner, at, 0, n, payload.pullRequests[n], picks[n]);
      HandledPicksLatest(s, t, handled[n], n, payload, status, assigner, at);
      LatestIsUnique(s, handled[n].pick, picks[n], payload.repoFullName, payload.pullRequests[n], payload.headSHA);
      SecondStep(s, t, handled[n], n, payload, status, assigner, at);
      forall k | 0 <= k < |picks|
        ensures UpToDate(t, payload, status, picks[k])
      {
        HandledStep(s, t, handled[n], n, payload, status, assigner, at, picks[k]);
      }
      SelfTransitionsCompose(states[0], s, t);
      SameOutcomeTransitive(states[0], s, t);
    }
  }

  lemma NothingChanged(s: State)
    ensures SameOutcome(s, s) && OnlySelfTransitionsAdded(s, s)
  {
  }

  lemma SameOutcomeTransitive(s: State, t: State, u: State)
    requires SameOutcome(s, t) && SameOutcome(t, u)
    ensures SameOutcome(s, u)
  {
  }

  lemma SelfTransitionsCompose(s: State, t: State, u: State)
    requires OnlySelfTransitionsAdded(s, t) && OnlySelfTransitionsAdded(t, u)
    ensures OnlySelfTransitionsAdded(s, u)
  {
    forall id
      ensures s.AuditOf(id) <= u.AuditOf(id)
      ensures forall k | |s.AuditOf(id)| <= k < |u.AuditOf(id)| ::
              u.AuditOf(id)[k].fromStatus == u.AuditOf(id)[k].toStatus
    {
      assert s.AuditOf(id) <= t.AuditOf(id) <= u.AuditOf(id);
      forall k | |s.AuditOf(id)| <= k < |u.AuditOf(id)|
        ensures u.AuditOf(id)[k].fromStatus == u.AuditOf(id)[k].toStatus
      {
        if k < |t.AuditOf(id)| {
          assert u.AuditOf(id)[k] == t.AuditOf(id)[k];
        }
      }
    }
  }

  /** Delivering a check run again, after a delivery that succeeded and with a clock that never repeats,
    * also succeeds, picks the same packets, and leaves every status, decision and lane as it was; the audit
    * log gains self-transitions only. */
  lemma RedeliveryIsIdempotent(first: seq<State>, handled: seq<Handling>, second: seq<State>, again: seq<Handling>,
                               payload: Payload, status: EvidenceStatus, assigner: Assigner,
                               at: seq<Surroundings>, later: seq<Surroundings>)
    requires Delivery(first, handled, payload, status, assigner, at) && Succeeds(handled)
    requires Delivery(second, again, payload, status, assigner, later)
    requires second[0] == first[|first| - 1]
    requires StoreInv(first[0], assigner) && DistinctTimes(first[0])
    requires ClockAfter(first[0], at + later)
    requires forall k | 0 <= k < |later| :: later[k].publishes
    ensures Succeeds(again) && |again| == |handled|
    ensures forall k | 0 <= k < |handled| :: again[k].pick == handled[k].pick
    ensures SameOutcome(second[0], second[|second| - 1])
    ensures OnlySelfTransitionsAdded(second[0], second[|second| - 1])
  {
    var n := |handled|;
    assert ClockAfter(first[0], at) && ClockAfter(first[0], later) by {
      assert forall i | 0 <= i < |at| :: (at + later)[i] == at[i];
      assert forall i | 0 <= i < |later| :: (at + later)[|at| + i] == later[i];
    }
    DeliveryKeepsInv(first, handled, payload, status, assigner, at, n);
    assert ClockAfter(second[0], later) by {
      if n > 0 {
        assert forall i | 0 <= i < |later| :: (at + later)[|at| + i] == later[i];
        assert (at + later)[n - 1] == at[n - 1];
      }
    }
    var picks := seq(n, k requires 0 <= k < n => handled[k].pick);
    forall k | 0 <= k < n
      ensures UpToDate(second[0], payload, status, picks[k])
      ensures IsLatest(second[0], picks[k], payload.repoFullName, payload.pullRequests[k], payload.headSHA)
    {
      DeliveryBringsUpToDate(first, handled, payload, status, assigner, at, n, k);
      assert Handled(first[k], first[k + 1], handled[k].error, handled[k].pick, k, payload, status, assigner, at);
      DeliveryKeepsLatest(first, handled, payload, status, assigner, at, k, n, payload.pullRequests[k], picks[k]);
    }
    SecondDelivery(second, again, payload, status, assigner, later, picks, |again|);
  }

  lemma CheckedKeepsInv(s: State, payload: Payload, status: EvidenceStatus, pick: Option<string>, assigner: Assigner,
                        at: Surroundings)
    requires StoreInv(s, assigner)
    ensures StoreInv(Checked(s, payload, status, pick, assigner, at).0, assigner)
  {
    if pick.Some? && pick.value in s.packets {
      var requirement := MatchingRequirement(s.packets[pick.value].evidence, payload.name, payload.appId);
      if requirement.Some? {
        UpdateKeepsStoreInv(s, ReportFor(payload, pick.value, requirement.value, status), assigner, at);
      }
    }
  }

  // ---- Deliveries as wholes ---------------------------------------------------------------------------

  lemma {:induction false} DeliveryKeepsChanges(states: seq<State>, handled: seq<Handling>, payload: Payload,
                                                status: EvidenceStatus, assigner: Assigner, at: seq<Surroundings>,
                                                n: nat, id: string)
    requires Delivery(states, handled, payload, status, assigner, at) && n < |states|
    requires StoreInv(states[0], assigner)
    ensures StoreInv(states[n], assigner)
    ensures id in states[0].packets <==> id in states[n].packets
    ensures id in states[0].packets ==> SameChange(states[0].packets[id], states[n].packets[id])
  {
    hide StoreInv, Checked, IsLatest, SameChange;
    if n == 0 {
      ChangesNothing(states[0], id);
    } else {
      DeliveryKeepsChanges(states, handled, payload, status, assigner, at, n - 1, id);
      var s, t := states[n - 1], states[n];
      assert Handled(s, t, handled[n - 1].error, handled[n - 1].pick, n - 1, payload, status, assigner, at);
      KeyedStore(s, assigner);
      CheckedTouches(s, payload, status, handled[n - 1].pick, assigner, at[n - 1]);
      CheckedKeepsInv(s, payload, status, handled[n - 1].pick, assigner, at[n - 1]);
      if id in s.packets {
        SameChangeTransitive(states[0].packets[id], s.packets[id], t.packets[id]);
      }
    }
  }

  lemma ChangesNothing(s: State, id: string)
    ensures id in s.packets ==> SameChange(s.packets[id], s.packets[id])
  {
  }

  ghost predicate Bound(packet: ChangePacket, payload: Payload, name: string) {
    exists r | r in packet.evidence ::
      r.name == name && r.githubCheck == Some(CheckBinding(payload.name, payload.appId))
  }

  /** The pull request of the run that the packet belongs to and was picked for. */
  ghost predicate PickedFor(handled: seq<Handling>, n: nat, payload: Payload, packet: ChangePacket, id: string) {
    exists k | 0 <= k < n && k < |handled| && k < |payload.pullRequests| ::
      handled[k].pick == Some(id) && Belongs(packet, payload.repoFullName, payload.pullRequests[k], payload.headSHA)
  }

  /** A whole delivery changes a status only to the one its check reports, only on a packet of its repository
    * and commit picked for one of its pull requests, and only where exactly its check and app are bound. */
  lemma {:induction false} DeliveryMovesOnlyBoundEvidence(states: seq<State>, handled: seq<Handling>, payload: Payload,
                                                          status: EvidenceStatus, assigner: Assigner,
                                                          at: seq<Surroundings>, n: nat, id: string, name: string)
    requires Delivery(states, handled, payload, status, assigner, at) && n < |states|
    requires StoreInv(states[0], assigner)
    requires EvidenceStatusForCheckRun(payload.status, payload.conclusion) == Some(status)
    requires states[n].StatusOf(id, name) != states[0].StatusOf(id, name)
    ensures id in states[0].packets
    ensures PickedFor(handled, n, payload, states[0].packets[id], id)
    ensures Bound(states[0].packets[id], payload, name)
    ensures states[n].StatusOf(id, name) == status
    ensures status.EvidenceSatisfied? ==> payload.status == "completed" && payload.conclusion == "success"
  {
    hide StoreInv, Checked, IsLatest, SameChange, EvidenceStatusForCheckRun;
    if n > 0 {
      var s, t := states[n - 1], states[n];
      assert Handled(s, t, handled[n - 1].error, handled[n - 1].pick, n - 1, payload, status, assigner, at);
      if t.StatusOf(id, name) != s.StatusOf(id, name) {
        DeliveryKeepsChanges(states, handled, payload, status, assigner, at, n - 1, id);
        OnlyTheBoundCheckMovesEvidence(s, payload, payload.pullRequests[n - 1], handled[n - 1].pick, assigner,
                                       at[n - 1], status, id, name);
        PickedIsStored(s, payload, payload.pullRequests[n - 1], handled[n - 1].pick);
        SameBelonging(states[0].packets[id], s.packets[id], payload, payload.pullRequests[n - 1]);
      } else {
        DeliveryMovesOnlyBoundEvidence(states, handled, payload, status, assigner, at, n - 1, id, name);
      }
    }
  }

  lemma PickedIsStored(s: State, payload: Payload, prNumber: int, pick: Option<string>)
    requires IsLatest(s, pick, payload.repoFullName, prNumber, payload.headSHA)
    ensures pick.Some? ==> pick.value in s.packets
  {
  }

  lemma SameBelonging(a: ChangePacket, b: ChangePacket, payload: Payload, prNumber: int)
    requires SameChange(a, b)
    ensures a.evidence == b.evidence
    ensures Belongs(a, payload.repoFullName, prNumber, payload.headSHA) <==>
            Belongs(b, payload.repoFullName, prNumber, payload.headSHA)
  {
  }

  // ---- Distinct times in runs -------------------------------------------------------------------------

  /** The time an operation stamps on its packet. */
  function TimeOf(op: Op): int {
    match op
    case Ingest(packet, _) => packet.updatedAt
    case Update(_, at) => at.reconciledAt
  }

  ghost predicate ClockTicks(ops: seq<Op>) {
    forall i, j | 0 <= i < j < |ops| :: TimeOf(ops[i]) < TimeOf(ops[j])
  }

  /** Under a ticking clock no two packets of a serial run ever carry the same update time. */
  lemma {:induction false} RunTimesAreDistinct(states: seq<State>, ops: seq<Op>, assigner: Assigner, i: nat)
    requires SerialRuns.IsRun(states, ops, assigner) && ClockTicks(ops) && i < |states|
    ensures DistinctTimes(states[i])
    ensures forall j | i <= j < |ops| :: Before(states[i], TimeOf(ops[j]))
  {
    hide Updated, Produced, StoreInv, Chained, Accurate, Touches;
    if i > 0 {
      RunTimesAreDistinct(states, ops, assigner, i - 1);
      var s, op := states[i - 1], ops[i - 1];
      assert Step(s, op, states[i], assigner);
      match op {
        case Ingest(packet, now) => IngestedTimes(s, packet, now);
        case Update(execution, at) =>
          RunInv(states, ops, assigner, i - 1);
          KeyedStore(s, assigner);
          UpdateTouches(s, execution, assigner, at);
          TimesStayDistinct(s, states[i], Some(execution.changePacketId), at.reconciledAt);
      }
      assert forall j | i <= j < |ops| :: TimeOf(op) < TimeOf(ops[j]);
    }
  }

  lemma IngestedTimes(s: State, packet: ChangePacket, now: int)
    requires DistinctTimes(s) && Before(s, packet.updatedAt)
    ensures DistinctTimes(Saved(s, packet, now))
    ensures forall next | next > packet.updatedAt :: Before(Saved(s, packet, now), next)
  {
    hide Ensured;
  }

  /** So redelivery after any serial run under a ticking clock is idempotent. */
  lemma RedeliveryInRunIsIdempotent(states: seq<State>, ops: seq<Op>, first: seq<State>, handled: seq<Handling>,
                                    second: seq<State>, again: seq<Handling>, payload: Payload, status: EvidenceStatus,
                                    assigner: Assigner, at: seq<Surroundings>, later: seq<Surroundings>)
    requires SerialRuns.IsRun(states, ops, assigner) && ClockTicks(ops)
    requires first != [] && first[0] == states[|ops|] && ClockAfter(first[0], at + later)
    requires Delivery(first, handled, payload, status, assigner, at) && Succeeds(handled)
    requires Delivery(second, again, payload, status, assigner, later)
    requires second[0] == first[|first| - 1]
    requires forall k | 0 <= k < |later| :: later[k].publishes
    ensures Succeeds(again) && |again| == |handled|
    ensures forall k | 0 <= k < |handled| :: again[k].pick == handled[k].pick
    ensures SameOutcome(second[0], second[|second| - 1])
    ensures OnlySelfTransitionsAdded(second[0], second[|second| - 1])
  {
    hide Delivery, SameOutcome, OnlySelfTransitionsAdded, StoreInv, DistinctTimes, ClockAfter, Chained, Accurate, Step;
    RunInv(states, ops, assigner, |ops|);
    RunTimesAreDistinct(states, ops, assigner, |ops|);
    RedeliveryIsIdempotent(first, handled, second, again, payload, status, assigner, at, later);
  }
}
