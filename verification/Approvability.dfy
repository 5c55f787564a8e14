/** Which packets can still be approved: what some further sequence of evidence updates can reach. */
module Approvability {
  import opened Domain
  import opened Text
  import opened EvidenceStore
  import opened ControlPlane
  import opened Invariants
  import opened SerialRuns
  import opened OutstandingEvidence
  import Lanes

  datatype Call = Call(execution: EvidenceExecution, at: Surroundings)

  ghost function After(s: State, calls: seq<Call>, assigner: Assigner): State {
    if calls == [] then s
    else
      var last := calls[|calls| - 1];
      Updated(After(s, calls[..|calls| - 1], assigner), last.execution, assigner, last.at).0
  }

  ghost predicate CanBeApproved(s: State, id: string, assigner: Assigner) {
    exists calls :: Approved(After(s, calls, assigner), id)
  }

  /** The packet's id and the names of all evidence it still waits for can be given in an update. */
  ghost predicate Addressable(s: State, id: string)
    requires id in s.packets
  {
    forall name | Requires(s.packets[id].evidence, name) && !Settled(s.StatusOf(id, name)) :: !Blank(id) && !Blank(name)
  }

  lemma AfterNext(s: State, calls: seq<Call>, call: Call, assigner: Assigner)
    ensures After(s, calls + [call], assigner) == Updated(After(s, calls, assigner), call.execution, assigner,
                                                          call.at).0
  {
    assert (calls + [call])[..|calls|] == calls;
  }

  lemma {:induction false} AfterKeeps(s: State, calls: seq<Call>, assigner: Assigner, id: string)
    requires SerialInv(s, assigner) && id in s.packets
    ensures var t := After(s, calls, assigner);
            SerialInv(t, assigner) && id in t.packets && SameChange(s.packets[id], t.packets[id])
  {
    hide SerialInv, Updated, SameChange;
    if calls == [] {
      SameAsItself(s.packets[id]);
    } else {
      var before, last := calls[..|calls| - 1], calls[|calls| - 1];
      AfterKeeps(s, before, assigner, id);
      var t := After(s, before, assigner);
      UpdateKeepsInv(t, last.execution, assigner, last.at);
      InvIsKeyed(t, assigner);
      UpdateKeepsPackets(t, last.execution, assigner, last.at, id);
      SameChangeTransitive(s.packets[id], t.packets[id], After(s, calls, assigner).packets[id]);
    }
  }

  lemma SameAsItself(packet: ChangePacket)
    ensures SameChange(packet, packet)
  {
  }

  lemma InvIsKeyed(s: State, assigner: Assigner)
    requires SerialInv(s, assigner)
    ensures s.WellKeyed()
  {
    hide Sound;
  }

  // ---- What stands in the way -------------------------------------------------------------------------

  /** Without a packet id and a name no update takes effect. */
  lemma {:induction false} BlankStays(s: State, calls: seq<Call>, assigner: Assigner, id: string, name: string)
    requires Blank(id) || Blank(name)
    ensures After(s, calls, assigner).StatusOf(id, name) == s.StatusOf(id, name)
  {
    hide Updated, Admit, Blank;
    if calls != [] {
      var before, last := calls[..|calls| - 1], calls[|calls| - 1];
      BlankStays(s, before, assigner, id, name);
      var t := After(s, before, assigner);
      RejectionChangesNothing(t, last.execution, assigner, last.at);
      AdmittedExactlyWhen(t, last.execution);
      if Admit(t, last.execution).Ok? {
        UpdateSetsStatus(t, last.execution, assigner, last.at, id, name);
      }
    }
  }

  lemma ApprovedHasNoObstacle(s: State, calls: seq<Call>, assigner: Assigner, id: string)
    requires SerialInv(s, assigner) && id in s.packets && Approved(After(s, calls, assigner), id)
    ensures !s.packets[id].decision.status.DecisionBlocked?
    ensures !Lanes.HasMandatoryReviewer(s.packets[id].reviewers)
    ensures Addressable(s, id)
  {
    hide SerialInv, After, Blank, Complete, Lanes.HasMandatoryReviewer;
    AfterKeeps(s, calls, assigner, id);
    var t := After(s, calls, assigner);
    InvIsAccurate(t, assigner, id);
    CompleteByStatuses(t, id, t.packets[id].evidence);
    forall name | Requires(s.packets[id].evidence, name) && !Settled(s.StatusOf(id, name))
      ensures !Blank(id) && !Blank(name)
    {
      if Blank(id) || Blank(name) {
        BlankStays(s, calls, assigner, id, name);
      }
    }
  }

  lemma InvIsAccurate(s: State, assigner: Assigner, id: string)
    requires SerialInv(s, assigner) && id in s.packets
    ensures Accurate(s, id)
  {
    hide Accurate, StoreInv;
  }

  // ---- The way there ----------------------------------------------------------------------------------

  const WAIVED_AT := Surroundings(0, 0, 0, true)

  function Waiver(id: string, name: string): EvidenceExecution {
    EvidenceExecution(id, name, "", EvidenceWaived, false, "", "", "owner", map[], 0)
  }

  /** A chained legal log only ever holds statuses the service knows. */
  lemma {:induction false} NeverUnknown(log: AuditLog, name: string)
    requires Chained(log) && LegalLog(log)
    ensures !LastStatus(log, name).EvidenceOther?
  {
    if log != [] {
      var before, last := log[..|log| - 1], log[|log| - 1];
      assert last in log && forall e | e in before :: e in log;
      assert LegalEntry(last);
      NeverUnknown(before, name);
    }
  }

  lemma StatusIsKnown(s: State, assigner: Assigner, id: string, name: string)
    requires SerialInv(s, assigner)
    ensures !s.StatusOf(id, name).EvidenceOther?
  {
    hide Structured, WaiversAttributed, Chained, LegalLog, Accurate;
    NeverUnknown(s.AuditOf(id), name);
  }

  /** Waiving is legal for any required evidence that is not settled yet. */
  lemma WaiverIsAdmitted(s: State, assigner: Assigner, id: string, name: string)
    requires SerialInv(s, assigner) && id in s.packets && Names(s.packets[id].evidence, name)
    requires !Blank(id) && !Blank(name) && !Settled(s.StatusOf(id, name))
    ensures Admit(s, Waiver(id, name)).Ok?
    ensures var t := Updated(s, Waiver(id, name), assigner, WAIVED_AT).0;
            forall other :: t.StatusOf(id, other) == if other == name then EvidenceWaived else s.StatusOf(id, other)
  {
    hide SerialInv, Updated, Admit;
    StatusIsKnown(s, assigner, id, name);
    assert !IsSpace("owner"[0]) && "owner"[0] in "owner";
    AdmittedExactlyWhen(s, Waiver(id, name));
    forall other
      ensures Updated(s, Waiver(id, name), assigner, WAIVED_AT).0.StatusOf(id, other) ==
              if other == name then EvidenceWaived else s.StatusOf(id, other)
    {
      UpdateSetsStatus(s, Waiver(id, name), assigner, WAIVED_AT, id, other);
    }
  }

  /** Waives the first n requirements in turn, as far as they are required and not settled. */
  lemma {:induction false} WaiveAll(s: State, assigner: Assigner, id: string, n: nat) returns (calls: seq<Call>)
    requires SerialInv(s, assigner) && id in s.packets && Addressable(s, id)
    requires n <= |s.packets[id].evidence|
    ensures forall name | Requires(s.packets[id].evidence[..n], name) ::
            Settled(After(s, calls, assigner).StatusOf(id, name))
    ensures forall name | Settled(s.StatusOf(id, name)) :: Settled(After(s, calls, assigner).StatusOf(id, name))
  {
    hide SerialInv, After, Blank, Settled, SameChange;
    if n == 0 {
      calls := [];
      NoCalls(s, assigner);
    } else {
      calls := WaiveAll(s, assigner, id, n - 1);
      var r := s.packets[id].evidence[n - 1];
      AfterKeeps(s, calls, assigner, id);
      var t := After(s, calls, assigner);
      RequiresMore(s.packets[id].evidence, n);
      if r.required && !Settled(t.StatusOf(id, r.name)) {
        SameEvidence(s.packets[id], t.packets[id]);
        assert Names(t.packets[id].evidence, r.name);
        assert Requires(s.packets[id].evidence, r.name);
        WaiverIsAdmitted(t, assigner, id, r.name);
        AfterNext(s, calls, Call(Waiver(id, r.name), WAIVED_AT), assigner);
        calls := calls + [Call(Waiver(id, r.name), WAIVED_AT)];
        WaivedIsSettled();
      }
    }
  }

  lemma NoCalls(s: State, assigner: Assigner)
    ensures After(s, [], assigner) == s
  {
  }

  lemma WaivedIsSettled()
    ensures Settled(EvidenceWaived)
  {
  }

  lemma SameEvidence(a: ChangePacket, b: ChangePacket)
    requires SameChange(a, b)
    ensures a.evidence == b.evidence
  {
  }

  lemma RequiresMore(requirements: seq<EvidenceRequirement>, n: nat)
    requires 0 < n <= |requirements|
    ensures forall name :: Requires(requirements[..n], name) <==>
              Requires(requirements[..n - 1], name)
                  || (requirements[n - 1].required && requirements[n - 1].name == name)
  {
    assert requirements[..n] == requirements[..n - 1] + [requirements[n - 1]];
  }

  /** In any state of a serial run, some further updates approve a packet exactly when it is not blocked, has
    * no mandatory reviewer, and the evidence it waits for can be named. */
  lemma CanBeApprovedExactlyWhen(s: State, assigner: Assigner, id: string)
    requires SerialInv(s, assigner) && id in s.packets
    ensures CanBeApproved(s, id, assigner) <==>
              && !s.packets[id].decision.status.DecisionBlocked?
              && !Lanes.HasMandatoryReviewer(s.packets[id].reviewers)
              && Addressable(s, id)
  {
    hide SerialInv, Addressable, Lanes.HasMandatoryReviewer;
    if CanBeApproved(s, id, assigner) {
      var calls :| Approved(After(s, calls, assigner), id);
      ApprovedHasNoObstacle(s, calls, assigner, id);
    }
    if !s.packets[id].decision.status.DecisionBlocked? && !Lanes.HasMandatoryReviewer(s.packets[id].reviewers)
       && Addressable(s, id) {
      var calls := WaiveAll(s, assigner, id, |s.packets[id].evidence|);
      AllSettledIsApproved(s, calls, assigner, id);
    }
  }

  lemma AllSettledIsApproved(s: State, calls: seq<Call>, assigner: Assigner, id: string)
    requires SerialInv(s, assigner) && id in s.packets
    requires !s.packets[id].decision.status.DecisionBlocked? && !Lanes.HasMandatoryReviewer(s.packets[id].reviewers)
    requires var evidence := s.packets[id].evidence;
             forall name | Requires(evidence[..|evidence|], name) ::
                    Settled(After(s, calls, assigner).StatusOf(id, name))
    ensures Approved(After(s, calls, assigner), id)
  {
    hide SerialInv, After, Settled, Complete, Lanes.HasMandatoryReviewer;
    AfterKeeps(s, calls, assigner, id);
    var t, evidence := After(s, calls, assigner), s.packets[id].evidence;
    assert evidence[..|evidence|] == evidence;
    InvIsAccurate(t, assigner, id);
    CompleteByStatuses(t, id, evidence);
  }

  /** The same for the states of a run. */
  lemma ReachableApproval(states: seq<State>, ops: seq<Op>, assigner: Assigner, i: nat, id: string)
    requires IsRun(states, ops, assigner) && i < |states| && id in states[i].packets
    ensures CanBeApproved(states[i], id, assigner) <==>
              && !states[i].packets[id].decision.status.DecisionBlocked?
              && !Lanes.HasMandatoryReviewer(states[i].packets[id].reviewers)
              && Addressable(states[i], id)
  {
    hide SerialInv, CanBeApproved, Addressable, Lanes.HasMandatoryReviewer;
    RunInv(states, ops, assigner, i);
    CanBeApprovedExactlyWhen(states[i], assigner, id);
  }
}
