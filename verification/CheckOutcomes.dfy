/** What a check run makes of the evidence bound to it, told from the payload's own words. */
module CheckOutcomes {
  import opened Domain
  import opened Text
  import opened EvidenceStore
  import opened ControlPlane
  import opened Invariants
  import opened SerialRuns
  import opened CheckRuns

  /** The first requirement of the packet bound to the check and the app of the payload. */
  ghost predicate FirstBound(packet: ChangePacket, payload: Payload, i: nat) {
    && i < |packet.evidence|
    && packet.evidence[i].githubCheck == Some(CheckBinding(payload.name, payload.appId))
    && forall k | 0 <= k < i :: packet.evidence[k].githubCheck != Some(CheckBinding(payload.name, payload.appId))
  }

  lemma {:induction false} FirstBoundIsFound(requirements: seq<EvidenceRequirement>, name: string, appId: int, i: nat)
    requires i < |requirements| && requirements[i].githubCheck == Some(CheckBinding(name, appId))
    requires forall k | 0 <= k < i :: requirements[k].githubCheck != Some(CheckBinding(name, appId))
    ensures MatchingRequirement(requirements, name, appId) == Some(requirements[i])
  {
    if i > 0 {
      FirstBoundIsFound(requirements[1..], name, appId, i - 1);
    }
  }

  /** What the processor makes of a payload: nothing unless the check has completed. */
  lemma StatusOfPayload(payload: Payload)
    ensures EvidenceStatusForCheckRun(payload.status, payload.conclusion) ==
            if payload.status == "completed" then Some(Verdict(payload)) else None
    ensures Verdict(payload) == EvidenceSatisfied <==> payload.conclusion == "success"
    ensures Verdict(payload) == EvidenceSatisfied || Verdict(payload) == EvidenceFailed
  {
  }

  /** Handling a completed check satisfies the pending or running evidence bound to it exactly when the check
    * was a success, and fails it otherwise. */
  lemma HandledCheckDecides(s: State, t: State, error: Option<UpdateError>, pick: string, n: nat, payload: Payload,
                            assigner: Assigner, at: seq<Surroundings>, i: nat)
    requires n < |payload.pullRequests| <= |at|
    requires payload.status == "completed"
    requires var status := EvidenceStatusForCheckRun(payload.status, payload.conclusion);
             status.Some? && Handled(s, t, error, Some(pick), n, payload, status.value, assigner, at)
    requires pick in s.packets && FirstBound(s.packets[pick], payload, i)
    requires var name := s.packets[pick].evidence[i].name;
             && !Blank(pick) && !Blank(name)
             && (s.StatusOf(pick, name).EvidencePending? || s.StatusOf(pick, name).EvidenceRunning?)
    ensures var name := s.packets[pick].evidence[i].name;
            && (t.StatusOf(pick, name) == EvidenceSatisfied <==> payload.conclusion == "success")
            && (t.StatusOf(pick, name) == EvidenceFailed <==> payload.conclusion != "success")
  {
    hide IsLatest, Updated, Blank;
    var requirement, status := s.packets[pick].evidence[i],
        EvidenceStatusForCheckRun(payload.status, payload.conclusion).value;
    FirstBoundIsFound(s.packets[pick].evidence, payload.name, payload.appId, i);
    var report := ReportFor(payload, pick, requirement, status);
    AdmittedExactlyWhen(s, report);
    UpdateSetsStatus(s, report, assigner, at[n], pick, requirement.name);
  }

  /** After a delivery that succeeds, the evidence bound to the check on every packet picked says what the
    * check said: satisfied for a success, failed for anything else. */
  lemma DeliveryDecides(states: seq<State>, handled: seq<Handling>, payload: Payload, assigner: Assigner,
                        at: seq<Surroundings>, k: nat, id: string, i: nat)
    requires payload.status == "completed"
    requires var status := EvidenceStatusForCheckRun(payload.status, payload.conclusion);
             status.Some? && Delivery(states, handled, payload, status.value, assigner, at)
    requires Succeeds(handled) && StoreInv(states[0], assigner)
    requires k < |handled| && handled[k].pick == Some(id)
    requires id in states[0].packets && FirstBound(states[0].packets[id], payload, i)
    ensures states[|states| - 1].StatusOf(id, states[0].packets[id].evidence[i].name) ==
            if payload.conclusion == "success" then EvidenceSatisfied else EvidenceFailed
  {
    hide EvidenceStatusForCheckRun, Handled, StoreInv;
    StatusOfPayload(payload);
    PickedSays(states, handled, payload, Verdict(payload), assigner, at, k, |handled|, id, i);
  }

  lemma {:induction false} PickedSays(states: seq<State>, handled: seq<Handling>, payload: Payload,
                                      status: EvidenceStatus, assigner: Assigner, at: seq<Surroundings>, k: nat, n: nat,
                                      id: string, i: nat)
    requires Delivery(states, handled, payload, status, assigner, at) && Succeeds(handled)
             && StoreInv(states[0], assigner)
    requires k < n <= |handled| && handled[k].pick == Some(id)
    requires id in states[0].packets && FirstBound(states[0].packets[id], payload, i)
    ensures states[n].StatusOf(id, states[0].packets[id].evidence[i].name) == status
  {
    hide StoreInv, SameChange, Handled;
    var s, t := states[n - 1], states[n];
    DeliveryKeepsChanges(states, handled, payload, status, assigner, at, n - 1, id);
    assert Handled(s, t, handled[n - 1].error, handled[n - 1].pick, n - 1, payload, status, assigner, at);
    SameBindings(states[0].packets[id], s.packets[id], payload, i);
    if handled[n - 1].pick == Some(id) {
      PickedIsSet(s, t, n - 1, payload, status, assigner, at, id, i);
    } else {
      PickedSays(states, handled, payload, status, assigner, at, k, n - 1, id, i);
      OthersAreLeft(s, t, handled[n - 1].error, handled[n - 1].pick, n - 1, payload, status, assigner, at, id,
                    s.packets[id].evidence[i].name);
    }
  }

  lemma SameBindings(a: ChangePacket, b: ChangePacket, payload: Payload, i: nat)
    requires SameChange(a, b) && FirstBound(a, payload, i)
    ensures FirstBound(b, payload, i) && a.evidence == b.evidence
  {
  }

  lemma PickedIsSet(s: State, t: State, n: nat, payload: Payload, status: EvidenceStatus, assigner: Assigner,
                    at: seq<Surroundings>, id: string, i: nat)
    requires n < |payload.pullRequests| <= |at|
    requires Handled(s, t, None, Some(id), n, payload, status, assigner, at)
    requires id in s.packets && FirstBound(s.packets[id], payload, i)
    ensures t.StatusOf(id, s.packets[id].evidence[i].name) == status
  {
    hide IsLatest, Updated, Admit;
    FirstBoundIsFound(s.packets[id].evidence, payload.name, payload.appId, i);
    var report := ReportFor(payload, id, s.packets[id].evidence[i], status);
    RejectionChangesNothing(s, report, assigner, at[n]);
    UpdateSetsStatus(s, report, assigner, at[n], id, s.packets[id].evidence[i].name);
  }

  lemma OthersAreLeft(s: State, t: State, error: Option<UpdateError>, pick: Option<string>, n: nat, payload: Payload,
                      status: EvidenceStatus, assigner: Assigner, at: seq<Surroundings>, id: string, name: string)
    requires n < |payload.pullRequests| <= |at|
    requires Handled(s, t, error, pick, n, payload, status, assigner, at) && pick != Some(id)
    ensures t.StatusOf(id, name) == s.StatusOf(id, name)
  {
    hide IsLatest, Updated, Admit;
    if pick.Some? && pick.value in s.packets {
      var requirement := MatchingRequirement(s.packets[pick.value].evidence, payload.name, payload.appId);
      if requirement.Some? {
        var report := ReportFor(payload, pick.value, requirement.value, status);
        RejectionChangesNothing(s, report, assigner, at[n]);
        if Admit(s, report).Ok? {
          UpdateSetsStatus(s, report, assigner, at[n], id, name);
        }
      }
    }
  }

  // ---- Numbers in reports -----------------------------------------------------------------------------

  function DigitValue(c: char): int {
    c as int - '0' as int
  }

  function Number(digits: string): int {
    if digits == "" then 0 else 10 * Number(digits[..|digits| - 1]) + DigitValue(digits[|digits| - 1])
  }

  /** The decimal numbers in actors and metadata read back as what they were, so different apps and runs never
    * look the same. */
  lemma {:induction false} DecimalReadsBack(n: nat)
    ensures Number(Decimal(n)) == n
    ensures Decimal(n) != ""
  {
    if n >= 10 {
      DecimalReadsBack(n / 10);
      assert Decimal(n)[..|Decimal(n)| - 1] == Decimal(n / 10);
    } else {
      assert Decimal(n)[..0] == "";
    }
  }
}
