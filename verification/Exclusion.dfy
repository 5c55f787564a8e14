/** One request at a time per packet is enough: if no two requests on a packet are between reading a status
  * and saving, its decisions behave as in a serial run, whatever happens to other packets meanwhile. */
module Exclusion {
  import opened Domain
  import opened EvidenceStore
  import opened ControlPlane
  import opened Invariants
  import opened Interleaving
  import opened OutstandingEvidence
  import Overlap
  import SerialRuns
  import Lanes

  /** The request has read a status of the packet and has not saved yet. */
  predicate Busy(request: Request, id: string) {
    && (request.phase.HoldsStatus? || request.phase.HasRecorded? || request.phase.HasReloaded?)
    && request.phase.packet.id == id
  }

  /** The request has recorded a status whose consequences for the decision are still to be saved. */
  predicate Owes(request: Request, id: string) {
    Busy(request, id) && !request.phase.HoldsStatus?
  }

  ghost predicate Exclusive(y: System, id: string) {
    forall a, b | a in y.requests && b in y.requests && Busy(y.requests[a], id) && Busy(y.requests[b], id) :: a == b
  }

  /** What a busy request has read is still on file. */
  ghost predicate UpToDate(s: State, request: Request, id: string) {
    match request.phase
    case HoldsStatus(packet, requirement, from) =>
      request.execution.changePacketId == id && from == s.StatusOf(id, request.execution.name)
    case HasReloaded(packet, executions) => executions == s.EvidenceOf(id)
    case _ => true
  }

  ghost predicate AllUpToDate(y: System, id: string) {
    forall r | r in y.requests && Busy(y.requests[r], id) :: UpToDate(y.store, y.requests[r], id)
  }

  /** The event writes executions of the packet. */
  predicate Writes(y: System, event: Event, id: string) {
    match event
    case Ingest(packet, _) => packet.id == id
    case Record(r, _) => r in y.requests && Busy(y.requests[r], id)
    case Save(r, _, _) => r in y.requests && Busy(y.requests[r], id)
    case _ => false
  }

  lemma OnlyWritersWrite(y: System, event: Event, z: System, assigner: Assigner, id: string)
    requires SystemInv(y, assigner)
    requires Exec(y, event, assigner) == Some(z)
    requires !Writes(y, event, id)
    ensures z.store.EvidenceOf(id) == y.store.EvidenceOf(id)
    ensures id in y.store.packets <==> id in z.store.packets
    ensures id in y.store.packets ==> z.store.packets[id] == y.store.packets[id]
  {
    hide StoreInv, Produced, CanTransition, SameChange, Recorded, Saved, Reconciled, Lanes.HasMandatoryReviewer;
    if event.Record? {
      assert RequestInv(y.store, y.requests[event.r]);
      RecordedElsewhere(y.store, event.now, id);
    } else if event.Save? {
      assert RequestInv(y.store, y.requests[event.r]);
      ReconciledKeepsId(y.requests[event.r].phase.packet, y.requests[event.r].phase.executions, assigner,
                        event.reconciledAt);
      SavedElsewhere(y.store, event.savedAt, id);
    } else if event.Ingest? {
      SavedElsewhere(y.store, event.now, id);
    }
  }

  lemma RecordedElsewhere(s: State, now: int, id: string)
    ensures forall execution: EvidenceExecution, entry: EvidenceAuditEntry | execution.changePacketId != id ::
              && Recorded(s, execution, entry, now).EvidenceOf(id) == s.EvidenceOf(id)
              && Recorded(s, execution, entry, now).packets == s.packets
  {
  }

  lemma SavedElsewhere(s: State, now: int, id: string)
    ensures forall packet: ChangePacket | packet.id != id ::
              && Saved(s, packet, now).EvidenceOf(id) == s.EvidenceOf(id)
              && (id in Saved(s, packet, now).packets <==> id in s.packets)
              && (id in s.packets ==> Saved(s, packet, now).packets[id] == s.packets[id])
  {
    hide Ensured;
  }

  lemma ReconciledKeepsId(packet: ChangePacket, executions: Executions, assigner: Assigner, now: int)
    ensures Reconciled(packet, executions, assigner, now).id == packet.id
  {
  }

  /** A request that did not just read keeps what it holds. */
  lemma BusyOrigin(y: System, event: Event, z: System, assigner: Assigner, r: nat, id: string)
    requires SystemInv(y, assigner)
    requires Exec(y, event, assigner) == Some(z)
    requires r in z.requests && Busy(z.requests[r], id)
    ensures || (r in y.requests && z.requests[r] == y.requests[r])
            || UpToDate(z.store, z.requests[r], id)
  {
    hide StoreInv, Produced, CanTransition, Recorded, Saved, Reconciled, SameChange;
    if event == ReadStatus(r) {
      assert RequestInv(y.store, y.requests[r]);
    }
  }

  lemma StaysUpToDate(y: System, event: Event, z: System, assigner: Assigner, id: string)
    requires SystemInv(y, assigner)
    requires Exec(y, event, assigner) == Some(z)
    requires Exclusive(y, id) && AllUpToDate(y, id)
    ensures AllUpToDate(z, id)
  {
    hide Exec, StoreInv, SameChange, Busy;
    forall r | r in z.requests && Busy(z.requests[r], id)
      ensures UpToDate(z.store, z.requests[r], id)
    {
      BusyOrigin(y, event, z, assigner, r, id);
      if r in y.requests && z.requests[r] == y.requests[r] {
        assert UpToDate(y.store, y.requests[r], id);
        BusyIsStored(y, assigner, r, id);
        if Writes(y, event, id) {
          WriterChanges(y, event, z, assigner, id);
        } else {
          OnlyWritersWrite(y, event, z, assigner, id);
        }
      }
    }
  }

  lemma BusyIsStored(y: System, assigner: Assigner, r: nat, id: string)
    requires SystemInv(y, assigner) && r in y.requests && Busy(y.requests[r], id)
    ensures id in y.store.packets
  {
    hide StoreInv, SameChange;
    assert RequestInv(y.store, y.requests[r]);
  }

  /** The request that records or saves moves on, so it is not one that keeps what it holds. */
  lemma WriterChanges(y: System, event: Event, z: System, assigner: Assigner, id: string)
    requires Exec(y, event, assigner) == Some(z) && Writes(y, event, id)
    ensures || (event.Ingest? && id !in y.store.packets)
            || (!event.Ingest? && event.r in z.requests && event.r in y.requests
                && z.requests[event.r] != y.requests[event.r])
  {
    hide Produced, CanTransition, Recorded, Saved, Reconciled;
  }

  /** A record on the packet starts from the status on file. */
  lemma RecordIsFresh(y: System, event: Event, id: string)
    requires AllUpToDate(y, id)
    requires event.Record? && event.r in y.requests && Busy(y.requests[event.r], id)
    ensures Overlap.Fresh(y, event)
  {
  }

  lemma NeverMisleads(y: System, event: Event, z: System, assigner: Assigner, id: string)
    requires SystemInv(y, assigner)
    requires Exec(y, event, assigner) == Some(z)
    requires AllUpToDate(y, id) && !Misleading(y.store, id)
    ensures !Misleading(z.store, id)
  {
    hide Exec, SystemInv, Misleading, AllUpToDate;
    MisleadsExactlyWhen(y, event, z, assigner, id);
    if Unsettles(y, event, id) {
      RecordRuns(y, event, z, assigner);
      LegalRecordSettles(y, event.r, assigner, id);
    }
    if ApprovesLate(y, event, id) {
      ReloadIsCurrent(y, event.r, id);
    }
  }

  lemma RecordRuns(y: System, event: Event, z: System, assigner: Assigner)
    requires Exec(y, event, assigner) == Some(z) && event.Record?
    ensures event.r in y.requests && y.requests[event.r].phase.HoldsStatus?
  {
    hide Produced, CanTransition;
  }

  lemma ReloadIsCurrent(y: System, r: nat, id: string)
    requires AllUpToDate(y, id) && r in y.requests
    requires y.requests[r].phase.HasReloaded? && y.requests[r].phase.packet.id == id
    ensures y.requests[r].phase.executions == y.store.EvidenceOf(id)
  {
    assert Busy(y.requests[r], id);
  }

  lemma LegalRecordSettles(y: System, r: nat, assigner: Assigner, id: string)
    requires SystemInv(y, assigner) && AllUpToDate(y, id) && !Misleading(y.store, id)
    requires r in y.requests && y.requests[r].phase.HoldsStatus? && y.requests[r].execution.changePacketId == id
    requires Approved(y.store, id) && Requires(y.store.packets[id].evidence, y.requests[r].execution.name)
    ensures Settled(y.requests[r].execution.status)
  {
    hide StoreInv, SameChange, Complete, Requires;
    assert RequestInv(y.store, y.requests[r]);
    assert Busy(y.requests[r], id);
    assert UpToDate(y.store, y.requests[r], id);
    CompleteByStatuses(y.store, id, y.store.packets[id].evidence);
  }

  lemma ApprovalStays(y: System, event: Event, z: System, assigner: Assigner, id: string)
    requires SystemInv(y, assigner)
    requires Exec(y, event, assigner) == Some(z)
    requires AllUpToDate(y, id) && !Misleading(y.store, id) && Approved(y.store, id)
    ensures Approved(z.store, id)
  {
    hide Exec, SystemInv, AllUpToDate, Complete;
    Overlap.ApprovalLostExactlyWhen(y, event, z, assigner, id);
    if event.Save? {
      SaveWrites(y, event.r, event.reconciledAt, event.savedAt, z, assigner, id);
      if y.requests[event.r].phase.packet.id == id {
        ReloadIsCurrent(y, event.r, id);
      }
    }
  }

  // ---- Accuracy ---------------------------------------------------------------------------------------

  predicate Abandons(y: System, event: Event, id: string) {
    event.Finish? && event.r in y.requests && Owes(y.requests[event.r], id)
  }

  predicate Saves(y: System, event: Event, id: string) {
    event.Save? && event.r in y.requests && Busy(y.requests[event.r], id)
  }

  /** Some request stopped between recording and saving, and no save on the packet has followed. */
  ghost predicate Abandoned(run: seq<System>, events: seq<Event>, n: nat, id: string)
    requires n < |run| && n <= |events|
  {
    && n > 0
    && !Saves(run[n - 1], events[n - 1], id)
    && (Abandons(run[n - 1], events[n - 1], id) || Abandoned(run, events, n - 1, id))
  }

  ghost predicate Owed(y: System, id: string) {
    exists r | r in y.requests :: Owes(y.requests[r], id)
  }

  ghost predicate AccurateIfStored(s: State, id: string) {
    id in s.packets ==> SerialRuns.Accurate(s, id)
  }

  /** One step keeps the decision accurate unless it records, and a save makes it accurate again. */
  lemma AccuracyStep(y: System, event: Event, z: System, assigner: Assigner, id: string)
    requires SystemInv(y, assigner)
    requires Exec(y, event, assigner) == Some(z)
    requires AllUpToDate(y, id)
    ensures Saves(y, event, id) ==> AccurateIfStored(z.store, id)
    ensures AccurateIfStored(y.store, id) ==> AccurateIfStored(z.store, id) || Owed(z, id)
    ensures Owed(y, id) ==> Owed(z, id) || Abandons(y, event, id) || Saves(y, event, id)
  {
    hide Exec, SystemInv, AllUpToDate, AccurateIfStored, Owed;
    if Saves(y, event, id) {
      SaveIsAccurate(y, event, z, assigner, id);
    } else if Writes(y, event, id) {
      if event.Ingest? {
        IngestIsAccurate(y, event, z, assigner, id);
      } else {
        RecordOwes(y, event, z, assigner, id);
      }
    } else {
      OnlyWritersWrite(y, event, z, assigner, id);
      AccuracyReads(y.store, z.store, id);
    }
    if Owed(y, id) {
      OwedStays(y, event, z, assigner, id);
    }
  }

  lemma AccuracyReads(s: State, t: State, id: string)
    requires t.EvidenceOf(id) == s.EvidenceOf(id)
    requires id in s.packets <==> id in t.packets
    requires id in s.packets ==> t.packets[id] == s.packets[id]
    ensures AccurateIfStored(s, id) <==> AccurateIfStored(t, id)
  {
    hide Complete;
  }

  lemma SaveIsAccurate(y: System, event: Event, z: System, assigner: Assigner, id: string)
    requires SystemInv(y, assigner)
    requires Exec(y, event, assigner) == Some(z)
    requires AllUpToDate(y, id) && Saves(y, event, id)
    ensures AccurateIfStored(z.store, id)
  {
    hide Exec, SystemInv, AllUpToDate, Complete, Settled, Requires, Lanes.HasMandatoryReviewer;
    SaveWrites(y, event.r, event.reconciledAt, event.savedAt, z, assigner, id);
    ReloadIsCurrent(y, event.r, id);
    SaveCarries(y, event.r, event.reconciledAt, event.savedAt, z, assigner, id);
    var requirements := y.requests[event.r].phase.packet.evidence;
    CompleteByStatuses(y.store, id, requirements);
    CompleteByStatuses(z.store, id, requirements);
    forall name
      ensures z.store.StatusOf(id, name) == y.store.StatusOf(id, name)
    {
      Overlap.OnlyRecordsSet(y, event, z, assigner, id, name);
    }
  }

  lemma IngestIsAccurate(y: System, event: Event, z: System, assigner: Assigner, id: string)
    requires SystemInv(y, assigner)
    requires Exec(y, event, assigner) == Some(z)
    requires event.Ingest? && event.packet.id == id
    ensures AccurateIfStored(z.store, id)
  {
    hide StoreInv, RequestInv, Saved, Produced, SerialRuns.Accurate;
    SerialRuns.NoEvidenceBeforeIngest(y.store, id, assigner);
    SerialRuns.IngestedIsAccurate(y.store, event.packet, event.now, assigner);
  }

  lemma RecordOwes(y: System, event: Event, z: System, assigner: Assigner, id: string)
    requires Exec(y, event, assigner) == Some(z)
    requires event.Record? && event.r in y.requests && Busy(y.requests[event.r], id)
    ensures Owed(z, id)
  {
    hide Produced, CanTransition, Recorded;
    assert Owes(z.requests[event.r], id);
  }

  lemma OwedStays(y: System, event: Event, z: System, assigner: Assigner, id: string)
    requires Exec(y, event, assigner) == Some(z)
    requires Owed(y, id)
    ensures Owed(z, id) || Abandons(y, event, id) || Saves(y, event, id)
  {
    hide Produced, CanTransition, Recorded, Saved, Reconciled;
    var r :| r in y.requests && Owes(y.requests[r], id);
    if !Abandons(y, event, id) && !Saves(y, event, id) {
      assert r in z.requests && Owes(z.requests[r], id);
    }
  }

  // ---- Runs -------------------------------------------------------------------------------------------

  ghost predicate ExclusiveUpTo(run: seq<System>, n: nat, id: string)
    requires n < |run|
  {
    forall i | 0 <= i <= n :: Exclusive(run[i], id)
  }

  lemma {:induction false} ExclusiveRun(run: seq<System>, events: seq<Event>, assigner: Assigner, n: nat, id: string)
    requires IsRun(run, events, assigner) && n < |run| && ExclusiveUpTo(run, n, id)
    ensures AllUpToDate(run[n], id) && !Misleading(run[n].store, id)
    ensures AccurateIfStored(run[n].store, id) || Owed(run[n], id) || Abandoned(run, events, n, id)
  {
    hide Exec, SystemInv, Exclusive, AllUpToDate, Misleading, AccurateIfStored, Owed, Saves, Abandons;
    if n == 0 {
      IdleIsFine(id);
    } else {
      ExclusiveRun(run, events, assigner, n - 1, id);
      RunInv(run, events, assigner, n - 1);
      StaysUpToDate(run[n - 1], events[n - 1], run[n], assigner, id);
      NeverMisleads(run[n - 1], events[n - 1], run[n], assigner, id);
      AccuracyStep(run[n - 1], events[n - 1], run[n], assigner, id);
    }
  }

  lemma IdleIsFine(id: string)
    ensures AllUpToDate(IDLE, id) && !Misleading(IDLE.store, id) && AccurateIfStored(IDLE.store, id)
  {
  }

  /** If at most one request per packet is ever between reading a status and saving, then every record on
    * that packet is fresh, */
  lemma ExclusiveRecordsAreFresh(run: seq<System>, events: seq<Event>, assigner: Assigner, n: nat, id: string)
    requires IsRun(run, events, assigner) && n < |events| && ExclusiveUpTo(run, n, id)
    requires events[n].Record? && events[n].r in run[n].requests && Busy(run[n].requests[events[n].r], id)
    ensures Overlap.Fresh(run[n], events[n])
  {
    hide Exec, Exclusive, AllUpToDate, Misleading, AccurateIfStored, Owed, Abandoned, Overlap.Fresh, Busy;
    ExclusiveRun(run, events, assigner, n, id);
    RecordIsFresh(run[n], events[n], id);
  }

  /** its satisfied and waived statuses are final, */
  lemma {:induction false} ExclusiveSettledStays(run: seq<System>, events: seq<Event>, assigner: Assigner, i: nat,
                                                 n: nat, id: string, name: string)
    requires IsRun(run, events, assigner) && i <= n < |run| && ExclusiveUpTo(run, n, id)
    requires Settled(run[i].store.StatusOf(id, name))
    ensures run[n].store.StatusOf(id, name) == run[i].store.StatusOf(id, name)
    decreases n
  {
    hide Exec, SystemInv, Exclusive, AllUpToDate, Misleading, AccurateIfStored, Owed, Abandoned, Settled;
    if i < n {
      ExclusiveSettledStays(run, events, assigner, i, n - 1, id, name);
      ExclusiveRun(run, events, assigner, n - 1, id);
      RunInv(run, events, assigner, n - 1);
      SettledStatusStays(run[n - 1], events[n - 1], run[n], assigner, id, name);
    }
  }

  lemma SettledStatusStays(y: System, event: Event, z: System, assigner: Assigner, id: string, name: string)
    requires SystemInv(y, assigner)
    requires Exec(y, event, assigner) == Some(z)
    requires AllUpToDate(y, id) && Settled(y.store.StatusOf(id, name))
    ensures z.store.StatusOf(id, name) == y.store.StatusOf(id, name)
  {
    hide Exec, StoreInv, SameChange, Settled, AllUpToDate, Overlap.Fresh;
    Overlap.SettledLostExactlyWhen(y, event, z, assigner, id, name);
    if event.Record? && z.store.StatusOf(id, name) != y.store.StatusOf(id, name) {
      RecordRuns(y, event, z, assigner);
      assert RequestInv(y.store, y.requests[event.r]);
      RecordIsFresh(y, event, id);
    }
  }

  /** its approval is never lost, */
  lemma {:induction false} ExclusiveApprovalIsNeverLost(run: seq<System>, events: seq<Event>, assigner: Assigner,
                                                        i: nat, n: nat, id: string)
    requires IsRun(run, events, assigner) && i <= n < |run| && ExclusiveUpTo(run, n, id)
    requires Approved(run[i].store, id)
    ensures Approved(run[n].store, id)
    decreases n
  {
    hide Exec, SystemInv, Exclusive, AllUpToDate, Misleading, AccurateIfStored, Owed, Abandoned, Approved;
    if i < n {
      ExclusiveApprovalIsNeverLost(run, events, assigner, i, n - 1, id);
      ExclusiveRun(run, events, assigner, n - 1, id);
      RunInv(run, events, assigner, n - 1);
      ApprovalStays(run[n - 1], events[n - 1], run[n], assigner, id);
    }
  }

  /** and whenever no request owes it a save or has abandoned one, its decision is accurate. */
  lemma ExclusiveIsAccurate(run: seq<System>, events: seq<Event>, assigner: Assigner, n: nat, id: string)
    requires IsRun(run, events, assigner) && n < |run| && ExclusiveUpTo(run, n, id)
    requires id in run[n].store.packets && !Owed(run[n], id) && !Abandoned(run, events, n, id)
    ensures SerialRuns.Accurate(run[n].store, id)
  {
    hide Exec, Exclusive, AllUpToDate, Misleading, Owed, Abandoned, SerialRuns.Accurate;
    ExclusiveRun(run, events, assigner, n, id);
  }
}
