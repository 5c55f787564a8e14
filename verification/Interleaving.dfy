/** Overlapping requests. Each repository call is atomic, a whole request is not: between its calls any
  * number of other requests may run, and it may stop for good at any point. */
module Interleaving {
  import opened Domain
  import opened EvidenceStore
  import opened ControlPlane
  import opened Invariants

  /** What an update request holds after each of its repository calls. */
  datatype Phase =
    | Begun
    | HoldsPacket(packet: ChangePacket, requirement: EvidenceRequirement)
    | HoldsStatus(packet: ChangePacket, requirement: EvidenceRequirement, from: EvidenceStatus)
    | HasRecorded(packet: ChangePacket)
    | HasReloaded(packet: ChangePacket, executions: Executions)
    | HasSaved(packet: ChangePacket, executions: Executions)

  datatype Request = Request(execution: EvidenceExecution, phase: Phase)

  datatype System = System(store: State, requests: map<nat, Request>) {
    function End(r: nat): System {
      this.(requests := requests - {r})
    }

    function Move(r: nat, phase: Phase): System
      requires r in requests
    {
      this.(requests := requests[r := requests[r].(phase := phase)])
    }
  }

  const IDLE := System(EMPTY, map[])

  datatype Event =
    | Ingest(packet: ChangePacket, now: int)
    | Begin(r: nat, execution: EvidenceExecution)
    | ReadPacket(r: nat)
    | ReadStatus(r: nat)
    | Record(r: nat, now: int)
    | Reload(r: nat)
    | Save(r: nat, reconciledAt: int, savedAt: int)
    | Finish(r: nat)

  /** The effect of an event, or None when it cannot happen. Finish covers the end of a request, its
    * publication, and its failure at any point. A request whose packet, requirement or transition is
    * refused ends at that call. */
  ghost function Exec(y: System, event: Event, assigner: Assigner): Option<System> {
    match event
    case Ingest(packet, now) =>
      if packet.id !in y.store.packets && Produced(packet, assigner)
      then Some(y.(store := Saved(y.store, packet, now)))
      else None
    case Begin(r, execution) =>
      if r !in y.requests && InvalidRequestField(execution).None?
      then Some(y.(requests := y.requests[r := Request(execution, Begun)]))
      else None
    case ReadPacket(r) =>
      if r in y.requests && y.requests[r].phase.Begun? then
        var execution := y.requests[r].execution;
        if execution.changePacketId !in y.store.packets then Some(y.End(r))
        else
          var packet := y.store.packets[execution.changePacketId];
          var requirement := FindRequirement(packet.evidence, execution.name);
          if requirement.None? then Some(y.End(r)) else Some(y.Move(r, HoldsPacket(packet, requirement.value)))
      else None
    case ReadStatus(r) =>
      if r in y.requests && y.requests[r].phase.HoldsPacket? then
        var request := y.requests[r];
        var from := y.store.StatusOf(request.execution.changePacketId, request.execution.name);
        if CanTransition(from, request.execution.status)
        then Some(y.Move(r, HoldsStatus(request.phase.packet, request.phase.requirement, from)))
        else Some(y.End(r))
      else None
    case Record(r, now) =>
      if r in y.requests && y.requests[r].phase.HoldsStatus? then
        var request := y.requests[r];
        var stamped := Stamped(request.execution, request.phase.requirement, now);
        Some(y.(store := Recorded(y.store, stamped, AuditEntry(stamped, request.phase.from), now))
              .Move(r, HasRecorded(request.phase.packet)))
      else None
    case Reload(r) =>
      if r in y.requests && y.requests[r].phase.HasRecorded? then
        var packet := y.requests[r].phase.packet;
        Some(y.Move(r, HasReloaded(packet, y.store.EvidenceOf(packet.id))))
      else None
    case Save(r, reconciledAt, savedAt) =>
      if r in y.requests && y.requests[r].phase.HasReloaded? then
        var phase := y.requests[r].phase;
        var packet := Reconciled(phase.packet, phase.executions, assigner, reconciledAt);
        Some(y.(store := Saved(y.store, packet, savedAt)).Move(r, HasSaved(packet, phase.executions)))
      else None
    case Finish(r) =>
      if r in y.requests then Some(y.End(r)) else None
  }

  ghost predicate IsRun(run: seq<System>, events: seq<Event>, assigner: Assigner) {
    && |run| == |events| + 1
    && run[0] == IDLE
    && forall i | 0 <= i < |events| :: Exec(run[i], events[i], assigner) == Some(run[i + 1])
  }

  // ---- Invariant ------------------------------------------------------------------------------------

  ghost predicate Snapshot(s: State, packet: ChangePacket) {
    packet.id in s.packets && SameChange(s.packets[packet.id], packet)
  }

  ghost predicate RequestInv(s: State, request: Request) {
    var e := request.execution;
    && InvalidRequestField(e).None?
    && match request.phase
       case Begun => true
       case HoldsPacket(packet, requirement) =>
         Snapshot(s, packet) && packet.id == e.changePacketId && Names(packet.evidence, e.name)
       case HoldsStatus(packet, requirement, from) =>
         && Snapshot(s, packet) && packet.id == e.changePacketId && Names(packet.evidence, e.name)
         && CanTransition(from, e.status)
       case HasRecorded(packet) => Snapshot(s, packet)
       case HasReloaded(packet, executions) => Snapshot(s, packet)
       case HasSaved(packet, executions) => Snapshot(s, packet)
  }

  ghost predicate SystemInv(y: System, assigner: Assigner) {
    && StoreInv(y.store, assigner)
    && forall r | r in y.requests :: RequestInv(y.store, y.requests[r])
  }

  /** From one store to a later one packets stay, each as the same change, and audit logs only grow. */
  ghost predicate Grows(s: State, t: State) {
    && (forall id | id in s.packets :: id in t.packets && SameChange(s.packets[id], t.packets[id]))
    && (forall id :: s.AuditOf(id) <= t.AuditOf(id))
  }

  lemma GrowsTransitive(s: State, t: State, u: State)
    requires Grows(s, t) && Grows(t, u)
    ensures Grows(s, u)
  {
    forall id | id in s.packets
      ensures id in u.packets && SameChange(s.packets[id], u.packets[id])
    {
      SameChangeTransitive(s.packets[id], t.packets[id], u.packets[id]);
    }
    forall id
      ensures s.AuditOf(id) <= u.AuditOf(id)
    {
      assert s.AuditOf(id) <= t.AuditOf(id) <= u.AuditOf(id);
    }
  }

  lemma RequestInvGrows(s: State, t: State, request: Request)
    requires Grows(s, t) && RequestInv(s, request)
    ensures RequestInv(t, request)
  {
    if !request.phase.Begun? {
      var packet := request.phase.packet;
      SameChangeTransitive(s.packets[packet.id], t.packets[packet.id], s.packets[packet.id]);
      SameChangeTransitive(t.packets[packet.id], s.packets[packet.id], packet);
    }
  }

  lemma RecordedGrows(s: State, execution: EvidenceExecution, entry: EvidenceAuditEntry, now: int)
    ensures Grows(s, Recorded(s, execution, entry, now))
  {
  }

  lemma SavedGrows(s: State, packet: ChangePacket, now: int)
    requires packet.id in s.packets ==> Snapshot(s, packet)
    ensures Grows(s, Saved(s, packet, now))
    ensures Saved(s, packet, now).audit == s.audit
  {
    assert forall id :: Saved(s, packet, now).AuditOf(id) == s.AuditOf(id);
  }

  /** What one event does to the store. */
  lemma StoreStep(y: System, event: Event, z: System, assigner: Assigner)
    requires SystemInv(y, assigner)
    requires Exec(y, event, assigner) == Some(z)
    ensures StoreInv(z.store, assigner)
    ensures Grows(y.store, z.store)
    ensures !event.Ingest? && !event.Record? && !event.Save? ==> z.store == y.store
    ensures !event.Record? ==> z.store.audit == y.store.audit
  {
    match event
    case Ingest(packet, now) =>
      ProducedIsSound(packet, assigner);
      SavedKeepsInv(y.store, packet, now, assigner);
      SavedGrows(y.store, packet, now);
    case Record(r, now) =>
      RecordStep(y, r, now, z, assigner);
    case Save(r, reconciledAt, savedAt) =>
      SaveStep(y, r, reconciledAt, savedAt, z, assigner);
    case _ =>
      assert z.store == y.store;
  }

  lemma RecordStep(y: System, r: nat, now: int, z: System, assigner: Assigner)
    requires SystemInv(y, assigner)
    requires Exec(y, Record(r, now), assigner) == Some(z)
    ensures StoreInv(z.store, assigner)
    ensures Grows(y.store, z.store)
  {
    var request := y.requests[r];
    assert RequestInv(y.store, request);
    var stamped := Stamped(request.execution, request.phase.requirement, now);
    var entry := AuditEntry(stamped, request.phase.from);
    assert Recordable(y.store, stamped, entry);
    RecordedKeepsInv(y.store, stamped, entry, now, assigner);
    RecordedGrows(y.store, stamped, entry, now);
  }

  lemma SaveStep(y: System, r: nat, reconciledAt: int, savedAt: int, z: System, assigner: Assigner)
    requires SystemInv(y, assigner)
    requires Exec(y, Save(r, reconciledAt, savedAt), assigner) == Some(z)
    ensures StoreInv(z.store, assigner)
    ensures Grows(y.store, z.store)
    ensures z.store.audit == y.store.audit
  {
    var phase := y.requests[r].phase;
    assert RequestInv(y.store, y.requests[r]);
    var packet := Reconciled(phase.packet, phase.executions, assigner, reconciledAt);
    ReconciledIsSound(phase.packet, phase.executions, assigner, reconciledAt);
    SameChangeTransitive(y.store.packets[packet.id], phase.packet, packet);
    SavedKeepsInv(y.store, packet, savedAt, assigner);
    SavedGrows(y.store, packet, savedAt);
  }

  lemma SystemStep(y: System, event: Event, z: System, assigner: Assigner)
    requires SystemInv(y, assigner)
    requires Exec(y, event, assigner) == Some(z)
    ensures SystemInv(z, assigner)
  {
    StoreStep(y, event, z, assigner);
    forall r | r in z.requests
      ensures RequestInv(z.store, z.requests[r])
    {
      if r in y.requests {
        RequestInvGrows(y.store, z.store, y.requests[r]);
        RequestStep(y, event, z, assigner, r);
      }
    }
  }

  lemma RequestStep(y: System, event: Event, z: System, assigner: Assigner, r: nat)
    requires Exec(y, event, assigner) == Some(z)
    requires y.store.WellKeyed()
    requires r in y.requests && RequestInv(y.store, y.requests[r]) && RequestInv(z.store, y.requests[r])
    requires r in z.requests
    ensures RequestInv(z.store, z.requests[r])
  {
    if event == ReadPacket(r) {
      var e := y.requests[r].execution;
      FindRequirementFinds(y.store.packets[e.changePacketId].evidence, e.name);
    } else if event.Save? && event.r == r {
      SaverStep(y, r, event.reconciledAt, event.savedAt, z, assigner);
    } else {
      hide InvalidRequestField, SameChange, FindRequirement, CanTransition;
    }
  }

  lemma SaverStep(y: System, r: nat, reconciledAt: int, savedAt: int, z: System, assigner: Assigner)
    requires Exec(y, Save(r, reconciledAt, savedAt), assigner) == Some(z)
    requires RequestInv(y.store, y.requests[r])
    ensures RequestInv(z.store, z.requests[r])
  {
    hide InvalidRequestField, FindRequirement, CanTransition;
    ReconciledIsSound(y.requests[r].phase.packet, y.requests[r].phase.executions, assigner, reconciledAt);
  }

  lemma {:induction false} RunInv(run: seq<System>, events: seq<Event>, assigner: Assigner, i: nat)
    requires IsRun(run, events, assigner) && i < |run|
    ensures SystemInv(run[i], assigner)
  {
    hide Exec, StoreInv;
    if i == 0 {
      EmptyStoreInv(assigner);
    } else {
      RunInv(run, events, assigner, i - 1);
      SystemStep(run[i - 1], events[i - 1], run[i], assigner);
    }
  }

  lemma {:induction false} RunGrows(run: seq<System>, events: seq<Event>, assigner: Assigner, i: nat, j: nat)
    requires IsRun(run, events, assigner) && i <= j < |run|
    ensures Grows(run[i].store, run[j].store)
    decreases j
  {
    hide Exec, SystemInv, StoreInv;
    if i < j {
      RunGrows(run, events, assigner, i, j - 1);
      RunInv(run, events, assigner, j - 1);
      StoreStep(run[j - 1], events[j - 1], run[j], assigner);
      GrowsTransitive(run[i].store, run[j - 1].store, run[j].store);
    }
  }
}
