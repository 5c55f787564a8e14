/** The in-memory repository: change packets, their evidence executions and the audit log. Each method
  * holds the repository's mutex for its whole body, so each is one atomic step. */
module EvidenceStore {
  import opened Domain
  import opened Text

  const ZERO_TIME := 0

  type Executions = map<string, EvidenceExecution>
  type AuditLog = seq<EvidenceAuditEntry>

  /** The abstract content of a repository. */
  datatype State = State(
    packets: map<string, ChangePacket>,
    evidence: map<string, Executions>,
    audit: map<string, AuditLog>)
  {
    function EvidenceOf(id: string): Executions {
      if id in evidence then evidence[id] else map[]
    }

    function AuditOf(id: string): AuditLog {
      if id in audit then audit[id] else []
    }

    /** A name without an execution counts as pending. */
    function StatusOf(id: string, name: string): EvidenceStatus {
      var executions := EvidenceOf(id);
      if name in executions then executions[name].status else EvidencePending
    }

    /** Every record is filed under its own key. */
    ghost predicate WellKeyed() {
      && (forall id | id in packets :: packets[id].id == id)
      && (forall id | id in evidence :: WellNamed(evidence[id]))
    }
  }

  const EMPTY := State(map[], map[], map[])

  ghost predicate WellNamed(executions: Executions) {
    forall name | name in executions :: executions[name].name == name
  }

  function Recorded(s: State, execution: EvidenceExecution, entry: EvidenceAuditEntry, now: int): State {
    var stamped := if execution.updatedAt == ZERO_TIME then execution.(updatedAt := now) else execution;
    s.(evidence := s.evidence[execution.changePacketId :=
                     s.EvidenceOf(execution.changePacketId)[execution.name := stamped]],
       audit := s.audit[entry.changePacketId := s.AuditOf(entry.changePacketId) + [entry]])
  }

  function Ensured1(executions: Executions, id: string, r: EvidenceRequirement, now: int): Executions {
    if r.name in executions then
      executions[r.name := executions[r.name].(kind := r.kind, required := r.required)]
    else
      executions[r.name := EvidenceExecution(id, r.name, r.kind, EvidencePending, r.required, "", "", "merger", map[],
                                             now)]
  }

  /** Every requirement gets an execution: a new pending one, or the existing one with its type and
    * required flag refreshed. */
  function Ensured(executions: Executions, id: string, requirements: seq<EvidenceRequirement>, now: int): Executions {
    if requirements == [] then executions
    else
      var last := |requirements| - 1;
      Ensured1(Ensured(executions, id, requirements[..last], now), id, requirements[last], now)
  }

  function Saved(s: State, packet: ChangePacket, now: int): State {
    s.(packets := s.packets[packet.id := packet],
       evidence := s.evidence[packet.id := Ensured(s.EvidenceOf(packet.id), packet.id, packet.evidence, now)])
  }

  lemma RecordedIsWellKeyed(s: State, execution: EvidenceExecution, entry: EvidenceAuditEntry, now: int)
    requires s.WellKeyed()
    ensures Recorded(s, execution, entry, now).WellKeyed()
  {
  }

  predicate Names(requirements: seq<EvidenceRequirement>, name: string) {
    exists i | 0 <= i < |requirements| :: requirements[i].name == name
  }

  /** Saving a packet adds pending executions for its unseen requirement names and never touches the
    * status, the author or the identity of an existing execution. */
  lemma {:induction false} EnsuredAt(executions: Executions, id: string, requirements: seq<EvidenceRequirement>,
                                     now: int, n: string)
    ensures var after := Ensured(executions, id, requirements, now);
            && (n in after <==> n in executions || Names(requirements, n))
            && (n in executions ==>
                  after[n] == executions[n].(kind := after[n].kind, required := after[n].required))
            && (n in after && n !in executions ==>
                  && after[n].status == EvidencePending
                  && after[n].changePacketId == id
                  && after[n].name == n)
  {
    if requirements != [] {
      var last := |requirements| - 1;
      EnsuredAt(executions, id, requirements[..last], now, n);
      assert Names(requirements, n) <==> Names(requirements[..last], n) || requirements[last].name == n by {
        assert requirements == requirements[..last] + [requirements[last]];
      }
    }
  }

  lemma EnsuredKeepsStatuses(executions: Executions, id: string, requirements: seq<EvidenceRequirement>, now: int)
    ensures var after := Ensured(executions, id, requirements, now);
            && (forall n :: n in after <==> n in executions || Names(requirements, n))
            && (forall n | n in executions ::
                  after[n] == executions[n].(kind := after[n].kind, required := after[n].required))
            && (forall n | n in after && n !in executions ::
                  && after[n].status == EvidencePending
                  && after[n].changePacketId == id
                  && after[n].name == n)
  {
    forall n {
      EnsuredAt(executions, id, requirements, now, n);
    }
  }

  lemma EnsuredIsWellNamed(executions: Executions, id: string, requirements: seq<EvidenceRequirement>, now: int)
    requires WellNamed(executions)
    ensures WellNamed(Ensured(executions, id, requirements, now))
  {
    EnsuredKeepsStatuses(executions, id, requirements, now);
  }

  lemma SavedKeepsStatuses(s: State, packet: ChangePacket, now: int)
    ensures forall id, name :: Saved(s, packet, now).StatusOf(id, name) == s.StatusOf(id, name)
  {
    EnsuredKeepsStatuses(s.EvidenceOf(packet.id), packet.id, packet.evidence, now);
  }

  /** A packet that belongs to the pull request at the commit. */
  predicate Belongs(packet: ChangePacket, repoFullName: string, prNumber: int, headSHA: string) {
    packet.repoFullName == repoFullName && packet.prNumber == prNumber && packet.headSHA == headSHA
  }

  /** What FindLatestChangePacket may return: nothing when no packet belongs, else a newest one. */
  ghost predicate IsLatest(s: State, pick: Option<string>, repoFullName: string, prNumber: int, headSHA: string) {
    match pick
    case None =>
      forall id | id in s.packets :: !Belongs(s.packets[id], repoFullName, prNumber, headSHA)
    case Some(latest) =>
      && latest in s.packets
      && Belongs(s.packets[latest], repoFullName, prNumber, headSHA)
      && forall id | id in s.packets && Belongs(s.packets[id], repoFullName, prNumber, headSHA) ::
           s.packets[id].updatedAt <= s.packets[latest].updatedAt
  }

  /** No two packets carry the same update time, which a strictly increasing clock guarantees. */
  ghost predicate DistinctTimes(s: State) {
    forall a, b | a in s.packets && b in s.packets && a != b :: s.packets[a].updatedAt != s.packets[b].updatedAt
  }

  lemma LatestIsUnique(s: State, a: Option<string>, b: Option<string>, repoFullName: string, prNumber: int,
                       headSHA: string)
    requires DistinctTimes(s)
    requires IsLatest(s, a, repoFullName, prNumber, headSHA) && IsLatest(s, b, repoFullName, prNumber, headSHA)
    ensures a == b
  {
  }

  /** The listing of executions sorted by name; one for each stored execution. */
  ghost predicate IsListing(listing: seq<EvidenceExecution>, executions: Executions) {
    && |listing| == |executions|
    && (forall i | 0 <= i < |listing| :: listing[i].name in executions && executions[listing[i].name] == listing[i])
    && (forall i, j | 0 <= i < j < |listing| :: Less(listing[i].name, listing[j].name))
    && (forall name | name in executions :: Lists(listing, name))
  }

  lemma SortedValuesAreListing(names: seq<string>, listing: seq<EvidenceExecution>, executions: Executions)
    requires WellNamed(executions)
    requires StrictlySorted(names) && |names| == |executions| && forall n :: n in names <==> n in executions
    requires |listing| == |names|
    requires forall k | 0 <= k < |listing| :: names[k] in executions && listing[k] == executions[names[k]]
    ensures IsListing(listing, executions)
  {
    forall name | name in executions
      ensures Lists(listing, name)
    {
      var k :| 0 <= k < |names| && names[k] == name;
      assert listing[k] == executions[name];
    }
  }

  predicate Lists(listing: seq<EvidenceExecution>, name: string) {
    exists i | 0 <= i < |listing| :: listing[i].name == name
  }

  class MemoryRepository {
    var changePackets: map<string, ChangePacket>
    var evidenceByCPID: map<string, Executions>
    var auditByCPID: map<string, AuditLog>

    ghost function Contents(): State
      reads this
    {
      State(changePackets, evidenceByCPID, auditByCPID)
    }

    ghost predicate Valid()
      reads this
    {
      Contents().WellKeyed()
    }

    constructor ()
      ensures Valid() && Contents() == EMPTY
    {
      changePackets, evidenceByCPID, auditByCPID := map[], map[], map[];
    }

    method RecordEvidenceUpdate(execution: EvidenceExecution, entry: EvidenceAuditEntry, now: int)
      requires Valid()
      modifies this
      ensures Valid()
      ensures Contents() == Recorded(old(Contents()), execution, entry, now)
    {
      hide State.WellKeyed;
      ghost var before := Contents();
      RecordedIsWellKeyed(before, execution, entry, now);
      if execution.changePacketId !in evidenceByCPID {
        evidenceByCPID := evidenceByCPID[execution.changePacketId := map[]];
      }
      var stamped := execution;
      if stamped.updatedAt == ZERO_TIME {
        stamped := stamped.(updatedAt := now);
      }
      var executions := evidenceByCPID[execution.changePacketId];
      assert executions == before.EvidenceOf(execution.changePacketId);
      evidenceByCPID := evidenceByCPID[execution.changePacketId := executions[execution.name := stamped]];
      assert evidenceByCPID == before.evidence[execution.changePacketId := executions[execution.name := stamped]];
      var stored := if entry.changePacketId in auditByCPID then auditByCPID[entry.changePacketId] else [];
      auditByCPID := auditByCPID[entry.changePacketId := stored + [entry]];
    }

    method SaveChangePacket(packet: ChangePacket, now: int)
      requires Valid()
      modifies this
      ensures Valid()
      ensures Contents() == Saved(old(Contents()), packet, now)
    {
      changePackets := changePackets[packet.id := packet];
      EnsureEvidenceLocked(packet, now);
    }

    method EnsureEvidenceLocked(packet: ChangePacket, now: int)
      requires Valid()
      modifies this`evidenceByCPID
      ensures Valid()
      ensures evidenceByCPID == old(evidenceByCPID)[packet.id :=
                                  Ensured(old(Contents()).EvidenceOf(packet.id), packet.id, packet.evidence, now)]
    {
      var executions: Executions := if packet.id in evidenceByCPID then evidenceByCPID[packet.id] else map[];
      ghost var before := executions;
      for i := 0 to |packet.evidence|
        invariant evidenceByCPID == old(evidenceByCPID)
        invariant executions == Ensured(before, packet.id, packet.evidence[..i], now)
      {
        executions := EnsureOne(executions, packet.id, packet.evidence[i], now);
        assert packet.evidence[..i + 1][..i] == packet.evidence[..i];
      }
      assert packet.evidence[..|packet.evidence|] == packet.evidence;
      EnsuredIsWellNamed(before, packet.id, packet.evidence, now);
      evidenceByCPID := evidenceByCPID[packet.id := executions];
    }

    method EnsureOne(stored: Executions, id: string, requirement: EvidenceRequirement, now: int)
      returns (executions: Executions)
      ensures executions == Ensured1(stored, id, requirement, now)
    {
      executions := stored;
      if requirement.name in executions {
        var current := executions[requirement.name].(kind := requirement.kind, required := requirement.required);
        executions := executions[requirement.name := current];
      } else {
        var pending := EvidenceExecution(id, requirement.name, requirement.kind, EvidencePending,
                                         requirement.required, "", "", "merger", map[], now);
        executions := executions[requirement.name := pending];
      }
    }

    method GetChangePacket(id: string) returns (found: Option<ChangePacket>)
      ensures found == if id in Contents().packets then Some(Contents().packets[id]) else None
    {
      found := if id in changePackets then Some(changePackets[id]) else None;
    }

    /** Iterates the packets in arbitrary order; only a strictly newer packet replaces the candidate. */
    method FindLatestChangePacket(repoFullName: string, prNumber: int, headSHA: string)
      returns (found: Option<ChangePacket>)
      requires Valid()
      ensures IsLatest(Contents(), if found.Some? then Some(found.value.id) else None, repoFullName, prNumber, headSHA)
      ensures found.Some? ==> Contents().packets[found.value.id] == found.value
      ensures found.Some? ==>
                found.value.repoFullName == repoFullName && found.value.prNumber == prNumber
                    && found.value.headSHA == headSHA
    {
      found := None;
      var left := changePackets.Keys;
      while left != {}
        invariant left <= changePackets.Keys
        invariant found.Some? ==>
                    && found.value.id in changePackets && changePackets[found.value.id] == found.value
                    && Belongs(found.value, repoFullName, prNumber, headSHA)
        invariant forall id | id in changePackets && id !in left
                  && Belongs(changePackets[id], repoFullName, prNumber, headSHA) ::
                    found.Some? && changePackets[id].updatedAt <= found.value.updatedAt
      {
        var id :| id in left;
        left := left - {id};
        var packet := changePackets[id];
        if Belongs(packet, repoFullName, prNumber, headSHA)
           && (found.None? || packet.updatedAt > found.value.updatedAt) {
          found := Some(packet);
        }
      }
    }

    method ListEvidenceExecutions(changePacketId: string) returns (executions: seq<EvidenceExecution>)
      requires Valid()
      ensures IsListing(executions, Contents().EvidenceOf(changePacketId))
    {
      var values: Executions := if changePacketId in evidenceByCPID then evidenceByCPID[changePacketId] else map[];
      var names := SortedListing(values.Keys);
      executions := [];
      hide IsListing, StrictlySorted;
      for i := 0 to |names|
        invariant |executions| == i
        invariant forall k | 0 <= k < i :: executions[k] == values[names[k]]
      {
        executions := executions + [values[names[i]]];
      }
      SortedValuesAreListing(names, executions, values);
    }

    /** Newest first, cut to the limit when it is positive. */
    method ListEvidenceAuditEntries(changePacketId: string, limit: int) returns (entries: AuditLog)
      ensures var stored := Contents().AuditOf(changePacketId);
              && |entries| == (if 0 < limit < |stored| then limit else |stored|)
              && forall k | 0 <= k < |entries| :: entries[k] == stored[|stored| - 1 - k]
    {
      var stored := if changePacketId in auditByCPID then auditByCPID[changePacketId] else [];
      entries := [];
      var index := |stored| - 1;
      while index >= 0
        invariant -1 <= index < |stored|
        invariant |entries| == |stored| - 1 - index
        invariant forall k | 0 <= k < |entries| :: entries[k] == stored[|stored| - 1 - k]
      {
        entries := entries + [stored[index]];
        index := index - 1;
      }
      if limit > 0 && |entries| > limit {
        entries := entries[..limit];
      }
    }
  }
}
