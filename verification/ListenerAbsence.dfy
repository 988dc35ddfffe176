/**
 * internal/model/listener_absence.go: when a visibility assessment is complete, when it proves that nothing
 * listens on a port, and the issue code a persisted report gets otherwise.
 */
module ListenerAbsence {
  import opened Text
  import opened Model
  import opened Ids
  import opened Sorting
  import MissingEvidences

  const RESULT := "LISTENER_INVENTORY_RESULT"
  const ENTRY := "LISTENER_INVENTORY_ENTRY"
  const OWNERSHIP := "PROCESS_OWNERSHIP_ENTRY"

  // ---------------------------------------------------------------- time coherence

  const MAX_INT64: int := 0x7FFF_FFFF_FFFF_FFFF
  const MIN_INT64: int := -0x8000_0000_0000_0000

  /** time.Time.Sub saturates. */
  function Saturate(d: int): int { if d > MAX_INT64 then MAX_INT64 else if d < MIN_INT64 then MIN_INT64 else d }

  /** Negation of an int64 wraps on the least value. */
  function Negate64(d: int): int { if d == MIN_INT64 then MIN_INT64 else -d }

  /** listenerObservationTimeCoherent */
  predicate Coherent(window: int, observedAt: int, assessedAt: int)
  {
    && window >= 0
    && var delta := Saturate(observedAt - assessedAt);
       (if delta < 0 then Negate64(delta) else delta) <= window
  }

  /**
   * For a 64-bit window the check is |observed - assessed| <= window, with two exceptions at the ends of the
   * 64-bit range: an observation 2^63 nanoseconds or more before the assessment always passes, and one
   * more than 2^63 - 1 after it passes the greatest window.
   */
  lemma CoherentExactly(window: int, observedAt: int, assessedAt: int)
    requires MIN_INT64 <= window <= MAX_INT64
    ensures var d := observedAt - assessedAt;
            Coherent(window, observedAt, assessedAt) <==>
              window >= 0 && (-window <= d <= window || d <= MIN_INT64 || (d > MAX_INT64 && window == MAX_INT64))
  {
  }

  /** Three centuries apart, and coherent within a nanosecond. */
  lemma FarPastIsCoherent() returns (window: int, observedAt: int, assessedAt: int)
    ensures window == 1 && assessedAt - observedAt > MAX_INT64 && Coherent(window, observedAt, assessedAt)
  {
    window, observedAt, assessedAt := 1, MIN_INT64, 0;
  }

  // ---------------------------------------------------------------- lookups

  /** observationsByID: the last observation with an ID. */
  function ObservationsById(all: seq<Observation>): map<ObservationID, Observation>
  {
    if all == [] then map[]
    else
      var last := all[|all| - 1];
      ObservationsById(all[..|all| - 1])[last.observationID := last]
  }

  lemma {:induction false} ObservationsByIdFinds(all: seq<Observation>)
    ensures forall id :: id in ObservationsById(all) ==>
              ObservationsById(all)[id] in all && ObservationsById(all)[id].observationID == id
    ensures forall o :: o in all ==> o.observationID in ObservationsById(all)
  {
    if all != [] {
      ObservationsByIdFinds(all[..|all| - 1]);
      assert forall o :: o in all <==> o in all[..|all| - 1] || o == all[|all| - 1];
    }
  }

  method IndexObservations(all: seq<Observation>) returns (m: map<ObservationID, Observation>)
    ensures m == ObservationsById(all)
  {
    m := map[];
    for i := 0 to |all|
      invariant m == ObservationsById(all[..i])
    {
      assert all[..i + 1][..i] == all[..i];
      m := m[all[i].observationID := all[i]];
    }
    assert all[..|all|] == all;
  }

  predicate IsConcrete(x: Entity, id: EntityID) { x.entityID == id && x.kind == "LISTENER" && x.listener.Some? }

  predicate Concrete(entities: seq<Entity>, id: EntityID) { exists x :: x in entities && IsConcrete(x, id) }

  /** concreteListenerKey: the key is the entity ID itself. */
  method ConcreteListenerKey(entities: seq<Entity>, id: EntityID) returns (key: EntityID, ok: bool)
    ensures ok <==> Concrete(entities, id)
    ensures ok ==> key == id
  {
    for i := 0 to |entities|
      invariant forall x :: x in entities[..i] ==> !IsConcrete(x, id)
    {
      if IsConcrete(entities[i], id) {
        return entities[i].entityID, true;
      }
      assert entities[..i + 1] == entities[..i] + [entities[i]];
    }
    assert entities[..|entities|] == entities;
    return "", false;
  }

  /** The first namespace entity with the ID decides. */
  function NamespaceInode(entities: seq<Entity>, id: EntityID): Option<nat>
  {
    if entities == [] then None
    else if entities[0].entityID == id && entities[0].kind == "NETWORK_NAMESPACE" then entities[0].namespaceInode
    else NamespaceInode(entities[1..], id)
  }

  /** The first vantage point with the ID decides. */
  function HostInode(vantages: seq<VantagePoint>, id: VantageID): Option<nat>
  {
    if vantages == [] then None
    else if vantages[0].vantageID == id then
      (if vantages[0].kind == "HOST_NAMESPACE" then vantages[0].hostInode else None)
    else HostInode(vantages[1..], id)
  }

  /** listenerNamespaceMatchesVantage */
  predicate NamespaceMatches(r: EvidenceRun, namespaceID: EntityID, vantageID: VantageID)
  {
    var inode := NamespaceInode(r.entities, namespaceID);
    inode.Some? && HostInode(r.vantages, vantageID) == inode
  }

  method NamespaceMatchesVantage(r: EvidenceRun, namespaceID: EntityID, vantageID: VantageID) returns (ok: bool)
    ensures ok <==> NamespaceMatches(r, namespaceID, vantageID)
  {
    var inode: Option<nat> := None;
    var i := 0;
    while i < |r.entities|
      invariant 0 <= i <= |r.entities| && inode == None
      invariant NamespaceInode(r.entities, namespaceID) == NamespaceInode(r.entities[i..], namespaceID)
    {
      if r.entities[i].entityID == namespaceID && r.entities[i].kind == "NETWORK_NAMESPACE" {
        inode := r.entities[i].namespaceInode;
        break;
      }
      assert r.entities[i..][1..] == r.entities[i + 1..];
      i := i + 1;
    }
    if inode.None? {
      return false;
    }
    for j := 0 to |r.vantages|
      invariant HostInode(r.vantages, vantageID) == HostInode(r.vantages[j..], vantageID)
    {
      var v := r.vantages[j];
      if v.vantageID != vantageID {
        assert r.vantages[j..][1..] == r.vantages[j + 1..];
        continue;
      }
      return v.kind == "HOST_NAMESPACE" && v.hostInode.Some? && v.hostInode.value == inode.value;
    }
    ok := false;
  }

  // ---------------------------------------------------------------- matching

  predicate SameBucket(s: ListenerScope, namespaceID: EntityID, protocol: string, family: string, binding: string)
  {
    namespaceID == s.namespaceEntityID && protocol == s.protocol && family == s.family && binding == s.binding
  }

  predicate ResultInBucket(p: InventoryResult, s: ListenerScope)
  {
    SameBucket(s, p.namespaceEntityID, p.protocol, p.family, p.binding)
  }

  predicate EntryInBucket(p: InventoryEntry, s: ListenerScope)
  {
    SameBucket(s, p.namespaceEntityID, p.protocol, p.family, p.binding)
  }

  /** listenerInventoryResultMatchesVisibility */
  predicate ResultCovers(p: InventoryResult, s: ListenerScope)
  {
    ResultInBucket(p, s) && p.portStart <= s.portStart && p.portEnd >= s.portEnd
  }

  /** listenerEntryMatchesScope */
  predicate EntryWithin(p: InventoryEntry, s: ListenerScope)
  {
    EntryInBucket(p, s) && s.portStart <= p.port <= s.portEnd
  }

  predicate Visible(r: EvidenceRun, v: VisibilityAssessment, o: Observation)
  {
    o.vantageID == Some(v.vantageID) && Coherent(r.coherenceWindow, o.observedAt, v.assessedAt)
  }

  /** An observation that may stand in the basis of the assessment. */
  predicate Admissible(r: EvidenceRun, v: VisibilityAssessment, s: ListenerScope, o: Observation)
  {
    && Visible(r, v, o) && o.limitations == []
    && if o.kind == RESULT then o.payload.result.Some? && ResultCovers(o.payload.result.value, s)
       else if o.kind == ENTRY then o.payload.entry.Some? && EntryWithin(o.payload.entry.value, s)
       else if o.kind == OWNERSHIP then s.ownershipRequired && o.payload.ownership.Some?
       else false
  }

  // ---------------------------------------------------------------- completeness

  /** The assessment says it is complete, for a scope the vantage point can see. */
  predicate ClaimsComplete(r: EvidenceRun, v: VisibilityAssessment)
  {
    && v.subjectKind == "LISTENER" && v.level == "COMPLETE_FOR_SCOPE" && v.scope.kind == "LISTENER"
    && v.scope.listener.Some? && v.vantageID != "" && v.basis != [] && v.limitations == []
    && MissingEvidences.ValidListenerScope(v.scope.listener.value)
    && NamespaceMatches(r, v.scope.listener.value.namespaceEntityID, v.vantageID)
  }

  /** What the basis observations carry, in basis order. */
  datatype Basis = Basis(results: seq<InventoryResult>, entries: seq<InventoryEntry>, ownership: seq<OwnershipEntry>)

  function Put(b: Basis, o: Observation): Basis
  {
    if o.kind == RESULT && o.payload.result.Some? then b.(results := b.results + [o.payload.result.value])
    else if o.kind == ENTRY && o.payload.entry.Some? then b.(entries := b.entries + [o.payload.entry.value])
    else if o.kind == OWNERSHIP && o.payload.ownership.Some? then b.(ownership := b.ownership + [o.payload.ownership.value])
    else b
  }

  function Carried(m: map<ObservationID, Observation>, ids: seq<ObservationID>): Basis
  {
    if ids == [] then Basis([], [], [])
    else
      var b, last := Carried(m, ids[..|ids| - 1]), ids[|ids| - 1];
      if last in m then Put(b, m[last]) else b
  }

  ghost predicate SoundBasis(r: EvidenceRun, v: VisibilityAssessment, s: ListenerScope, ids: seq<ObservationID>)
  {
    var m := ObservationsById(r.observations);
    && NoRepeats(ids)
    && forall id :: id in ids ==> id in m && Admissible(r, v, s, m[id])
  }

  function EntryIds(entries: seq<InventoryEntry>): set<EntityID> { set x | x in entries :: x.listenerEntityID }

  function OwnedIds(ownership: seq<OwnershipEntry>): set<EntityID> { set x | x in ownership :: x.listenerEntityID }

  /** Every listed listener is a concrete entity, every one of them has an owner, and the count is theirs. */
  predicate OwnershipAgrees(r: EvidenceRun, s: ListenerScope, result: InventoryResult, b: Basis)
  {
    && result.portStart == s.portStart && result.portEnd == s.portEnd
    && (forall x :: x in b.entries ==> Concrete(r.entities, x.listenerEntityID))
    && (forall x :: x in b.ownership ==> x.result == "OWNED" && x.processEntityID.Some?)
    && |EntryIds(b.entries)| == result.count
    && OwnedIds(b.ownership) == EntryIds(b.entries)
  }

  predicate SoundInventory(r: EvidenceRun, s: ListenerScope, b: Basis)
  {
    && b.results != []
    && (forall x :: x in b.results ==> x == b.results[0])
    && (s.ownershipRequired ==>
          if b.results[0].count == 0 then b.ownership == [] else OwnershipAgrees(r, s, b.results[0], b))
  }

  /** The completeness contract. */
  ghost predicate Complete(r: EvidenceRun, v: VisibilityAssessment)
  {
    && ClaimsComplete(r, v)
    && var s := v.scope.listener.value;
       && SoundBasis(r, v, s, v.basis)
       && SoundInventory(r, s, Carried(ObservationsById(r.observations), v.basis))
  }

  method CollectBasis(r: EvidenceRun, v: VisibilityAssessment, s: ListenerScope) returns (b: Basis, ok: bool)
    ensures ok <==> SoundBasis(r, v, s, v.basis)
    ensures ok ==> b == Carried(ObservationsById(r.observations), v.basis)
  {
    var observations := IndexObservations(r.observations);
    var seen: set<ObservationID> := {};
    b := Basis([], [], []);
    for i := 0 to |v.basis|
      invariant forall id :: id in seen <==> id in v.basis[..i]
      invariant SoundBasis(r, v, s, v.basis[..i])
      invariant b == Carried(observations, v.basis[..i])
    {
      var id := v.basis[i];
      assert v.basis[..i + 1][..i] == v.basis[..i];
      assert v.basis[..i + 1] == v.basis[..i] + [id];
      if id in seen {
        RepeatedBasis(r, v, s, i);
        return b, false;
      }
      seen := seen + {id};
      if id !in observations || !Admissible(r, v, s, observations[id]) {
        return b, false;
      }
      b := Put(b, observations[id]);
    }
    assert v.basis[..|v.basis|] == v.basis;
    ok := true;
  }

  lemma RepeatedBasis(r: EvidenceRun, v: VisibilityAssessment, s: ListenerScope, i: nat)
    requires i < |v.basis| && v.basis[i] in v.basis[..i]
    ensures !SoundBasis(r, v, s, v.basis)
  {
    var j :| 0 <= j < i && v.basis[..i][j] == v.basis[i];
  }

  method CollectListenerKeys(r: EvidenceRun, entries: seq<InventoryEntry>) returns (keys: set<EntityID>, ok: bool)
    ensures ok <==> forall x :: x in entries ==> Concrete(r.entities, x.listenerEntityID)
    ensures ok ==> keys == EntryIds(entries)
  {
    keys := {};
    for i := 0 to |entries|
      invariant forall x :: x in entries[..i] ==> Concrete(r.entities, x.listenerEntityID)
      invariant keys == EntryIds(entries[..i])
    {
      assert entries[..i + 1] == entries[..i] + [entries[i]];
      var key, found := ConcreteListenerKey(r.entities, entries[i].listenerEntityID);
      if !found {
        return keys, false;
      }
      keys := keys + {key};
    }
    assert entries[..|entries|] == entries;
    ok := true;
  }

  method CollectOwned(r: EvidenceRun, ownership: seq<OwnershipEntry>, keys: set<EntityID>)
    returns (owned: set<EntityID>, ok: bool)
    requires forall k :: k in keys ==> Concrete(r.entities, k)
    ensures ok <==> (forall x :: x in ownership ==> x.result == "OWNED" && x.processEntityID.Some?) && OwnedIds(ownership) <= keys
    ensures ok ==> owned == OwnedIds(ownership)
  {
    owned := {};
    for i := 0 to |ownership|
      invariant forall x :: x in ownership[..i] ==> x.result == "OWNED" && x.processEntityID.Some?
      invariant owned == OwnedIds(ownership[..i]) && owned <= keys
    {
      var item := ownership[i];
      assert ownership[..i + 1] == ownership[..i] + [item];
      if item.result != "OWNED" || item.processEntityID.None? {
        return owned, false;
      }
      var key, found := ConcreteListenerKey(r.entities, item.listenerEntityID);
      if !found || key !in keys {
        assert item.listenerEntityID in OwnedIds(ownership);
        return owned, false;
      }
      owned := owned + {key};
    }
    assert ownership[..|ownership|] == ownership;
    ok := true;
  }

  /** The ownership part: a listener counted in the result is concrete, listed and owned, and nothing else is. */
  method CheckOwnership(r: EvidenceRun, s: ListenerScope, result: InventoryResult, b: Basis) returns (ok: bool)
    ensures ok <==> OwnershipAgrees(r, s, result, b)
  {
    if result.portStart != s.portStart || result.portEnd != s.portEnd {
      return false;
    }
    var keys, concrete := CollectListenerKeys(r, b.entries);
    if !concrete || |keys| != result.count {
      return false;
    }
    var owned, owns := CollectOwned(r, b.ownership, keys);
    if !owns || |owned| != |keys| {
      return false;
    }
    if exists key :: key in keys && key !in owned {
      return false;
    }
    ok := true;
  }

  method SameResults(results: seq<InventoryResult>) returns (same: bool)
    requires results != []
    ensures same <==> forall x :: x in results ==> x == results[0]
  {
    for i := 1 to |results|
      invariant forall k :: 0 <= k < i ==> results[k] == results[0]
    {
      if results[i] != results[0] {
        assert results[i] in results;
        return false;
      }
    }
    same := true;
  }

  /** ListenerVisibilityComplete decides the completeness contract. */
  method ListenerVisibilityComplete(r: EvidenceRun, v: VisibilityAssessment) returns (complete: bool)
    ensures complete <==> Complete(r, v)
  {
    if v.subjectKind != "LISTENER" || v.level != "COMPLETE_FOR_SCOPE" || v.scope.kind != "LISTENER" ||
       v.scope.listener.None? || v.vantageID == "" || |v.basis| == 0 || |v.limitations| != 0
    {
      return false;
    }
    var s := v.scope.listener.value;
    if !MissingEvidences.ValidListenerScope(s) {
      return false;
    }
    var matches := NamespaceMatchesVantage(r, s.namespaceEntityID, v.vantageID);
    if !matches {
      return false;
    }
    var b, sound := CollectBasis(r, v, s);
    if !sound || |b.results| == 0 {
      return false;
    }
    var same := SameResults(b.results);
    if !same {
      return false;
    }
    if !s.ownershipRequired {
      return true;
    }
    if b.results[0].count == 0 {
      return |b.ownership| == 0;
    }
    complete := CheckOwnership(r, s, b.results[0], b);
  }

  // ---------------------------------------------------------------- the basis issue code

  /** What a result in the basis that the vantage point does not share, or does, makes of the code. */
  predicate IsResult(m: map<ObservationID, Observation>, id: ObservationID) { id in m && m[id].kind == RESULT }

  /** A result of this vantage point with the given shortcoming ends the search with its code. */
  function ResultCode(r: EvidenceRun, v: VisibilityAssessment, o: Observation): Option<Code>
  {
    if o.payload.result.None? then Some(VisibilityInsufficientCode)
    else if v.scope.listener.None? || !ResultCovers(o.payload.result.value, v.scope.listener.value)
    then Some(ScopeMismatchCode)
    else if o.limitations != [] || !Coherent(r.coherenceWindow, o.observedAt, v.assessedAt)
    then Some(VisibilityInsufficientCode)
    else None
  }

  /** A result in the basis that the assessment's own vantage point made. */
  predicate IsOwnResult(m: map<ObservationID, Observation>, v: VisibilityAssessment, id: ObservationID)
  {
    IsResult(m, id) && m[id].vantageID == Some(v.vantageID)
  }

  /** The first of its own results that falls short, at place i of the basis. */
  ghost predicate FallsShort(r: EvidenceRun, v: VisibilityAssessment, i: nat)
  {
    var m := ObservationsById(r.observations);
    && i < |v.basis| && IsOwnResult(m, v, v.basis[i]) && ResultCode(r, v, m[v.basis[i]]).Some?
    && forall k :: 0 <= k < i && IsOwnResult(m, v, v.basis[k]) ==> ResultCode(r, v, m[v.basis[k]]).None?
  }

  /**
   * listenerVisibilityBasisIssueCode: the first own result that falls short gives the code; if none does, a
   * basis with own results has no issue, one with only others' results a vantage issue, one without
   * results insufficient visibility.
   */
  method BasisIssueCode(r: EvidenceRun, v: VisibilityAssessment) returns (code: Option<Code>)
    ensures forall i: nat :: FallsShort(r, v, i) ==> code == ResultCode(r, v, ObservationsById(r.observations)[v.basis[i]])
    ensures (forall i: nat :: !FallsShort(r, v, i)) ==>
              var m := ObservationsById(r.observations);
              code == if exists id :: id in v.basis && IsOwnResult(m, v, id) then None
                      else if exists id :: id in v.basis && IsResult(m, id) then Some(VantageMismatchCode)
                      else Some(VisibilityInsufficientCode)
  {
    if |v.basis| == 0 {
      return Some(VisibilityInsufficientCode);
    }
    var observations := IndexObservations(r.observations);
    var hasResult, hasSameVantage := false, false;
    for i := 0 to |v.basis|
      invariant hasResult <==> exists k :: 0 <= k < i && IsResult(observations, v.basis[k])
      invariant hasSameVantage <==> exists k :: 0 <= k < i && IsOwnResult(observations, v, v.basis[k])
      invariant forall k :: 0 <= k < i && IsOwnResult(observations, v, v.basis[k]) ==>
                  ResultCode(r, v, observations[v.basis[k]]).None?
    {
      var id := v.basis[i];
      if !IsResult(observations, id) {
        continue;
      }
      var o := observations[id];
      hasResult := true;
      if o.vantageID != Some(v.vantageID) {
        continue;
      }
      hasSameVantage := true;
      if ResultCode(r, v, o).Some? {
        assert FallsShort(r, v, i);
        return ResultCode(r, v, o);
      }
    }
    if hasResult && !hasSameVantage {
      return Some(VantageMismatchCode);
    }
    if !hasResult {
      return Some(VisibilityInsufficientCode);
    }
    code := None;
  }

  /** A complete assessment has a result of its own, and none that falls short. */
  lemma CompleteBasisHasNoIssue(r: EvidenceRun, v: VisibilityAssessment)
    requires Complete(r, v)
    ensures forall i: nat :: !FallsShort(r, v, i)
    ensures exists id :: id in v.basis && IsOwnResult(ObservationsById(r.observations), v, id)
  {
    forall i: nat
      ensures !FallsShort(r, v, i)
    {
      if i < |v.basis| {
        assert v.basis[i] in v.basis;
      }
    }
    CompleteHasResult(r, v);
    var k :| 0 <= k < |v.basis| && IsResult(ObservationsById(r.observations), v.basis[k]);
    assert v.basis[k] in v.basis;
  }

  lemma {:induction false} CarriedResults(m: map<ObservationID, Observation>, ids: seq<ObservationID>)
    ensures forall k :: 0 <= k < |ids| && IsResult(m, ids[k]) && m[ids[k]].payload.result.Some? ==>
              m[ids[k]].payload.result.value in Carried(m, ids).results
    ensures forall x :: x in Carried(m, ids).results ==>
              exists k :: 0 <= k < |ids| && IsResult(m, ids[k]) && m[ids[k]].payload.result == Some(x)
  {
    if ids != [] {
      var n := |ids| - 1;
      CarriedResults(m, ids[..n]);
      forall x | x in Carried(m, ids).results
        ensures exists k :: 0 <= k < |ids| && IsResult(m, ids[k]) && m[ids[k]].payload.result == Some(x)
      {
        if x in Carried(m, ids[..n]).results {
          var k :| 0 <= k < n && IsResult(m, ids[..n][k]) && m[ids[..n][k]].payload.result == Some(x);
          assert ids[k] == ids[..n][k];
        } else {
          assert IsResult(m, ids[n]);
        }
      }
      assert forall k :: 0 <= k < n ==> ids[k] == ids[..n][k];
    }
  }

  lemma CompleteHasResult(r: EvidenceRun, v: VisibilityAssessment)
    requires Complete(r, v)
    ensures exists k :: 0 <= k < |v.basis| && IsResult(ObservationsById(r.observations), v.basis[k])
  {
    var m := ObservationsById(r.observations);
    CarriedResults(m, v.basis);
    assert Carried(m, v.basis).results[0] in Carried(m, v.basis).results;
  }

  // ---------------------------------------------------------------- absence

  /** An observation of this vantage point, in time, that something listens on the port in this bucket. */
  predicate Contradicts(r: EvidenceRun, v: VisibilityAssessment, s: ListenerScope, port: nat, o: Observation)
  {
    && Visible(r, v, o)
    && if o.kind == ENTRY
       then o.payload.entry.Some? && EntryInBucket(o.payload.entry.value, s) && o.payload.entry.value.port == port
       else if o.kind == RESULT
       then
         && o.payload.result.Some? && o.payload.result.value.count != 0
         && ResultInBucket(o.payload.result.value, s)
         && o.payload.result.value.portStart >= port && o.payload.result.value.portEnd <= port
       else false
  }

  /** The assessment proves that nothing listens on the port: complete, counting zero, and not contradicted. */
  ghost predicate AbsenceValid(r: EvidenceRun, v: VisibilityAssessment, port: nat)
  {
    && Complete(r, v)
    && var s := v.scope.listener.value;
       && s.portStart <= port <= s.portEnd
       && Carried(ObservationsById(r.observations), v.basis).results[0].count == 0
       && forall o :: o in r.observations ==> !Contradicts(r, v, s, port, o)
  }

  /** The loop both absence functions run over the basis. */
  method AllResultsZero(r: EvidenceRun, v: VisibilityAssessment) returns (nonzero: bool, hasZero: bool)
    ensures Complete(r, v) ==> (!nonzero <==> Carried(ObservationsById(r.observations), v.basis).results[0].count == 0)
    ensures Complete(r, v) && !nonzero ==> hasZero
  {
    var observations := IndexObservations(r.observations);
    hasZero := false;
    for i := 0 to |v.basis|
      invariant forall k :: 0 <= k < i && IsResult(observations, v.basis[k]) && observations[v.basis[k]].payload.result.Some? ==>
                  hasZero && observations[v.basis[k]].payload.result.value.count == 0
    {
      var id := v.basis[i];
      if !IsResult(observations, id) || observations[id].payload.result.None? {
        continue;
      }
      if observations[id].payload.result.value.count != 0 {
        if Complete(r, v) {
          CarriedResults(observations, v.basis);
        }
        return true, hasZero;
      }
      hasZero := true;
    }
    if Complete(r, v) {
      CarriedResults(observations, v.basis);
      assert Carried(observations, v.basis).results[0] in Carried(observations, v.basis).results;
    }
    nonzero := false;
  }

  /** ListenerAbsenceEvidenceValid decides absence. */
  method ListenerAbsenceEvidenceValid(r: EvidenceRun, v: VisibilityAssessment, port: nat) returns (valid: bool)
    ensures valid <==> AbsenceValid(r, v, port)
  {
    var complete := ListenerVisibilityComplete(r, v);
    if !complete {
      return false;
    }
    var s := v.scope.listener.value;
    if port < s.portStart || port > s.portEnd {
      return false;
    }
    var nonzero, hasZero := AllResultsZero(r, v);
    if nonzero || !hasZero {
      return false;
    }
    for i := 0 to |r.observations|
      invariant forall k :: 0 <= k < i ==> !Contradicts(r, v, s, port, r.observations[k])
    {
      if Contradicts(r, v, s, port, r.observations[i]) {
        assert r.observations[i] in r.observations;
        return false;
      }
    }
    valid := true;
  }

  /** ListenerAbsenceEvidenceIssueCode: no code exactly when the absence is valid. */
  method ListenerAbsenceIssueCode(r: EvidenceRun, v: VisibilityAssessment, port: nat) returns (code: Option<Code>)
    ensures code.None? <==> AbsenceValid(r, v, port)
    ensures code.Some? ==> code.value in {VisibilityInsufficientCode, ScopeMismatchCode, VantageMismatchCode}
  {
    if v.scope.listener.None? || v.scope.kind != "LISTENER" {
      return Some(VisibilityInsufficientCode);
    }
    var s := v.scope.listener.value;
    if port < s.portStart || port > s.portEnd {
      return Some(ScopeMismatchCode);
    }
    var basis := BasisIssueCode(r, v);
    if Complete(r, v) {
      CompleteBasisHasNoIssue(r, v);
    }
    if basis == Some(VantageMismatchCode) || basis == Some(ScopeMismatchCode) {
      return basis;
    }
    var complete := ListenerVisibilityComplete(r, v);
    if !complete {
      return Some(VisibilityInsufficientCode);
    }
    var nonzero, hasZero := AllResultsZero(r, v);
    if nonzero || !hasZero {
      return Some(VisibilityInsufficientCode);
    }
    var valid := ListenerAbsenceEvidenceValid(r, v, port);
    if !valid {
      return Some(VisibilityInsufficientCode);
    }
    code := None;
  }
}
