/**
 * The order of a run's collections does not matter to what it proves: with one record per ID, absence of a
 * listener and the listener rule's conclusion are the same before and after canonicalization.
 */
module AlikeAbsence {
  import opened Text
  import opened Model
  import opened Sorting
  import opened Canonical
  import opened ListenerAbsence
  import opened ListenerRule

  /** One record per ID in the collections that are searched by ID. */
  ghost predicate UniqueIds(r: EvidenceRun)
  {
    && UniqueKeys(VantageKey, r.vantages) && UniqueKeys(EntityKey, r.entities)
    && UniqueKeys(ObservationKey, r.observations) && UniqueKeys(VisibilityKey, r.visibility)
  }

  // ---------------------------------------------------------------- lookups by ID

  lemma {:induction false} NamespaceInodeFinds(s: seq<Entity>, id: EntityID, x: Entity)
    requires UniqueKeys(EntityKey, s) && x in s && x.entityID == id
    ensures NamespaceInode(s, id) == if x.kind == "NETWORK_NAMESPACE" then x.namespaceInode else None
  {
    if s[0] == x {
      forall y | y in s[1..]
        ensures y.entityID != id
      {
        var i :| 0 <= i < |s[1..]| && s[1..][i] == y;
        assert EntityKey(s[0]) != EntityKey(s[i + 1]);
      }
      NamespaceInodeMisses(s[1..], id);
    } else {
      var i :| 0 <= i < |s| && s[i] == x;
      assert s[1..][i - 1] == x;
      assert EntityKey(s[0]) != EntityKey(s[i]);
      NamespaceInodeFinds(s[1..], id, x);
    }
  }

  lemma {:induction false} NamespaceInodeMisses(s: seq<Entity>, id: EntityID)
    requires forall y :: y in s ==> y.entityID != id
    ensures NamespaceInode(s, id) == None
  {
    if s != [] {
      assert s[0] in s;
      NamespaceInodeMisses(s[1..], id);
    }
  }

  lemma NamespaceInodeSame(a: seq<Entity>, b: seq<Entity>, id: EntityID)
    requires UniqueKeys(EntityKey, a) && multiset(a) == multiset(b)
    ensures NamespaceInode(a, id) == NamespaceInode(b, id)
  {
    UniqueKeysPermuted(EntityKey, a, b);
    SameElements(a, b);
    if x :| x in a && x.entityID == id {
      NamespaceInodeFinds(a, id, x);
      NamespaceInodeFinds(b, id, x);
    } else {
      NamespaceInodeMisses(a, id);
      NamespaceInodeMisses(b, id);
    }
  }

  function HostInodeOf(v: VantagePoint): Option<nat> { if v.kind == "HOST_NAMESPACE" then v.hostInode else None }

  lemma {:induction false} HostInodeFinds(s: seq<VantagePoint>, id: VantageID, v: VantagePoint)
    requires UniqueKeys(VantageKey, s) && v in s && v.vantageID == id
    ensures HostInode(s, id) == HostInodeOf(v)
  {
    if s[0] != v {
      var i :| 0 <= i < |s| && s[i] == v;
      assert s[1..][i - 1] == v;
      assert VantageKey(s[0]) != VantageKey(s[i]);
      HostInodeFinds(s[1..], id, v);
    }
  }

  lemma {:induction false} HostInodeMisses(s: seq<VantagePoint>, id: VantageID)
    requires forall v :: v in s ==> v.vantageID != id
    ensures HostInode(s, id) == None
  {
    if s != [] {
      assert s[0] in s;
      HostInodeMisses(s[1..], id);
    }
  }

  lemma HostInodePermuted(a: seq<VantagePoint>, b: seq<VantagePoint>, id: VantageID)
    requires UniqueKeys(VantageKey, a) && multiset(a) == multiset(b)
    ensures HostInode(a, id) == HostInode(b, id)
  {
    UniqueKeysPermuted(VantageKey, a, b);
    SameElements(a, b);
    if v :| v in a && v.vantageID == id {
      HostInodeFinds(a, id, v);
      HostInodeFinds(b, id, v);
    } else {
      HostInodeMisses(a, id);
      HostInodeMisses(b, id);
    }
  }

  lemma {:induction false} HostInodePointwise(a: seq<VantagePoint>, b: seq<VantagePoint>, id: VantageID)
    requires |a| == |b| && Pointwise(AlikeVantage, a, b)
    ensures HostInode(a, id) == HostInode(b, id)
  {
    if a != [] {
      assert AlikeVantage(a[0], b[0]);
      forall i | 0 <= i < |b[1..]|
        ensures AlikeVantage(a[1..][i], b[1..][i])
      {
        assert AlikeVantage(a[i + 1], b[i + 1]);
      }
      HostInodePointwise(a[1..], b[1..], id);
    }
  }

  lemma HostInodeSame(a: seq<VantagePoint>, b: seq<VantagePoint>, id: VantageID)
    requires UniqueKeys(VantageKey, a) && SameUpTo(AlikeVantage, a, b)
    ensures HostInode(a, id) == HostInode(b, id)
  {
    var m: seq<VantagePoint> :| multiset(m) == multiset(a) && |m| == |b| && Pointwise(AlikeVantage, m, b);
    HostInodePermuted(a, m, id);
    HostInodePointwise(m, b, id);
  }

  // ---------------------------------------------------------------- runs that read alike

  /** What absence and the rule read of an observation. */
  predicate ReadsAlike(o: Observation, p: Observation)
  {
    && o.observationID == p.observationID && o.kind == p.kind && o.vantageID == p.vantageID
    && o.observedAt == p.observedAt && o.payload == p.payload && (o.limitations == [] <==> p.limitations == [])
  }

  ghost predicate HasAlike(s: seq<Observation>, o: Observation) { exists p :: p in s && ReadsAlike(o, p) }

  /** Both lists hold an observation that reads alike wherever the other has one. */
  ghost predicate SameObservations(a: seq<Observation>, b: seq<Observation>)
  {
    && (forall o {:trigger HasAlike(b, o)} :: o in a ==> HasAlike(b, o))
    && (forall p {:trigger HasAlike(a, p)} :: p in b ==> HasAlike(a, p))
  }

  ghost predicate SameById(m: map<ObservationID, Observation>, n: map<ObservationID, Observation>)
  {
    m.Keys == n.Keys && forall id :: id in m ==> ReadsAlike(m[id], n[id])
  }

  /** Every lookup gives the same in both runs. */
  ghost predicate Matches(a: EvidenceRun, b: EvidenceRun)
  {
    && a.coherenceWindow == b.coherenceWindow && a.target == b.target && a.requestedScope == b.requestedScope
    && (forall id :: NamespaceInode(a.entities, id) == NamespaceInode(b.entities, id))
    && (forall id :: HostInode(a.vantages, id) == HostInode(b.vantages, id))
    && (forall x :: x in a.entities <==> x in b.entities)
    && EntitiesById(a.entities) == EntitiesById(b.entities)
    && SameObservations(a.observations, b.observations)
    && SameById(ObservationsById(a.observations), ObservationsById(b.observations))
  }

  lemma MatchesSymmetric(a: EvidenceRun, b: EvidenceRun)
    requires Matches(a, b)
    ensures Matches(b, a)
  {
    assert SameById(ObservationsById(b.observations), ObservationsById(a.observations));
  }

  lemma AlikeReadsAlike(o: Observation, p: Observation)
    requires AlikeObservation(o, p)
    ensures ReadsAlike(o, p)
  {
    SameElements(o.limitations, p.limitations);
  }

  lemma OneObservationPerId(s: seq<Observation>, o: Observation)
    requires UniqueKeys(ObservationKey, s) && o in s
    ensures o.observationID in ObservationsById(s) && ObservationsById(s)[o.observationID] == o
  {
    ObservationsByIdFinds(s);
    var p := ObservationsById(s)[o.observationID];
    var i :| 0 <= i < |s| && s[i] == o;
    var j :| 0 <= j < |s| && s[j] == p;
    assert ObservationKey(s[i]) == ObservationKey(s[j]);
  }

  lemma PointwiseAlike(m: seq<Observation>, b: seq<Observation>)
    requires |m| == |b| && Pointwise(AlikeObservation, m, b)
    ensures SameObservations(m, b)
  {
    forall o | o in m
      ensures HasAlike(b, o)
    {
      var i :| 0 <= i < |m| && m[i] == o;
      AlikeReadsAlike(o, b[i]);
      assert b[i] in b;
    }
    forall p | p in b
      ensures HasAlike(m, p)
    {
      var i :| 0 <= i < |b| && b[i] == p;
      AlikeReadsAlike(m[i], p);
      assert m[i] in m && ReadsAlike(p, m[i]);
    }
  }

  lemma SameElementsSameAlike(a: seq<Observation>, m: seq<Observation>, b: seq<Observation>)
    requires SameObservations(m, b) && forall o :: o in m <==> o in a
    ensures SameObservations(a, b)
  {
    forall o | o in a
      ensures HasAlike(b, o)
    {
      assert o in m && HasAlike(b, o);
    }
    forall p | p in b
      ensures HasAlike(a, p)
    {
      assert HasAlike(m, p);
      var o :| o in m && ReadsAlike(p, o);
      assert o in a;
    }
  }

  lemma ObservationsMatch(a: seq<Observation>, b: seq<Observation>)
    requires UniqueKeys(ObservationKey, a) && SameUpTo(AlikeObservation, a, b)
    ensures SameObservations(a, b) && SameById(ObservationsById(a), ObservationsById(b))
  {
    assert SharesKey(ObservationKey, AlikeObservation);
    UniqueKeysUpTo(ObservationKey, AlikeObservation, a, b);
    var m: seq<Observation> :| multiset(m) == multiset(a) && |m| == |b| && Pointwise(AlikeObservation, m, b);
    SameElements(m, a);
    PointwiseAlike(m, b);
    SameElementsSameAlike(a, m, b);
    ByIdMatch(a, b);
    ByIdMatch(b, a);
  }

  lemma ByIdMatch(a: seq<Observation>, b: seq<Observation>)
    requires UniqueKeys(ObservationKey, b) && forall o {:trigger HasAlike(b, o)} :: o in a ==> HasAlike(b, o)
    ensures forall id :: id in ObservationsById(a) ==>
              id in ObservationsById(b) && ReadsAlike(ObservationsById(a)[id], ObservationsById(b)[id])
  {
    var m, n := ObservationsById(a), ObservationsById(b);
    ObservationsByIdFinds(a);
    forall id | id in m
      ensures id in n && ReadsAlike(m[id], n[id])
    {
      assert HasAlike(b, m[id]);
      var p :| p in b && ReadsAlike(m[id], p);
      OneObservationPerId(b, p);
    }
  }

  lemma {:induction false} EntitiesByIdFinds(s: seq<Entity>)
    ensures forall id :: id in EntitiesById(s) ==> EntitiesById(s)[id] in s && EntitiesById(s)[id].entityID == id
    ensures forall x :: x in s ==> x.entityID in EntitiesById(s)
  {
    if s != [] {
      EntitiesByIdFinds(s[..|s| - 1]);
      assert forall x :: x in s <==> x in s[..|s| - 1] || x == s[|s| - 1];
    }
  }

  lemma EntitiesMatch(a: seq<Entity>, b: seq<Entity>)
    requires UniqueKeys(EntityKey, a) && multiset(a) == multiset(b)
    ensures EntitiesById(a) == EntitiesById(b)
  {
    SameElements(a, b);
    EntitiesByIdFinds(a);
    EntitiesByIdFinds(b);
    var m, n := EntitiesById(a), EntitiesById(b);
    forall id | id in m
      ensures id in n && m[id] == n[id]
    {
      assert m[id] in b;
      var i :| 0 <= i < |a| && a[i] == m[id];
      var j :| 0 <= j < |a| && a[j] == n[id];
      assert EntityKey(a[i]) == EntityKey(a[j]);
    }
    forall id | id in n
      ensures id in m
    {
      assert n[id] in a;
    }
  }

  /** Runs that differ by the order of sets, with one record per ID, read alike. */
  lemma AlikeMatches(a: EvidenceRun, b: EvidenceRun)
    requires UniqueIds(a) && AlikeEvidence(a, b)
    ensures Matches(a, b)
  {
    SameFieldsSame(a, b);
    SameElements(a.entities, b.entities);
    EntitiesMatch(a.entities, b.entities);
    ObservationsMatch(a.observations, b.observations);
    forall id
      ensures NamespaceInode(a.entities, id) == NamespaceInode(b.entities, id)
      ensures HostInode(a.vantages, id) == HostInode(b.vantages, id)
    {
      NamespaceInodeSame(a.entities, b.entities, id);
      HostInodeSame(a.vantages, b.vantages, id);
    }
  }

  // ---------------------------------------------------------------- what a basis carries

  ghost predicate CarriesResult(m: map<ObservationID, Observation>, ids: seq<ObservationID>, x: InventoryResult)
  {
    exists id :: id in ids && id in m && m[id].kind == RESULT && m[id].payload.result == Some(x)
  }

  ghost predicate CarriesEntry(m: map<ObservationID, Observation>, ids: seq<ObservationID>, x: InventoryEntry)
  {
    exists id :: id in ids && id in m && m[id].kind == ENTRY && m[id].payload.entry == Some(x)
  }

  ghost predicate CarriesOwner(m: map<ObservationID, Observation>, ids: seq<ObservationID>, x: OwnershipEntry)
  {
    exists id :: id in ids && id in m && m[id].kind == OWNERSHIP && m[id].payload.ownership == Some(x)
  }

  lemma KindsDiffer()
    ensures RESULT != ENTRY && RESULT != OWNERSHIP && ENTRY != OWNERSHIP
  {
    assert RESULT[0] != OWNERSHIP[0] && RESULT[19] != ENTRY[19];
  }

  lemma {:induction false} CarriedExactly(m: map<ObservationID, Observation>, ids: seq<ObservationID>)
    ensures forall x :: x in Carried(m, ids).results <==> CarriesResult(m, ids, x)
    ensures forall x :: x in Carried(m, ids).entries <==> CarriesEntry(m, ids, x)
    ensures forall x :: x in Carried(m, ids).ownership <==> CarriesOwner(m, ids, x)
  {
    if ids != [] {
      var front, last := ids[..|ids| - 1], ids[|ids| - 1];
      CarriedExactly(m, front);
      KindsDiffer();
      assert ids == front + [last];
      PutExactly(m, front, last);
    }
  }

  lemma PutExactly(m: map<ObservationID, Observation>, front: seq<ObservationID>, last: ObservationID)
    ensures forall x :: CarriesResult(m, front + [last], x) <==>
              CarriesResult(m, front, x) || (last in m && m[last].kind == RESULT && m[last].payload.result == Some(x))
    ensures forall x :: CarriesEntry(m, front + [last], x) <==>
              CarriesEntry(m, front, x) || (last in m && m[last].kind == ENTRY && m[last].payload.entry == Some(x))
    ensures forall x :: CarriesOwner(m, front + [last], x) <==>
              CarriesOwner(m, front, x) || (last in m && m[last].kind == OWNERSHIP && m[last].payload.ownership == Some(x))
  {
    assert forall id :: id in front + [last] <==> id in front || id == last;
  }

  /** Two bases with the same contents, in whatever order and number. */
  ghost predicate SameContents(b: Basis, c: Basis)
  {
    && (forall x :: x in b.results <==> x in c.results)
    && (forall x :: x in b.entries <==> x in c.entries)
    && (forall x :: x in b.ownership <==> x in c.ownership)
  }

  lemma CarriedSame(
    m: map<ObservationID, Observation>, n: map<ObservationID, Observation>, ids: seq<ObservationID>, jds: seq<ObservationID>)
    requires SameById(m, n) && multiset(ids) == multiset(jds)
    ensures SameContents(Carried(m, ids), Carried(n, jds))
  {
    SameElements(ids, jds);
    CarriedExactly(m, ids);
    CarriedExactly(n, jds);
    forall id | id in m
      ensures id in n && m[id].kind == n[id].kind && m[id].payload == n[id].payload
    {
      assert ReadsAlike(m[id], n[id]);
    }
    assert n.Keys == m.Keys;
    assert forall x :: CarriesResult(m, ids, x) <==> CarriesResult(n, jds, x);
    assert forall x :: CarriesEntry(m, ids, x) <==> CarriesEntry(n, jds, x);
    assert forall x :: CarriesOwner(m, ids, x) <==> CarriesOwner(n, jds, x);
  }

  lemma InventorySame(a: EvidenceRun, b: EvidenceRun, s: ListenerScope, x: Basis, y: Basis)
    requires SameContents(x, y) && (forall e :: e in a.entities <==> e in b.entities) && SoundInventory(a, s, x)
    ensures SoundInventory(b, s, y) && y.results[0] == x.results[0]
  {
    assert x.results[0] in x.results;
    assert y.results[0] in y.results;
    assert EntryIds(x.entries) == EntryIds(y.entries) && OwnedIds(x.ownership) == OwnedIds(y.ownership);
    if y.ownership != [] {
      assert y.ownership[0] in x.ownership;
    }
    if s.ownershipRequired && x.results[0].count != 0 {
      forall e | e in y.entries
        ensures Concrete(b.entities, e.listenerEntityID)
      {
        assert Concrete(a.entities, e.listenerEntityID);
        var z :| z in a.entities && IsConcrete(z, e.listenerEntityID);
        assert z in b.entities;
      }
    }
  }

  // ---------------------------------------------------------------- absence

  lemma AdmissibleSame(a: EvidenceRun, b: EvidenceRun, v: VisibilityAssessment, w: VisibilityAssessment, s: ListenerScope,
                       o: Observation, p: Observation)
    requires a.coherenceWindow == b.coherenceWindow && AlikeVisibility(v, w) && ReadsAlike(o, p)
    ensures Admissible(a, v, s, o) == Admissible(b, w, s, p)
    ensures forall port :: Contradicts(a, v, s, port, o) == Contradicts(b, w, s, port, p)
  {
  }

  lemma BasisSame(a: EvidenceRun, b: EvidenceRun, v: VisibilityAssessment, w: VisibilityAssessment, s: ListenerScope)
    requires Matches(a, b) && AlikeVisibility(v, w) && SoundBasis(a, v, s, v.basis)
    ensures SoundBasis(b, w, s, w.basis)
  {
    var m, n := ObservationsById(a.observations), ObservationsById(b.observations);
    SameElements(v.basis, w.basis);
    NoRepeatsPermuted(v.basis, w.basis);
    forall id | id in w.basis
      ensures id in n && Admissible(b, w, s, n[id])
    {
      assert id in v.basis && id in m && ReadsAlike(m[id], n[id]);
      AdmissibleSame(a, b, v, w, s, m[id], n[id]);
    }
  }

  lemma AlikeVisibilitySymmetric(v: VisibilityAssessment, w: VisibilityAssessment)
    requires AlikeVisibility(v, w)
    ensures AlikeVisibility(w, v)
    ensures v.basis == [] <==> w.basis == []
    ensures v.limitations == [] <==> w.limitations == []
  {
    SameElements(v.basis, w.basis);
    SameElements(v.limitations, w.limitations);
  }

  lemma AbsenceCarries(a: EvidenceRun, b: EvidenceRun, v: VisibilityAssessment, w: VisibilityAssessment, port: nat)
    requires Matches(a, b) && AlikeVisibility(v, w) && AbsenceValid(a, v, port)
    ensures AbsenceValid(b, w, port)
  {
    var s := v.scope.listener.value;
    AlikeVisibilitySymmetric(v, w);
    BasisSame(a, b, v, w, s);
    CarriedSame(ObservationsById(a.observations), ObservationsById(b.observations), v.basis, w.basis);
    InventorySame(
      a, b, s, Carried(ObservationsById(a.observations), v.basis), Carried(ObservationsById(b.observations), w.basis));
    assert ClaimsComplete(b, w) by {
      assert NamespaceMatches(b, s.namespaceEntityID, w.vantageID);
    }
    forall p | p in b.observations
      ensures !Contradicts(b, w, s, port, p)
    {
      assert HasAlike(a.observations, p);
      var o :| o in a.observations && ReadsAlike(p, o);
      AdmissibleSame(a, b, v, w, s, o, p);
    }
  }

  /** Absence holds in a run exactly when it holds in every reordering of the run, for the reordered assessment. */
  lemma AbsenceIgnoresOrder(a: EvidenceRun, b: EvidenceRun, v: VisibilityAssessment, w: VisibilityAssessment, port: nat)
    requires UniqueIds(a) && AlikeEvidence(a, b) && AlikeVisibility(v, w)
    ensures AbsenceValid(a, v, port) <==> AbsenceValid(b, w, port)
  {
    AlikeMatches(a, b);
    if AbsenceValid(a, v, port) {
      AbsenceCarries(a, b, v, w, port);
    }
    if AbsenceValid(b, w, port) {
      MatchesSymmetric(a, b);
      AlikeVisibilitySymmetric(v, w);
      AbsenceCarries(b, a, w, v, port);
    }
  }

  // ---------------------------------------------------------------- the rule

  lemma DestinationsSame(a: EvidenceRun, b: EvidenceRun, host: Option<Address>, family: string)
    requires Matches(a, b)
    ensures forall x :: IsDestination(a, host, family, x) == IsDestination(b, host, family, x)
    ensures Applies(a, host, family) == Applies(b, host, family)
  {
    assert forall x :: IsTargetEndpoint(a, x) == IsTargetEndpoint(b, x);
  }

  lemma CoversSame(a: EvidenceRun, b: EvidenceRun, s: ListenerScope, o: Observation, p: Observation, x: Address)
    requires EntitiesById(a.entities) == EntitiesById(b.entities) && ReadsAlike(o, p)
    ensures ListenerRule.Covers(a, s, o, x) == ListenerRule.Covers(b, s, p, x)
  {
  }

  lemma CompatibleCarries(a: EvidenceRun, b: EvidenceRun, host: Option<Address>, s: ListenerScope)
    requires Matches(a, b) && Compatible(a, host, s)
    ensures Compatible(b, host, s)
  {
    DestinationsSame(a, b, host, s.family);
    var o, x :| o in a.observations && IsDestination(a, host, s.family, x) && ListenerRule.Covers(a, s, o, x);
    assert HasAlike(b.observations, o);
    var p :| p in b.observations && ReadsAlike(o, p);
    CoversSame(a, b, s, o, p, x);
  }

  /** The rule concludes from an assessment exactly when it does in every reordering of the run. */
  lemma ConclusionIgnoresOrder(
    a: EvidenceRun, b: EvidenceRun, host: Option<Address>, v: VisibilityAssessment, w: VisibilityAssessment)
    requires UniqueIds(a) && AlikeEvidence(a, b) && AlikeVisibility(v, w)
    ensures Concludes(a, host, v) <==> Concludes(b, host, w)
    ensures v.scope.listener.Some? ==>
              var s := v.scope.listener.value;
              Applies(a, host, s.family) == Applies(b, host, s.family) && Compatible(a, host, s) == Compatible(b, host, s)
  {
    AlikeMatches(a, b);
    MatchesSymmetric(a, b);
    AbsenceIgnoresOrder(a, b, v, w, a.target.effectivePort);
    if v.scope.listener.Some? {
      var s := v.scope.listener.value;
      DestinationsSame(a, b, host, s.family);
      if Compatible(a, host, s) {
        CompatibleCarries(a, b, host, s);
      }
      if Compatible(b, host, s) {
        CompatibleCarries(b, a, host, s);
      }
    }
  }
}
