/** The records addLocalEvidence adds have IDs of their own, and share none with a run whose IDs are not local. */
module LocalUnique {
  import opened Text
  import opened Model
  import opened Sorting
  import opened Canonical
  import opened LocalDiagnosis
  import opened LocalAbsence
  import opened AlikeAbsence

  const LOCAL_ENTITY := "entity-local-"
  const LOCAL_OBSERVATION := "observation-local-"
  const LOCAL_VISIBILITY := "visibility-local-"

  /** No ID of the run lies among those the local diagnosis gives out. */
  ghost predicate NoLocalIds(e: EvidenceRun)
  {
    && (forall v :: v in e.vantages ==> v.vantageID != VANTAGE)
    && (forall x :: x in e.entities ==> !HasPrefix(x.entityID, LOCAL_ENTITY))
    && (forall o :: o in e.observations ==> !HasPrefix(o.observationID, LOCAL_OBSERVATION))
    && (forall v :: v in e.visibility ==> !HasPrefix(v.visibilityID, LOCAL_VISIBILITY))
  }

  lemma UniqueKeysJoined<T(!new)>(key: T -> string, a: seq<T>, b: seq<T>)
    requires UniqueKeys(key, a) && UniqueKeys(key, b) && forall x, y :: x in a && y in b ==> key(x) != key(y)
    ensures UniqueKeys(key, a + b)
  {
    var s := a + b;
    forall i, j | 0 <= i < j < |s|
      ensures key(s[i]) != key(s[j])
    {
      if i < |a| <= j {
        assert s[i] in a && b[j - |a|] in b;
      }
    }
  }

  // ---------------------------------------------------------------- shapes of local IDs

  lemma Tagged(prefix: string, tag: string, rest: string)
    ensures HasPrefix(prefix + tag + rest, prefix) && (prefix + tag + rest)[|prefix|..] == tag + rest
  {
    assert prefix + tag + rest == prefix + (tag + rest);
  }

  lemma ListenerIdShape(n: nat)
    ensures HasPrefix(ListenerIdAt(n), LOCAL_ENTITY) && ListenerIdAt(n)[|LOCAL_ENTITY|..] == "listener-" + Three(n)
  {
    Tagged(LOCAL_ENTITY, "listener-", Three(n));
    assert ListenerIdAt(n) == LOCAL_ENTITY + "listener-" + Three(n);
  }

  lemma ProcessIdShape(pid: nat)
    ensures HasPrefix(ProcessId(pid), LOCAL_ENTITY) && ProcessId(pid)[|LOCAL_ENTITY|..] == "process-" + Itoa(pid)
  {
    Tagged(LOCAL_ENTITY, "process-", Itoa(pid));
    assert ProcessId(pid) == LOCAL_ENTITY + "process-" + Itoa(pid);
  }

  lemma NamespaceShape()
    ensures HasPrefix(NAMESPACE, LOCAL_ENTITY) && NAMESPACE[|LOCAL_ENTITY|..] == "network-" + "namespace"
  {
    Tagged(LOCAL_ENTITY, "network-", "namespace");
    assert NAMESPACE == LOCAL_ENTITY + "network-" + "namespace";
  }

  lemma SameNumber(tag: string, m: nat, n: nat)
    ensures tag + Three(m) == tag + Three(n) ==> m == n
  {
    if tag + Three(m) == tag + Three(n) {
      assert (tag + Three(m))[|tag|..] == Three(m) && (tag + Three(n))[|tag|..] == Three(n);
      NumberOfThree(m);
      NumberOfThree(n);
    }
  }

  lemma ListenerIdsDiffer(m: nat, n: nat)
    ensures ListenerIdAt(m) == ListenerIdAt(n) ==> m == n
  {
    ListenerIdShape(m);
    ListenerIdShape(n);
    SameNumber("listener-", m, n);
  }

  lemma ProcessIdsDiffer(p: nat, q: nat)
    ensures ProcessId(p) == ProcessId(q) ==> p == q
  {
    if ProcessId(p) == ProcessId(q) {
      ProcessIdShape(p);
      ProcessIdShape(q);
      assert ("process-" + Itoa(p))[|"process-"|..] == Itoa(p) && ("process-" + Itoa(q))[|"process-"|..] == Itoa(q);
      ItoaInjective(p, q);
    }
  }

  lemma EntityKindsDiffer(n: nat, pid: nat)
    ensures ListenerIdAt(n) != ProcessId(pid) && ListenerIdAt(n) != NAMESPACE && ProcessId(pid) != NAMESPACE
  {
    ListenerIdShape(n);
    ProcessIdShape(pid);
    NamespaceShape();
    assert ("listener-" + Three(n))[0] == 'l' && ("process-" + Itoa(pid))[0] == 'p' && ("network-" + "namespace")[0] == 'n';
  }

  // ---------------------------------------------------------------- entities

  /** What is registered after n listeners: the listeners' own entities and those of the known processes. */
  ghost predicate IsRegistered(x: Entity, n: nat, processes: set<nat>)
  {
    || (exists i: nat :: 1 <= i <= n && x.entityID == ListenerIdAt(i))
    || (exists pid: nat :: pid in processes && x.entityID == ProcessId(pid))
  }

  ghost predicate RegisteredOnce(s: seq<Entity>, n: nat, processes: set<nat>)
  {
    UniqueKeys(EntityKey, s) && forall x :: x in s ==> IsRegistered(x, n, processes)
  }

  lemma AddListener(s: seq<Entity>, n: nat, processes: set<nat>, x: Entity)
    requires RegisteredOnce(s, n, processes) && x.entityID == ListenerIdAt(n + 1)
    ensures RegisteredOnce(s + [x], n + 1, processes)
  {
    forall y | y in s
      ensures y.entityID != x.entityID && IsRegistered(y, n + 1, processes)
    {
      if i: nat :| 1 <= i <= n && y.entityID == ListenerIdAt(i) {
        ListenerIdsDiffer(i, n + 1);
      } else {
        var pid: nat :| pid in processes && y.entityID == ProcessId(pid);
        EntityKindsDiffer(n + 1, pid);
      }
    }
    UniqueKeysJoined(EntityKey, s, [x]);
  }

  lemma AddProcess(s: seq<Entity>, n: nat, processes: set<nat>, x: Entity, pid: nat)
    requires RegisteredOnce(s, n, processes) && x.entityID == ProcessId(pid) && pid !in processes
    ensures RegisteredOnce(s + [x], n, processes + {pid})
  {
    forall y | y in s
      ensures y.entityID != x.entityID && IsRegistered(y, n, processes + {pid})
    {
      if i: nat :| 1 <= i <= n && y.entityID == ListenerIdAt(i) {
        EntityKindsDiffer(i, pid);
      } else {
        var q: nat :| q in processes && y.entityID == ProcessId(q);
        ProcessIdsDiffer(pid, q);
        assert q in processes + {pid};
      }
    }
    UniqueKeysJoined(EntityKey, s, [x]);
    assert IsRegistered(x, n, processes + {pid});
  }

  lemma {:induction false} RegisterIsUnique(inv: Inventory, n: nat)
    requires n <= |inv.listeners|
    ensures RegisteredOnce(Register(inv, n).entities, n, Register(inv, n).processIDs.Keys)
  {
    if n > 0 {
      RegisterIsUnique(inv, n - 1);
      var r, l := Register(inv, n - 1), inv.listeners[n - 1];
      AddListener(r.entities, n - 1, r.processIDs.Keys, ListenerEntity(l, ListenerIdAt(n)));
      if l.inode in inv.attribution.owners && inv.attribution.owners[l.inode] !in r.processIDs {
        var pid := inv.attribution.owners[l.inode];
        AddProcess(r.entities + [ListenerEntity(l, ListenerIdAt(n))], n, r.processIDs.Keys, ProcessEntity(pid), pid);
        assert r.processIDs[pid := ProcessId(pid)].Keys == r.processIDs.Keys + {pid};
      }
    }
  }

  lemma LocalEntitiesUnique(inv: Inventory)
    ensures var s := [NamespaceEntity(inv)] + Register(inv, |inv.listeners|).entities;
            UniqueKeys(EntityKey, s) && forall x :: x in s ==> HasPrefix(x.entityID, LOCAL_ENTITY)
  {
    var r := Register(inv, |inv.listeners|);
    RegisterIsUnique(inv, |inv.listeners|);
    NamespaceShape();
    forall x | x in r.entities
      ensures x.entityID != NAMESPACE && HasPrefix(x.entityID, LOCAL_ENTITY)
    {
      assert IsRegistered(x, |inv.listeners|, r.processIDs.Keys);
      if i: nat :| 1 <= i <= |inv.listeners| && x.entityID == ListenerIdAt(i) {
        ListenerIdShape(i);
        EntityKindsDiffer(i, 0);
      } else {
        var pid: nat :| pid in r.processIDs.Keys && x.entityID == ProcessId(pid);
        ProcessIdShape(pid);
        EntityKindsDiffer(0, pid);
      }
    }
    UniqueKeysJoined(EntityKey, [NamespaceEntity(inv)], r.entities);
  }

  // ---------------------------------------------------------------- observations

  lemma EntryIdShape(n: nat)
    ensures HasPrefix(EntryIdAt(n), LOCAL_OBSERVATION) && EntryIdAt(n)[|LOCAL_OBSERVATION|..] == "listener-" + Three(n)
  {
    Tagged(LOCAL_OBSERVATION, "listener-", Three(n));
    assert EntryIdAt(n) == LOCAL_OBSERVATION + "listener-" + Three(n);
  }

  lemma OwnerIdShape(n: nat)
    ensures HasPrefix(OwnerIdAt(n), LOCAL_OBSERVATION) && OwnerIdAt(n)[|LOCAL_OBSERVATION|..] == "owner-" + Three(n)
  {
    Tagged(LOCAL_OBSERVATION, "owner-", Three(n));
    assert OwnerIdAt(n) == LOCAL_OBSERVATION + "owner-" + Three(n);
  }

  lemma ResultIdShape(f: string, b: string, n: nat)
    ensures HasPrefix(ResultIdAt(f, b, n), LOCAL_OBSERVATION)
    ensures |ResultIdAt(f, b, n)| > |LOCAL_OBSERVATION| && ResultIdAt(f, b, n)[|LOCAL_OBSERVATION|] == 'r'
  {
    var rest := FamilyToken(f) + "-" + BindingToken(b) + "-" + Three(n);
    Tagged(LOCAL_OBSERVATION, "result-", rest);
    assert ResultIdAt(f, b, n) == LOCAL_OBSERVATION + "result-" + rest;
    assert (LOCAL_OBSERVATION + "result-" + rest)[|LOCAL_OBSERVATION|] == 'r';
  }

  lemma EntryIsNotOwner(m: nat, n: nat)
    ensures EntryIdAt(m) != OwnerIdAt(n)
  {
    EntryIdShape(m);
    OwnerIdShape(n);
    assert ("listener-" + Three(m))[0] == 'l' && ("owner-" + Three(n))[0] == 'o';
  }

  lemma ObservationNumbersDiffer(m: nat, n: nat)
    ensures EntryIdAt(m) == EntryIdAt(n) ==> m == n
    ensures OwnerIdAt(m) == OwnerIdAt(n) ==> m == n
  {
    EntryIdShape(m);
    EntryIdShape(n);
    OwnerIdShape(m);
    OwnerIdShape(n);
    SameNumber("listener-", m, n);
    SameNumber("owner-", m, n);
  }

  ghost predicate IsListed(o: Observation, n: nat)
  {
    exists i: nat :: 1 <= i <= n && (o.observationID == EntryIdAt(i) || o.observationID == OwnerIdAt(i))
  }

  lemma ListedIsEarlier(o: Observation, n: nat)
    requires IsListed(o, n)
    ensures o.observationID != EntryIdAt(n + 1) && o.observationID != OwnerIdAt(n + 1) && IsListed(o, n + 1)
  {
    var i: nat :| 1 <= i <= n && (o.observationID == EntryIdAt(i) || o.observationID == OwnerIdAt(i));
    ObservationNumbersDiffer(i, n + 1);
    EntryIsNotOwner(i, n + 1);
    EntryIsNotOwner(n + 1, i);
  }

  lemma {:induction false} ListedUnique(inv: Inventory, r: Registered, now: int, n: nat)
    requires n <= |inv.listeners|
    ensures UniqueKeys(ObservationKey, ListenerObservations(inv, r, now, n))
    ensures forall o :: o in ListenerObservations(inv, r, now, n) ==> IsListed(o, n)
  {
    if n > 0 {
      ListedUnique(inv, r, now, n - 1);
      var l, before := inv.listeners[n - 1], ListenerObservations(inv, r, now, n - 1);
      var two := [EntryObservation(l, IdOf(r, l), now, n), OwnerObservation(IdOf(r, l), OwnerOf(inv, r, l), now, n)];
      EntryIsNotOwner(n, n);
      forall o | o in before
        ensures o.observationID != EntryIdAt(n) && o.observationID != OwnerIdAt(n) && IsListed(o, n)
      {
        ListedIsEarlier(o, n - 1);
      }
      UniqueKeysJoined(ObservationKey, before, two);
      assert IsListed(two[0], n) && IsListed(two[1], n);
    }
  }

  lemma ListedIsLocal(o: Observation, n: nat, f: string, b: string, m: nat)
    requires IsListed(o, n)
    ensures HasPrefix(o.observationID, LOCAL_OBSERVATION) && o.observationID != ResultIdAt(f, b, m)
  {
    var i: nat :| 1 <= i <= n && (o.observationID == EntryIdAt(i) || o.observationID == OwnerIdAt(i));
    EntryIdShape(i);
    OwnerIdShape(i);
    ResultIdShape(f, b, m);
    assert ("listener-" + Three(i))[0] == 'l' && ("owner-" + Three(i))[0] == 'o';
    assert EntryIdAt(i)[|LOCAL_OBSERVATION|] == EntryIdAt(i)[|LOCAL_OBSERVATION|..][0];
    assert OwnerIdAt(i)[|LOCAL_OBSERVATION|] == OwnerIdAt(i)[|LOCAL_OBSERVATION|..][0];
  }

  ghost predicate IsResultId(id: ObservationID, n: nat) { exists f, b :: id == ResultIdAt(f, b, n) }

  lemma ResultNumbersDiffer(x: ObservationID, m: nat, y: ObservationID, n: nat)
    requires IsResultId(x, m) && IsResultId(y, n) && m != n
    ensures x != y
  {
    var f, b :| x == ResultIdAt(f, b, m);
    var g, c :| y == ResultIdAt(g, c, n);
    ResultIdsDiffer(f, b, m, g, c, n);
  }

  lemma ResultHasNumber(inv: Inventory, now: int, o: Observation, n: nat)
    requires FromBucket(inv, now, o, n)
    ensures IsResultId(o.observationID, n)
  {
    var k :| 0 <= k < 6 && o == ResultObservation(inv, now, k, n);
    assert o.observationID == ResultIdAt(FamilyAt(k), BindingAt(k), n);
  }

  lemma NumberedUnique(inv: Inventory, now: int, s: seq<Observation>)
    requires |s| <= 6 && Numbered(inv, now, s)
    ensures UniqueKeys(ObservationKey, s) && forall o :: o in s ==> exists n: nat :: IsResultId(o.observationID, n)
  {
    forall i | 0 <= i < |s|
      ensures IsResultId(s[i].observationID, i + 1)
    {
      assert IsResult(inv, now, s[i], i + 1);
      ResultHasNumber(inv, now, s[i], i + 1);
    }
    forall i, j | 0 <= i < j < |s|
      ensures s[i].observationID != s[j].observationID
    {
      ResultNumbersDiffer(s[i].observationID, i + 1, s[j].observationID, j + 1);
    }
  }

  lemma ResultsUnique(inv: Inventory, now: int)
    ensures var s := FillBuckets(inv, now, 6).observations;
            UniqueKeys(ObservationKey, s) && forall o :: o in s ==> exists n: nat :: IsResultId(o.observationID, n)
  {
    ResultsAreNumbered(inv, now, 6);
    NumberedUnique(inv, now, FillBuckets(inv, now, 6).observations);
  }

  lemma LocalObservationsUnique(e: EvidenceRun, inv: Inventory)
    ensures var s := Listed(e, inv) + Filled(e, inv).observations;
            UniqueKeys(ObservationKey, s) && forall o :: o in s ==> HasPrefix(o.observationID, LOCAL_OBSERVATION)
  {
    var a, b := Listed(e, inv), Filled(e, inv).observations;
    ListedUnique(inv, Register(inv, |inv.listeners|), Now(e), |inv.listeners|);
    ResultsUnique(inv, Now(e));
    forall o, p | o in a && p in b
      ensures o.observationID != p.observationID
    {
      var n: nat :| IsResultId(p.observationID, n);
      var f, g :| p.observationID == ResultIdAt(f, g, n);
      ListedIsLocal(o, |inv.listeners|, f, g, n);
    }
    UniqueKeysJoined(ObservationKey, a, b);
    forall o | o in a
      ensures HasPrefix(o.observationID, LOCAL_OBSERVATION)
    {
      ListedIsLocal(o, |inv.listeners|, "", "", 0);
    }
    forall p | p in b
      ensures HasPrefix(p.observationID, LOCAL_OBSERVATION)
    {
      var n: nat :| IsResultId(p.observationID, n);
      var f, g :| p.observationID == ResultIdAt(f, g, n);
      ResultIdShape(f, g, n);
    }
  }

  // ---------------------------------------------------------------- assessments

  lemma VisibilityIdsDiffer(f: string, b: string, m: nat, g: string, c: string, n: nat)
    ensures VisibilityIdAt(f, b, m) == VisibilityIdAt(g, c, n) ==> m == n
  {
    var p := LOCAL_VISIBILITY + FamilyToken(f) + "-" + BindingToken(b);
    var q := LOCAL_VISIBILITY + FamilyToken(g) + "-" + BindingToken(c);
    assert VisibilityIdAt(f, b, m) == p + "-" + Three(m) && VisibilityIdAt(g, c, n) == q + "-" + Three(n);
    if p + "-" + Three(m) == q + "-" + Three(n) {
      NumberEndsId(p, m, q, n);
    }
  }

  lemma VisibilityIdShape(f: string, b: string, n: nat)
    ensures HasPrefix(VisibilityIdAt(f, b, n), LOCAL_VISIBILITY)
  {
    var rest := "-" + BindingToken(b) + "-" + Three(n);
    Tagged(LOCAL_VISIBILITY, FamilyToken(f), rest);
    assert VisibilityIdAt(f, b, n) == LOCAL_VISIBILITY + FamilyToken(f) + rest;
  }

  lemma AssessmentIdOf(inv: Inventory, now: int, b: Buckets, k: nat)
    requires k < 6 && k < |b.visibility| && AssessedBy(inv, now, b, k)
    ensures b.visibility[k].visibilityID == VisibilityIdAt(FamilyAt(k), BindingAt(k), k + 1)
  {
  }

  lemma AssessmentId(inv: Inventory, now: int, k: nat)
    requires k < 6
    ensures FillBuckets(inv, now, 6).visibility[k].visibilityID == VisibilityIdAt(FamilyAt(k), BindingAt(k), k + 1)
    ensures HasPrefix(FillBuckets(inv, now, 6).visibility[k].visibilityID, LOCAL_VISIBILITY)
  {
    BucketsAreAssessed(inv, now, 6, k);
    AssessmentIdOf(inv, now, FillBuckets(inv, now, 6), k);
    VisibilityIdShape(FamilyAt(k), BindingAt(k), k + 1);
  }

  lemma AssessmentsUnique(inv: Inventory, now: int)
    ensures var s := FillBuckets(inv, now, 6).visibility;
            UniqueKeys(VisibilityKey, s) && forall v :: v in s ==> HasPrefix(v.visibilityID, LOCAL_VISIBILITY)
  {
    var s := FillBuckets(inv, now, 6).visibility;
    forall i, j | 0 <= i < j < |s|
      ensures s[i].visibilityID != s[j].visibilityID
    {
      AssessmentId(inv, now, i);
      AssessmentId(inv, now, j);
      VisibilityIdsDiffer(FamilyAt(i), BindingAt(i), i + 1, FamilyAt(j), BindingAt(j), j + 1);
    }
    forall i | 0 <= i < |s|
      ensures HasPrefix(s[i].visibilityID, LOCAL_VISIBILITY)
    {
      AssessmentId(inv, now, i);
    }
  }

  // ---------------------------------------------------------------- the whole run

  /** Keys with a prefix join keys without it. */
  lemma PrefixedJoin<T(!new)>(key: T -> string, a: seq<T>, b: seq<T>, prefix: string)
    requires UniqueKeys(key, a) && UniqueKeys(key, b)
    requires (forall x :: x in a ==> !HasPrefix(key(x), prefix)) && forall y :: y in b ==> HasPrefix(key(y), prefix)
    ensures UniqueKeys(key, a + b)
  {
    UniqueKeysJoined(key, a, b);
  }

  lemma EntitiesStayUnique(e: EvidenceRun, inv: Inventory, more: seq<Entity>)
    requires UniqueKeys(EntityKey, e.entities) && NoLocalIds(e)
    requires more == [NamespaceEntity(inv)] + Register(inv, |inv.listeners|).entities
    ensures UniqueKeys(EntityKey, e.entities + more)
  {
    LocalEntitiesUnique(inv);
    PrefixedJoin(EntityKey, e.entities, more, LOCAL_ENTITY);
  }

  lemma ObservationsStayUnique(e: EvidenceRun, inv: Inventory, more: seq<Observation>)
    requires UniqueKeys(ObservationKey, e.observations) && NoLocalIds(e)
    requires more == Listed(e, inv) + Filled(e, inv).observations
    ensures UniqueKeys(ObservationKey, e.observations + more)
  {
    LocalObservationsUnique(e, inv);
    PrefixedJoin(ObservationKey, e.observations, more, LOCAL_OBSERVATION);
  }

  lemma OthersStayUnique(e: EvidenceRun, inv: Inventory)
    requires UniqueKeys(VantageKey, e.vantages) && UniqueKeys(VisibilityKey, e.visibility) && NoLocalIds(e)
    ensures UniqueKeys(VantageKey, e.vantages + [LocalVantage(inv)])
    ensures UniqueKeys(VisibilityKey, e.visibility + Filled(e, inv).visibility)
  {
    UniqueKeysJoined(VantageKey, e.vantages, [LocalVantage(inv)]);
    AssessmentsUnique(inv, Now(e));
    PrefixedJoin(VisibilityKey, e.visibility, Filled(e, inv).visibility, LOCAL_VISIBILITY);
  }

  lemma Regroup<T>(a: seq<T>, b: seq<T>, c: seq<T>)
    ensures a + b + c == a + (b + c)
  {
  }

  lemma LocalParts(e: EvidenceRun, inv: Inventory, out: EvidenceRun)
    requires Holds(e, inv, out)
    ensures out.entities == e.entities + ([NamespaceEntity(inv)] + Register(inv, |inv.listeners|).entities)
    ensures out.observations == e.observations + (Listed(e, inv) + Filled(e, inv).observations)
    ensures out.vantages == e.vantages + [LocalVantage(inv)]
    ensures out.visibility == e.visibility + Filled(e, inv).visibility
  {
    Regroup(e.entities, [NamespaceEntity(inv)], Register(inv, |inv.listeners|).entities);
    Regroup(e.observations, Listed(e, inv), Filled(e, inv).observations);
  }

  /** A run with one record per ID, and none of the local IDs, has one record per ID after addLocalEvidence too. */
  lemma LocalEvidenceIsUnique(e: EvidenceRun, inv: Inventory)
    requires UniqueIds(e) && NoLocalIds(e)
    ensures UniqueIds(LocalEvidence(e, inv))
  {
    var entities := [NamespaceEntity(inv)] + Register(inv, |inv.listeners|).entities;
    var observations := Listed(e, inv) + Filled(e, inv).observations;
    LocalEvidenceHolds(e, inv);
    EntitiesStayUnique(e, inv, entities);
    ObservationsStayUnique(e, inv, observations);
    OthersStayUnique(e, inv);
    LocalParts(e, inv, LocalEvidence(e, inv));
  }
}
