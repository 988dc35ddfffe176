/**
 * CanonicalizeEvidence and CanonicalizeEvaluated of internal/model/canonicalize.go: the canonical form of
 * a run as a function, its laws, and the sorting loops that compute it.
 */
module Canonical {
  import opened Text
  import opened Model
  import opened Ids
  import opened Sorting
  import opened Branches
  import CanonicalBranches
  import MissingEvidences

  // ---------------------------------------------------------------- collections of records

  /** The comparison of records by a string key. */
  function ByKey<T>(key: T -> string): (T, T) -> bool { (a: T, b: T) => Less(key(a), key(b)) }

  ghost predicate UniqueKeys<T(!new)>(key: T -> string, s: seq<T>)
  {
    forall i, j :: 0 <= i < j < |s| ==> key(s[i]) != key(s[j])
  }

  lemma KeysTotal<T(!new)>(key: T -> string, s: seq<T>)
    requires UniqueKeys(key, s)
    ensures Total(ByKey(key), s)
  {
    var less := ByKey(key);
    forall x | x in s
      ensures !less(x, x)
    {
      LessIrreflexive(key(x));
    }
    forall x, y, z | less(x, y) && less(y, z)
      ensures less(x, z)
    {
      LessTransitive(key(x), key(y), key(z));
    }
    forall x, y | x in s && y in s && x != y
      ensures less(x, y) || less(y, x)
    {
      LessTrichotomy(key(x), key(y));
    }
  }

  /** Records sorted, each in its own canonical form. */
  function Canon<T>(less: (T, T) -> bool, norm: T -> T, s: seq<T>): seq<T> { MapSeq(norm, StableSort(less, s)) }

  /** A permutation of `a` is, record for record, alike to `b`. */
  ghost predicate SameUpTo<T(!new)>(alike: (T, T) -> bool, a: seq<T>, b: seq<T>)
  {
    exists m: seq<T> :: multiset(m) == multiset(a) && |m| == |b| && Pointwise(alike, m, b)
  }

  ghost predicate Pointwise<T(!new)>(alike: (T, T) -> bool, m: seq<T>, b: seq<T>)
    requires |m| == |b|
  {
    forall i :: 0 <= i < |b| ==> alike(m[i], b[i])
  }

  /** Alike records have one normal form. */
  ghost predicate Settles<T(!new)>(norm: T -> T, alike: (T, T) -> bool, s: seq<T>)
  {
    forall x, y :: x in s && alike(x, y) ==> norm(x) == norm(y)
  }

  lemma CanonIgnoresOrder<T(!new)>(less: (T, T) -> bool, norm: T -> T, alike: (T, T) -> bool, a: seq<T>, b: seq<T>)
    requires Total(less, a) && Unseen(less, norm) && Settles(norm, alike, a) && SameUpTo(alike, a, b)
    ensures Canon(less, norm, a) == Canon(less, norm, b)
  {
    var m: seq<T> :| multiset(m) == multiset(a) && |m| == |b| && Pointwise(alike, m, b);
    SameElements(a, m);
    assert MapSeq(norm, m) == MapSeq(norm, b) by {
      forall i | 0 <= i < |b|
        ensures norm(m[i]) == norm(b[i])
      {
        assert m[i] in a && alike(m[i], b[i]);
      }
    }
    SortMaps(less, norm, m);
    SortMaps(less, norm, b);
    SortOfPermutation(less, a, m);
  }

  /** The normal form leaves the key alone. */
  ghost predicate KeepsKey<T(!new)>(key: T -> string, norm: T -> T)
  {
    forall x :: key(norm(x)) == key(x)
  }

  lemma KeyedCanonIgnoresOrder<T(!new)>(key: T -> string, norm: T -> T, alike: (T, T) -> bool, a: seq<T>, b: seq<T>)
    requires UniqueKeys(key, a) && KeepsKey(key, norm) && Settles(norm, alike, a) && SameUpTo(alike, a, b)
    ensures Canon(ByKey(key), norm, a) == Canon(ByKey(key), norm, b)
  {
    KeysTotal(key, a);
    CanonIgnoresOrder(ByKey(key), norm, alike, a, b);
  }

  /** A collection differs from its canonical form by order alone. */
  lemma CanonIsAlike<T(!new)>(less: (T, T) -> bool, norm: T -> T, alike: (T, T) -> bool, s: seq<T>)
    requires forall x :: alike(x, norm(x))
    ensures SameUpTo(alike, s, Canon(less, norm, s))
  {
    StableSortPermutes(less, s);
    assert Pointwise(alike, StableSort(less, s), Canon(less, norm, s));
  }

  // ---------------------------------------------------------------- inner lists

  function LimitationKey(l: Limitation): string { l.limitationID }

  function SortLimitations(s: seq<Limitation>): seq<Limitation> { StableSort(ByKey(LimitationKey), s) }

  ghost predicate WellLimited(s: seq<Limitation>) { UniqueKeys(LimitationKey, s) }

  function KindOrder(k: EvidenceKind): nat
  {
    match k
    case ObservationEvidence => 0
    case ClaimEvidence => 1
    case VisibilityEvidence => 2
    case AssertionEvidence => 3
    case OtherEvidence(_) => 99
  }

  function RefId(r: EvidenceRef): string
  {
    if r.observationID.Some? then r.observationID.value
    else if r.claimID.Some? then r.claimID.value
    else if r.visibilityID.Some? then r.visibilityID.value
    else if r.assertionID.Some? then r.assertionID.value
    else ""
  }

  predicate RefLess(a: EvidenceRef, b: EvidenceRef)
  {
    if KindOrder(a.kind) != KindOrder(b.kind) then KindOrder(a.kind) < KindOrder(b.kind) else Less(RefId(a), RefId(b))
  }

  /** A known kind and the ID of that kind alone. */
  predicate WellReferred(r: EvidenceRef)
  {
    match r.kind
    case ObservationEvidence => r.observationID.Some? && r.claimID.None? && r.visibilityID.None? && r.assertionID.None?
    case ClaimEvidence => r.observationID.None? && r.claimID.Some? && r.visibilityID.None? && r.assertionID.None?
    case VisibilityEvidence => r.observationID.None? && r.claimID.None? && r.visibilityID.Some? && r.assertionID.None?
    case AssertionEvidence => r.observationID.None? && r.claimID.None? && r.visibilityID.None? && r.assertionID.Some?
    case OtherEvidence(_) => false
  }

  ghost predicate WellReferredAll(s: seq<EvidenceRef>) { forall r :: r in s ==> WellReferred(r) }

  lemma RefsTotal(s: seq<EvidenceRef>)
    requires WellReferredAll(s)
    ensures Total(RefLess, s)
  {
    forall x | x in s
      ensures !RefLess(x, x)
    {
      LessIrreflexive(RefId(x));
    }
    forall x, y, z | RefLess(x, y) && RefLess(y, z)
      ensures RefLess(x, z)
    {
      if KindOrder(x.kind) == KindOrder(y.kind) == KindOrder(z.kind) {
        LessTransitive(RefId(x), RefId(y), RefId(z));
      }
    }
    forall x, y | x in s && y in s && x != y
      ensures RefLess(x, y) || RefLess(y, x)
    {
      assert WellReferred(x) && WellReferred(y);
      LessTrichotomy(RefId(x), RefId(y));
    }
  }

  // ---------------------------------------------------------------- evidence records

  function VantageKey(v: VantagePoint): string { v.vantageID }
  function CapabilityKey(c: Capability): string { c.capabilityID }
  function AssertionKey(a: Assertion): string { a.assertionID }
  function EntityKey(e: Entity): string { e.entityID }
  function EdgeKey(e: PathEdge): string { e.edgeID }
  function DefinitionKey(d: CheckDefinition): string { d.checkID }
  function ExecutionKey(e: CheckExecution): string { e.executionID }
  function ObservationKey(o: Observation): string { o.observationID }
  function VisibilityKey(v: VisibilityAssessment): string { v.visibilityID }

  function NormVantage(v: VantagePoint): VantagePoint { v.(limitations := SortLimitations(v.limitations)) }

  function NormEdge(e: PathEdge): PathEdge { e.(refs := StableSort(RefLess, e.refs)) }

  function NormDefinition(d: CheckDefinition): CheckDefinition
  {
    d.(dependencies := StableSort(Less, d.dependencies), capabilities := StableSort(Less, d.capabilities))
  }

  function NormExecution(e: CheckExecution): CheckExecution
  {
    e.(observationIDs := StableSort(Less, e.observationIDs), visibilityIDs := StableSort(Less, e.visibilityIDs))
  }

  function NormObservation(o: Observation): Observation
  {
    o.(subjects := StableSort(Less, o.subjects), limitations := SortLimitations(o.limitations))
  }

  function NormVisibility(v: VisibilityAssessment): VisibilityAssessment
  {
    v.(basis := StableSort(Less, v.basis), limitations := SortLimitations(v.limitations))
  }

  /** Equal but for the order of the lists that are sets. */
  predicate AlikeVantage(a: VantagePoint, b: VantagePoint)
  {
    a == b.(limitations := a.limitations) && multiset(a.limitations) == multiset(b.limitations)
  }

  predicate AlikeEdge(a: PathEdge, b: PathEdge) { a == b.(refs := a.refs) && multiset(a.refs) == multiset(b.refs) }

  predicate AlikeDefinition(a: CheckDefinition, b: CheckDefinition)
  {
    && a == b.(dependencies := a.dependencies, capabilities := a.capabilities)
    && multiset(a.dependencies) == multiset(b.dependencies) && multiset(a.capabilities) == multiset(b.capabilities)
  }

  predicate AlikeExecution(a: CheckExecution, b: CheckExecution)
  {
    && a == b.(observationIDs := a.observationIDs, visibilityIDs := a.visibilityIDs)
    && multiset(a.observationIDs) == multiset(b.observationIDs) && multiset(a.visibilityIDs) == multiset(b.visibilityIDs)
  }

  predicate AlikeObservation(a: Observation, b: Observation)
  {
    && a == b.(subjects := a.subjects, limitations := a.limitations)
    && multiset(a.subjects) == multiset(b.subjects) && multiset(a.limitations) == multiset(b.limitations)
  }

  predicate AlikeVisibility(a: VisibilityAssessment, b: VisibilityAssessment)
  {
    && a == b.(basis := a.basis, limitations := a.limitations)
    && multiset(a.basis) == multiset(b.basis) && multiset(a.limitations) == multiset(b.limitations)
  }

  lemma StringsSettle(a: seq<string>)
    ensures forall b :: multiset(a) == multiset(b) ==> StableSort(Less, a) == StableSort(Less, b)
  {
    StringsTotal(a);
    forall b | multiset(a) == multiset(b)
      ensures StableSort(Less, a) == StableSort(Less, b)
    {
      SortOfPermutation(Less, a, b);
    }
  }

  lemma LimitationsSettle(a: seq<Limitation>)
    requires WellLimited(a)
    ensures forall b :: multiset(a) == multiset(b) ==> SortLimitations(a) == SortLimitations(b)
  {
    KeysTotal(LimitationKey, a);
    forall b | multiset(a) == multiset(b)
      ensures SortLimitations(a) == SortLimitations(b)
    {
      SortOfPermutation(ByKey(LimitationKey), a, b);
    }
  }

  lemma RefsSettle(a: seq<EvidenceRef>)
    requires WellReferredAll(a)
    ensures forall b :: multiset(a) == multiset(b) ==> StableSort(RefLess, a) == StableSort(RefLess, b)
  {
    RefsTotal(a);
    forall b | multiset(a) == multiset(b)
      ensures StableSort(RefLess, a) == StableSort(RefLess, b)
    {
      SortOfPermutation(RefLess, a, b);
    }
  }

  // ---------------------------------------------------------------- evidence runs

  /** The order of canonicalBranches on a forest, the list itself otherwise. */
  ghost function CanonicalOrder(branches: seq<Branch>): seq<Branch>
  {
    if CanonicalBranches.IsForest(ById(branches))
    then StableSort(CanonicalBranches.DepthLess(ById(branches)), branches) else branches
  }

  /** The canonical form of an evidence run. */
  ghost function CanonicalEvidence(e: EvidenceRun): EvidenceRun
  {
    e.(vantages := Canon(ByKey(VantageKey), NormVantage, e.vantages),
       capabilities := StableSort(ByKey(CapabilityKey), e.capabilities),
       assertions := StableSort(ByKey(AssertionKey), e.assertions),
       entities := StableSort(ByKey(EntityKey), e.entities),
       nodes := StableSort(Less, e.nodes),
       pathEdges := Canon(ByKey(EdgeKey), NormEdge, e.pathEdges),
       branches := CanonicalOrder(e.branches),
       definitions := Canon(ByKey(DefinitionKey), NormDefinition, e.definitions),
       executions := Canon(ByKey(ExecutionKey), NormExecution, e.executions),
       observations := Canon(ByKey(ObservationKey), NormObservation, e.observations),
       visibility := Canon(ByKey(VisibilityKey), NormVisibility, e.visibility),
       limitations := SortLimitations(e.limitations))
  }

  /** One record per ID in every collection, references of one known kind, and branches that form a forest. */
  ghost predicate WellFormedEvidence(e: EvidenceRun)
  {
    && UniqueKeys(VantageKey, e.vantages) && (forall v :: v in e.vantages ==> WellLimited(v.limitations))
    && UniqueKeys(CapabilityKey, e.capabilities)
    && UniqueKeys(AssertionKey, e.assertions)
    && UniqueKeys(EntityKey, e.entities)
    && UniqueKeys(EdgeKey, e.pathEdges) && (forall x :: x in e.pathEdges ==> WellReferredAll(x.refs))
    && CanonicalBranches.DistinctIds(e.branches) && CanonicalBranches.IsForest(ById(e.branches))
    && UniqueKeys(DefinitionKey, e.definitions)
    && UniqueKeys(ExecutionKey, e.executions)
    && UniqueKeys(ObservationKey, e.observations) && (forall o :: o in e.observations ==> WellLimited(o.limitations))
    && UniqueKeys(VisibilityKey, e.visibility) && (forall v :: v in e.visibility ==> WellLimited(v.limitations))
    && WellLimited(e.limitations)
  }

  /** The runs differ only by the order of collections and lists that are sets; edge order within a branch counts. */
  ghost predicate AlikeEvidence(a: EvidenceRun, b: EvidenceRun)
  {
    && SameUpTo(AlikeVantage, a.vantages, b.vantages)
    && multiset(a.capabilities) == multiset(b.capabilities)
    && multiset(a.assertions) == multiset(b.assertions)
    && multiset(a.entities) == multiset(b.entities)
    && multiset(a.nodes) == multiset(b.nodes)
    && SameUpTo(AlikeEdge, a.pathEdges, b.pathEdges)
    && multiset(a.branches) == multiset(b.branches)
    && SameUpTo(AlikeDefinition, a.definitions, b.definitions)
    && SameUpTo(AlikeExecution, a.executions, b.executions)
    && SameUpTo(AlikeObservation, a.observations, b.observations)
    && SameUpTo(AlikeVisibility, a.visibility, b.visibility)
    && multiset(a.limitations) == multiset(b.limitations)
    && OtherFields(a) == OtherFields(b)
  }

  /** Everything that is not a collection. */
  function OtherFields(e: EvidenceRun): EvidenceRun
  {
    e.(vantages := [], capabilities := [], assertions := [], entities := [], nodes := [], pathEdges := [], branches := [],
       definitions := [], executions := [], observations := [], visibility := [], limitations := [])
  }

  lemma KeyedIgnoresOrder<T(!new)>(key: T -> string, a: seq<T>, b: seq<T>)
    requires UniqueKeys(key, a) && multiset(a) == multiset(b)
    ensures StableSort(ByKey(key), a) == StableSort(ByKey(key), b)
  {
    KeysTotal(key, a);
    SortOfPermutation(ByKey(key), a, b);
  }

  lemma VantagesIgnoreOrder(a: seq<VantagePoint>, b: seq<VantagePoint>)
    requires UniqueKeys(VantageKey, a) && (forall v :: v in a ==> WellLimited(v.limitations)) && SameUpTo(AlikeVantage, a, b)
    ensures Canon(ByKey(VantageKey), NormVantage, a) == Canon(ByKey(VantageKey), NormVantage, b)
  {
    forall x, y | x in a && AlikeVantage(x, y)
      ensures NormVantage(x) == NormVantage(y)
    {
      LimitationsSettle(x.limitations);
    }
    assert Settles(NormVantage, AlikeVantage, a);
    assert KeepsKey(VantageKey, NormVantage);
    KeyedCanonIgnoresOrder(VantageKey, NormVantage, AlikeVantage, a, b);
  }

  lemma EdgesIgnoreOrder(a: seq<PathEdge>, b: seq<PathEdge>)
    requires UniqueKeys(EdgeKey, a) && (forall x :: x in a ==> WellReferredAll(x.refs)) && SameUpTo(AlikeEdge, a, b)
    ensures Canon(ByKey(EdgeKey), NormEdge, a) == Canon(ByKey(EdgeKey), NormEdge, b)
  {
    forall x, y | x in a && AlikeEdge(x, y)
      ensures NormEdge(x) == NormEdge(y)
    {
      RefsSettle(x.refs);
    }
    assert Settles(NormEdge, AlikeEdge, a);
    assert KeepsKey(EdgeKey, NormEdge);
    KeyedCanonIgnoresOrder(EdgeKey, NormEdge, AlikeEdge, a, b);
  }

  lemma DefinitionsIgnoreOrder(a: seq<CheckDefinition>, b: seq<CheckDefinition>)
    requires UniqueKeys(DefinitionKey, a) && SameUpTo(AlikeDefinition, a, b)
    ensures Canon(ByKey(DefinitionKey), NormDefinition, a) == Canon(ByKey(DefinitionKey), NormDefinition, b)
  {
    forall x, y | x in a && AlikeDefinition(x, y)
      ensures NormDefinition(x) == NormDefinition(y)
    {
      StringsSettle(x.dependencies);
      StringsSettle(x.capabilities);
    }
    assert Settles(NormDefinition, AlikeDefinition, a);
    assert KeepsKey(DefinitionKey, NormDefinition);
    KeyedCanonIgnoresOrder(DefinitionKey, NormDefinition, AlikeDefinition, a, b);
  }

  lemma ExecutionsIgnoreOrder(a: seq<CheckExecution>, b: seq<CheckExecution>)
    requires UniqueKeys(ExecutionKey, a) && SameUpTo(AlikeExecution, a, b)
    ensures Canon(ByKey(ExecutionKey), NormExecution, a) == Canon(ByKey(ExecutionKey), NormExecution, b)
  {
    forall x, y | x in a && AlikeExecution(x, y)
      ensures NormExecution(x) == NormExecution(y)
    {
      StringsSettle(x.observationIDs);
      StringsSettle(x.visibilityIDs);
    }
    assert Settles(NormExecution, AlikeExecution, a);
    assert KeepsKey(ExecutionKey, NormExecution);
    KeyedCanonIgnoresOrder(ExecutionKey, NormExecution, AlikeExecution, a, b);
  }

  lemma ObservationsIgnoreOrder(a: seq<Observation>, b: seq<Observation>)
    requires UniqueKeys(ObservationKey, a) && (forall o :: o in a ==> WellLimited(o.limitations))
    requires SameUpTo(AlikeObservation, a, b)
    ensures Canon(ByKey(ObservationKey), NormObservation, a) == Canon(ByKey(ObservationKey), NormObservation, b)
  {
    forall x, y | x in a && AlikeObservation(x, y)
      ensures NormObservation(x) == NormObservation(y)
    {
      StringsSettle(x.subjects);
      LimitationsSettle(x.limitations);
    }
    assert Settles(NormObservation, AlikeObservation, a);
    assert KeepsKey(ObservationKey, NormObservation);
    KeyedCanonIgnoresOrder(ObservationKey, NormObservation, AlikeObservation, a, b);
  }

  lemma VisibilityIgnoresOrder(a: seq<VisibilityAssessment>, b: seq<VisibilityAssessment>)
    requires UniqueKeys(VisibilityKey, a) && (forall v :: v in a ==> WellLimited(v.limitations))
    requires SameUpTo(AlikeVisibility, a, b)
    ensures Canon(ByKey(VisibilityKey), NormVisibility, a) == Canon(ByKey(VisibilityKey), NormVisibility, b)
  {
    forall x, y | x in a && AlikeVisibility(x, y)
      ensures NormVisibility(x) == NormVisibility(y)
    {
      StringsSettle(x.basis);
      LimitationsSettle(x.limitations);
    }
    assert Settles(NormVisibility, AlikeVisibility, a);
    assert KeepsKey(VisibilityKey, NormVisibility);
    KeyedCanonIgnoresOrder(VisibilityKey, NormVisibility, AlikeVisibility, a, b);
  }

  lemma BranchesIgnoreOrder(a: seq<Branch>, b: seq<Branch>)
    requires CanonicalBranches.DistinctIds(a) && CanonicalBranches.IsForest(ById(a)) && multiset(a) == multiset(b)
    ensures CanonicalOrder(a) == CanonicalOrder(b)
  {
    CanonicalBranches.DistinctPermuted(a, b);
    CanonicalBranches.DepthLessTotal(ById(a), a);
    SortOfPermutation(CanonicalBranches.DepthLess(ById(a)), a, b);
  }

  /** Runs that differ by order alone have one canonical form. */
  lemma EvidenceIgnoresOrder(a: EvidenceRun, b: EvidenceRun)
    requires WellFormedEvidence(a) && AlikeEvidence(a, b)
    ensures CanonicalEvidence(a) == CanonicalEvidence(b)
  {
    VantagesIgnoreOrder(a.vantages, b.vantages);
    KeyedIgnoresOrder(CapabilityKey, a.capabilities, b.capabilities);
    KeyedIgnoresOrder(AssertionKey, a.assertions, b.assertions);
    KeyedIgnoresOrder(EntityKey, a.entities, b.entities);
    StringsSettle(a.nodes);
    EdgesIgnoreOrder(a.pathEdges, b.pathEdges);
    BranchesIgnoreOrder(a.branches, b.branches);
    DefinitionsIgnoreOrder(a.definitions, b.definitions);
    ExecutionsIgnoreOrder(a.executions, b.executions);
    ObservationsIgnoreOrder(a.observations, b.observations);
    VisibilityIgnoresOrder(a.visibility, b.visibility);
    LimitationsSettle(a.limitations);
    SameFieldsSame(a, b);
  }

  lemma SameFieldsSame(a: EvidenceRun, b: EvidenceRun)
    requires OtherFields(a) == OtherFields(b)
    ensures a == b.(vantages := a.vantages, capabilities := a.capabilities, assertions := a.assertions,
                    entities := a.entities, nodes := a.nodes, pathEdges := a.pathEdges, branches := a.branches,
                    definitions := a.definitions, executions := a.executions, observations := a.observations,
                    visibility := a.visibility, limitations := a.limitations)
  {
    var x, y := OtherFields(a), OtherFields(b);
    assert x.target == y.target && x.requestedScope == y.requestedScope && x.coherenceWindow == y.coherenceWindow;
    assert x.startedAt == y.startedAt && x.finishedAt == y.finishedAt && x.rest == y.rest;
  }

  /** The canonical form holds what the run holds: it differs by order alone. */
  lemma CanonicalEvidenceIsAlike(e: EvidenceRun)
    ensures AlikeEvidence(e, CanonicalEvidence(e))
  {
    forall s: seq<Limitation>
      ensures multiset(SortLimitations(s)) == multiset(s)
    {
      StableSortPermutes(ByKey(LimitationKey), s);
    }
    forall s: seq<string>
      ensures multiset(StableSort(Less, s)) == multiset(s)
    {
      StableSortPermutes(Less, s);
    }
    forall s: seq<EvidenceRef>
      ensures multiset(StableSort(RefLess, s)) == multiset(s)
    {
      StableSortPermutes(RefLess, s);
    }
    CanonIsAlike(ByKey(VantageKey), NormVantage, AlikeVantage, e.vantages);
    StableSortPermutes(ByKey(CapabilityKey), e.capabilities);
    StableSortPermutes(ByKey(AssertionKey), e.assertions);
    StableSortPermutes(ByKey(EntityKey), e.entities);
    CanonIsAlike(ByKey(EdgeKey), NormEdge, AlikeEdge, e.pathEdges);
    StableSortPermutes(CanonicalBranches.DepthLess(ById(e.branches)), e.branches);
    CanonIsAlike(ByKey(DefinitionKey), NormDefinition, AlikeDefinition, e.definitions);
    CanonIsAlike(ByKey(ExecutionKey), NormExecution, AlikeExecution, e.executions);
    CanonIsAlike(ByKey(ObservationKey), NormObservation, AlikeObservation, e.observations);
    CanonIsAlike(ByKey(VisibilityKey), NormVisibility, AlikeVisibility, e.visibility);
  }

  // ---------------------------------------------------------------- what reordering keeps

  lemma UniqueKeysPermuted<T(!new)>(key: T -> string, a: seq<T>, b: seq<T>)
    requires UniqueKeys(key, a) && multiset(a) == multiset(b)
    ensures UniqueKeys(key, b)
  {
    SameElements(a, b);
    NoRepeatsPermuted(a, b);
    forall i, j | 0 <= i < j < |b|
      ensures key(b[i]) != key(b[j])
    {
      assert b[i] in a && b[j] in a && b[i] != b[j];
    }
  }

  /** Alike records have one key. */
  ghost predicate SharesKey<T(!new)>(key: T -> string, alike: (T, T) -> bool)
  {
    forall x, y :: alike(x, y) ==> key(x) == key(y)
  }

  lemma UniqueKeysUpTo<T(!new)>(key: T -> string, alike: (T, T) -> bool, a: seq<T>, b: seq<T>)
    requires UniqueKeys(key, a) && SharesKey(key, alike) && SameUpTo(alike, a, b)
    ensures UniqueKeys(key, b)
  {
    var m: seq<T> :| multiset(m) == multiset(a) && |m| == |b| && Pointwise(alike, m, b);
    UniqueKeysPermuted(key, a, m);
    assert forall i :: 0 <= i < |b| ==> key(b[i]) == key(m[i]);
  }

  /** Each record of `b` has one of `a` it is alike to, and each of `a` one of `b`. */
  lemma UpToElements<T(!new)>(alike: (T, T) -> bool, a: seq<T>, b: seq<T>)
    requires SameUpTo(alike, a, b)
    ensures |a| == |b|
    ensures forall y :: y in b ==> exists x :: x in a && alike(x, y)
    ensures forall x :: x in a ==> exists y :: y in b && alike(x, y)
  {
    var m: seq<T> :| multiset(m) == multiset(a) && |m| == |b| && Pointwise(alike, m, b);
    SameElements(m, a);
    forall y | y in b
      ensures exists x :: x in a && alike(x, y)
    {
      var i :| 0 <= i < |b| && b[i] == y;
      assert m[i] in a && alike(m[i], b[i]);
    }
    forall x | x in a
      ensures exists y :: y in b && alike(x, y)
    {
      var i :| 0 <= i < |m| && m[i] == x;
      assert b[i] in b && alike(m[i], b[i]);
    }
  }

  lemma LimitedPermuted(a: seq<Limitation>, b: seq<Limitation>)
    requires multiset(a) == multiset(b)
    ensures WellLimited(a) == WellLimited(b)
  {
    if WellLimited(a) {
      UniqueKeysPermuted(LimitationKey, a, b);
    }
    if WellLimited(b) {
      UniqueKeysPermuted(LimitationKey, b, a);
    }
  }

  lemma VantagesStayWell(a: seq<VantagePoint>, b: seq<VantagePoint>)
    requires UniqueKeys(VantageKey, a) && (forall v :: v in a ==> WellLimited(v.limitations)) && SameUpTo(AlikeVantage, a, b)
    ensures UniqueKeys(VantageKey, b) && forall v :: v in b ==> WellLimited(v.limitations)
  {
    assert SharesKey(VantageKey, AlikeVantage);
    UniqueKeysUpTo(VantageKey, AlikeVantage, a, b);
    UpToElements(AlikeVantage, a, b);
    forall v | v in b
      ensures WellLimited(v.limitations)
    {
      var x :| x in a && AlikeVantage(x, v);
      LimitedPermuted(x.limitations, v.limitations);
    }
  }

  lemma EdgesStayWell(a: seq<PathEdge>, b: seq<PathEdge>)
    requires UniqueKeys(EdgeKey, a) && (forall x :: x in a ==> WellReferredAll(x.refs)) && SameUpTo(AlikeEdge, a, b)
    ensures UniqueKeys(EdgeKey, b) && forall x :: x in b ==> WellReferredAll(x.refs)
  {
    assert SharesKey(EdgeKey, AlikeEdge);
    UniqueKeysUpTo(EdgeKey, AlikeEdge, a, b);
    UpToElements(AlikeEdge, a, b);
    forall y | y in b
      ensures WellReferredAll(y.refs)
    {
      var x :| x in a && AlikeEdge(x, y);
      SameElements(x.refs, y.refs);
    }
  }

  lemma ObservationsStayWell(a: seq<Observation>, b: seq<Observation>)
    requires UniqueKeys(ObservationKey, a) && (forall o :: o in a ==> WellLimited(o.limitations))
    requires SameUpTo(AlikeObservation, a, b)
    ensures UniqueKeys(ObservationKey, b) && forall o :: o in b ==> WellLimited(o.limitations)
  {
    assert SharesKey(ObservationKey, AlikeObservation);
    UniqueKeysUpTo(ObservationKey, AlikeObservation, a, b);
    UpToElements(AlikeObservation, a, b);
    forall o | o in b
      ensures WellLimited(o.limitations)
    {
      var x :| x in a && AlikeObservation(x, o);
      LimitedPermuted(x.limitations, o.limitations);
    }
  }

  lemma VisibilityStaysWell(a: seq<VisibilityAssessment>, b: seq<VisibilityAssessment>)
    requires UniqueKeys(VisibilityKey, a) && (forall v :: v in a ==> WellLimited(v.limitations))
    requires SameUpTo(AlikeVisibility, a, b)
    ensures UniqueKeys(VisibilityKey, b) && forall v :: v in b ==> WellLimited(v.limitations)
  {
    assert SharesKey(VisibilityKey, AlikeVisibility);
    UniqueKeysUpTo(VisibilityKey, AlikeVisibility, a, b);
    UpToElements(AlikeVisibility, a, b);
    forall v | v in b
      ensures WellLimited(v.limitations)
    {
      var x :| x in a && AlikeVisibility(x, v);
      LimitedPermuted(x.limitations, v.limitations);
    }
  }

  /** Reordering the sets of a well-formed run leaves it well-formed. */
  lemma AlikeEvidenceStaysWell(a: EvidenceRun, b: EvidenceRun)
    requires WellFormedEvidence(a) && AlikeEvidence(a, b)
    ensures WellFormedEvidence(b)
  {
    VantagesStayWell(a.vantages, b.vantages);
    UniqueKeysPermuted(CapabilityKey, a.capabilities, b.capabilities);
    UniqueKeysPermuted(AssertionKey, a.assertions, b.assertions);
    UniqueKeysPermuted(EntityKey, a.entities, b.entities);
    EdgesStayWell(a.pathEdges, b.pathEdges);
    CanonicalBranches.DistinctPermuted(a.branches, b.branches);
    assert SharesKey(DefinitionKey, AlikeDefinition) && SharesKey(ExecutionKey, AlikeExecution);
    UniqueKeysUpTo(DefinitionKey, AlikeDefinition, a.definitions, b.definitions);
    UniqueKeysUpTo(ExecutionKey, AlikeExecution, a.executions, b.executions);
    ObservationsStayWell(a.observations, b.observations);
    VisibilityStaysWell(a.visibility, b.visibility);
    LimitedPermuted(a.limitations, b.limitations);
  }

  /** Canonicalizing twice is canonicalizing once. */
  lemma CanonicalEvidenceIdempotent(e: EvidenceRun)
    requires WellFormedEvidence(e)
    ensures CanonicalEvidence(CanonicalEvidence(e)) == CanonicalEvidence(e)
  {
    CanonicalEvidenceIsAlike(e);
    EvidenceIgnoresOrder(e, CanonicalEvidence(e));
  }
}
