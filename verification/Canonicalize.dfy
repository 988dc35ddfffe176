/**
 * The sorting loops of CanonicalizeEvidence and CanonicalizeEvaluated (internal/model/canonicalize.go),
 * proved to compute the canonical form: on any run the result differs from it by order alone, and on a
 * well-formed run it is the canonical form.
 */
module Canonicalizing {
  import opened Text
  import opened Model
  import opened Ids
  import opened Sorting
  import opened Branches
  import opened Canonical
  import opened CanonicalRuns
  import CanonicalBranches
  import MissingEvidences

  // ---------------------------------------------------------------- collections

  /** `r` rewrites each record of `s` to one alike, and a well-formed one to its normal form. */
  ghost predicate Settled<T(!new)>(well: T -> bool, norm: T -> T, alike: (T, T) -> bool, s: seq<T>, r: seq<T>, n: nat)
  {
    && |r| == |s| && n <= |s|
    && (forall i :: 0 <= i < n ==> alike(s[i], r[i]) && (well(s[i]) ==> r[i] == norm(s[i])))
    && (forall i :: n <= i < |s| ==> r[i] == s[i])
  }

  /** Sorting the records and settling each of them gives the canonical collection. */
  lemma SortedAndSettled<T(!new)>(
    less: (T, T) -> bool, well: T -> bool, norm: T -> T, alike: (T, T) -> bool, s: seq<T>, t: seq<T>, r: seq<T>)
    requires multiset(t) == multiset(s) && (Total(less, s) ==> t == StableSort(less, s))
    requires Settled(well, norm, alike, t, r, |t|)
    ensures SameUpTo(alike, s, r)
    ensures Total(less, s) ==> |r| == |StableSort(less, s)| && Pointwise(alike, StableSort(less, s), r)
    ensures Total(less, s) && (forall x :: x in s ==> well(x)) ==> r == Canon(less, norm, s)
  {
    SameElements(s, t);
    assert Pointwise(alike, t, r);
    if Total(less, s) && forall x :: x in s ==> well(x) {
      forall i | 0 <= i < |r|
        ensures r[i] == norm(t[i])
      {
        assert t[i] in s;
      }
      assert r == MapSeq(norm, t);
    }
  }

  method SortStrings(s: seq<string>) returns (r: seq<string>)
    ensures r == StableSort(Less, s) && multiset(r) == multiset(s)
  {
    r := SortSlice(Less, s);
    StringsTotal(s);
  }

  /** sortLimitations */
  method SortLimitationList(s: seq<Limitation>) returns (r: seq<Limitation>)
    ensures multiset(r) == multiset(s) && (WellLimited(s) ==> r == SortLimitations(s))
  {
    r := SortSlice(ByKey(LimitationKey), s);
    if WellLimited(s) {
      KeysTotal(LimitationKey, s);
    }
  }

  /** sortEvidenceRefs */
  method SortRefs(s: seq<EvidenceRef>) returns (r: seq<EvidenceRef>)
    ensures multiset(r) == multiset(s) && (WellReferredAll(s) ==> r == StableSort(RefLess, s))
  {
    r := SortSlice(RefLess, s);
    if WellReferredAll(s) {
      RefsTotal(s);
    }
  }

  ghost predicate WellVantage(v: VantagePoint) { WellLimited(v.limitations) }
  ghost predicate WellEdge(e: PathEdge) { WellReferredAll(e.refs) }
  ghost predicate WellObservation(o: Observation) { WellLimited(o.limitations) }
  ghost predicate WellVisibility(v: VisibilityAssessment) { WellLimited(v.limitations) }
  ghost predicate Any<T>(x: T) { true }

  method CanonicalizeVantages(s: seq<VantagePoint>) returns (r: seq<VantagePoint>)
    ensures SameUpTo(AlikeVantage, s, r)
    ensures UniqueKeys(VantageKey, s) && (forall x :: x in s ==> WellVantage(x)) ==> r == Canon(ByKey(VantageKey), NormVantage, s)
  {
    var t := SortSlice(ByKey(VantageKey), s);
    r := t;
    for i := 0 to |t|
      invariant Settled(WellVantage, NormVantage, AlikeVantage, t, r, i)
    {
      var limitations := SortLimitationList(r[i].limitations);
      r := r[i := r[i].(limitations := limitations)];
    }
    if UniqueKeys(VantageKey, s) {
      KeysTotal(VantageKey, s);
    }
    SortedAndSettled(ByKey(VantageKey), WellVantage, NormVantage, AlikeVantage, s, t, r);
  }

  method CanonicalizeEdges(s: seq<PathEdge>) returns (r: seq<PathEdge>)
    ensures SameUpTo(AlikeEdge, s, r)
    ensures UniqueKeys(EdgeKey, s) && (forall x :: x in s ==> WellEdge(x)) ==> r == Canon(ByKey(EdgeKey), NormEdge, s)
  {
    var t := SortSlice(ByKey(EdgeKey), s);
    r := t;
    for i := 0 to |t|
      invariant Settled(WellEdge, NormEdge, AlikeEdge, t, r, i)
    {
      var refs := SortRefs(r[i].refs);
      r := r[i := r[i].(refs := refs)];
    }
    if UniqueKeys(EdgeKey, s) {
      KeysTotal(EdgeKey, s);
    }
    SortedAndSettled(ByKey(EdgeKey), WellEdge, NormEdge, AlikeEdge, s, t, r);
  }

  method CanonicalizeDefinitions(s: seq<CheckDefinition>) returns (r: seq<CheckDefinition>)
    ensures SameUpTo(AlikeDefinition, s, r)
    ensures UniqueKeys(DefinitionKey, s) ==> r == Canon(ByKey(DefinitionKey), NormDefinition, s)
  {
    var t := SortSlice(ByKey(DefinitionKey), s);
    r := t;
    for i := 0 to |t|
      invariant Settled(Any<CheckDefinition>, NormDefinition, AlikeDefinition, t, r, i)
    {
      var dependencies := SortStrings(r[i].dependencies);
      var capabilities := SortStrings(r[i].capabilities);
      r := r[i := r[i].(dependencies := dependencies, capabilities := capabilities)];
    }
    if UniqueKeys(DefinitionKey, s) {
      KeysTotal(DefinitionKey, s);
    }
    SortedAndSettled(ByKey(DefinitionKey), Any<CheckDefinition>, NormDefinition, AlikeDefinition, s, t, r);
  }

  method CanonicalizeExecutions(s: seq<CheckExecution>) returns (r: seq<CheckExecution>)
    ensures SameUpTo(AlikeExecution, s, r)
    ensures UniqueKeys(ExecutionKey, s) ==> r == Canon(ByKey(ExecutionKey), NormExecution, s)
  {
    var t := SortSlice(ByKey(ExecutionKey), s);
    r := t;
    for i := 0 to |t|
      invariant Settled(Any<CheckExecution>, NormExecution, AlikeExecution, t, r, i)
    {
      var observationIDs := SortStrings(r[i].observationIDs);
      var visibilityIDs := SortStrings(r[i].visibilityIDs);
      r := r[i := r[i].(observationIDs := observationIDs, visibilityIDs := visibilityIDs)];
    }
    if UniqueKeys(ExecutionKey, s) {
      KeysTotal(ExecutionKey, s);
    }
    SortedAndSettled(ByKey(ExecutionKey), Any<CheckExecution>, NormExecution, AlikeExecution, s, t, r);
  }

  method CanonicalizeObservations(s: seq<Observation>) returns (r: seq<Observation>)
    ensures SameUpTo(AlikeObservation, s, r)
    ensures UniqueKeys(ObservationKey, s) && (forall x :: x in s ==> WellObservation(x)) ==> r == Canon(ByKey(ObservationKey), NormObservation, s)
  {
    var t := SortSlice(ByKey(ObservationKey), s);
    r := t;
    for i := 0 to |t|
      invariant Settled(WellObservation, NormObservation, AlikeObservation, t, r, i)
    {
      var subjects := SortStrings(r[i].subjects);
      var limitations := SortLimitationList(r[i].limitations);
      r := r[i := r[i].(subjects := subjects, limitations := limitations)];
    }
    if UniqueKeys(ObservationKey, s) {
      KeysTotal(ObservationKey, s);
    }
    SortedAndSettled(ByKey(ObservationKey), WellObservation, NormObservation, AlikeObservation, s, t, r);
  }

  method CanonicalizeVisibility(s: seq<VisibilityAssessment>) returns (r: seq<VisibilityAssessment>)
    ensures SameUpTo(AlikeVisibility, s, r)
    ensures UniqueKeys(VisibilityKey, s) && (forall x :: x in s ==> WellVisibility(x)) ==> r == Canon(ByKey(VisibilityKey), NormVisibility, s)
  {
    var t := SortSlice(ByKey(VisibilityKey), s);
    r := t;
    for i := 0 to |t|
      invariant Settled(WellVisibility, NormVisibility, AlikeVisibility, t, r, i)
    {
      var basis := SortStrings(r[i].basis);
      var limitations := SortLimitationList(r[i].limitations);
      r := r[i := r[i].(basis := basis, limitations := limitations)];
    }
    if UniqueKeys(VisibilityKey, s) {
      KeysTotal(VisibilityKey, s);
    }
    SortedAndSettled(ByKey(VisibilityKey), WellVisibility, NormVisibility, AlikeVisibility, s, t, r);
  }

  method SortKeyed<T(!new)>(key: T -> string, s: seq<T>) returns (r: seq<T>)
    ensures multiset(r) == multiset(s) && (UniqueKeys(key, s) ==> r == StableSort(ByKey(key), s))
  {
    r := SortSlice(ByKey(key), s);
    if UniqueKeys(key, s) {
      KeysTotal(key, s);
    }
  }

  // ---------------------------------------------------------------- evidence

  const CYCLE_ISSUE := Issue(CycleCode, "/service_path/branches", "branch parent cycle or missing parent")

  method SortBranches(branches: seq<Branch>) returns (out: seq<Branch>, ok: bool)
    ensures multiset(out) == multiset(branches)
    ensures ok <==> CanonicalBranches.Layerable(branches)
    ensures CanonicalBranches.DistinctIds(branches) ==> out == CanonicalOrder(branches)
  {
    out, ok := CanonicalBranches.Canonicalize(branches);
    if CanonicalBranches.DistinctIds(branches) {
      CanonicalBranches.DistinctLayerable(branches);
    }
    if CanonicalBranches.DistinctIds(branches) && ok {
      var less := CanonicalBranches.DepthLess(ById(branches));
      CanonicalBranches.DepthLessTotal(ById(branches), branches);
      StableSortIsSortedTotal(less, branches);
      StableSortPermutes(less, branches);
      SortedUnique(less, StableSort(less, branches), out);
    }
  }

  /** The entities and the service path of `o` are those of `e`, in canonical order when `e` is well-formed. */
  ghost predicate PathSettled(e: EvidenceRun, o: EvidenceRun)
  {
    && SameUpTo(AlikeVantage, e.vantages, o.vantages)
    && multiset(e.capabilities) == multiset(o.capabilities)
    && multiset(e.assertions) == multiset(o.assertions)
    && multiset(e.entities) == multiset(o.entities)
    && o.nodes == StableSort(Less, e.nodes) && multiset(e.nodes) == multiset(o.nodes)
    && SameUpTo(AlikeEdge, e.pathEdges, o.pathEdges)
    && multiset(e.branches) == multiset(o.branches)
    && (WellFormedEvidence(e) ==>
          && o.vantages == Canon(ByKey(VantageKey), NormVantage, e.vantages)
          && o.capabilities == StableSort(ByKey(CapabilityKey), e.capabilities)
          && o.assertions == StableSort(ByKey(AssertionKey), e.assertions)
          && o.entities == StableSort(ByKey(EntityKey), e.entities)
          && o.pathEdges == Canon(ByKey(EdgeKey), NormEdge, e.pathEdges)
          && o.branches == CanonicalOrder(e.branches))
  }

  method CanonicalizePath(e: EvidenceRun) returns (out: EvidenceRun, ok: bool)
    ensures PathSorted(e, out)
    ensures ok <==> CanonicalBranches.Layerable(e.branches)
  {
    var vantages := CanonicalizeVantages(e.vantages);
    var capabilities := SortKeyed(CapabilityKey, e.capabilities);
    var assertions := SortKeyed(AssertionKey, e.assertions);
    var entities := SortKeyed(EntityKey, e.entities);
    var nodes := SortStrings(e.nodes);
    var pathEdges := CanonicalizeEdges(e.pathEdges);
    var branches;
    branches, ok := SortBranches(e.branches);
    out := e.(vantages := vantages, capabilities := capabilities, assertions := assertions, entities := entities,
              nodes := nodes, pathEdges := pathEdges, branches := branches);
  }

  /** The same for checks, observations, visibility and limitations. */
  ghost predicate RecordsSettled(e: EvidenceRun, o: EvidenceRun)
  {
    && SameUpTo(AlikeDefinition, e.definitions, o.definitions)
    && SameUpTo(AlikeExecution, e.executions, o.executions)
    && SameUpTo(AlikeObservation, e.observations, o.observations)
    && SameUpTo(AlikeVisibility, e.visibility, o.visibility)
    && multiset(e.limitations) == multiset(o.limitations)
    && (UniqueKeys(DefinitionKey, e.definitions) ==>
          o.definitions == Canon(ByKey(DefinitionKey), NormDefinition, e.definitions))
    && (UniqueKeys(ExecutionKey, e.executions) ==>
          o.executions == Canon(ByKey(ExecutionKey), NormExecution, e.executions))
    && (UniqueKeys(ObservationKey, e.observations) && (forall x :: x in e.observations ==> WellObservation(x)) ==>
          o.observations == Canon(ByKey(ObservationKey), NormObservation, e.observations))
    && (UniqueKeys(VisibilityKey, e.visibility) && (forall x :: x in e.visibility ==> WellVisibility(x)) ==>
          o.visibility == Canon(ByKey(VisibilityKey), NormVisibility, e.visibility))
    && (WellLimited(e.limitations) ==> o.limitations == SortLimitations(e.limitations))
  }

  method CanonicalizeRecords(e: EvidenceRun) returns (out: EvidenceRun)
    ensures RecordsSorted(e, out)
  {
    var definitions := CanonicalizeDefinitions(e.definitions);
    var executions := CanonicalizeExecutions(e.executions);
    var observations := CanonicalizeObservations(e.observations);
    var visibility := CanonicalizeVisibility(e.visibility);
    var limitations := SortLimitationList(e.limitations);
    out := e.(definitions := definitions, executions := executions, observations := observations,
              visibility := visibility, limitations := limitations);
  }

  ghost predicate PathSorted(e: EvidenceRun, path: EvidenceRun)
  {
    && PathSettled(e, path)
    && path == e.(vantages := path.vantages, capabilities := path.capabilities, assertions := path.assertions,
                  entities := path.entities, nodes := path.nodes, pathEdges := path.pathEdges,
                  branches := path.branches)
  }

  ghost predicate RecordsSorted(path: EvidenceRun, out: EvidenceRun)
  {
    && RecordsSettled(path, out)
    && out == path.(definitions := out.definitions, executions := out.executions, observations := out.observations,
                    visibility := out.visibility, limitations := out.limitations)
  }

  lemma PartsAreAlike(e: EvidenceRun, path: EvidenceRun, out: EvidenceRun)
    requires PathSorted(e, path) && RecordsSorted(path, out)
    ensures AlikeEvidence(e, out)
  {
  }

  lemma PartsAreCanonical(e: EvidenceRun, path: EvidenceRun, out: EvidenceRun)
    requires PathSorted(e, path) && RecordsSorted(path, out) && WellFormedEvidence(e)
    ensures out == CanonicalEvidence(e)
  {
  }

  lemma PartsMakeWhole(e: EvidenceRun, path: EvidenceRun, out: EvidenceRun)
    requires PathSorted(e, path) && RecordsSorted(path, out)
    ensures AlikeEvidence(e, out)
    ensures WellFormedEvidence(e) ==> out == CanonicalEvidence(e)
  {
    PartsAreAlike(e, path, out);
    if WellFormedEvidence(e) {
      PartsAreCanonical(e, path, out);
    }
  }

  /** The one issue is raised exactly when the branches have no layers: with distinct IDs, when they are no forest. */
  method CanonicalizeEvidence(e: EvidenceRun) returns (out: EvidenceRun, issues: seq<Issue>)
    ensures AlikeEvidence(e, out)
    ensures WellFormedEvidence(e) ==> out == CanonicalEvidence(e)
    ensures issues == if CanonicalBranches.Layerable(e.branches) then [] else [CYCLE_ISSUE]
  {
    var ok;
    out, ok := SortEvidence(e);
    issues := if ok then [] else [CYCLE_ISSUE];
  }

  /** The sorts before and after the branches. */
  method SortEvidence(e: EvidenceRun) returns (out: EvidenceRun, ok: bool)
    ensures AlikeEvidence(e, out)
    ensures WellFormedEvidence(e) ==> out == CanonicalEvidence(e)
    ensures ok <==> CanonicalBranches.Layerable(e.branches)
  {
    var path;
    path, ok := CanonicalizePath(e);
    out := CanonicalizeRecords(path);
    PartsMakeWhole(e, path, out);
  }

  // ---------------------------------------------------------------- evaluated runs

  method SortByBranch(branches: seq<Branch>, ids: seq<BranchID>) returns (r: seq<BranchID>)
    ensures r == StableSort(BranchLess(branches), ids) && multiset(r) == multiset(ids)
  {
    r := StableSort(BranchLess(branches), ids);
    StableSortPermutes(BranchLess(branches), ids);
  }

  method SortPositions(branches: seq<Branch>, s: seq<PathPosition>) returns (r: seq<PathPosition>)
    ensures multiset(r) == multiset(s)
    ensures KnownPositions(branches, s) ==> r == StableSort(PositionLess(branches), s)
  {
    r := SortSlice(PositionLess(branches), s);
    if KnownPositions(branches, s) {
      PositionOrderTotal(branches, s);
    }
  }

  method SortClaimIds(s: seq<ClaimID>) returns (r: seq<ClaimID>)
    ensures multiset(r) == multiset(s) && (OneSpelling(s, CLAIM_PREFIX) ==> r == StableSort(ClaimIdLess, s))
  {
    r := SortSlice(ClaimIdLess, s);
    if OneSpelling(s, CLAIM_PREFIX) {
      ClaimIdsTotal(s);
    }
  }

  method CanonicalizeClaim(branches: seq<Branch>, c: Claim) returns (r: Claim)
    ensures AlikeClaim(c, r) && (WellClaim(branches)(c) ==> r == NormClaim(branches)(c))
  {
    var subjects := SortStrings(c.subjects);
    var branchIDs := SortByBranch(branches, c.branchIDs);
    var supporting := SortRefs(c.supporting);
    var contradicting := SortRefs(c.contradicting);
    var missing := StableSort(MissingEvidences.MissingLess, c.missing);
    StableSortPermutes(MissingEvidences.MissingLess, c.missing);
    r := c.(subjects := subjects, branchIDs := branchIDs, supporting := supporting, contradicting := contradicting,
            missing := missing);
  }

  method CanonicalizeFinding(branches: seq<Branch>, f: Finding) returns (r: Finding)
    ensures AlikeFinding(f, r) && (WellFinding(branches)(f) ==> r == NormFinding(branches)(f))
  {
    var branchIDs := SortByBranch(branches, f.branchIDs);
    var positions := SortPositions(branches, f.positions);
    var claimIDs := SortClaimIds(f.claimIDs);
    var limitations := SortLimitationList(f.limitations);
    r := f.(branchIDs := branchIDs, positions := positions, claimIDs := claimIDs, limitations := limitations);
  }

  method CanonicalizeClaims(branches: seq<Branch>, s: seq<Claim>) returns (r: seq<Claim>)
    ensures SameUpTo(AlikeClaim, s, r)
    ensures NumberedClaims(s) && (forall x :: x in s ==> WellClaim(branches)(x)) ==>
              r == Canon(ClaimLess, NormClaim(branches), s)
    ensures NumberedClaims(s) ==> |r| == |StableSort(ClaimLess, s)| && Pointwise(AlikeClaim, StableSort(ClaimLess, s), r)
  {
    var t := SortSlice(ClaimLess, s);
    r := t;
    for i := 0 to |t|
      invariant Settled(WellClaim(branches), NormClaim(branches), AlikeClaim, t, r, i)
    {
      var x := CanonicalizeClaim(branches, r[i]);
      r := r[i := x];
    }
    if NumberedClaims(s) {
      ClaimsTotal(s);
    }
    SortedAndSettled(ClaimLess, WellClaim(branches), NormClaim(branches), AlikeClaim, s, t, r);
  }

  method CanonicalizeFindings(branches: seq<Branch>, s: seq<Finding>) returns (r: seq<Finding>)
    ensures SameUpTo(AlikeFinding, s, r)
    ensures NumberedFindings(s) && (forall x :: x in s ==> WellFinding(branches)(x)) ==>
              r == Canon(FindingLess, NormFinding(branches), s)
    ensures NumberedFindings(s) ==> |r| == |StableSort(FindingLess, s)| && Pointwise(AlikeFinding, StableSort(FindingLess, s), r)
  {
    var t := SortSlice(FindingLess, s);
    r := t;
    for i := 0 to |t|
      invariant Settled(WellFinding(branches), NormFinding(branches), AlikeFinding, t, r, i)
    {
      var x := CanonicalizeFinding(branches, r[i]);
      r := r[i := x];
    }
    if NumberedFindings(s) {
      FindingsTotal(s);
    }
    SortedAndSettled(FindingLess, WellFinding(branches), NormFinding(branches), AlikeFinding, s, t, r);
  }

  /** Claims and findings are ordered against the branches the evidence pass has already ordered. */
  method CanonicalizeEvaluated(run: EvaluatedRun) returns (out: EvaluatedRun, issues: seq<Issue>)
    ensures AlikeRun(run, out)
    ensures WellFormedRun(run) ==> out == CanonicalRun(run)
    ensures NumberedClaims(run.claims) ==>
              var sorted := StableSort(ClaimLess, run.claims);
              |out.claims| == |sorted| && Pointwise(AlikeClaim, sorted, out.claims)
    ensures NumberedFindings(run.findings) ==>
              var sorted := StableSort(FindingLess, run.findings);
              |out.findings| == |sorted| && Pointwise(AlikeFinding, sorted, out.findings)
    ensures issues == if CanonicalBranches.Layerable(run.evidence.branches) then [] else [CYCLE_ISSUE]
  {
    var evidence;
    evidence, issues := CanonicalizeEvidence(run.evidence);
    var claims := CanonicalizeClaims(evidence.branches, run.claims);
    var findings := CanonicalizeFindings(evidence.branches, run.findings);
    var limitations := SortLimitationList(evidence.limitations);
    if WellFormedRun(run) {
      WellAfterOrdering(run);
      StableSortPermutes(ByKey(LimitationKey), run.evidence.limitations);
      LimitedPermuted(run.evidence.limitations, SortLimitations(run.evidence.limitations));
    }
    out := run.(evidence := evidence.(limitations := limitations), claims := claims, findings := findings);
  }

  // ---------------------------------------------------------------- calling it again

  /** A second pass over canonical evidence changes nothing. */
  method CanonicalizeEvidenceTwice(e: EvidenceRun) returns (once: EvidenceRun, twice: EvidenceRun)
    requires WellFormedEvidence(e)
    ensures twice == once && WellFormedEvidence(once)
  {
    var issues;
    once, issues := CanonicalizeEvidence(e);
    AlikeEvidenceStaysWell(e, once);
    twice, issues := CanonicalizeEvidence(once);
    CanonicalEvidenceIdempotent(e);
  }

  /** A second pass over a canonical run changes nothing. */
  method CanonicalizeTwice(run: EvaluatedRun) returns (once: EvaluatedRun, twice: EvaluatedRun)
    requires WellFormedRun(run)
    ensures twice == once && WellFormedRun(once)
  {
    var issues;
    once, issues := CanonicalizeEvaluated(run);
    AlikeRunStaysWell(run, once);
    twice, issues := CanonicalizeEvaluated(once);
    CanonicalRunIdempotent(run);
  }

  /** Two runs that differ by the order of sets come out equal. */
  method CanonicalizeReordered(a: EvaluatedRun, b: EvaluatedRun) returns (x: EvaluatedRun, y: EvaluatedRun)
    requires WellFormedRun(a) && AlikeRun(a, b)
    ensures x == y
  {
    var issues;
    AlikeRunStaysWell(a, b);
    x, issues := CanonicalizeEvaluated(a);
    y, issues := CanonicalizeEvaluated(b);
    RunIgnoresOrder(a, b);
  }
}
