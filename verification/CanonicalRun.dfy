/**
 * The canonical form of an evaluated run (CanonicalizeEvaluated of internal/model/canonicalize.go) and its
 * laws: claims and findings by number, and in each of them every list that is a set in its own order.
 */
module CanonicalRuns {
  import opened Text
  import opened Model
  import opened Ids
  import opened Sorting
  import opened Branches
  import opened Canonical
  import CanonicalBranches
  import MissingEvidences

  // ---------------------------------------------------------------- the orders

  function ClaimLess(a: Claim, b: Claim): bool { CompareIds(a.claimID, b.claimID, CLAIM_PREFIX) < 0 }

  function FindingLess(a: Finding, b: Finding): bool { CompareIds(a.findingID, b.findingID, FINDING_PREFIX) < 0 }

  function ClaimIdLess(a: ClaimID, b: ClaimID): bool { CompareIds(a, b, CLAIM_PREFIX) < 0 }

  /** branchIndex: the first position of the branch, one past the length when it is absent. */
  function BranchIndex(branches: seq<Branch>, id: BranchID): nat
  {
    if branches == [] then 1
    else if branches[0].branchID == id then 0
    else 1 + BranchIndex(branches[1..], id)
  }

  predicate HasBranch(branches: seq<Branch>, id: BranchID) { exists b :: b in branches && b.branchID == id }

  lemma {:induction false} BranchIndexFinds(branches: seq<Branch>, id: BranchID)
    ensures HasBranch(branches, id) ==>
              BranchIndex(branches, id) < |branches| && branches[BranchIndex(branches, id)].branchID == id
    ensures !HasBranch(branches, id) ==> BranchIndex(branches, id) == |branches| + 1
    ensures forall i :: 0 <= i < |branches| && i < BranchIndex(branches, id) ==> branches[i].branchID != id
  {
    if branches != [] {
      BranchIndexFinds(branches[1..], id);
      assert branches[0] in branches;
      assert forall b :: b in branches <==> b == branches[0] || b in branches[1..];
    }
  }

  function BranchLess(branches: seq<Branch>): (BranchID, BranchID) -> bool
  {
    (a: BranchID, b: BranchID) => BranchIndex(branches, a) < BranchIndex(branches, b)
  }

  function PositionLess(branches: seq<Branch>): (PathPosition, PathPosition) -> bool
  {
    (a: PathPosition, b: PathPosition) => BranchIndex(branches, a.branchID) < BranchIndex(branches, b.branchID)
  }

  ghost predicate KnownBranches(branches: seq<Branch>, ids: seq<BranchID>)
  {
    forall id :: id in ids ==> HasBranch(branches, id)
  }

  lemma BranchOrderTotal(branches: seq<Branch>, ids: seq<BranchID>)
    requires KnownBranches(branches, ids)
    ensures Total(BranchLess(branches), ids)
  {
    var less := BranchLess(branches);
    forall x, y | x in ids && y in ids && x != y
      ensures less(x, y) || less(y, x)
    {
      BranchIndexFinds(branches, x);
      BranchIndexFinds(branches, y);
    }
  }

  /** On known branches, at most one position each. */
  ghost predicate KnownPositions(branches: seq<Branch>, s: seq<PathPosition>)
  {
    && (forall p :: p in s ==> HasBranch(branches, p.branchID))
    && (forall p, q :: p in s && q in s && p.branchID == q.branchID ==> p == q)
  }

  lemma PositionOrderTotal(branches: seq<Branch>, s: seq<PathPosition>)
    requires KnownPositions(branches, s)
    ensures Total(PositionLess(branches), s)
  {
    var less := PositionLess(branches);
    forall x, y | x in s && y in s && x != y
      ensures less(x, y) || less(y, x)
    {
      BranchIndexFinds(branches, x.branchID);
      BranchIndexFinds(branches, y.branchID);
    }
  }

  /** Valid generated IDs, one spelling per number. */
  ghost predicate OneSpelling(ids: seq<string>, prefix: string)
  {
    && (forall a :: a in ids ==> ValidGenerated(a, prefix))
    && (forall a, b :: a in ids && b in ids && GeneratedNumber(a, prefix) == GeneratedNumber(b, prefix) ==> a == b)
  }

  lemma ClaimIdsTotal(ids: seq<ClaimID>)
    requires OneSpelling(ids, CLAIM_PREFIX)
    ensures Total(ClaimIdLess, ids)
  {
    forall x, y | x in ids && y in ids && x != y
      ensures ClaimIdLess(x, y) || ClaimIdLess(y, x)
    {
      assert GeneratedNumber(x, CLAIM_PREFIX) != GeneratedNumber(y, CLAIM_PREFIX);
    }
  }

  ghost predicate WellRequired(s: seq<MissingEvidence>) { forall m :: m in s ==> MissingEvidences.WellFormed(m) }

  lemma MissingTotal(s: seq<MissingEvidence>)
    requires WellRequired(s)
    ensures Total(MissingEvidences.MissingLess, s)
  {
    forall x | x in s
      ensures !MissingEvidences.MissingLess(x, x)
    {
      MissingEvidences.CompareMissingIsTotal(x, x, x);
    }
    forall x, y, z | x in s && y in s && z in s && MissingEvidences.MissingLess(x, y) && MissingEvidences.MissingLess(y, z)
      ensures MissingEvidences.MissingLess(x, z)
    {
      MissingEvidences.CompareMissingIsTotal(x, y, z);
    }
    forall x, y | x in s && y in s && x != y
      ensures MissingEvidences.MissingLess(x, y) || MissingEvidences.MissingLess(y, x)
    {
      MissingEvidences.CompareMissingIsTotal(x, y, x);
    }
  }

  // ---------------------------------------------------------------- records

  ghost function NormClaim(branches: seq<Branch>): Claim -> Claim
  {
    (c: Claim) => c.(
      subjects := StableSort(Less, c.subjects),
      branchIDs := StableSort(BranchLess(branches), c.branchIDs),
      supporting := StableSort(RefLess, c.supporting),
      contradicting := StableSort(RefLess, c.contradicting),
      missing := StableSort(MissingEvidences.MissingLess, c.missing))
  }

  ghost function NormFinding(branches: seq<Branch>): Finding -> Finding
  {
    (f: Finding) => f.(
      branchIDs := StableSort(BranchLess(branches), f.branchIDs),
      positions := StableSort(PositionLess(branches), f.positions),
      claimIDs := StableSort(ClaimIdLess, f.claimIDs),
      limitations := SortLimitations(f.limitations))
  }

  predicate AlikeClaim(a: Claim, b: Claim)
  {
    && a == b.(subjects := a.subjects, branchIDs := a.branchIDs, supporting := a.supporting,
               contradicting := a.contradicting, missing := a.missing)
    && multiset(a.subjects) == multiset(b.subjects) && multiset(a.branchIDs) == multiset(b.branchIDs)
    && multiset(a.supporting) == multiset(b.supporting) && multiset(a.contradicting) == multiset(b.contradicting)
    && multiset(a.missing) == multiset(b.missing)
  }

  /** The suggested experiments keep their order. */
  predicate AlikeFinding(a: Finding, b: Finding)
  {
    && a == b.(branchIDs := a.branchIDs, positions := a.positions, claimIDs := a.claimIDs, limitations := a.limitations)
    && multiset(a.branchIDs) == multiset(b.branchIDs) && multiset(a.positions) == multiset(b.positions)
    && multiset(a.claimIDs) == multiset(b.claimIDs) && multiset(a.limitations) == multiset(b.limitations)
  }

  ghost function WellClaim(branches: seq<Branch>): Claim -> bool
  {
    (c: Claim) =>
      && KnownBranches(branches, c.branchIDs)
      && WellReferredAll(c.supporting) && WellReferredAll(c.contradicting)
      && WellRequired(c.missing)
  }

  ghost function WellFinding(branches: seq<Branch>): Finding -> bool
  {
    (f: Finding) =>
      && KnownBranches(branches, f.branchIDs) && KnownPositions(branches, f.positions)
      && OneSpelling(f.claimIDs, CLAIM_PREFIX) && WellLimited(f.limitations)
  }

  ghost predicate NumberedClaims(s: seq<Claim>)
  {
    && (forall c :: c in s ==> ValidGenerated(c.claimID, CLAIM_PREFIX))
    && (forall i, j :: 0 <= i < j < |s| ==>
          GeneratedNumber(s[i].claimID, CLAIM_PREFIX) != GeneratedNumber(s[j].claimID, CLAIM_PREFIX))
  }

  ghost predicate NumberedFindings(s: seq<Finding>)
  {
    && (forall f :: f in s ==> ValidGenerated(f.findingID, FINDING_PREFIX))
    && (forall i, j :: 0 <= i < j < |s| ==>
          GeneratedNumber(s[i].findingID, FINDING_PREFIX) != GeneratedNumber(s[j].findingID, FINDING_PREFIX))
  }

  lemma ClaimsTotal(s: seq<Claim>)
    requires NumberedClaims(s)
    ensures Total(ClaimLess, s)
  {
  }

  lemma FindingsTotal(s: seq<Finding>)
    requires NumberedFindings(s)
    ensures Total(FindingLess, s)
  {
  }

  // ---------------------------------------------------------------- runs

  ghost function CanonicalRun(r: EvaluatedRun): EvaluatedRun
  {
    var e := CanonicalEvidence(r.evidence);
    r.(evidence := e.(limitations := SortLimitations(e.limitations)),
       claims := Canon(ClaimLess, NormClaim(e.branches), r.claims),
       findings := Canon(FindingLess, NormFinding(e.branches), r.findings))
  }

  ghost predicate WellFormedRun(r: EvaluatedRun)
  {
    && WellFormedEvidence(r.evidence)
    && NumberedClaims(r.claims) && (forall c :: c in r.claims ==> WellClaim(r.evidence.branches)(c))
    && NumberedFindings(r.findings) && (forall f :: f in r.findings ==> WellFinding(r.evidence.branches)(f))
  }

  ghost predicate AlikeRun(a: EvaluatedRun, b: EvaluatedRun)
  {
    && AlikeEvidence(a.evidence, b.evidence)
    && a.evaluation == b.evaluation
    && SameUpTo(AlikeClaim, a.claims, b.claims)
    && SameUpTo(AlikeFinding, a.findings, b.findings)
  }

  lemma SameBranchesKnown(a: seq<Branch>, b: seq<Branch>)
    requires multiset(a) == multiset(b)
    ensures forall id :: HasBranch(a, id) <==> HasBranch(b, id)
  {
    SameElements(a, b);
  }

  lemma ClaimsSettle(branches: seq<Branch>, x: Claim, y: Claim)
    requires WellClaim(branches)(x) && AlikeClaim(x, y)
    ensures NormClaim(branches)(x) == NormClaim(branches)(y)
  {
    StringsSettle(x.subjects);
    BranchOrderTotal(branches, x.branchIDs);
    SortOfPermutation(BranchLess(branches), x.branchIDs, y.branchIDs);
    RefsSettle(x.supporting);
    RefsSettle(x.contradicting);
    MissingTotal(x.missing);
    SortOfPermutation(MissingEvidences.MissingLess, x.missing, y.missing);
  }

  lemma FindingsSettle(branches: seq<Branch>, x: Finding, y: Finding)
    requires WellFinding(branches)(x) && AlikeFinding(x, y)
    ensures NormFinding(branches)(x) == NormFinding(branches)(y)
  {
    BranchOrderTotal(branches, x.branchIDs);
    SortOfPermutation(BranchLess(branches), x.branchIDs, y.branchIDs);
    PositionOrderTotal(branches, x.positions);
    SortOfPermutation(PositionLess(branches), x.positions, y.positions);
    ClaimIdsTotal(x.claimIDs);
    SortOfPermutation(ClaimIdLess, x.claimIDs, y.claimIDs);
    LimitationsSettle(x.limitations);
  }

  lemma ClaimsKeepIds(branches: seq<Branch>)
    ensures Unseen(ClaimLess, NormClaim(branches))
  {
    forall x, y
      ensures ClaimLess(NormClaim(branches)(x), NormClaim(branches)(y)) == ClaimLess(x, y)
    {
      assert NormClaim(branches)(x).claimID == x.claimID && NormClaim(branches)(y).claimID == y.claimID;
    }
  }

  lemma ClaimsIgnoreOrder(branches: seq<Branch>, a: seq<Claim>, b: seq<Claim>)
    requires NumberedClaims(a) && (forall c :: c in a ==> WellClaim(branches)(c)) && SameUpTo(AlikeClaim, a, b)
    ensures Canon(ClaimLess, NormClaim(branches), a) == Canon(ClaimLess, NormClaim(branches), b)
  {
    var norm := NormClaim(branches);
    forall x, y | x in a && AlikeClaim(x, y)
      ensures norm(x) == norm(y)
    {
      ClaimsSettle(branches, x, y);
    }
    ClaimsTotal(a);
    assert Settles(norm, AlikeClaim, a);
    ClaimsKeepIds(branches);
    CanonIgnoresOrder(ClaimLess, norm, AlikeClaim, a, b);
  }

  lemma FindingsKeepIds(branches: seq<Branch>)
    ensures Unseen(FindingLess, NormFinding(branches))
  {
    forall x, y
      ensures FindingLess(NormFinding(branches)(x), NormFinding(branches)(y)) == FindingLess(x, y)
    {
      assert NormFinding(branches)(x).findingID == x.findingID && NormFinding(branches)(y).findingID == y.findingID;
    }
  }

  lemma FindingsIgnoreOrder(branches: seq<Branch>, a: seq<Finding>, b: seq<Finding>)
    requires NumberedFindings(a) && (forall f :: f in a ==> WellFinding(branches)(f)) && SameUpTo(AlikeFinding, a, b)
    ensures Canon(FindingLess, NormFinding(branches), a) == Canon(FindingLess, NormFinding(branches), b)
  {
    var norm := NormFinding(branches);
    forall x, y | x in a && AlikeFinding(x, y)
      ensures norm(x) == norm(y)
    {
      FindingsSettle(branches, x, y);
    }
    FindingsTotal(a);
    assert Settles(norm, AlikeFinding, a);
    FindingsKeepIds(branches);
    CanonIgnoresOrder(FindingLess, norm, AlikeFinding, a, b);
  }

  lemma WellAfterOrdering(r: EvaluatedRun)
    requires WellFormedRun(r)
    ensures multiset(CanonicalOrder(r.evidence.branches)) == multiset(r.evidence.branches)
    ensures forall c :: c in r.claims ==> WellClaim(CanonicalOrder(r.evidence.branches))(c)
    ensures forall f :: f in r.findings ==> WellFinding(CanonicalOrder(r.evidence.branches))(f)
  {
    var branches := r.evidence.branches;
    StableSortPermutes(CanonicalBranches.DepthLess(ById(branches)), branches);
    SameBranchesKnown(branches, CanonicalOrder(branches));
    forall c | c in r.claims
      ensures WellClaim(CanonicalOrder(branches))(c)
    {
      assert WellClaim(branches)(c);
    }
    forall f | f in r.findings
      ensures WellFinding(CanonicalOrder(branches))(f)
    {
      assert WellFinding(branches)(f);
    }
  }

  /** Runs that differ by the order of collections that are sets have one canonical form. */
  lemma RunIgnoresOrder(a: EvaluatedRun, b: EvaluatedRun)
    requires WellFormedRun(a) && AlikeRun(a, b)
    ensures CanonicalRun(a) == CanonicalRun(b)
  {
    EvidenceIgnoresOrder(a.evidence, b.evidence);
    WellAfterOrdering(a);
    var branches := CanonicalEvidence(a.evidence).branches;
    ClaimsIgnoreOrder(branches, a.claims, b.claims);
    FindingsIgnoreOrder(branches, a.findings, b.findings);
  }

  lemma ClaimIsAlike(branches: seq<Branch>, c: Claim)
    ensures AlikeClaim(c, NormClaim(branches)(c))
  {
    StableSortPermutes(Less, c.subjects);
    StableSortPermutes(BranchLess(branches), c.branchIDs);
    StableSortPermutes(RefLess, c.supporting);
    StableSortPermutes(RefLess, c.contradicting);
    StableSortPermutes(MissingEvidences.MissingLess, c.missing);
  }

  lemma FindingIsAlike(branches: seq<Branch>, f: Finding)
    ensures AlikeFinding(f, NormFinding(branches)(f))
  {
    StableSortPermutes(BranchLess(branches), f.branchIDs);
    StableSortPermutes(PositionLess(branches), f.positions);
    StableSortPermutes(ClaimIdLess, f.claimIDs);
    StableSortPermutes(ByKey(LimitationKey), f.limitations);
  }

  /** Every collection is kept as a multiset, record by record; edge and experiment order do not change. */
  lemma CanonicalRunIsAlike(r: EvaluatedRun)
    ensures AlikeRun(r, CanonicalRun(r))
  {
    CanonicalEvidenceIsAlike(r.evidence);
    var e := CanonicalEvidence(r.evidence);
    StableSortPermutes(ByKey(LimitationKey), e.limitations);
    forall c
      ensures AlikeClaim(c, NormClaim(e.branches)(c))
    {
      ClaimIsAlike(e.branches, c);
    }
    forall f
      ensures AlikeFinding(f, NormFinding(e.branches)(f))
    {
      FindingIsAlike(e.branches, f);
    }
    CanonIsAlike(ClaimLess, NormClaim(e.branches), AlikeClaim, r.claims);
    CanonIsAlike(FindingLess, NormFinding(e.branches), AlikeFinding, r.findings);
  }

  // ---------------------------------------------------------------- what reordering keeps

  lemma ClaimStaysWell(branches: seq<Branch>, branches': seq<Branch>, c: Claim, d: Claim)
    requires WellClaim(branches)(c) && AlikeClaim(c, d) && multiset(branches) == multiset(branches')
    ensures WellClaim(branches')(d)
  {
    SameBranchesKnown(branches, branches');
    SameElements(c.branchIDs, d.branchIDs);
    SameElements(c.supporting, d.supporting);
    SameElements(c.contradicting, d.contradicting);
    SameElements(c.missing, d.missing);
  }

  lemma FindingStaysWell(branches: seq<Branch>, branches': seq<Branch>, f: Finding, g: Finding)
    requires WellFinding(branches)(f) && AlikeFinding(f, g) && multiset(branches) == multiset(branches')
    ensures WellFinding(branches')(g)
  {
    SameBranchesKnown(branches, branches');
    SameElements(f.branchIDs, g.branchIDs);
    SameElements(f.positions, g.positions);
    SameElements(f.claimIDs, g.claimIDs);
    LimitedPermuted(f.limitations, g.limitations);
  }

  /** Numbers survive: alike records share their ID. */
  lemma ClaimsStayNumbered(a: seq<Claim>, b: seq<Claim>)
    requires NumberedClaims(a) && SameUpTo(AlikeClaim, a, b)
    ensures NumberedClaims(b)
  {
    var m: seq<Claim> :| multiset(m) == multiset(a) && |m| == |b| && Pointwise(AlikeClaim, m, b);
    SameElements(a, m);
    NoRepeatsPermuted(a, m);
    forall i, j | 0 <= i < j < |m|
      ensures GeneratedNumber(m[i].claimID, CLAIM_PREFIX) != GeneratedNumber(m[j].claimID, CLAIM_PREFIX)
    {
      assert m[i] in a && m[j] in a && m[i] != m[j];
    }
    assert forall i :: 0 <= i < |b| ==> m[i] in a && b[i].claimID == m[i].claimID;
  }

  lemma FindingsStayNumbered(a: seq<Finding>, b: seq<Finding>)
    requires NumberedFindings(a) && SameUpTo(AlikeFinding, a, b)
    ensures NumberedFindings(b)
  {
    var m: seq<Finding> :| multiset(m) == multiset(a) && |m| == |b| && Pointwise(AlikeFinding, m, b);
    SameElements(a, m);
    NoRepeatsPermuted(a, m);
    forall i, j | 0 <= i < j < |m|
      ensures GeneratedNumber(m[i].findingID, FINDING_PREFIX) != GeneratedNumber(m[j].findingID, FINDING_PREFIX)
    {
      assert m[i] in a && m[j] in a && m[i] != m[j];
    }
    assert forall i :: 0 <= i < |b| ==> m[i] in a && b[i].findingID == m[i].findingID;
  }

  lemma ClaimsStayWell(branches: seq<Branch>, branches': seq<Branch>, a: seq<Claim>, b: seq<Claim>)
    requires (forall c :: c in a ==> WellClaim(branches)(c)) && SameUpTo(AlikeClaim, a, b)
    requires multiset(branches) == multiset(branches')
    ensures forall c :: c in b ==> WellClaim(branches')(c)
  {
    var m: seq<Claim> :| multiset(m) == multiset(a) && |m| == |b| && Pointwise(AlikeClaim, m, b);
    SameElements(m, a);
    forall i | 0 <= i < |b|
      ensures WellClaim(branches')(b[i])
    {
      assert m[i] in m && AlikeClaim(m[i], b[i]);
      ClaimStaysWell(branches, branches', m[i], b[i]);
    }
  }

  lemma FindingsStayWell(branches: seq<Branch>, branches': seq<Branch>, a: seq<Finding>, b: seq<Finding>)
    requires (forall f :: f in a ==> WellFinding(branches)(f)) && SameUpTo(AlikeFinding, a, b)
    requires multiset(branches) == multiset(branches')
    ensures forall f :: f in b ==> WellFinding(branches')(f)
  {
    var m: seq<Finding> :| multiset(m) == multiset(a) && |m| == |b| && Pointwise(AlikeFinding, m, b);
    SameElements(m, a);
    forall i | 0 <= i < |b|
      ensures WellFinding(branches')(b[i])
    {
      assert m[i] in m && AlikeFinding(m[i], b[i]);
      FindingStaysWell(branches, branches', m[i], b[i]);
    }
  }

  /** Reordering the sets of a well-formed run leaves it well-formed. */
  lemma AlikeRunStaysWell(a: EvaluatedRun, b: EvaluatedRun)
    requires WellFormedRun(a) && AlikeRun(a, b)
    ensures WellFormedRun(b)
  {
    AlikeEvidenceStaysWell(a.evidence, b.evidence);
    ClaimsStayNumbered(a.claims, b.claims);
    FindingsStayNumbered(a.findings, b.findings);
    ClaimsStayWell(a.evidence.branches, b.evidence.branches, a.claims, b.claims);
    FindingsStayWell(a.evidence.branches, b.evidence.branches, a.findings, b.findings);
  }

  /** Canonicalizing twice is canonicalizing once. */
  lemma CanonicalRunIdempotent(r: EvaluatedRun)
    requires WellFormedRun(r)
    ensures CanonicalRun(CanonicalRun(r)) == CanonicalRun(r)
  {
    CanonicalRunIsAlike(r);
    RunIgnoresOrder(r, CanonicalRun(r));
  }
}
