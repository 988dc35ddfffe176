/** From the socket tables to the claim: what the listener rule concludes on a locally diagnosed run. */
module LocalConclusion {
  import opened Text
  import opened Model
  import opened Sorting
  import opened Canonical
  import opened Evaluating
  import opened LocalDiagnosis
  import opened LocalAbsence
  import opened ListenerRule
  import opened AlikeAbsence
  import opened LocalUnique
  import Canonicalizing
  import Procfs

  /** The client's run as the local diagnosis takes it over: one record per ID, nothing of the local host yet. */
  ghost predicate ClientRun(e: EvidenceRun, inv: Inventory)
  {
    && Untouched(e) && UniqueIds(e) && NoLocalIds(e)
    && 0 <= e.coherenceWindow && e.target.effectivePort == inv.port
  }

  /** The bucket was read in full and is empty, its family matters to the target, and no listener takes its connections. */
  ghost predicate BucketConcludes(e: EvidenceRun, inv: Inventory, host: Option<Address>, k: nat)
    requires k < 6
  {
    && BucketComplete(inv, k) && BucketEmpty(inv, k)
    && Applies(LocalEvidence(e, inv), host, FamilyAt(k)) && !Compatible(LocalEvidence(e, inv), host, BucketScope(inv, k))
  }

  lemma OneElement<T>(x: T, s: seq<T>)
    requires multiset([x]) == multiset(s)
    ensures s == [x]
  {
    SameElements([x], s);
    assert s[0] in s;
  }

  /** An assessment with one record in each of its lists at most has no other order. */
  lemma OnlyOrder(v: VisibilityAssessment, w: VisibilityAssessment)
    requires AlikeVisibility(v, w) && |v.basis| <= 1 && |v.limitations| <= 1
    ensures w == v
  {
    SameElements(v.basis, w.basis);
    SameElements(v.limitations, w.limitations);
    if |v.basis| == 1 {
      OneElement(v.basis[0], w.basis);
    }
    if |v.limitations| == 1 {
      OneElement(v.limitations[0], w.limitations);
    }
  }

  lemma AssessmentScope(e: EvidenceRun, inv: Inventory, k: nat)
    requires k < 6
    ensures Assessment(e, inv, k).scope.listener == Some(BucketScope(inv, k))
    ensures |Assessment(e, inv, k).basis| <= 1 && |Assessment(e, inv, k).limitations| <= 1
    ensures Assessment(e, inv, k) in LocalEvidence(e, inv).visibility
  {
    BucketsAreAssessed(inv, Now(e), 6, k);
  }

  lemma OnlyOrderStays(a: seq<VisibilityAssessment>, b: seq<VisibilityAssessment>, v: VisibilityAssessment)
    requires SameUpTo(AlikeVisibility, a, b) && v in a && |v.basis| <= 1 && |v.limitations| <= 1
    ensures v in b
  {
    var m: seq<VisibilityAssessment> :| multiset(m) == multiset(a) && |m| == |b| && Pointwise(AlikeVisibility, m, b);
    SameElements(m, a);
    var i :| 0 <= i < |m| && m[i] == v;
    OnlyOrder(v, b[i]);
    assert b[i] in b;
  }

  lemma AssessmentStaysListed(e: EvidenceRun, inv: Inventory, k: nat, local: EvidenceRun, out: EvidenceRun)
    requires k < 6 && local == LocalEvidence(e, inv) && AlikeEvidence(local, out)
    ensures Assessment(e, inv, k) in out.visibility
  {
    AssessmentScope(e, inv, k);
    OnlyOrderStays(local.visibility, out.visibility, Assessment(e, inv, k));
  }

  /**
   * On the run with the local evidence, in whatever order canonicalization puts its records, the assessment of
   * each bucket is still there, and the rule concludes from it exactly when the bucket was read in full and
   * is empty, its family matters to the target, and no listener seen would take the target's connections.
   */
  lemma ConcludesExactly(e: EvidenceRun, inv: Inventory, host: Option<Address>, k: nat, out: EvidenceRun)
    requires ClientRun(e, inv) && k < 6 && AlikeEvidence(LocalEvidence(e, inv), out)
    ensures Assessment(e, inv, k) in out.visibility
    ensures Concludes(out, host, Assessment(e, inv, k)) <==> BucketConcludes(e, inv, host, k)
  {
    var r, v := LocalEvidence(e, inv), Assessment(e, inv, k);
    AssessmentStaysListed(e, inv, k, r, out);
    LocalEvidenceIsUnique(e, inv);
    ConclusionIgnoresOrder(r, out, host, v, v);
    ConcludesBefore(e, inv, host, k, r, v);
  }

  lemma ConcludesBefore(e: EvidenceRun, inv: Inventory, host: Option<Address>, k: nat, r: EvidenceRun, v: VisibilityAssessment)
    requires ClientRun(e, inv) && k < 6 && r == LocalEvidence(e, inv) && v == Assessment(e, inv, k)
    ensures Concludes(r, host, v) <==> BucketConcludes(e, inv, host, k)
  {
    AbsenceExactly(e, inv, k, inv.port);
    AssessmentScope(e, inv, k);
  }

  /** So whenever the rule concludes, the family's table was read, and no row of it listens there. */
  lemma ConclusionIsTrueOfTheTables(
    e: EvidenceRun, tables: map<string, seq<seq<string>>>, namespaceInode: nat, inv: Inventory, host: Option<Address>, k: nat,
    out: EvidenceRun)
    requires ClientRun(e, inv) && k < 6 && AlikeEvidence(LocalEvidence(e, inv), out)
    requires Collected(tables, namespaceInode, inv) && Concludes(out, host, Assessment(e, inv, k))
    ensures FamilyAt(k) in tables
    ensures forall row :: row in tables[FamilyAt(k)] ==> !Procfs.Listens(row, FamilyAt(k), inv.port, BindingAt(k))
  {
    ConcludesExactly(e, inv, host, k, out);
    assert TableIsComplete(tables, FamilyAt(k), inv.port);
    EmptyBucketIsNoRow(tables, namespaceInode, inv, k);
  }

  /** Candidates of one run are the same only for assessments of one ID. */
  lemma CandidateNamesAssessment(r: EvidenceRun, v: VisibilityAssessment, w: VisibilityAssessment)
    requires v.scope.listener.Some? && w.scope.listener.Some? && CandidateFor(r, v) == CandidateFor(r, w)
    ensures v.visibilityID == w.visibilityID
  {
    assert CandidateFor(r, v).key == "listener-" + v.visibilityID && CandidateFor(r, w).key == "listener-" + w.visibilityID;
    assert ("listener-" + v.visibilityID)[|"listener-"|..] == v.visibilityID;
    assert ("listener-" + w.visibilityID)[|"listener-"|..] == w.visibilityID;
  }

  lemma OneAssessmentPerId(s: seq<VisibilityAssessment>, v: VisibilityAssessment, w: VisibilityAssessment)
    requires UniqueKeys(VisibilityKey, s) && v in s && w in s && v.visibilityID == w.visibilityID
    ensures v == w
  {
    var i :| 0 <= i < |s| && s[i] == v;
    var j :| 0 <= j < |s| && s[j] == w;
    assert VisibilityKey(s[i]) == VisibilityKey(s[j]);
  }

  lemma CandidateListedExactly(out: EvidenceRun, host: Option<Address>, vs: seq<VisibilityAssessment>, v: VisibilityAssessment)
    requires UniqueKeys(VisibilityKey, vs) && v in vs && v.scope.listener.Some?
    ensures CandidateFor(out, v) in Conclusions(out, host, vs) <==> Concludes(out, host, v)
  {
    ConclusionsExact(out, host, vs, CandidateFor(out, v));
    forall w | w in vs && Concludes(out, host, w) && CandidateFor(out, v) == CandidateFor(out, w)
      ensures w == v
    {
      CandidateNamesAssessment(out, v, w);
      OneAssessmentPerId(vs, v, w);
    }
  }

  /**
   * The path of the local diagnosis: the local evidence is added, the run canonicalized, and the rule applied to
   * it. The rule has a candidate for a bucket exactly when the inventory says that nothing there would answer.
   */
  method ConcludeLocally(e: EvidenceRun, inv: Inventory, host: Option<Address>)
    returns (out: EvidenceRun, issues: seq<Issue>, candidates: seq<RuleCandidate>)
    requires ClientRun(e, inv)
    ensures AlikeEvidence(LocalEvidence(e, inv), out)
    ensures issues == [] ==> forall k :: 0 <= k < 6 ==> BucketListed(e, inv, host, k, out, candidates)
  {
    out, issues := CanonicalizeLocal(e, inv);
    candidates := [];
    if |issues| > 0 {
      return;
    }
    candidates := EvaluateRule(out, host);
    BucketsAreListed(e, inv, host, LocalEvidence(e, inv), out);
  }

  method CanonicalizeLocal(e: EvidenceRun, inv: Inventory) returns (out: EvidenceRun, issues: seq<Issue>)
    ensures AlikeEvidence(LocalEvidence(e, inv), out)
  {
    var local := AddLocalEvidence(e, inv);
    out, issues := Canonicalizing.CanonicalizeEvidence(local);
  }

  lemma BucketsAreListed(e: EvidenceRun, inv: Inventory, host: Option<Address>, local: EvidenceRun, out: EvidenceRun)
    requires ClientRun(e, inv) && local == LocalEvidence(e, inv) && AlikeEvidence(local, out)
    ensures forall k :: 0 <= k < 6 ==> BucketListed(e, inv, host, k, out, Conclusions(out, host, out.visibility))
  {
    LocalEvidenceIsUnique(e, inv);
    VisibilityStaysUnique(local, out);
    forall k | 0 <= k < 6
      ensures BucketListed(e, inv, host, k, out, Conclusions(out, host, out.visibility))
    {
      BucketIsListed(e, inv, host, k, local, out);
    }
  }

  /** The run holds the assessment of the bucket, and the candidates hold one for it exactly when the bucket concludes. */
  ghost predicate BucketListed(
    e: EvidenceRun, inv: Inventory, host: Option<Address>, k: nat, out: EvidenceRun, candidates: seq<RuleCandidate>)
    requires k < 6
  {
    && Assessment(e, inv, k) in out.visibility && Assessment(e, inv, k).scope.listener.Some?
    && (CandidateFor(out, Assessment(e, inv, k)) in candidates <==> BucketConcludes(e, inv, host, k))
  }

  lemma BucketIsListed(e: EvidenceRun, inv: Inventory, host: Option<Address>, k: nat, local: EvidenceRun, out: EvidenceRun)
    requires ClientRun(e, inv) && k < 6 && local == LocalEvidence(e, inv) && AlikeEvidence(local, out)
    requires UniqueKeys(VisibilityKey, out.visibility)
    ensures BucketListed(e, inv, host, k, out, Conclusions(out, host, out.visibility))
  {
    ConcludesExactly(e, inv, host, k, out);
    AssessmentScope(e, inv, k);
    CandidateListedExactly(out, host, out.visibility, Assessment(e, inv, k));
  }

  lemma VisibilityStaysUnique(a: EvidenceRun, b: EvidenceRun)
    requires UniqueKeys(VisibilityKey, a.visibility) && AlikeEvidence(a, b)
    ensures UniqueKeys(VisibilityKey, b.visibility)
  {
    assert SharesKey(VisibilityKey, AlikeVisibility);
    UniqueKeysUpTo(VisibilityKey, AlikeVisibility, a.visibility, b.visibility);
  }
}
