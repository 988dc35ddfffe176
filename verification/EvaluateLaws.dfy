/** What the template phase of the evaluator guarantees about IDs, references and the order of candidates. */
module EvaluatorLaws {
  import opened Text
  import opened Model
  import opened Ids
  import opened Sorting
  import opened Justification
  import opened ClaimValidation
  import opened CanonicalRuns
  import opened Evaluating

  // ---------------------------------------------------------------- generated IDs

  ghost predicate NumberedFrom1(claims: seq<Claim>)
  {
    forall i :: 0 <= i < |claims| ==> claims[i].claimID == ClaimIdAt(i)
  }

  ghost predicate FindingsNumberedFrom1(findings: seq<Finding>)
  {
    forall i :: 0 <= i < |findings| ==> findings[i].findingID == FindingIdAt(i)
  }

  /** The ID of a claim with an index from `lo` up to `hi`. */
  ghost predicate NamesClaim(id: ClaimID, lo: int, hi: int)
  {
    exists n: nat :: lo <= n < hi && id == ClaimIdAt(n)
  }

  /** Every claim reference of `c` names a claim from `lo` up to `hi`. */
  ghost predicate RefersWithin(c: Claim, lo: int, hi: int)
  {
    forall x :: x in c.supporting + c.contradicting && x.kind == ClaimEvidence ==>
      x.claimID.Some? && NamesClaim(x.claimID.value, lo, hi)
  }

  lemma {:induction false} NoTemplateIssues(xs: seq<EvidenceTemplate>, local: map<string, ClaimID>)
    ensures TemplateIssues(xs, local) == [] <==> forall j :: 0 <= j < |xs| ==> !Unresolved(xs[j], local)
  {
    if xs != [] {
      NoTemplateIssues(xs[..|xs| - 1], local);
    }
  }

  ghost predicate LocalsWithin(local: map<string, ClaimID>, lo: int, hi: int)
  {
    forall k :: k in local ==> NamesClaim(local[k], lo, hi)
  }

  lemma WidenLocals(local: map<string, ClaimID>, lo: int, hi: int, key: string, n: nat)
    requires LocalsWithin(local, lo, hi) && lo <= n && hi <= n + 1
    ensures LocalsWithin(local[key := ClaimIdAt(n)], lo, n + 1)
  {
    var local' := local[key := ClaimIdAt(n)];
    forall k | k in local'
      ensures NamesClaim(local'[k], lo, n + 1)
    {
      if k != key {
        assert NamesClaim(local[k], lo, hi);
      }
    }
  }

  lemma TemplatesReferWithin(xs: seq<EvidenceTemplate>, local: map<string, ClaimID>, lo: int, hi: int)
    requires LocalsWithin(local, lo, hi) && TemplateIssues(xs, local) == []
    ensures forall x :: x in FromTemplates(xs, local) && x.kind == ClaimEvidence ==>
              x.claimID.Some? && NamesClaim(x.claimID.value, lo, hi)
  {
    NoTemplateIssues(xs, local);
    var refs := FromTemplates(xs, local);
    forall x | x in refs && x.kind == ClaimEvidence
      ensures x.claimID.Some? && NamesClaim(x.claimID.value, lo, hi)
    {
      var j :| 0 <= j < |refs| && refs[j] == x;
      assert !Unresolved(xs[j], local);
    }
  }

  /** The claim is what the template says. */
  ghost predicate Compiles(c: Claim, t: ClaimTemplate, ruleID: RuleID)
  {
    && c == Claim(c.claimID, t.statement, t.level, t.subjects, t.branchIDs, t.parameters, c.supporting, c.contradicting,
                  t.missing, ruleID)
    && |c.supporting| == |t.supporting| && |c.contradicting| == |t.contradicting|
  }

  /** The draft after the templates `ts`, on top of the claims `before`, with no issue raised. */
  ghost predicate Laid(ruleID: RuleID, ts: seq<ClaimTemplate>, before: seq<Claim>, d: Draft)
  {
    && |d.claims| == |before| + |ts| && before <= d.claims
    && NumberedFrom1(d.claims)
    && LocalsWithin(d.local, |before|, |d.claims|)
    && forall j :: 0 <= j < |ts| ==> LaidAt(ruleID, ts, |before|, d.claims, j)
  }

  lemma IssuesOnlyGrow(ruleID: RuleID, ts: seq<ClaimTemplate>, before: seq<Claim>, found: seq<Issue>)
    ensures CandidateClaims(ruleID, ts, before, found).issues == [] ==> found == []
  {
    if ts != [] {
      IssuesOnlyGrow(ruleID, ts[..|ts| - 1], before, found);
    }
  }

  lemma {:induction false} CandidateIsLaid(ruleID: RuleID, ts: seq<ClaimTemplate>, before: seq<Claim>, found: seq<Issue>)
    requires NumberedFrom1(before)
    requires CandidateClaims(ruleID, ts, before, found).issues == []
    ensures Laid(ruleID, ts, before, CandidateClaims(ruleID, ts, before, found))
  {
    if ts != [] {
      var n := |ts| - 1;
      var t, d := ts[n], CandidateClaims(ruleID, ts[..n], before, found);
      CandidateIsLaid(ruleID, ts[..n], before, found);
      StepIsLaid(ruleID, ts, before, d);
    }
  }

  lemma StepIsLaid(ruleID: RuleID, ts: seq<ClaimTemplate>, before: seq<Claim>, d: Draft)
    requires ts != [] && Laid(ruleID, ts[..|ts| - 1], before, d)
    requires ClaimStep(ruleID, ts[|ts| - 1], d).issues == []
    ensures Laid(ruleID, ts, before, ClaimStep(ruleID, ts[|ts| - 1], d))
  {
    var n, at := |ts| - 1, |d.claims|;
    var t, e := ts[n], ClaimStep(ruleID, ts[n], d);
    WidenLocals(d.local, |before|, at, t.localKey, at);
    NewClaimRefersWithin(ruleID, t, d, |before|);
    ClaimsStay(ruleID, ts, before, d.claims, e.claims);
  }

  /** The claim a step adds refers to the claims of its candidate up to itself. */
  lemma NewClaimRefersWithin(ruleID: RuleID, t: ClaimTemplate, d: Draft, lo: nat)
    requires lo <= |d.claims| && LocalsWithin(d.local, lo, |d.claims|) && ClaimStep(ruleID, t, d).issues == []
    ensures |ClaimStep(ruleID, t, d).claims| == |d.claims| + 1
    ensures var c := ClaimStep(ruleID, t, d).claims[|d.claims|];
            Compiles(c, t, ruleID) && c.claimID == ClaimIdAt(|d.claims|) && RefersWithin(c, lo, |d.claims| + 1)
  {
    var at, local := |d.claims|, ClaimStep(ruleID, t, d).local;
    WidenLocals(d.local, lo, at, t.localKey, at);
    TemplatesReferWithin(t.supporting, local, lo, at + 1);
    TemplatesReferWithin(t.contradicting, local, lo, at + 1);
    assert ClaimStep(ruleID, t, d).claims[at] == CompiledClaim(ruleID, t, ClaimIdAt(at), local);
  }

  /** Claim j, from template j, at its place. */
  ghost predicate LaidAt(ruleID: RuleID, ts: seq<ClaimTemplate>, start: nat, claims: seq<Claim>, j: nat)
    requires j < |ts| && start + j < |claims|
  {
    Compiles(claims[start + j], ts[j], ruleID) && RefersWithin(claims[start + j], start, start + j + 1)
  }

  lemma ClaimsStay(ruleID: RuleID, ts: seq<ClaimTemplate>, before: seq<Claim>, claims: seq<Claim>, more: seq<Claim>)
    requires ts != [] && |claims| == |before| + |ts| - 1 && |more| == |claims| + 1 && claims <= more
    requires var first := ts[..|ts| - 1]; forall j :: 0 <= j < |first| ==> LaidAt(ruleID, first, |before|, claims, j)
    requires LaidAt(ruleID, ts, |before|, more, |ts| - 1)
    ensures forall j :: 0 <= j < |ts| ==> LaidAt(ruleID, ts, |before|, more, j)
  {
    forall j | 0 <= j < |ts| - 1
      ensures LaidAt(ruleID, ts, |before|, more, j)
    {
      assert LaidAt(ruleID, ts[..|ts| - 1], |before|, claims, j);
      assert more[|before| + j] == claims[|before| + j];
    }
  }

  // ---------------------------------------------------------------- all candidates

  /** The index of the first claim of candidate k. */
  function Start(cs: seq<Compiled>, k: nat): nat
    requires k <= |cs|
  {
    if k == 0 then 0 else Start(cs, k - 1) + |cs[k - 1].candidate.claims|
  }

  lemma {:induction false} StartOfPrefix(cs: seq<Compiled>, m: nat, k: nat)
    requires k <= m <= |cs|
    ensures Start(cs[..m], k) == Start(cs, k)
  {
    if k > 0 {
      StartOfPrefix(cs, m, k - 1);
    }
  }

  lemma {:induction false} StartsGrow(cs: seq<Compiled>, k: nat, m: nat)
    requires k <= m <= |cs|
    ensures Start(cs, k) <= Start(cs, m)
    ensures k < m ==> Start(cs, k) + |cs[k].candidate.claims| <= Start(cs, m)
  {
    if k < m {
      StartsGrow(cs, k, m - 1);
    }
  }

  /** Candidate k's claims are at its place: copied from its templates, citing its own claims up to themselves. */
  ghost predicate CandidateAt(cs: seq<Compiled>, claims: seq<Claim>, k: nat)
    requires k < |cs|
  {
    var start, ts := Start(cs, k), cs[k].candidate.claims;
    && start + |ts| <= |claims|
    && forall j :: 0 <= j < |ts| ==> LaidAt(cs[k].ruleID, ts, start, claims, j)
  }

  ghost predicate LocalsAt(cs: seq<Compiled>, locals: seq<map<string, ClaimID>>, k: nat)
    requires k < |cs| == |locals|
  {
    LocalsWithin(locals[k], Start(cs, k), Start(cs, k + 1))
  }

  ghost predicate LaidOut(cs: seq<Compiled>, claims: seq<Claim>, locals: seq<map<string, ClaimID>>)
    requires |locals| == |cs|
  {
    && NumberedFrom1(claims) && |claims| == Start(cs, |cs|)
    && (forall k :: 0 <= k < |cs| ==> CandidateAt(cs, claims, k))
    && (forall k :: 0 <= k < |cs| ==> LocalsAt(cs, locals, k))
  }

  /**
   * Without a template issue the claim IDs are 1, 2, 3, ... as the validator prints them, and every claim
   * reference names a claim of the same candidate, no later than the claim that cites it.
   */
  lemma {:induction false} ClaimsAreLaidOut(cs: seq<Compiled>)
    requires AllClaims(cs).issues == []
    ensures LaidOut(cs, AllClaims(cs).claims, AllClaims(cs).locals)
  {
    if cs != [] {
      var n := |cs| - 1;
      var r, last := AllClaims(cs[..n]), cs[n];
      IssuesOnlyGrow(last.ruleID, last.candidate.claims, r.claims, r.issues);
      ClaimsAreLaidOut(cs[..n]);
      CandidateIsLaid(last.ruleID, last.candidate.claims, r.claims, r.issues);
      CandidateIsAdded(cs, r, CandidateClaims(last.ruleID, last.candidate.claims, r.claims, r.issues));
    }
  }

  lemma CandidateIsAdded(cs: seq<Compiled>, r: Compilation, d: Draft)
    requires cs != [] && |r.locals| == |cs| - 1 && LaidOut(cs[..|cs| - 1], r.claims, r.locals)
    requires Laid(cs[|cs| - 1].ruleID, cs[|cs| - 1].candidate.claims, r.claims, d)
    ensures LaidOut(cs, d.claims, r.locals + [d.local])
  {
    var n := |cs| - 1;
    StartOfPrefix(cs, n, n);
    assert CandidateAt(cs, d.claims, n);
    assert LocalsAt(cs, r.locals + [d.local], n);
    forall k | 0 <= k < n
      ensures CandidateAt(cs, d.claims, k)
      ensures LocalsAt(cs, r.locals + [d.local], k)
    {
      StartOfPrefix(cs, n, k);
      StartOfPrefix(cs, n, k + 1);
      assert LocalsAt(cs[..n], r.locals, k);
      EarlierCandidateStays(cs, r.claims, d.claims, k);
    }
  }

  lemma EarlierCandidateStays(cs: seq<Compiled>, claims: seq<Claim>, more: seq<Claim>, k: nat)
    requires k < |cs| - 1 && Start(cs[..|cs| - 1], k) == Start(cs, k)
    requires CandidateAt(cs[..|cs| - 1], claims, k) && claims <= more
    ensures CandidateAt(cs, more, k)
  {
    var start, ts := Start(cs, k), cs[k].candidate.claims;
    forall j | 0 <= j < |ts|
      ensures LaidAt(cs[k].ruleID, ts, start, more, j)
    {
      assert LaidAt(cs[k].ruleID, ts, start, claims, j);
      assert more[start + j] == claims[start + j];
    }
  }

  /** Every claim belongs to one of the candidates. */
  lemma {:induction false} CandidateOf(cs: seq<Compiled>, i: nat) returns (k: nat, j: nat)
    requires i < Start(cs, |cs|)
    ensures k < |cs| && j < |cs[k].candidate.claims| && i == Start(cs, k) + j
  {
    var n := |cs| - 1;
    if i < Start(cs, n) {
      StartOfPrefix(cs, n, n);
      k, j := CandidateOf(cs[..n], i);
      StartOfPrefix(cs, n, k);
    } else {
      k, j := n, i - Start(cs, n);
    }
  }

  // ---------------------------------------------------------------- findings

  /** The finding copies its template, and cites the claims of its candidate under the template's keys. */
  ghost predicate FindingCompiles(f: Finding, t: FindingTemplate, ruleID: RuleID, local: map<string, ClaimID>)
  {
    && f == Finding(f.findingID, t.kind, t.title, t.level, t.branchIDs, t.positions, f.claimIDs, ruleID, t.limitations,
                    t.experiments, NotSelected)
    && |f.claimIDs| == |t.claimKeys|
    && forall j :: 0 <= j < |t.claimKeys| ==> t.claimKeys[j] in local && f.claimIDs[j] == local[t.claimKeys[j]]
  }

  lemma {:induction false} NoMissingKeys(keys: seq<string>, local: map<string, ClaimID>)
    ensures MissingKeyIssues(keys, local) == [] <==> forall j :: 0 <= j < |keys| ==> keys[j] in local
  {
    if keys != [] {
      NoMissingKeys(keys[..|keys| - 1], local);
    }
  }

  /** What the templates of one candidate append. */
  ghost predicate FindingsAppended(
    ruleID: RuleID, ts: seq<FindingTemplate>, local: map<string, ClaimID>, before: seq<Finding>, after: seq<Finding>)
  {
    && |after| == |before| + |ts| && before <= after
    && FindingsNumberedFrom1(after)
    && forall j :: 0 <= j < |ts| ==> FindingCompiles(after[|before| + j], ts[j], ruleID, local)
  }

  lemma {:induction false} CandidateFindingsAppend(
    ruleID: RuleID, ts: seq<FindingTemplate>, local: map<string, ClaimID>, before: Findings)
    requires FindingsNumberedFrom1(before.findings)
    ensures CandidateFindings(ruleID, ts, local, before).issues == [] ==>
              before.issues == [] &&
              FindingsAppended(ruleID, ts, local, before.findings, CandidateFindings(ruleID, ts, local, before).findings)
  {
    if ts != [] {
      var n := |ts| - 1;
      CandidateFindingsAppend(ruleID, ts[..n], local, before);
      NoMissingKeys(ts[n].claimKeys, local);
      var r := CandidateFindings(ruleID, ts[..n], local, before).findings;
      var after := CandidateFindings(ruleID, ts, local, before).findings;
      if CandidateFindings(ruleID, ts, local, before).issues == [] {
        assert after[|r|] == CompiledFinding(ruleID, ts[n], FindingIdAt(|r|), local);
        forall j | 0 <= j < |ts|
          ensures FindingCompiles(after[|before.findings| + j], ts[j], ruleID, local)
        {
          if j < n {
            assert ts[..n][j] == ts[j];
          }
        }
      }
    }
  }

  /** The index of the first finding of candidate k. */
  function FindingStart(cs: seq<Compiled>, k: nat): nat
    requires k <= |cs|
  {
    if k == 0 then 0 else FindingStart(cs, k - 1) + |cs[k - 1].candidate.findings|
  }

  lemma {:induction false} FindingStartOfPrefix(cs: seq<Compiled>, m: nat, k: nat)
    requires k <= m <= |cs|
    ensures FindingStart(cs[..m], k) == FindingStart(cs, k)
    ensures FindingStart(cs, k) <= FindingStart(cs, m)
    ensures k < m ==> FindingStart(cs, k) + |cs[k].candidate.findings| <= FindingStart(cs, m)
    decreases m, k
  {
    if k > 0 {
      FindingStartOfPrefix(cs, m, k - 1);
    }
    if k < m {
      FindingStartOfPrefix(cs, m - 1, k);
    }
  }

  ghost predicate FindingsAt(cs: seq<Compiled>, locals: seq<map<string, ClaimID>>, findings: seq<Finding>, k: nat)
    requires k < |cs| == |locals|
  {
    var start, ts := FindingStart(cs, k), cs[k].candidate.findings;
    && start + |ts| <= |findings|
    && forall j :: 0 <= j < |ts| ==> FindingCompiles(findings[start + j], ts[j], cs[k].ruleID, locals[k])
  }

  ghost predicate FindingsLaidOut(cs: seq<Compiled>, locals: seq<map<string, ClaimID>>, findings: seq<Finding>)
    requires |cs| == |locals|
  {
    && FindingsNumberedFrom1(findings) && |findings| == FindingStart(cs, |cs|)
    && forall k :: 0 <= k < |cs| ==> FindingsAt(cs, locals, findings, k)
  }

  /** Finding IDs are 1, 2, 3, ... too, and each finding cites claims of its own candidate alone. */
  lemma {:induction false} FindingsAreLaidOut(cs: seq<Compiled>, locals: seq<map<string, ClaimID>>)
    requires |cs| == |locals| && AllFindings(cs, locals).issues == []
    ensures FindingsLaidOut(cs, locals, AllFindings(cs, locals).findings)
  {
    if cs != [] {
      var n := |cs| - 1;
      var r, last := AllFindings(cs[..n], locals[..n]), cs[n];
      FindingIssuesGrow(last.ruleID, last.candidate.findings, locals[n], r);
      FindingsAreLaidOut(cs[..n], locals[..n]);
      CandidateFindingsAppend(last.ruleID, last.candidate.findings, locals[n], r);
      FindingsAreAdded(cs, locals, r.findings, AllFindings(cs, locals).findings);
    }
  }

  lemma FindingsAreAdded(cs: seq<Compiled>, locals: seq<map<string, ClaimID>>, before: seq<Finding>, after: seq<Finding>)
    requires |cs| == |locals| && cs != [] && FindingsLaidOut(cs[..|cs| - 1], locals[..|cs| - 1], before)
    requires FindingsAppended(cs[|cs| - 1].ruleID, cs[|cs| - 1].candidate.findings, locals[|cs| - 1], before, after)
    ensures FindingsLaidOut(cs, locals, after)
  {
    var n := |cs| - 1;
    FindingStartOfPrefix(cs, n, n);
    assert FindingsAt(cs, locals, after, n);
    forall k | 0 <= k < n
      ensures FindingsAt(cs, locals, after, k)
    {
      FindingStartOfPrefix(cs, n, k);
      EarlierFindingsStay(cs, locals, before, after, k);
    }
  }

  lemma {:induction false} FindingIssuesGrow(
    ruleID: RuleID, ts: seq<FindingTemplate>, local: map<string, ClaimID>, before: Findings)
    ensures CandidateFindings(ruleID, ts, local, before).issues == [] ==> before.issues == []
  {
    if ts != [] {
      FindingIssuesGrow(ruleID, ts[..|ts| - 1], local, before);
    }
  }

  lemma EarlierFindingsStay(
    cs: seq<Compiled>, locals: seq<map<string, ClaimID>>, findings: seq<Finding>, more: seq<Finding>, k: nat)
    requires |cs| == |locals| && k < |cs| - 1 && FindingStart(cs[..|cs| - 1], k) == FindingStart(cs, k)
    requires FindingsAt(cs[..|cs| - 1], locals[..|cs| - 1], findings, k) && findings <= more
    ensures FindingsAt(cs, locals, more, k)
  {
    var start, ts := FindingStart(cs, k), cs[k].candidate.findings;
    forall j | 0 <= j < |ts|
      ensures FindingCompiles(more[start + j], ts[j], cs[k].ruleID, locals[k])
    {
      assert more[start + j] == findings[start + j];
    }
  }

  // ---------------------------------------------------------------- the numeric order keeps the sequence

  ghost predicate InNumberOrder(ids: seq<string>, prefix: string)
  {
    forall i :: 0 <= i < |ids| ==> ValidGenerated(ids[i], prefix) && GeneratedNumber(ids[i], prefix) == Some(i + 1)
  }

  lemma NumberOrderAscends(ids: seq<string>, prefix: string, i: int, j: int)
    requires InNumberOrder(ids, prefix) && 0 <= i < j < |ids|
    ensures CompareIds(ids[i], ids[j], prefix) < 0 && CompareIds(ids[j], ids[i], prefix) > 0
  {
  }

  function ClaimIds(s: seq<Claim>): (ids: seq<string>)
    ensures |ids| == |s| && forall i :: 0 <= i < |s| ==> ids[i] == s[i].claimID
  {
    seq(|s|, i requires 0 <= i < |s| => s[i].claimID)
  }

  lemma ClaimsInNumberOrder(s: seq<Claim>)
    requires NumberedFrom1(s) && |s| <= MAX_UINT64
    ensures InNumberOrder(ClaimIds(s), CLAIM_PREFIX)
  {
    forall i | 0 <= i < |s|
      ensures ValidGenerated(s[i].claimID, CLAIM_PREFIX) && GeneratedNumber(s[i].claimID, CLAIM_PREFIX) == Some(i + 1)
    {
      assert s[i].claimID == ClaimIdAt(i);
      GeneratedRoundTrip(CLAIM_PREFIX, i + 1);
    }
  }

  lemma ClaimsAscend(s: seq<Claim>)
    requires InNumberOrder(ClaimIds(s), CLAIM_PREFIX)
    ensures Sorted(ClaimLess, s)
  {
    forall i, j | 0 <= i < j < |s|
      ensures !ClaimLess(s[j], s[i])
    {
      NumberOrderAscends(ClaimIds(s), CLAIM_PREFIX, i, j);
    }
  }

  /** Canonical sorting leaves the claims as they are, also past 999999 of them. */
  lemma ClaimsAlreadySorted(s: seq<Claim>)
    requires NumberedFrom1(s) && |s| <= MAX_UINT64
    ensures NumberedClaims(s) && StableSort(ClaimLess, s) == s
  {
    ClaimsInNumberOrder(s);
    ClaimsAscend(s);
    ClaimsInOrderAreNumbered(s);
    ClaimsTotal(s);
    SortOfSorted(ClaimLess, s);
  }

  lemma ClaimsInOrderAreNumbered(s: seq<Claim>)
    requires InNumberOrder(ClaimIds(s), CLAIM_PREFIX)
    ensures NumberedClaims(s)
  {
    var ids := ClaimIds(s);
    assert forall x :: x in s ==> exists i :: 0 <= i < |s| && s[i] == x && ids[i] == x.claimID;
  }

  function FindingIds(s: seq<Finding>): (ids: seq<string>)
    ensures |ids| == |s| && forall i :: 0 <= i < |s| ==> ids[i] == s[i].findingID
  {
    seq(|s|, i requires 0 <= i < |s| => s[i].findingID)
  }

  lemma FindingsInNumberOrder(s: seq<Finding>)
    requires FindingsNumberedFrom1(s) && |s| <= MAX_UINT64
    ensures InNumberOrder(FindingIds(s), FINDING_PREFIX)
  {
    forall i | 0 <= i < |s|
      ensures ValidGenerated(s[i].findingID, FINDING_PREFIX) && GeneratedNumber(s[i].findingID, FINDING_PREFIX) == Some(i + 1)
    {
      assert s[i].findingID == FindingIdAt(i);
      GeneratedRoundTrip(FINDING_PREFIX, i + 1);
    }
  }

  lemma FindingsAscend(s: seq<Finding>)
    requires InNumberOrder(FindingIds(s), FINDING_PREFIX)
    ensures Sorted(FindingLess, s)
  {
    forall i, j | 0 <= i < j < |s|
      ensures !FindingLess(s[j], s[i])
    {
      NumberOrderAscends(FindingIds(s), FINDING_PREFIX, i, j);
    }
  }

  /** Canonical sorting leaves the findings as they are, also past 999999 of them. */
  lemma FindingsAlreadySorted(s: seq<Finding>)
    requires FindingsNumberedFrom1(s) && |s| <= MAX_UINT64
    ensures NumberedFindings(s) && StableSort(FindingLess, s) == s
  {
    FindingsInNumberOrder(s);
    FindingsAscend(s);
    FindingsInOrderAreNumbered(s);
    FindingsTotal(s);
    SortOfSorted(FindingLess, s);
  }

  lemma FindingsInOrderAreNumbered(s: seq<Finding>)
    requires InNumberOrder(FindingIds(s), FINDING_PREFIX)
    ensures NumberedFindings(s)
  {
    var ids := FindingIds(s);
    assert forall x :: x in s ==> exists i :: 0 <= i < |s| && s[i] == x && ids[i] == x.findingID;
  }
}
