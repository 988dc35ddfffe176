/**
 * The reference checks of internal/model/validate_evaluated.go and what a run without issues satisfies:
 * every supported claim rests on base evidence through earlier claims of its own rule.
 */
module ClaimValidation {
  import opened Text
  import opened Model
  import opened Ids
  import opened Branches
  import opened Graphs
  import opened Justification

  // ---------------------------------------------------------------- claim references

  function TargetCount(x: EvidenceRef): nat
  {
    (if x.observationID.Some? then 1 else 0) + (if x.claimID.Some? then 1 else 0)
    + (if x.visibilityID.Some? then 1 else 0) + (if x.assertionID.Some? then 1 else 0)
  }

  predicate ContainsObservation(all: seq<Observation>, id: string) { exists o :: o in all && o.observationID == id }

  predicate ContainsVisibility(all: seq<VisibilityAssessment>, id: string) { exists v :: v in all && v.visibilityID == id }

  predicate ContainsAssertion(all: seq<Assertion>, id: string) { exists a :: a in all && a.assertionID == id }

  /** The record a non-claim reference names exists in the run. */
  predicate NamesRecord(e: EvidenceRun, x: EvidenceRef)
  {
    match x.kind
    case ObservationEvidence => x.observationID.Some? && ContainsObservation(e.observations, x.observationID.value)
    case VisibilityEvidence => x.visibilityID.Some? && ContainsVisibility(e.visibility, x.visibilityID.value)
    case AssertionEvidence => x.assertionID.Some? && ContainsAssertion(e.assertions, x.assertionID.value)
    case _ => false
  }

  /** What one reference of claim `index` adds to the issues. */
  function RefIssues(r: EvaluatedRun, ids: map<ClaimID, nat>, index: nat, x: EvidenceRef, pointer: string): seq<Issue>
    requires Indexes(ids, r.claims) && index < |r.claims|
  {
    if !x.kind.Valid() || TargetCount(x) != 1 then [Issue(KindMismatchCode, pointer, "reference must have one target")]
    else if x.kind != ClaimEvidence then
      if NamesRecord(r.evidence, x) then [] else [Issue(ReferenceMissingCode, pointer, "record reference missing")]
    else if x.claimID.None? then [Issue(KindMismatchCode, pointer, "claim target missing")]
    else if x.claimID.value !in ids then [Issue(ReferenceMissingCode, pointer, "claim reference missing")]
    else
      var target := ids[x.claimID.value];
      (if target >= index then [Issue(ForwardClaimCode, pointer, "claim reference must point backward")] else []) +
      (if r.claims[target].ruleID != r.claims[index].ruleID
       then [Issue(CrossRuleClaimCode, pointer, "claim reference crosses rule")] else [])
  }

  /** A reference with one target of its own kind: an existing record, or an earlier claim of the same rule. */
  ghost predicate SoundRef(r: EvaluatedRun, ids: map<ClaimID, nat>, index: nat, x: EvidenceRef)
    requires Indexes(ids, r.claims) && index < |r.claims|
  {
    && TargetCount(x) == 1
    && (x.kind == ClaimEvidence ==>
          && Resolve(x, ids).Some?
          && Resolve(x, ids).value < index
          && r.claims[Resolve(x, ids).value].ruleID == r.claims[index].ruleID)
    && (x.kind != ClaimEvidence ==> NamesRecord(r.evidence, x))
  }

  ghost predicate SoundClaim(r: EvaluatedRun, ids: map<ClaimID, nat>, index: nat)
    requires Indexes(ids, r.claims) && index < |r.claims|
  {
    var c := r.claims[index];
    && (forall x :: x in c.supporting ==> SoundRef(r, ids, index, x))
    && (forall x :: x in c.contradicting ==> SoundRef(r, ids, index, x))
  }

  /** validateClaimRefs: appends to the issues, and appends nothing exactly when every reference is sound. */
  method ValidateClaimRefs(issues: seq<Issue>, r: EvaluatedRun, index: nat, ids: map<ClaimID, nat>)
    returns (out: seq<Issue>)
    requires Indexes(ids, r.claims) && index < |r.claims|
    ensures issues <= out
    ensures out == issues <==> SoundClaim(r, ids, index)
  {
    var c := r.claims[index];
    var all := c.supporting + c.contradicting;
    out := issues;
    for j := 0 to |all|
      invariant issues <= out
      invariant out == issues <==> forall i :: 0 <= i < j ==> SoundRef(r, ids, index, all[i])
    {
      var pointer := "/claims/" + Itoa(index) +
        if j < |c.supporting| then "/supporting_evidence/" + Itoa(j)
        else "/contradicting_evidence/" + Itoa(j - |c.supporting|);
      var found := RefIssues(r, ids, index, all[j], pointer);
      assert found == [] <==> SoundRef(r, ids, index, all[j]);
      out := out + found;
    }
    assert forall i :: 0 <= i < |all| ==> all[i] in c.supporting || all[i] in c.contradicting;
    assert forall x :: x in c.supporting || x in c.contradicting ==> x in all;
  }

  // ---------------------------------------------------------------- claim graphs

  /** The level and missing-evidence rules a claim with support must meet. */
  ghost predicate SoundLevel(c: Claim)
  {
    && (c.level == Observed ==> HasBase(c))
    && (c.level == Suspected ==> c.missing != [])
  }

  /** The checks of validateClaimGraphs on one claim; a claim whose supporting list is empty is passed over. */
  method ValidateSupport(issues: seq<Issue>, r: EvaluatedRun, i: nat, ids: map<ClaimID, nat>) returns (out: seq<Issue>)
    requires Indexes(ids, r.claims) && i < |r.claims|
    ensures issues <= out
    ensures out == issues ==> SoundSupport(r, ids, i)
    ensures AllWellCited(r.claims, ids) && SoundSupport(r, ids, i) ==> out == issues
  {
    var c := r.claims[i];
    out := issues;
    if |c.supporting| == 0 {
      return;
    }
    var base := HasNonClaimReference(c.supporting);
    if !base && c.level == Observed {
      out := out + [Issue(SupportLevelCode, "/claims/" + Itoa(i) + "/level",
                          "observed claim cannot rely only on another claim")];
    }
    if c.level == Suspected && |c.missing| == 0 {
      out := out + [Issue(JustificationMissingCode, "/claims/" + Itoa(i) + "/required_missing_evidence",
                          "suspected claim must name missing evidence")];
    }
    if !base {
      var reaches := ClaimPathReachesBase(r.claims, i, ids);
      if !reaches {
        out := out + [Issue(JustificationMissingCode, "/claims/" + Itoa(i) + "/supporting_evidence",
                            "claim has no admissible base support")];
      }
    } else {
      ReachesSelf(Citations(r.claims, ids), i as int);
    }
  }

  /** validateClaimGraphs: what no new issue means, and that on resolved references it means nothing more. */
  method ValidateClaimGraphs(issues: seq<Issue>, r: EvaluatedRun, ids: map<ClaimID, nat>) returns (out: seq<Issue>)
    requires Indexes(ids, r.claims)
    ensures issues <= out
    ensures out == issues ==> SoundGraph(r, ids)
    ensures AllWellCited(r.claims, ids) && SoundGraph(r, ids) ==> out == issues
  {
    out := issues;
    var cycle := ClaimGraphHasCycle(r.claims, ids);
    if cycle {
      out := out + [Issue(CycleCode, "/claims", "claim support graph contains a cycle")];
    }
    for i := 0 to |r.claims|
      invariant issues <= out
      invariant cycle ==> out != issues
      invariant out == issues ==> forall k :: 0 <= k < i ==> SoundSupport(r, ids, k)
      invariant AllWellCited(r.claims, ids) && SoundGraph(r, ids) ==> out == issues
    {
      out := ValidateSupport(out, r, i, ids);
    }
  }

  method HasNonClaimReference(refs: seq<EvidenceRef>) returns (base: bool)
    ensures base <==> exists j :: 0 <= j < |refs| && refs[j].kind != ClaimEvidence
  {
    base := false;
    for j := 0 to |refs|
      invariant base <==> exists i :: 0 <= i < j && refs[i].kind != ClaimEvidence
    {
      if refs[j].kind != ClaimEvidence {
        base := true;
      }
    }
  }

  ghost predicate SoundSupport(r: EvaluatedRun, ids: map<ClaimID, nat>, i: int)
    requires 0 <= i < |r.claims|
  {
    r.claims[i].supporting != [] ==> SoundLevel(r.claims[i]) && ReachesBase(r.claims, ids, i)
  }

  ghost predicate SoundGraph(r: EvaluatedRun, ids: map<ClaimID, nat>)
  {
    && !HasCycle(Citations(r.claims, ids))
    && forall i :: 0 <= i < |r.claims| ==> SoundSupport(r, ids, i)
  }

  // ---------------------------------------------------------------- findings

  ghost predicate SoundFinding(r: EvaluatedRun, ids: map<ClaimID, nat>, f: Finding)
    requires Indexes(ids, r.claims)
  {
    && SoundBranchList(r, f.branchIDs)
    && (forall p :: p in f.positions ==> PositionInBranch(r, p))
    && (forall id :: id in f.claimIDs ==> SoundFindingClaim(r, ids, f, id))
  }

  ghost predicate SoundBranchList(r: EvaluatedRun, s: seq<BranchID>)
  {
    && (forall i, j :: 0 <= i < j < |s| ==> s[i] != s[j])
    && (forall id :: id in s ==> ContainsBranch(r.evidence.branches, id))
  }

  predicate PositionInBranch(r: EvaluatedRun, p: PathPosition)
  {
    ContainsBranch(r.evidence.branches, p.branchID) && p.position < BranchEdgeCount(r.evidence.branches, p.branchID)
  }

  predicate SoundFindingClaim(r: EvaluatedRun, ids: map<ClaimID, nat>, f: Finding, id: ClaimID)
    requires Indexes(ids, r.claims)
  {
    && id in ids
    && r.claims[ids[id]].ruleID == f.ruleID
    && (r.claims[ids[id]].level == Suspected ==> f.selection == NotSelected || f.selection == Additional)
  }

  method ValidateFindingBranches(issues: seq<Issue>, r: EvaluatedRun, f: Finding, pointer: string) returns (out: seq<Issue>)
    ensures issues <= out
    ensures out == issues <==> SoundBranchList(r, f.branchIDs)
  {
    out := issues;
    var seen: set<BranchID> := {};
    for i := 0 to |f.branchIDs|
      invariant issues <= out
      invariant forall id :: id in seen <==> id in f.branchIDs[..i]
      invariant out == issues <==> SoundBranchList(r, f.branchIDs[..i])
    {
      var id := f.branchIDs[i];
      ghost var before := out;
      if id in seen {
        out := out + [Issue(DuplicateIdCode, pointer + "/branch_ids/" + Itoa(i), "duplicate branch")];
      }
      seen := seen + {id};
      if !ContainsBranch(r.evidence.branches, id) {
        out := out + [Issue(ReferenceMissingCode, pointer + "/branch_ids/" + Itoa(i), "branch missing")];
      }
      BranchListGrows(r, f.branchIDs[..i], id);
      assert f.branchIDs[..i + 1] == f.branchIDs[..i] + [id];
    }
    assert f.branchIDs[..|f.branchIDs|] == f.branchIDs;
  }

  lemma BranchListGrows(r: EvaluatedRun, s: seq<BranchID>, id: BranchID)
    ensures SoundBranchList(r, s + [id]) <==>
            SoundBranchList(r, s) && id !in s && ContainsBranch(r.evidence.branches, id)
  {
    var t := s + [id];
    assert t[|s|] == id && forall i :: 0 <= i < |s| ==> t[i] == s[i];
    if SoundBranchList(r, t) {
      assert forall x :: x in s ==> x in t;
      assert id in t;
    }
  }

  method ValidateFindingPositions(issues: seq<Issue>, r: EvaluatedRun, f: Finding, pointer: string) returns (out: seq<Issue>)
    ensures issues <= out
    ensures out == issues <==> forall p :: p in f.positions ==> PositionInBranch(r, p)
  {
    out := issues;
    for i := 0 to |f.positions|
      invariant issues <= out
      invariant out == issues <==> forall a :: 0 <= a < i ==> PositionInBranch(r, f.positions[a])
    {
      if !PositionInBranch(r, f.positions[i]) {
        out := out + [Issue(InvalidValueCode, pointer + "/path_positions/" + Itoa(i), "invalid branch position")];
      }
    }
  }

  method ValidateFindingClaims(
    issues: seq<Issue>, r: EvaluatedRun, f: Finding, pointer: string, ids: map<ClaimID, nat>) returns (out: seq<Issue>)
    requires Indexes(ids, r.claims)
    ensures issues <= out
    ensures out == issues <==> forall id :: id in f.claimIDs ==> SoundFindingClaim(r, ids, f, id)
  {
    out := issues;
    for i := 0 to |f.claimIDs|
      invariant issues <= out
      invariant out == issues <==> forall a :: 0 <= a < i ==> SoundFindingClaim(r, ids, f, f.claimIDs[a])
    {
      var id := f.claimIDs[i];
      if id !in ids {
        out := out + [Issue(ReferenceMissingCode, pointer + "/claim_ids/" + Itoa(i), "claim missing")];
        continue;
      }
      var c := r.claims[ids[id]];
      if c.ruleID != f.ruleID {
        out := out + [Issue(RuleMismatchCode, pointer + "/claim_ids/" + Itoa(i), "finding claim has a different rule")];
      }
      if c.level == Suspected && f.selection != NotSelected && f.selection != Additional {
        out := out + [Issue(GlobalPrimaryCode, pointer + "/selection",
                            "suspected claim cannot support selected confirmed finding")];
      }
    }
  }

  /** validateFindingRefs: its three loops append nothing exactly when the finding's references are sound. */
  method ValidateFindingRefs(issues: seq<Issue>, r: EvaluatedRun, index: nat, ids: map<ClaimID, nat>)
    returns (out: seq<Issue>)
    requires Indexes(ids, r.claims) && index < |r.findings|
    ensures issues <= out
    ensures out == issues <==> SoundFinding(r, ids, r.findings[index])
  {
    var f := r.findings[index];
    var pointer := "/findings/" + Itoa(index);
    out := ValidateFindingBranches(issues, r, f, pointer);
    out := ValidateFindingPositions(out, r, f, pointer);
    out := ValidateFindingClaims(out, r, f, pointer, ids);
  }

  // ---------------------------------------------------------------- what acceptance gives

  ghost predicate SoundClaims(r: EvaluatedRun, ids: map<ClaimID, nat>)
    requires Indexes(ids, r.claims)
  {
    forall i :: 0 <= i < |r.claims| ==> SoundClaim(r, ids, i)
  }

  ghost predicate SoundFindings(r: EvaluatedRun, ids: map<ClaimID, nat>)
    requires Indexes(ids, r.claims)
  {
    forall k :: 0 <= k < |r.findings| ==> SoundFinding(r, ids, r.findings[k])
  }

  ghost predicate SoundRun(r: EvaluatedRun, ids: map<ClaimID, nat>)
    requires Indexes(ids, r.claims)
  {
    SoundClaims(r, ids) && SoundGraph(r, ids) && SoundFindings(r, ids)
  }

  method IndexClaims(claims: seq<Claim>) returns (ids: map<ClaimID, nat>)
    ensures ids == ClaimIndex(claims)
  {
    ids := map[];
    for i := 0 to |claims|
      invariant ids == ClaimIndex(claims[..i])
    {
      assert claims[..i + 1][..i] == claims[..i];
      ids := ids[claims[i].claimID := i];
    }
    assert claims[..|claims|] == claims;
  }

  method ValidateAllClaimRefs(r: EvaluatedRun, ids: map<ClaimID, nat>) returns (issues: seq<Issue>)
    requires Indexes(ids, r.claims)
    ensures issues == [] <==> SoundClaims(r, ids)
  {
    issues := [];
    for i := 0 to |r.claims|
      invariant issues == [] <==> forall k :: 0 <= k < i ==> SoundClaim(r, ids, k)
    {
      issues := ValidateClaimRefs(issues, r, i, ids);
    }
  }

  method ValidateAllFindingRefs(before: seq<Issue>, r: EvaluatedRun, ids: map<ClaimID, nat>) returns (issues: seq<Issue>)
    requires Indexes(ids, r.claims)
    ensures issues == [] <==> before == [] && SoundFindings(r, ids)
  {
    issues := before;
    for i := 0 to |r.findings|
      invariant issues == [] <==> before == [] && forall k :: 0 <= k < i ==> SoundFinding(r, ids, r.findings[k])
    {
      issues := ValidateFindingRefs(issues, r, i, ids);
    }
  }

  /** The reference phase of the persisted-run validation: it raises no issue exactly on sound runs. */
  method ValidateReferences(r: EvaluatedRun) returns (issues: seq<Issue>)
    ensures issues == [] <==> SoundRun(r, ClaimIndex(r.claims))
  {
    var ids := IndexClaims(r.claims);
    issues := ValidateAllClaimRefs(r, ids);
    if issues == [] {
      SoundClaimsAreWellCited(r, ids);
    }
    issues := ValidateClaimGraphs(issues, r, ids);
    issues := ValidateAllFindingRefs(issues, r, ids);
  }

  lemma SoundClaimsAreWellCited(r: EvaluatedRun, ids: map<ClaimID, nat>)
    requires Indexes(ids, r.claims) && SoundClaims(r, ids)
    ensures AllWellCited(r.claims, ids)
  {
    forall n | 0 <= n < |r.claims|
      ensures WellCited(r.claims, ids, n)
    {
      assert SoundClaim(r, ids, n);
      assert forall j :: 0 <= j < |r.claims[n].supporting| ==> SoundRef(r, ids, n, r.claims[n].supporting[j]);
    }
  }

  /** Without forward references the graph has no cycle, whatever else is wrong with it. */
  lemma NoForwardReferenceNoCycle(claims: seq<Claim>, ids: map<ClaimID, nat>)
    requires Indexes(ids, claims)
    requires forall i, j :: 0 <= i < |claims| && 0 <= j < |claims[i].supporting| && Resolve(claims[i].supporting[j], ids).Some? ==>
                              Resolve(claims[i].supporting[j], ids).value < i
    ensures !HasCycle(Citations(claims, ids))
  {
    var g := Citations(claims, ids);
    var rank := map n | n in g :: n;
    forall a, b | a in rank && Edge(g, a, b)
      ensures b in rank && rank[b] < rank[a]
    {
      TargetsResolve(claims[a].supporting, ids);
      var j :| 0 <= j < |claims[a].supporting| && Resolve(claims[a].supporting[j], ids) == Some(b);
    }
    RankedHasNoCycle(g, rank);
  }

  /** A chain of claims of one rule, each citing an earlier one, down to a claim citing an existing record. */
  ghost predicate GroundedBy(r: EvaluatedRun, ids: map<ClaimID, nat>, p: seq<int>, i: int)
    requires Indexes(ids, r.claims)
  {
    && |p| > 0 && p[0] == i && 0 <= i < |r.claims|
    && (forall k :: 0 <= k < |p| ==> 0 <= p[k] < |r.claims| && r.claims[p[k]].ruleID == r.claims[i].ruleID)
    && (forall k, l :: 0 <= k < l < |p| ==> p[l] < p[k])
    && IsPath(Citations(r.claims, ids), p)
    && exists x :: x in r.claims[p[|p| - 1]].supporting && x.kind != ClaimEvidence && NamesRecord(r.evidence, x)
  }

  lemma SoundEdge(r: EvaluatedRun, ids: map<ClaimID, nat>, a: int, b: int)
    requires Indexes(ids, r.claims) && SoundClaims(r, ids)
    requires Edge(Citations(r.claims, ids), a, b)
    ensures 0 <= b < a < |r.claims| && r.claims[b].ruleID == r.claims[a].ruleID
  {
    TargetsResolve(r.claims[a].supporting, ids);
    var j :| 0 <= j < |r.claims[a].supporting| && Resolve(r.claims[a].supporting[j], ids) == Some(b);
    assert SoundClaim(r, ids, a);
    assert SoundRef(r, ids, a, r.claims[a].supporting[j]);
  }

  lemma {:induction false} SoundPathDescends(r: EvaluatedRun, ids: map<ClaimID, nat>, p: seq<int>)
    requires Indexes(ids, r.claims) && SoundClaims(r, ids)
    requires IsPath(Citations(r.claims, ids), p) && 0 <= p[0] < |r.claims|
    ensures forall k :: 0 <= k < |p| ==> 0 <= p[k] < |r.claims| && r.claims[p[k]].ruleID == r.claims[p[0]].ruleID
    ensures forall k, l :: 0 <= k < l < |p| ==> p[l] < p[k]
  {
    if |p| > 1 {
      var n := |p| - 1;
      var q := p[..n];
      PathPrefix(Citations(r.claims, ids), p, n);
      SoundPathDescends(r, ids, q);
      assert Step(Citations(r.claims, ids), p, n - 1);
      SoundEdge(r, ids, p[n - 1], p[n]);
      assert forall k :: 0 <= k < n ==> p[k] == q[k];
    }
  }

  /**
   * In a sound run a claim rests on base evidence exactly when it has supporting references at all, and
   * then through a strictly descending chain of claims of its own rule.
   */
  lemma AcceptedClaimIsGrounded(r: EvaluatedRun, ids: map<ClaimID, nat>, i: int)
    requires Indexes(ids, r.claims) && SoundRun(r, ids) && 0 <= i < |r.claims|
    ensures r.claims[i].supporting != [] <==> exists p :: GroundedBy(r, ids, p, i)
  {
    var g := Citations(r.claims, ids);
    if r.claims[i].supporting != [] {
      assert SoundSupport(r, ids, i);
      var n :| Reaches(g, i, n) && 0 <= n < |r.claims| && HasBase(r.claims[n]);
      var p :| PathFromTo(g, p, i, n);
      SoundPathDescends(r, ids, p);
      var j :| 0 <= j < |r.claims[n].supporting| && r.claims[n].supporting[j].kind != ClaimEvidence;
      var x := r.claims[n].supporting[j];
      assert SoundClaim(r, ids, n);
      assert x in r.claims[n].supporting && SoundRef(r, ids, n, x);
      assert GroundedBy(r, ids, p, i);
    } else {
      forall p
        ensures !GroundedBy(r, ids, p, i)
      {
        assert g[i] == [];
        assert |p| > 1 && p[0] == i ==> !Step(g, p, 0);
      }
    }
  }

  /** A finding of a sound run reaches base evidence, through its own rule, by any supported claim it cites. */
  lemma AcceptedFindingIsGrounded(r: EvaluatedRun, ids: map<ClaimID, nat>, k: nat, id: ClaimID)
    requires Indexes(ids, r.claims) && SoundRun(r, ids)
    requires k < |r.findings| && id in r.findings[k].claimIDs && id in ids && r.claims[ids[id]].supporting != []
    ensures exists p :: GroundedBy(r, ids, p, ids[id]) &&
                        forall n :: 0 <= n < |p| ==> r.claims[p[n]].ruleID == r.findings[k].ruleID
  {
    AcceptedClaimIsGrounded(r, ids, ids[id]);
    var p :| GroundedBy(r, ids, p, ids[id]);
    assert SoundFinding(r, ids, r.findings[k]);
    assert SoundFindingClaim(r, ids, r.findings[k], id);
  }

  // ---------------------------------------------------------------- a claim that rests on nothing

  /** Claims and findings carry the IDs 1, 2, 3, ... as the validator prints them. */
  ghost predicate SequentialIds(r: EvaluatedRun)
  {
    && (forall i :: 0 <= i < |r.claims| ==> r.claims[i].claimID == GeneratedId(CLAIM_PREFIX, i + 1))
    && (forall i :: 0 <= i < |r.findings| ==> r.findings[i].findingID == GeneratedId(FINDING_PREFIX, i + 1))
  }

  /** One parameter record, that of the claim's own statement; on a refused connection validateClaimParameters asks no more. */
  predicate SoundParameters(c: Claim)
  {
    var p := c.parameters;
    && p.kind == c.statement
    && (if p.hostnameMismatch.Some? then 1 else 0) + (if p.tcpRefused.Some? then 1 else 0) +
       (if p.listenerAbsent.Some? then 1 else 0) == 1
    && match c.statement
       case HostnameMismatch => p.hostnameMismatch.Some?
       case TcpRefused => p.tcpRefused.Some? && ValidPlain(p.tcpRefused.value.vantageID, "vantage-")
       case NoListener => p.listenerAbsent.Some?
       case OtherStatement(_) => false
  }

  /** The rule is one of those evaluated, and listed once. */
  ghost predicate ListedOnce(rules: seq<RuleID>, id: RuleID) { id != "" && id in rules && multiset(rules)[id] == 1 }

  /**
   * An empty supporting list passes: numbered IDs, listed rules, parameters that match the statement, sound
   * references and an accepted selection, and yet the finding cites a claim that rests on nothing.
   */
  lemma UnsupportedClaimIsAccepted(e: EvidenceRun) returns (r: EvaluatedRun)
    ensures r.evidence == e && |r.findings| == 1 && |r.claims| == 1 && r.findings[0].claimIDs == [r.claims[0].claimID]
    ensures SequentialIds(r) && SoundParameters(r.claims[0])
    ensures ListedOnce(r.evaluation.ruleIDs, r.claims[0].ruleID) && r.findings[0].ruleID == r.claims[0].ruleID
    ensures SoundRun(r, ClaimIndex(r.claims)) && ValidSelection(r.findings, e.branches)
    ensures forall p :: !GroundedBy(r, ClaimIndex(r.claims), p, 0)
  {
    var rule := "tcp.connection_refused/v1";
    var refused := TcpRefusedParameters("entity-endpoint", "vantage-client", 0);
    var c := Claim(GeneratedId(CLAIM_PREFIX, 1), TcpRefused, Inferred, [], [],
                   ClaimParameters(TcpRefused, None, Some(refused), None), [], [], [], rule);
    var f := Finding(GeneratedId(FINDING_PREFIX, 1), Blocker, "TCP_CONNECTION_REFUSED", Inferred, [], [], [c.claimID],
                     rule, [], [], NotSelected);
    r := EvaluatedRun(e, Evaluation([rule], ""), [c], [f]);
    ClientVantageIsValid();
    UnsupportedIsSound(r, c, f);
  }

  lemma ClientVantageIsValid()
    ensures ValidPlain("vantage-client", "vantage-")
  {
    var rest := "vantage-client"[|"vantage-"|..];
    assert rest == "client" && rest[0] == 'c';
  }

  lemma UnsupportedIsSound(r: EvaluatedRun, c: Claim, f: Finding)
    requires r.claims == [c] && r.findings == [f] && c.supporting == [] && c.contradicting == [] && c.level == Inferred
    requires f.claimIDs == [c.claimID] && f.ruleID == c.ruleID && f.branchIDs == [] && f.positions == []
    ensures SoundRun(r, ClaimIndex(r.claims)) && forall p :: !GroundedBy(r, ClaimIndex(r.claims), p, 0)
  {
    var ids := ClaimIndex(r.claims);
    assert r.claims[0] == c && c.claimID in ids && ids[c.claimID] == 0;
    NoForwardReferenceNoCycle(r.claims, ids);
    assert SoundClaim(r, ids, 0);
    assert SoundSupport(r, ids, 0);
    assert SoundGraph(r, ids);
    assert SoundFindingClaim(r, ids, f, c.claimID);
    assert SoundFinding(r, ids, f);
    AcceptedClaimIsGrounded(r, ids, 0);
  }
}
