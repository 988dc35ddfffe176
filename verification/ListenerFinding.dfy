/** What becomes of the finding the listener rule returns: when the reference checks pass it, and where it can attach. */
module ListenerFindings {
  import opened Text
  import opened Model
  import opened Sorting
  import opened Branches
  import opened Justification
  import opened ClaimValidation
  import opened Selecting
  import opened Evaluating
  import opened ListenerRule
  import CanonicalBranches
  import SelectionApply

  /** The finding the evaluator compiles from the rule's candidate, under the ID of the candidate's one claim. */
  function FindingFor(r: EvidenceRun, v: VisibilityAssessment, ruleID: RuleID, id: FindingID, claim: ClaimID): Finding
    requires v.scope.listener.Some?
  {
    CompiledFinding(ruleID, CandidateFor(r, v).findings[0], id, map["absence" := claim])
  }

  /** Every branch has at most one place that cites the assessment. */
  ghost predicate CitedOnce(edges: seq<PathEdge>, branches: seq<Branch>, id: VisibilityID)
  {
    forall b :: b in branches ==> |BranchPositions(edges, b, |b.edges|, id)| <= 1
  }

  lemma AllOnBranch(edges: seq<PathEdge>, b: Branch, id: VisibilityID)
    ensures forall q :: q in BranchPositions(edges, b, |b.edges|, id) ==> q.branchID == b.branchID
  {
    forall q | q in BranchPositions(edges, b, |b.edges|, id)
      ensures q.branchID == b.branchID
    {
      BranchPositionsExact(edges, b, |b.edges|, id, q);
    }
  }

  lemma DistinctGrow(front: seq<PathPosition>, back: seq<PathPosition>, id: BranchID)
    requires (forall q :: q in front ==> q.branchID != id) && forall q :: q in back ==> q.branchID == id
    ensures NoRepeats(BranchIdsOf(front + back)) <==> NoRepeats(BranchIdsOf(front)) && |back| <= 1
  {
    var all := BranchIdsOf(front + back);
    assert forall i :: 0 <= i < |front| ==> all[i] == BranchIdsOf(front)[i] == front[i].branchID && front[i] in front;
    assert forall i :: 0 <= i < |back| ==> all[|front| + i] == back[i].branchID && back[i] in back;
    if |back| > 1 {
      assert all[|front|] == all[|front| + 1];
    }
  }

  /** The branches the rule lists are distinct exactly when each is cited at one place at most. */
  lemma {:induction false} BranchesDistinct(edges: seq<PathEdge>, branches: seq<Branch>, id: VisibilityID)
    requires CanonicalBranches.DistinctIds(branches)
    ensures NoRepeats(BranchIdsOf(AllPositions(edges, branches, id))) <==> CitedOnce(edges, branches, id)
  {
    if branches == [] {
      assert BranchIdsOf(AllPositions(edges, branches, id)) == [];
    } else {
      var n := |branches| - 1;
      var front, back := AllPositions(edges, branches[..n], id), BranchPositions(edges, branches[n], |branches[n].edges|, id);
      BranchesDistinct(edges, branches[..n], id);
      AllOnBranch(edges, branches[n], id);
      forall q | q in front
        ensures q.branchID != branches[n].branchID
      {
        PositionsExact(edges, branches[..n], id, q);
      }
      DistinctGrow(front, back, branches[n].branchID);
      assert forall b :: b in branches <==> b in branches[..n] || b == branches[n];
    }
  }

  lemma {:induction false} EdgeCountOf(branches: seq<Branch>, b: Branch)
    requires CanonicalBranches.DistinctIds(branches) && b in branches
    ensures BranchEdgeCount(branches, b.branchID) == |b.edges|
  {
    if branches[0] == b {
    } else {
      assert b in branches[1..];
      var i :| 0 <= i < |branches[1..]| && branches[1..][i] == b;
      assert branches[i + 1] == b && branches[0].branchID != b.branchID;
      assert CanonicalBranches.DistinctIds(branches[1..]) by {
        assert forall j :: 0 <= j < |branches| - 1 ==> branches[1..][j] == branches[j + 1];
      }
      EdgeCountOf(branches[1..], b);
    }
  }

  lemma ListedPositionsAreSound(x: EvaluatedRun, id: VisibilityID)
    requires CanonicalBranches.DistinctIds(x.evidence.branches)
    ensures var positions := AllPositions(x.evidence.pathEdges, x.evidence.branches, id);
            && (forall q :: q in positions ==> PositionInBranch(x, q))
            && forall b :: b in BranchIdsOf(positions) ==> ContainsBranch(x.evidence.branches, b)
  {
    var branches, positions := x.evidence.branches, AllPositions(x.evidence.pathEdges, x.evidence.branches, id);
    forall q | q in positions
      ensures PositionInBranch(x, q) && ContainsBranch(branches, q.branchID)
    {
      PositionsExact(x.evidence.pathEdges, branches, id, q);
      var b :| b in branches && q.branchID == b.branchID && q.position < |b.edges|;
      EdgeCountOf(branches, b);
    }
  }

  /**
   * In a run that holds the rule's claim, the reference checks pass the rule's finding exactly when no branch
   * cites the assessment at two places: each citation lists the branch once more, and a repeated branch is an issue.
   */
  lemma FindingPassesExactly(
    x: EvaluatedRun, ids: map<ClaimID, nat>, v: VisibilityAssessment, ruleID: RuleID, id: FindingID, claim: ClaimID)
    requires v.scope.listener.Some? && CanonicalBranches.DistinctIds(x.evidence.branches)
    requires Indexes(ids, x.claims) && claim in ids && x.claims[ids[claim]].ruleID == ruleID
    requires x.claims[ids[claim]].level == Inferred
    ensures SoundFinding(x, ids, FindingFor(x.evidence, v, ruleID, id, claim)) <==>
              CitedOnce(x.evidence.pathEdges, x.evidence.branches, v.visibilityID)
  {
    var f := FindingFor(x.evidence, v, ruleID, id, claim);
    assert f.positions == AllPositions(x.evidence.pathEdges, x.evidence.branches, v.visibilityID);
    assert f.claimIDs == [claim];
    BranchesDistinct(x.evidence.pathEdges, x.evidence.branches, v.visibilityID);
    ListedPositionsAreSound(x, v.visibilityID);
    assert SoundFindingClaim(x, ids, f, claim);
  }

  // ---------------------------------------------------------------- on validated evidence

  /** validatePath admits observations and assertions alone as evidence of an edge. */
  ghost predicate EdgesCiteBaseRecords(edges: seq<PathEdge>)
  {
    forall e, x :: e in edges && x in e.refs ==> x.kind == ObservationEvidence || x.kind == AssertionEvidence
  }

  /** So no edge ever cites an assessment, and the rule's finding lists no branch. */
  lemma FindingAttachesNowhere(r: EvidenceRun, v: VisibilityAssessment, ruleID: RuleID, id: FindingID, claim: ClaimID)
    requires EdgesCiteBaseRecords(r.pathEdges) && v.scope.listener.Some?
    ensures var f := FindingFor(r, v, ruleID, id, claim); f.branchIDs == [] && f.positions == []
    ensures CitedOnce(r.pathEdges, r.branches, v.visibilityID)
  {
    var positions := AllPositions(r.pathEdges, r.branches, v.visibilityID);
    if positions != [] {
      assert positions[0] in positions;
      PositionsExact(r.pathEdges, r.branches, v.visibilityID, positions[0]);
    }
    forall b | b in r.branches
      ensures BranchPositions(r.pathEdges, b, |b.edges|, v.visibilityID) == []
    {
      var ps := BranchPositions(r.pathEdges, b, |b.edges|, v.visibilityID);
      if ps != [] {
        assert ps[0] in ps;
        BranchPositionsExact(r.pathEdges, b, |b.edges|, v.visibilityID, ps[0]);
      }
    }
  }

  /** A call of Apply passes over a finding that is attached nowhere, whatever the others are. */
  method ApplyPassesOver(r: EvaluatedRun, i: nat) returns (out: EvaluatedRun)
    requires i < |r.findings| && r.findings[i].branchIDs == []
    ensures |out.findings| == |r.findings| && out.findings[i].selection == NotSelected
  {
    var issues;
    out, issues := SelectionApply.Apply(r);
    forall leaf
      ensures !InRange(r.evidence.branches, leaf, Stripped(r.findings[i]))
    {
      FirstAttachedFinds(Stripped(r.findings[i]), Chain(ById(r.evidence.branches), leaf, {}));
    }
  }

  /** So on validated evidence the conclusion that nothing listens never becomes a primary finding. */
  method NoListenerIsNeverSelected(
    r: EvaluatedRun, i: nat, v: VisibilityAssessment, ruleID: RuleID, id: FindingID, claim: ClaimID) returns (out: EvaluatedRun)
    requires EdgesCiteBaseRecords(r.evidence.pathEdges) && v.scope.listener.Some?
    requires i < |r.findings| && r.findings[i] == FindingFor(r.evidence, v, ruleID, id, claim)
    ensures |out.findings| == |r.findings| && out.findings[i].selection == NotSelected
  {
    FindingAttachesNowhere(r.evidence, v, ruleID, id, claim);
    out := ApplyPassesOver(r, i);
  }
}
