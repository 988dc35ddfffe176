/** The exit status of internal/clientprobe/status.go and when it is BLOCKED. */
module Status {
  import opened Text
  import opened Model
  import opened Graphs
  import opened Branches

  datatype ReportStatus = Indeterminate | Satisfied | Blocked

  const HTTP_GOAL := "HTTP_RESPONSE"

  // ---------------------------------------------------------------- HTTP leaves

  predicate HttpLeaf(branches: seq<Branch>, b: Branch) { !HasChild(branches, b.branchID) && b.goal == HTTP_GOAL }

  function HttpLeavesOf(some: seq<Branch>, branches: seq<Branch>): (s: seq<BranchID>)
    ensures forall id :: id in s <==> exists b :: b in some && HttpLeaf(branches, b) && b.branchID == id
  {
    if some == [] then []
    else
      var last := some[|some| - 1];
      assert forall b :: b in some <==> b in some[..|some| - 1] || b == last;
      HttpLeavesOf(some[..|some| - 1], branches) + if HttpLeaf(branches, last) then [last.branchID] else []
  }

  function HttpLeaves(branches: seq<Branch>): seq<BranchID> { HttpLeavesOf(branches, branches) }

  /** leafBranches: the keys of its children map are the parents the branches name. */
  method LeafBranches(branches: seq<Branch>) returns (leaves: seq<BranchID>, m: map<BranchID, Branch>)
    ensures leaves == HttpLeaves(branches) && m == ById(branches)
  {
    m := IndexBranches(branches);
    var children: set<BranchID> := {};
    for i := 0 to |branches|
      invariant forall id :: id in children <==> exists k :: 0 <= k < i && branches[k].parent == Some(id)
    {
      if branches[i].parent.Some? {
        children := children + {branches[i].parent.value};
      }
    }
    forall id
      ensures id in children <==> HasChild(branches, id)
    {
    }
    leaves := [];
    for i := 0 to |branches|
      invariant leaves == HttpLeavesOf(branches[..i], branches)
    {
      assert branches[..i + 1][..i] == branches[..i];
      if branches[i].branchID !in children && branches[i].goal == HTTP_GOAL {
        leaves := leaves + [branches[i].branchID];
      }
    }
    assert branches[..|branches|] == branches;
  }

  // ---------------------------------------------------------------- the ancestor walk of the status

  /** isAncestor: one or more parent steps lead from the leaf to the candidate, on cyclic parents too. */
  ghost predicate ProperAncestor(m: map<BranchID, Branch>, candidate: BranchID, leaf: BranchID)
  {
    Parent(m, leaf).Some? && AncestorOrSelf(m, candidate, Parent(m, leaf).value)
  }

  method IsAncestor(candidate: BranchID, leaf: BranchID, m: map<BranchID, Branch>) returns (ancestor: bool)
    ensures ancestor <==> ProperAncestor(m, candidate, leaf)
  {
    var g := ParentLinks(m);
    var current := leaf;
    var seen: set<BranchID> := {};
    ReachesSelf(g, leaf);
    while true
      invariant leaf in seen || leaf == current
      invariant current != leaf || current in seen || seen == {}
      invariant seen != {} ==> Parent(m, leaf).Some? && AncestorOrSelf(m, current, Parent(m, leaf).value)
      invariant forall x :: x in seen ==> PassedOver(m, seen, current, candidate, x)
      decreases m.Keys - seen
    {
      if current in seen {
        NotMet(m, seen, current, candidate, leaf);
        return false;
      }
      var parent := Parent(m, current);
      if parent.None? {
        NotMet(m, seen + {current}, current, candidate, leaf);
        return false;
      }
      ghost var before := current;
      seen := seen + {current};
      current := parent.value;
      WalkOn(m, before, current, leaf);
      if current == candidate {
        return true;
      }
    }
  }

  lemma WalkOn(m: map<BranchID, Branch>, before: BranchID, current: BranchID, leaf: BranchID)
    requires Parent(m, before) == Some(current)
    requires before == leaf || (Parent(m, leaf).Some? && AncestorOrSelf(m, before, Parent(m, leaf).value))
    ensures Parent(m, leaf).Some? && AncestorOrSelf(m, current, Parent(m, leaf).value)
  {
    var g := ParentLinks(m);
    if before == leaf {
      ReachesSelf(g, current);
    } else {
      ParentIsEdge(m, before, current);
      EdgeReaches(g, before, current);
      ReachesTransitive(g, Parent(m, leaf).value, before, current);
    }
  }

  /** The walk has gone on from x to its parent and found it not to be the candidate. */
  ghost predicate PassedOver(
    m: map<BranchID, Branch>, seen: set<BranchID>, current: BranchID, candidate: BranchID, x: BranchID)
  {
    var p := Parent(m, x);
    p.Some? && p.value != candidate && (p.value in seen || p.value == current)
  }

  lemma NotMet(m: map<BranchID, Branch>, seen: set<BranchID>, current: BranchID, candidate: BranchID, leaf: BranchID)
    requires leaf in seen && current in seen
    requires forall x :: x in seen ==> Parent(m, x).None? || PassedOver(m, seen, current, candidate, x)
    ensures !ProperAncestor(m, candidate, leaf)
  {
    var g := ParentLinks(m);
    if ProperAncestor(m, candidate, leaf) {
      var p := Parent(m, leaf).value;
      assert PassedOver(m, seen, current, candidate, leaf);
      forall x, y | x in seen && Edge(g, x, y)
        ensures y in seen
      {
        ParentIsEdge(m, x, y);
      }
      var x := LastEdge(g, p, candidate);
      ClosedReaches(g, seen, p, x);
      ParentIsEdge(m, x, candidate);
      assert false;
    }
  }

  /** The three parent walks agree: a branch or one of its proper ancestors is an ancestor or self. */
  lemma ProperOrSelf(m: map<BranchID, Branch>, candidate: BranchID, leaf: BranchID)
    ensures candidate == leaf || ProperAncestor(m, candidate, leaf) <==> AncestorOrSelf(m, candidate, leaf)
  {
    var g := ParentLinks(m);
    ReachesSelf(g, leaf);
    if ProperAncestor(m, candidate, leaf) {
      var p := Parent(m, leaf).value;
      ParentIsEdge(m, leaf, p);
      EdgeReaches(g, leaf, p);
      ReachesTransitive(g, leaf, p, candidate);
    }
    if AncestorOrSelf(m, candidate, leaf) && candidate != leaf {
      var q :| PathFromTo(g, q, leaf, candidate);
      TailReaches(g, q, leaf, candidate);
      ParentIsEdge(m, leaf, q[1]);
    }
  }

  // ---------------------------------------------------------------- what the executions say

  const COMPLETED := "COMPLETED"
  const NOT_RUN := "NOT_RUN"
  const PASS := "PASS"
  const CERTIFICATE_CHECK := "CERTIFICATE_VERIFICATION"
  const HTTP_CHECK := "HTTP"

  function DefinitionKinds(defs: seq<CheckDefinition>): map<CheckID, string>
  {
    if defs == [] then map[]
    else DefinitionKinds(defs[..|defs| - 1])[defs[|defs| - 1].checkID := defs[|defs| - 1].kind]
  }

  function ObservationsById(all: seq<Observation>): map<ObservationID, Observation>
  {
    if all == [] then map[]
    else ObservationsById(all[..|all| - 1])[all[|all| - 1].observationID := all[|all| - 1]]
  }

  predicate Verified(o: Observation) { o.payload.certificateResult == Some("VERIFIED") }

  predicate AnsweredHttp(o: Observation)
  {
    o.payload.httpResultKind == Some("RESPONSE") || o.payload.httpResultKind == Some("REDIRECT")
  }

  /** The execution completed with a pass and, being of the given check kind, cites an observation that shows it. */
  ghost predicate Shows(r: EvidenceRun, e: CheckExecution, kind: string, shows: Observation -> bool)
  {
    && e.lifecycle == COMPLETED && e.verdict == PASS
    && var kinds := DefinitionKinds(r.definitions);
    && e.checkID in kinds && kinds[e.checkID] == kind
    && exists id :: id in e.observationIDs && id in ObservationsById(r.observations) && shows(ObservationsById(r.observations)[id])
  }

  ghost predicate ShowsCertificate(r: EvidenceRun, e: CheckExecution) { Shows(r, e, CERTIFICATE_CHECK, Verified) }

  ghost predicate ShowsHttp(r: EvidenceRun, e: CheckExecution) { Shows(r, e, HTTP_CHECK, AnsweredHttp) }

  /** A check of the branch was left out by the attempt cap or is still pending. */
  predicate LeftOut(e: CheckExecution)
  {
    e.lifecycle == NOT_RUN && (e.reason == Some("address_attempt_cap") || e.reason == Some("probe_pending"))
  }

  ghost predicate CertPass(r: EvidenceRun, b: BranchID)
  {
    exists e :: e in r.executions && e.branchID == Some(b) && ShowsCertificate(r, e)
  }

  ghost predicate HttpPass(r: EvidenceRun, b: BranchID)
  {
    exists e :: e in r.executions && e.branchID == Some(b) && ShowsHttp(r, e)
  }

  ghost predicate Incomplete(r: EvidenceRun, b: BranchID)
  {
    exists e :: e in r.executions && e.branchID == Some(b) && LeftOut(e)
  }

  /** A leaf whose HTTP check passed, over https only with a verified certificate. */
  ghost predicate SatisfiedLeaf(r: EvidenceRun, b: BranchID)
  {
    HttpPass(r, b) && (r.target.scheme == "http" || CertPass(r, b))
  }

  method IndexDefinitions(defs: seq<CheckDefinition>) returns (m: map<CheckID, string>)
    ensures m == DefinitionKinds(defs)
  {
    m := map[];
    for i := 0 to |defs|
      invariant m == DefinitionKinds(defs[..i])
    {
      assert defs[..i + 1][..i] == defs[..i];
      m := m[defs[i].checkID := defs[i].kind];
    }
    assert defs[..|defs|] == defs;
  }

  method IndexObservations(all: seq<Observation>) returns (m: map<ObservationID, Observation>)
    ensures m == ObservationsById(all)
  {
    m := map[];
    for i := 0 to |all|
      invariant m == ObservationsById(all[..i])
    {
      assert all[..i + 1][..i] == all[..i];
      m := m[all[i].observationID := all[i]];
    }
    assert all[..|all|] == all;
  }

  method AnyShows(ids: seq<ObservationID>, observations: map<ObservationID, Observation>, shows: Observation -> bool)
    returns (any: bool)
    ensures any <==> exists id :: id in ids && id in observations && shows(observations[id])
  {
    any := false;
    for i := 0 to |ids|
      invariant any <==> exists k :: 0 <= k < i && ids[k] in observations && shows(observations[ids[k]])
    {
      if ids[i] in observations && shows(observations[ids[i]]) {
        any := true;
      }
    }
  }

  /** What one execution adds to the maps. */
  method ReadExecution(
    r: EvidenceRun, kinds: map<CheckID, string>, observations: map<ObservationID, Observation>, e: CheckExecution)
    returns (cert: bool, http: bool, incomplete: bool)
    requires kinds == DefinitionKinds(r.definitions) && observations == ObservationsById(r.observations)
    ensures cert <==> ShowsCertificate(r, e)
    ensures http <==> ShowsHttp(r, e)
    ensures incomplete <==> LeftOut(e)
  {
    cert, http := false, false;
    incomplete := LeftOut(e);
    if e.lifecycle != COMPLETED || e.verdict != PASS || e.checkID !in kinds {
      return;
    }
    if kinds[e.checkID] == CERTIFICATE_CHECK {
      cert := AnyShows(e.observationIDs, observations, Verified);
    } else if kinds[e.checkID] == HTTP_CHECK {
      http := AnyShows(e.observationIDs, observations, AnsweredHttp);
    }
  }

  ghost predicate CertAmong(r: EvidenceRun, es: seq<CheckExecution>, b: BranchID)
  {
    exists e :: e in es && e.branchID == Some(b) && ShowsCertificate(r, e)
  }

  ghost predicate HttpAmong(r: EvidenceRun, es: seq<CheckExecution>, b: BranchID)
  {
    exists e :: e in es && e.branchID == Some(b) && ShowsHttp(r, e)
  }

  ghost predicate LeftOutAmong(es: seq<CheckExecution>, b: BranchID)
  {
    exists e :: e in es && e.branchID == Some(b) && LeftOut(e)
  }

  ghost predicate Read(
    r: EvidenceRun, es: seq<CheckExecution>, cert: set<BranchID>, http: set<BranchID>, incomplete: set<BranchID>)
  {
    && (forall b :: b in cert <==> CertAmong(r, es, b))
    && (forall b :: b in http <==> HttpAmong(r, es, b))
    && (forall b :: b in incomplete <==> LeftOutAmong(es, b))
  }

  lemma ReadMore(r: EvidenceRun, es: seq<CheckExecution>, e: CheckExecution, b: BranchID)
    ensures CertAmong(r, es + [e], b) <==> CertAmong(r, es, b) || (e.branchID == Some(b) && ShowsCertificate(r, e))
    ensures HttpAmong(r, es + [e], b) <==> HttpAmong(r, es, b) || (e.branchID == Some(b) && ShowsHttp(r, e))
    ensures LeftOutAmong(es + [e], b) <==> LeftOutAmong(es, b) || (e.branchID == Some(b) && LeftOut(e))
  {
    assert forall x :: x in es + [e] <==> x in es || x == e;
  }

  /** The loop over the executions. */
  method ReadExecutions(r: EvidenceRun) returns (cert: set<BranchID>, http: set<BranchID>, incomplete: set<BranchID>)
    ensures Read(r, r.executions, cert, http, incomplete)
  {
    var kinds := IndexDefinitions(r.definitions);
    var observations := IndexObservations(r.observations);
    cert, http, incomplete := {}, {}, {};
    for i := 0 to |r.executions|
      invariant Read(r, r.executions[..i], cert, http, incomplete)
    {
      var e := r.executions[i];
      assert r.executions[..i + 1] == r.executions[..i] + [e];
      forall b
        ensures CertAmong(r, r.executions[..i] + [e], b) <==>
                CertAmong(r, r.executions[..i], b) || (e.branchID == Some(b) && ShowsCertificate(r, e))
        ensures HttpAmong(r, r.executions[..i] + [e], b) <==>
                HttpAmong(r, r.executions[..i], b) || (e.branchID == Some(b) && ShowsHttp(r, e))
        ensures LeftOutAmong(r.executions[..i] + [e], b) <==>
                LeftOutAmong(r.executions[..i], b) || (e.branchID == Some(b) && LeftOut(e))
      {
        ReadMore(r, r.executions[..i], e, b);
      }
      if e.branchID.Some? {
        var c, h, l := ReadExecution(r, kinds, observations, e);
        cert := if c then cert + {e.branchID.value} else cert;
        http := if h then http + {e.branchID.value} else http;
        incomplete := if l then incomplete + {e.branchID.value} else incomplete;
      }
    }
    assert r.executions[..|r.executions|] == r.executions;
  }

  // ---------------------------------------------------------------- coverage

  /** A confirmed blocker the status counts: the global primary everywhere, a branch primary below its branches. */
  ghost predicate Covers(m: map<BranchID, Branch>, f: Finding, leaf: BranchID)
  {
    && f.ConfirmedBlocker()
    && (f.selection == GlobalPrimary ||
        (f.selection == BranchPrimary && exists id :: id in f.branchIDs && AncestorOrSelf(m, id, leaf)))
  }

  method CoveredBy(f: Finding, leaves: seq<BranchID>, m: map<BranchID, Branch>) returns (covered: set<BranchID>)
    ensures forall b :: b in covered <==> b in leaves && Covers(m, f, b)
  {
    covered := {};
    if !f.ConfirmedBlocker() {
      return;
    }
    if f.selection == GlobalPrimary {
      return set b | b in leaves;
    }
    if f.selection != BranchPrimary {
      return;
    }
    for i := 0 to |leaves|
      invariant forall b :: b in covered <==> b in leaves[..i] && exists id :: id in f.branchIDs && AncestorOrSelf(m, id, b)
    {
      var above := AnyAbove(f.branchIDs, leaves[i], m);
      if above {
        covered := covered + {leaves[i]};
      }
      assert leaves[..i + 1] == leaves[..i] + [leaves[i]];
    }
    assert leaves[..|leaves|] == leaves;
  }

  method AnyAbove(ids: seq<BranchID>, leaf: BranchID, m: map<BranchID, Branch>) returns (above: bool)
    ensures above <==> exists id :: id in ids && AncestorOrSelf(m, id, leaf)
  {
    above := false;
    for i := 0 to |ids|
      invariant above <==> exists k :: 0 <= k < i && AncestorOrSelf(m, ids[k], leaf)
    {
      ProperOrSelf(m, ids[i], leaf);
      var ancestor := IsAncestor(ids[i], leaf, m);
      if ids[i] == leaf || ancestor {
        above := true;
      }
    }
  }

  method CollectCovered(findings: seq<Finding>, leaves: seq<BranchID>, m: map<BranchID, Branch>) returns (covered: set<BranchID>)
    ensures forall b :: b in covered <==> b in leaves && exists f :: f in findings && Covers(m, f, b)
  {
    covered := {};
    for i := 0 to |findings|
      invariant forall b :: b in covered <==> b in leaves && exists k :: 0 <= k < i && Covers(m, findings[k], b)
    {
      var more := CoveredBy(findings[i], leaves, m);
      covered := covered + more;
    }
  }

  // ---------------------------------------------------------------- the status

  predicate PartialRun(r: EvidenceRun)
  {
    exists l :: l in r.limitations && l.code == "partial_visibility" && l.scopeKind == "RUN"
  }

  /** The status as the branches of the code decide it. */
  ghost function StatusOf(r: EvaluatedRun): ReportStatus
  {
    var e := r.evidence;
    var leaves, m := HttpLeaves(e.branches), ById(e.branches);
    if leaves == [] then Indeterminate
    else if exists b :: b in leaves && SatisfiedLeaf(e, b) then Satisfied
    else if PartialRun(e) || exists b :: b in leaves && Incomplete(e, b) then Indeterminate
    else if forall b :: b in leaves ==> exists f :: f in r.findings && Covers(m, f, b) then Blocked
    else Indeterminate
  }

  /** Status: the loops over executions, limitations, leaves and findings. */
  method ComputeStatus(r: EvaluatedRun) returns (status: ReportStatus)
    ensures status == StatusOf(r)
  {
    var e := r.evidence;
    var leaves, m := LeafBranches(e.branches);
    if |leaves| == 0 {
      return Indeterminate;
    }
    var cert, http, incomplete := ReadExecutions(e);
    assert forall b :: b in cert <==> CertPass(e, b);
    assert forall b :: b in http <==> HttpPass(e, b);
    assert forall b :: b in incomplete <==> Incomplete(e, b);
    if exists b :: b in leaves && b in http && (e.target.scheme == "http" || b in cert) {
      assert exists b :: b in leaves && SatisfiedLeaf(e, b);
      return Satisfied;
    }
    if PartialRun(e) {
      return Indeterminate;
    }
    if exists b :: b in leaves && b in incomplete {
      return Indeterminate;
    }
    var covered := CollectCovered(r.findings, leaves, m);
    status := if forall b :: b in leaves ==> b in covered then Blocked else Indeterminate;
  }

  // ---------------------------------------------------------------- when a report is blocked

  /** A primary confirmed blocker attached to the leaf itself or to one of its ancestors. */
  ghost predicate BlockedBy(m: map<BranchID, Branch>, f: Finding, leaf: BranchID)
  {
    && f.ConfirmedBlocker()
    && (f.selection == GlobalPrimary || f.selection == BranchPrimary)
    && exists id :: id in f.branchIDs && AncestorOrSelf(m, id, leaf)
  }

  /** In a run with a valid selection a global primary is attached above every HTTP leaf. */
  lemma GlobalIsAbove(r: EvaluatedRun, f: Finding, leaf: BranchID)
    requires ValidSelection(r.findings, r.evidence.branches) && f in r.findings && f.selection == GlobalPrimary
    requires leaf in HttpLeaves(r.evidence.branches)
    ensures exists id :: id in f.branchIDs && AncestorOrSelf(ById(r.evidence.branches), id, leaf)
  {
    var branches := r.evidence.branches;
    assert GlobalProof(f, branches);
    var id :| id in f.branchIDs && ProvesGlobally(f, branches, id);
    assert leaf in Leaves(branches);
  }

  /**
   * BLOCKED exactly when there is an HTTP leaf, none is satisfied, nothing is partial or left out, and every
   * HTTP leaf has a primary confirmed blocker on itself or an ancestor. Covering all leaves for a global
   * primary is no shortcut: the validator's proof puts it above each of them.
   */
  lemma BlockedExactly(r: EvaluatedRun)
    requires ValidSelection(r.findings, r.evidence.branches)
    ensures var e := r.evidence; var leaves, m := HttpLeaves(e.branches), ById(e.branches);
            StatusOf(r) == Blocked <==>
              && leaves != []
              && (forall b :: b in leaves ==> !SatisfiedLeaf(e, b))
              && !PartialRun(e)
              && (forall b :: b in leaves ==> !Incomplete(e, b))
              && (forall b :: b in leaves ==> exists f :: f in r.findings && BlockedBy(m, f, b))
  {
    var e := r.evidence;
    var m := ById(e.branches);
    forall b, f | b in HttpLeaves(e.branches) && f in r.findings
      ensures Covers(m, f, b) <==> BlockedBy(m, f, b)
    {
      if f.selection == GlobalPrimary {
        GlobalIsAbove(r, f, b);
      }
    }
  }

  /** Without a valid selection the shortcut differs: a global primary attached to nothing covers every leaf. */
  lemma ShortcutNeedsValidSelection(r: EvaluatedRun, f: Finding, leaf: BranchID)
    requires f.ConfirmedBlocker() && f.selection == GlobalPrimary && f.branchIDs == []
    requires f in r.findings && leaf in HttpLeaves(r.evidence.branches)
    ensures Covers(ById(r.evidence.branches), f, leaf) && !BlockedBy(ById(r.evidence.branches), f, leaf)
    ensures !ValidSelection(r.findings, r.evidence.branches)
  {
    if ValidSelection(r.findings, r.evidence.branches) {
      GlobalIsAbove(r, f, leaf);
      assert false;
    }
  }
}
