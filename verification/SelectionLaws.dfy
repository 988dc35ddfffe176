/** Laws of the results of Apply: what does not matter to them, and which findings and leaves keep a primary. */
module SelectionLaws {
  import opened Text
  import Ids
  import opened Model
  import opened Sorting
  import opened Graphs
  import opened Branches
  import opened Selecting
  import opened SelectionApply
  import opened Status
  import opened CanonicalRuns

  lemma StrippedSame(a: seq<Finding>, b: seq<Finding>)
    requires multiset(a) == multiset(b)
    ensures Elements(StripAll(a)) == Elements(StripAll(b))
  {
    SameElements(a, b);
    StrippedSubset(a, b);
    StrippedSubset(b, a);
  }

  lemma StrippedSubset(a: seq<Finding>, b: seq<Finding>)
    requires forall f :: f in a ==> f in b
    ensures Elements(StripAll(a)) <= Elements(StripAll(b))
  {
    forall f | f in Elements(StripAll(a))
      ensures f in Elements(StripAll(b))
    {
      var i :| 0 <= i < |a| && StripAll(a)[i] == f;
      assert a[i] in b;
      var j :| 0 <= j < |b| && b[j] == a[i];
      assert StripAll(b)[j] == f;
    }
  }

  // ---------------------------------------------------------------- runs whose findings have an order

  /** An order of the findings depends neither on their selections nor on their sequence. */
  lemma OrderedReordered(a: seq<Finding>, b: seq<Finding>)
    requires Ordered(a) && multiset(a) == multiset(b)
    ensures Ordered(b)
  {
    assert NoRepeats(a);
    NoRepeatsPermuted(a, b);
    SameElements(a, b);
    forall f, g | f in b && g in b && f != g
      ensures LessFinding(f, g) || LessFinding(g, f)
    {
      var i :| 0 <= i < |a| && a[i] == f;
      var j :| 0 <= j < |a| && a[j] == g;
      OrderedEitherWay(a, i, j);
    }
    forall i, j, k | 0 <= i < |b| && 0 <= j < |b| && 0 <= k < |b| && LessFinding(b[i], b[j]) && LessFinding(b[j], b[k])
      ensures LessFinding(b[i], b[k])
    {
      OrderedChains(a, b[i], b[j], b[k]);
    }
    forall i | 0 <= i < |b|
      ensures !LessFinding(b[i], b[i])
    {
      assert b[i] in a;
    }
  }

  lemma OrderedChains(a: seq<Finding>, f: Finding, g: Finding, h: Finding)
    requires Ordered(a) && f in a && g in a && h in a && LessFinding(f, g) && LessFinding(g, h)
    ensures LessFinding(f, h)
  {
    var i :| 0 <= i < |a| && a[i] == f;
    var j :| 0 <= j < |a| && a[j] == g;
    var k :| 0 <= k < |a| && a[k] == h;
  }

  lemma OrderedStripped(fs: seq<Finding>)
    ensures Ordered(StripAll(fs)) <==> Ordered(fs)
  {
    var s := StripAll(fs);
    forall i, j | 0 <= i < |fs| && 0 <= j < |fs|
      ensures LessFinding(s[i], s[j]) == LessFinding(fs[i], fs[j])
    {
    }
  }

  // ---------------------------------------------------------------- laws of Apply's results

  /** Two calls on one list of findings in two orders: a finding gets the same selection in both. */
  method ApplyReordered(r: EvaluatedRun, s: EvaluatedRun) returns (x: EvaluatedRun, y: EvaluatedRun)
    requires s == r.(findings := s.findings) && multiset(s.findings) == multiset(r.findings) && Ordered(r.findings)
    ensures |x.findings| == |r.findings| && |y.findings| == |s.findings|
    ensures forall i, j :: 0 <= i < |r.findings| && 0 <= j < |s.findings| && Stripped(r.findings[i]) == Stripped(s.findings[j]) ==>
              x.findings[i] == y.findings[j]
  {
    var issues;
    OrderedReordered(r.findings, s.findings);
    OrderedStripped(r.findings);
    OrderedStripped(s.findings);
    StrippedSame(r.findings, s.findings);
    x, issues := Apply(r);
    y, issues := Apply(s);
  }

  /** With valid IDs of distinct numbers, the selection given to each finding ID does not depend on the order. */
  method ApplyById(r: EvaluatedRun, s: EvaluatedRun) returns (x: EvaluatedRun, y: EvaluatedRun)
    requires s == r.(findings := s.findings) && multiset(s.findings) == multiset(r.findings)
    requires NumberedFindings(r.findings)
    ensures |x.findings| == |r.findings| && |y.findings| == |s.findings|
    ensures forall i, j :: 0 <= i < |r.findings| && 0 <= j < |s.findings| && r.findings[i].findingID == s.findings[j].findingID ==>
              x.findings[i].selection == y.findings[j].selection
  {
    DistinctIdsOrder(r.findings);
    x, y := ApplyReordered(r, s);
    SameElements(r.findings, s.findings);
    forall i, j | 0 <= i < |r.findings| && 0 <= j < |s.findings| && r.findings[i].findingID == s.findings[j].findingID
      ensures r.findings[i] == s.findings[j]
    {
      assert s.findings[j] in r.findings;
      var k :| 0 <= k < |r.findings| && r.findings[k] == s.findings[j];
      assert k == i;
    }
  }

  /** A second call changes nothing: the selections of the first do not matter to it. */
  method ApplyTwice(r: EvaluatedRun) returns (once: EvaluatedRun, twice: EvaluatedRun)
    requires Ordered(r.findings)
    ensures twice == once
  {
    var issues;
    OrderedStripped(r.findings);
    once, issues := Apply(r);
    assert StripAll(once.findings) == StripAll(r.findings);
    twice, issues := Apply(once);
  }

  /** In a run with two branches that have neither parent nor child an accepted selection has no global primary. */
  lemma NoGlobalAcrossIsolatedBranches(findings: seq<Finding>, branches: seq<Branch>, a: BranchID, b: BranchID)
    requires ValidSelection(findings, branches) && a != b && a in ById(branches) && b in ById(branches)
    requires !HasChild(branches, a) && !HasChild(branches, b)
    requires ById(branches)[a].parent.None? && ById(branches)[b].parent.None?
    ensures forall f :: f in findings ==> f.selection != GlobalPrimary
  {
    forall f | f in findings
      ensures f.selection != GlobalPrimary
    {
      TwoIsolatedBranchesNoGlobal(f, branches, a, b);
    }
  }

  /** So neither has any result of Apply, whatever the findings. */
  method ApplyAcrossIsolatedBranches(r: EvaluatedRun, a: BranchID, b: BranchID) returns (out: EvaluatedRun)
    requires a != b && a in ById(r.evidence.branches) && b in ById(r.evidence.branches)
    requires !HasChild(r.evidence.branches, a) && !HasChild(r.evidence.branches, b)
    requires ById(r.evidence.branches)[a].parent.None? && ById(r.evidence.branches)[b].parent.None?
    ensures forall f :: f in out.findings ==> f.selection != GlobalPrimary
  {
    var issues;
    out, issues := Apply(r);
    NoGlobalAcrossIsolatedBranches(out.findings, r.evidence.branches, a, b);
  }

  // ---------------------------------------------------------------- who represents a statement

  /** Somebody at the minimum of this leaf says the same and comes first: observed, or of one level and smaller. */
  ghost predicate Outranked(branches: seq<Branch>, claims: seq<Claim>, all: set<Finding>, leaf: BranchID, f: Finding)
  {
    exists g :: g in all && AtMinimum(branches, all, leaf, g) && SameStatement(claims, f, g) && GlobalLess(g, f)
  }

  /** A round chooses the findings at the minimum that nobody outranks. */
  lemma ChosenIsNotOutranked(branches: seq<Branch>, claims: seq<Claim>, all: set<Finding>, leaf: BranchID, f: Finding)
    requires f in all && AtMinimum(branches, all, leaf, f)
    ensures Chosen(branches, claims, all, leaf, f) <==> !Outranked(branches, claims, all, leaf, f)
  {
    if Chosen(branches, claims, all, leaf, f) {
      forall g | g in all && AtMinimum(branches, all, leaf, g) && SameStatement(claims, f, g)
        ensures !GlobalLess(g, f)
      {
        if g.level == f.level {
          TwinIsEligible(branches, claims, all, leaf, f, g);
        }
      }
    } else if !Outranked(branches, claims, all, leaf, f) {
      forall g | g in all && Eligible(branches, claims, all, leaf, g) && SameStatement(claims, f, g)
        ensures !LessFinding(g, f)
      {
        SameSymmetric(claims, f, g);
        assert !GlobalLess(g, f);
      }
    }
  }

  lemma TwinIsEligible(
    branches: seq<Branch>, claims: seq<Claim>, all: set<Finding>, leaf: BranchID, f: Finding, g: Finding)
    requires Eligible(branches, claims, all, leaf, f) && AtMinimum(branches, all, leaf, g)
    requires SameStatement(claims, f, g) && g.level == f.level
    ensures Eligible(branches, claims, all, leaf, g)
  {
    if g.level != Observed {
      forall h | h in all && AtMinimum(branches, all, leaf, h) && h.level == Observed
        ensures !SameStatement(claims, g, h)
      {
        if SameStatement(claims, g, h) {
          SameTransitive(claims, f, g, h);
        }
      }
    }
  }

  /** Leaf k is the last that has the finding at its minimum. */
  ghost predicate LastRound(branches: seq<Branch>, all: set<Finding>, leaves: seq<BranchID>, f: Finding, k: nat)
  {
    && k < |leaves| && AtMinimum(branches, all, leaves[k], f)
    && forall l :: k < l < |leaves| ==> !AtMinimum(branches, all, leaves[l], f)
  }

  /** The last leaf with the finding at its minimum has nobody who outranks it. */
  ghost predicate Represents(branches: seq<Branch>, claims: seq<Claim>, all: set<Finding>, leaves: seq<BranchID>, f: Finding)
  {
    exists k: nat :: LastRound(branches, all, leaves, f, k) && !Outranked(branches, claims, all, leaves[k], f)
  }

  lemma {:induction false} LastRoundDecides(
    branches: seq<Branch>, claims: seq<Claim>, all: set<Finding>, leaves: seq<BranchID>, f: Finding)
    requires f in all
    ensures BranchSelection(branches, claims, all, leaves, f) == BranchPrimary <==> Represents(branches, claims, all, leaves, f)
    ensures BranchSelection(branches, claims, all, leaves, f) in {NotSelected, BranchPrimary, Additional}
  {
    if leaves != [] {
      var n := |leaves| - 1;
      if AtMinimum(branches, all, leaves[n], f) {
        ChosenIsNotOutranked(branches, claims, all, leaves[n], f);
        assert LastRound(branches, all, leaves, f, n);
        assert forall k: nat :: LastRound(branches, all, leaves, f, k) ==> k == n;
      } else {
        LastRoundDecides(branches, claims, all, leaves[..n], f);
        RoundsBefore(branches, claims, all, leaves, f);
      }
    }
  }

  lemma RoundsBefore(branches: seq<Branch>, claims: seq<Claim>, all: set<Finding>, leaves: seq<BranchID>, f: Finding)
    requires leaves != [] && !AtMinimum(branches, all, leaves[|leaves| - 1], f)
    ensures Represents(branches, claims, all, leaves, f) <==> Represents(branches, claims, all, leaves[..|leaves| - 1], f)
  {
    var front := leaves[..|leaves| - 1];
    forall k: nat
      ensures LastRound(branches, all, leaves, f, k) <==> LastRound(branches, all, front, f, k)
    {
      if k < |front| {
        assert front[k] == leaves[k];
      }
    }
  }

  /** The leaf lies on or below a branch the finding is attached to. */
  ghost predicate Above(branches: seq<Branch>, f: Finding, leaf: BranchID)
  {
    f.ConfirmedBlocker() && exists id :: id in f.branchIDs && AncestorOrSelf(ById(branches), id, leaf)
  }

  /** Some finding of the list covers the leaf. */
  ghost predicate IsCovered(branches: seq<Branch>, findings: seq<Finding>, leaf: BranchID)
  {
    exists f :: f in findings && Covers(ById(branches), f, leaf)
  }

  /** Finding i of the result is the finding given, a branch primary exactly where it has no global proof but represents. */
  ghost predicate KeepsAt(r: EvaluatedRun, out: EvaluatedRun, i: nat)
    requires i < |r.findings| == |out.findings|
  {
    var f, branches := Stripped(r.findings[i]), r.evidence.branches;
    && out.findings[i] == f.(selection := out.findings[i].selection)
    && (out.findings[i].selection == GlobalPrimary ==> GlobalProof(f, branches))
    && (out.findings[i].selection == BranchPrimary <==>
          !GlobalProof(f, branches) &&
          Represents(branches, r.claims, Elements(StripAll(r.findings)), SortedLeaves(branches), f))
  }

  /** The leaf ends covered exactly when some finding is proved globally or represents its statement from above. */
  ghost predicate CoveredAs(r: EvaluatedRun, out: EvaluatedRun, leaf: BranchID)
  {
    var branches, all := r.evidence.branches, Elements(StripAll(r.findings));
    IsCovered(branches, out.findings, leaf) <==>
      (exists g :: g in all && GlobalProof(g, branches)) ||
      (exists f :: f in all && Above(branches, f, leaf) && Represents(branches, r.claims, all, SortedLeaves(branches), f))
  }

  /** Who ends as a branch primary, and which leaves anything covers, in terms of the findings before the call. */
  ghost predicate PrimariesAre(r: EvaluatedRun, out: EvaluatedRun)
  {
    && |out.findings| == |r.findings|
    && (forall i :: 0 <= i < |r.findings| ==> KeepsAt(r, out, i))
    && (forall leaf :: CoveredAs(r, out, leaf))
  }

  lemma PrimariesExactly(r: EvaluatedRun, out: EvaluatedRun)
    requires out == Applied(r) && ValidSelection(out.findings, r.evidence.branches)
    requires PromotesSome(StripAll(r.findings), out.findings, r.evidence.branches)
    ensures PrimariesAre(r, out)
  {
    var branches, fs := r.evidence.branches, StripAll(r.findings);
    forall i | 0 <= i < |fs|
      ensures KeepsAt(r, out, i)
    {
      assert fs[i] in Elements(fs);
      LastRoundDecides(branches, r.claims, Elements(fs), SortedLeaves(branches), fs[i]);
    }
    forall leaf
      ensures CoveredAs(r, out, leaf)
    {
      if g :| g in Elements(fs) && GlobalProof(g, branches) {
        PromotedCovers(r, out, leaf, g);
      } else {
        CoveredFromAbove(r, out, leaf);
      }
    }
  }

  lemma PromotedCovers(r: EvaluatedRun, out: EvaluatedRun, leaf: BranchID, g: Finding)
    requires |out.findings| == |r.findings| && forall i :: 0 <= i < |r.findings| ==> KeepsAt(r, out, i)
    requires PromotesSome(StripAll(r.findings), out.findings, r.evidence.branches)
    requires g in Elements(StripAll(r.findings)) && GlobalProof(g, r.evidence.branches)
    ensures IsCovered(r.evidence.branches, out.findings, leaf)
  {
    var fs := StripAll(r.findings);
    var j :| 0 <= j < |fs| && fs[j] == g;
    var i :| 0 <= i < |out.findings| && out.findings[i].selection == GlobalPrimary;
    assert KeepsAt(r, out, i);
    assert out.findings[i] in out.findings && Covers(ById(r.evidence.branches), out.findings[i], leaf);
  }

  lemma CoveredFromAbove(r: EvaluatedRun, out: EvaluatedRun, leaf: BranchID)
    requires |out.findings| == |r.findings| && forall i :: 0 <= i < |r.findings| ==> KeepsAt(r, out, i)
    requires forall g :: g in Elements(StripAll(r.findings)) ==> !GlobalProof(g, r.evidence.branches)
    ensures CoveredAs(r, out, leaf)
  {
    var branches, fs := r.evidence.branches, StripAll(r.findings);
    var all, leaves := Elements(fs), SortedLeaves(branches);
    forall i | 0 <= i < |fs|
      ensures fs[i] in all
      ensures Covers(ById(branches), out.findings[i], leaf) <==>
                Above(branches, fs[i], leaf) && Represents(branches, r.claims, all, leaves, fs[i])
    {
      assert fs[i] in all && KeepsAt(r, out, i);
    }
    if f :| f in all && Above(branches, f, leaf) && Represents(branches, r.claims, all, leaves, f) {
      var i :| 0 <= i < |fs| && fs[i] == f;
      assert out.findings[i] in out.findings;
    }
  }

  lemma StrippedPromotes(before: seq<Finding>, after: seq<Finding>, branches: seq<Branch>)
    requires PromotesSome(before, after, branches)
    ensures PromotesSome(StripAll(before), after, branches)
  {
    if i :| 0 <= i < |before| && GlobalProof(StripAll(before)[i], branches) {
      ProofIgnoresSelection(before[i], NotSelected, branches);
      assert GlobalProof(before[i], branches);
    }
  }

  /**
   * Exactly when a finding keeps the primary a leaf gave it, and exactly which leaves end with nothing that
   * covers them.
   */
  method ApplyKeepsPrimaries(r: EvaluatedRun) returns (out: EvaluatedRun)
    requires Ordered(r.findings)
    ensures PrimariesAre(r, out)
  {
    var issues;
    OrderedStripped(r.findings);
    out, issues := Apply(r);
    StrippedPromotes(r.findings, out.findings, r.evidence.branches);
    PrimariesExactly(r, out);
  }

  /** A finding that only one leaf has in range, and that has no global proof, keeps what that leaf gave it. */
  lemma OneLeafKeeps(r: EvaluatedRun, out: EvaluatedRun, i: nat, k: nat)
    requires PrimariesAre(r, out) && i < |r.findings| && k < |SortedLeaves(r.evidence.branches)|
    requires var branches, f := r.evidence.branches, Stripped(r.findings[i]);
             var leaves := SortedLeaves(branches);
             && !GlobalProof(f, branches)
             && AtMinimum(branches, Elements(StripAll(r.findings)), leaves[k], f)
             && forall l :: 0 <= l < |leaves| && l != k ==> !InRange(branches, leaves[l], f)
    ensures out.findings[i].selection == BranchPrimary <==>
              !Outranked(r.evidence.branches, r.claims, Elements(StripAll(r.findings)), SortedLeaves(r.evidence.branches)[k],
                         Stripped(r.findings[i]))
  {
    var branches, fs := r.evidence.branches, StripAll(r.findings);
    assert KeepsAt(r, out, i);
    assert LastRound(branches, Elements(fs), SortedLeaves(branches), fs[i], k);
    assert forall l: nat :: LastRound(branches, Elements(fs), SortedLeaves(branches), fs[i], l) ==> l == k;
  }

  lemma SortedOrderExists(branches: seq<Branch>, fs: seq<Finding>, leaf: BranchID) returns (at: seq<int>)
    requires Ordered(fs) && Candidates(branches, leaf, fs) != []
    ensures IsOrder(branches, fs, leaf, at) && at != [] && Sorted(IndexLess(fs), at)
  {
    var cs := Candidates(branches, leaf, fs);
    var kept := IndicesAt(cs, LowestPosition(cs));
    KeptAreAtMinimum(branches, fs, leaf);
    at := StableSort(IndexLess(fs), kept);
    OrderedIsTotal(fs, kept);
    StableSortPermutes(IndexLess(fs), kept);
    StableSortIsSortedTotal(IndexLess(fs), kept);
    OrderPermuted(branches, fs, leaf, kept, at);
  }

  /** A leaf with an attached confirmed blocker in range always has a chosen finding in its own round. */
  lemma SomeFindingIsChosen(
    branches: seq<Branch>, claims: seq<Claim>, fs: seq<Finding>, leaf: BranchID)
    requires Ordered(fs) && exists i :: 0 <= i < |fs| && InRange(branches, leaf, fs[i])
    ensures exists f :: f in fs && Chosen(branches, claims, Elements(fs), leaf, f)
  {
    CandidatesExact(branches, leaf, fs);
    var i :| 0 <= i < |fs| && InRange(branches, leaf, fs[i]);
    assert IsCandidate(branches, leaf, fs, Candidate(i, Selecting.Position(branches, leaf, fs[i])));
    var at := SortedOrderExists(branches, fs, leaf);
    assert at[0] in at;
    var j := MinimumCovered(branches, claims, fs, leaf, at, at[0]);
    SortedRoundChooses(branches, claims, fs, leaf, at, j);
  }

  // ---------------------------------------------------------------- a leaf can lose its primary

  /** Two root branches of one edge each, with an HTTP goal. */
  function TwoRoots(a: BranchID, b: BranchID): seq<Branch>
  {
    [Branch(a, None, ["edge-1"], HTTP_GOAL), Branch(b, None, ["edge-2"], HTTP_GOAL)]
  }

  const REFUSED_RULE := "tcp.connection_refused/v1"

  /** The claim both findings cite. */
  function Refused(): Claim
  {
    Claim(Ids.GeneratedId(Ids.CLAIM_PREFIX, 1), TcpRefused, Inferred, [], [],
          ClaimParameters(TcpRefused, None, Some(TcpRefusedParameters("entity-endpoint", "vantage-client", 0)), None),
          [], [], [], REFUSED_RULE)
  }

  /** The n-th finding, on these branches at their first edge. */
  function Refusal(n: nat, level: Level, ids: seq<BranchID>): Finding
  {
    Finding(Ids.GeneratedId(Ids.FINDING_PREFIX, n), Blocker, "TCP_CONNECTION_REFUSED", level, ids, FirstEdges(ids),
            [Refused().claimID], REFUSED_RULE, [], [], NotSelected)
  }

  function FirstEdges(ids: seq<BranchID>): seq<PathPosition>
  {
    if ids == [] then [] else [PathPosition(ids[0], 0)] + FirstEdges(ids[1..])
  }

  lemma {:induction false} FirstEdgesAt(ids: seq<BranchID>, id: BranchID)
    requires id in ids
    ensures PositionOn(FirstEdges(ids), id) == Some(0)
  {
    if ids[0] != id {
      assert FirstEdges(ids)[1..] == FirstEdges(ids[1..]);
      FirstEdgesAt(ids[1..], id);
    }
  }

  lemma RootsAreLeaves(a: BranchID, b: BranchID)
    requires Less(a, b)
    ensures a != b && a in ById(TwoRoots(a, b)) && b in ById(TwoRoots(a, b))
    ensures ById(TwoRoots(a, b))[a].parent.None? && ById(TwoRoots(a, b))[b].parent.None?
    ensures !HasChild(TwoRoots(a, b), a) && !HasChild(TwoRoots(a, b), b)
    ensures SortedLeaves(TwoRoots(a, b)) == [a, b]
  {
    var branches := TwoRoots(a, b);
    LessIrreflexive(a);
    LessAsymmetric(a, b);
    assert branches[..1] == [branches[0]] && [branches[0]][..0] == [];
    assert ById([branches[0]]) == map[a := branches[0]];
    assert Childless([branches[0]], branches) == [a];
    assert Leaves(branches) == [a, b];
    StringsTotal([a, b]);
    SortOfSorted(Less, [a, b]);
  }

  lemma RootAttaches(f: Finding, a: BranchID, b: BranchID, leaf: BranchID)
    requires Less(a, b) && leaf in {a, b} && f.ConfirmedBlocker() && f.positions == FirstEdges(f.branchIDs)
    ensures InRange(TwoRoots(a, b), leaf, f) <==> leaf in f.branchIDs
    ensures InRange(TwoRoots(a, b), leaf, f) ==> Selecting.Position(TwoRoots(a, b), leaf, f) == 0
    ensures Above(TwoRoots(a, b), f, leaf) <==> leaf in f.branchIDs
  {
    var branches := TwoRoots(a, b);
    RootsAreLeaves(a, b);
    assert Chain(ById(branches), leaf, {}) == [leaf];
    if leaf in f.branchIDs {
      FirstEdgesAt(f.branchIDs, leaf);
    }
    assert [leaf][1..] == [] && FirstAttached(f, [leaf]) == if Attaches(f, leaf) then Some(leaf) else None;
    assert branches[1..] == [branches[1]];
    assert BranchEdgeCount(branches, leaf) == 1;
    forall id | id in f.branchIDs
      ensures AncestorOrSelf(ById(branches), id, leaf) <==> id == leaf
    {
      ChainExact(ById(branches), leaf, id);
    }
    ChainExact(ById(branches), leaf, leaf);
  }

  lemma RefusalsSayTheSame(f: Finding, g: Finding)
    requires f.kind == g.kind && f.title == g.title && f.claimIDs == g.claimIDs == [Refused().claimID]
    ensures SameStatement([Refused()], f, g)
  {
    assert ClaimById([Refused()], Refused().claimID) == Some(Refused());
  }

  /** The inferred finding is on both branches, the observed one on the second only, and both say the same. */
  lemma SharedAndSeen(a: BranchID, b: BranchID, shared: Finding, seen: Finding)
    requires Less(a, b) && shared == Refusal(1, Inferred, [a, b]) && seen == Refusal(2, Observed, [b])
    ensures var branches := TwoRoots(a, b); var all := {shared, seen};
            && AtMinimum(branches, all, a, shared) && !Outranked(branches, [Refused()], all, a, shared)
            && AtMinimum(branches, all, b, shared) && Outranked(branches, [Refused()], all, b, shared)
            && !Above(branches, seen, a)
  {
    LessIrreflexive(a);
    RootAttaches(shared, a, b, a);
    RootAttaches(shared, a, b, b);
    RootAttaches(seen, a, b, a);
    RootAttaches(seen, a, b, b);
    SharedAtFirst(TwoRoots(a, b), a, shared, seen);
    SeenAtSecond(TwoRoots(a, b), b, shared, seen);
  }

  lemma SharedAtFirst(branches: seq<Branch>, leaf: BranchID, shared: Finding, seen: Finding)
    requires InRange(branches, leaf, shared) && !InRange(branches, leaf, seen)
    ensures AtMinimum(branches, {shared, seen}, leaf, shared) && !Outranked(branches, [Refused()], {shared, seen}, leaf, shared)
  {
    Ids.CompareTies(shared.findingID, shared.findingID, Ids.FINDING_PREFIX);
  }

  lemma SeenAtSecond(branches: seq<Branch>, leaf: BranchID, shared: Finding, seen: Finding)
    requires InRange(branches, leaf, shared) && InRange(branches, leaf, seen)
    requires Selecting.Position(branches, leaf, shared) == 0 == Selecting.Position(branches, leaf, seen)
    requires shared.level == Inferred && seen.level == Observed
    requires shared.title == seen.title && shared.claimIDs == seen.claimIDs == [Refused().claimID]
    ensures AtMinimum(branches, {shared, seen}, leaf, shared) && Outranked(branches, [Refused()], {shared, seen}, leaf, shared)
  {
    RefusalsSayTheSame(shared, seen);
    assert AtMinimum(branches, {shared, seen}, leaf, seen) && GlobalLess(seen, shared);
  }

  lemma TwoNumbers(shared: Finding, seen: Finding)
    requires shared.findingID == Ids.GeneratedId(Ids.FINDING_PREFIX, 1) && seen.findingID == Ids.GeneratedId(Ids.FINDING_PREFIX, 2)
    ensures NumberedFindings([shared, seen])
  {
    Ids.GeneratedRoundTrip(Ids.FINDING_PREFIX, 1);
    Ids.GeneratedRoundTrip(Ids.FINDING_PREFIX, 2);
  }

  lemma OutrankedAtLast(branches: seq<Branch>, claims: seq<Claim>, all: set<Finding>, leaves: seq<BranchID>, f: Finding)
    requires leaves != [] && AtMinimum(branches, all, leaves[|leaves| - 1], f)
    requires Outranked(branches, claims, all, leaves[|leaves| - 1], f)
    ensures !Represents(branches, claims, all, leaves, f)
  {
    forall k: nat | LastRound(branches, all, leaves, f, k)
      ensures k == |leaves| - 1
    {
    }
  }

  /** Where no finding has a global proof, a leaf is uncovered when no finding above it represents its statement. */
  lemma Uncovered(r: EvaluatedRun, out: EvaluatedRun, leaf: BranchID, all: set<Finding>)
    requires PrimariesAre(r, out) && all == Elements(StripAll(r.findings))
    requires forall f :: f in all ==> !GlobalProof(f, r.evidence.branches)
    requires forall f :: f in all && Above(r.evidence.branches, f, leaf) ==>
               !Represents(r.evidence.branches, r.claims, all, SortedLeaves(r.evidence.branches), f)
    ensures !IsCovered(r.evidence.branches, out.findings, leaf)
  {
    assert CoveredAs(r, out, leaf);
  }

  lemma NoProofOnRoots(a: BranchID, b: BranchID, f: Finding)
    requires Less(a, b)
    ensures !GlobalProof(f, TwoRoots(a, b))
  {
    RootsAreLeaves(a, b);
    TwoIsolatedBranchesNoGlobal(f, TwoRoots(a, b), a, b);
  }

  lemma SharedIsDemoted(a: BranchID, b: BranchID, shared: Finding, seen: Finding)
    requires Less(a, b) && shared == Refusal(1, Inferred, [a, b]) && seen == Refusal(2, Observed, [b])
    ensures !Represents(TwoRoots(a, b), [Refused()], {shared, seen}, SortedLeaves(TwoRoots(a, b)), shared)
    ensures !Above(TwoRoots(a, b), seen, a)
  {
    RootsAreLeaves(a, b);
    SharedAndSeen(a, b, shared, seen);
    OutrankedAtLast(TwoRoots(a, b), [Refused()], {shared, seen}, [a, b], shared);
  }

  lemma FirstRootIsUncovered(r: EvaluatedRun, out: EvaluatedRun, leaf: BranchID, shared: Finding, seen: Finding)
    requires Elements(StripAll(r.findings)) == {shared, seen} && PrimariesAre(r, out)
    requires !GlobalProof(shared, r.evidence.branches) && !GlobalProof(seen, r.evidence.branches)
    requires !Represents(r.evidence.branches, r.claims, {shared, seen}, SortedLeaves(r.evidence.branches), shared)
    requires !Above(r.evidence.branches, seen, leaf)
    ensures !IsCovered(r.evidence.branches, out.findings, leaf)
  {
    Uncovered(r, out, leaf, {shared, seen});
  }

  /**
   * A finding chosen by one leaf can be demoted by a later one: the first leaf has a confirmed blocker in
   * range and chooses it, the second demotes it, and nothing in the result covers the first.
   */
  method LeafLosesPrimary(e: EvidenceRun, a: BranchID, b: BranchID) returns (r: EvaluatedRun, out: EvaluatedRun, shared: Finding)
    requires e.branches == TwoRoots(a, b) && Less(a, b)
    ensures r.evidence == e && NumberedFindings(r.findings) && a in HttpLeaves(e.branches)
    ensures var all := Elements(StripAll(r.findings));
            && shared in all && AtMinimum(e.branches, all, a, shared)
            && !Outranked(e.branches, r.claims, all, a, shared)
    ensures PrimariesAre(r, out) && !IsCovered(e.branches, out.findings, a)
  {
    shared := Refusal(1, Inferred, [a, b]);
    var seen := Refusal(2, Observed, [b]);
    r := EvaluatedRun(e, Evaluation([REFUSED_RULE], ""), [Refused()], [shared, seen]);
    TwoNumbers(shared, seen);
    DistinctIdsOrder(r.findings);
    out := ApplyKeepsPrimaries(r);
    StrippedPair(shared, seen);
    SharedAndSeen(a, b, shared, seen);
    SharedIsDemoted(a, b, shared, seen);
    NoProofOnRoots(a, b, shared);
    NoProofOnRoots(a, b, seen);
    FirstRootIsUncovered(r, out, a, shared, seen);
    FirstRootIsLeaf(a, b);
  }

  lemma FirstRootIsLeaf(a: BranchID, b: BranchID)
    requires Less(a, b)
    ensures a in HttpLeaves(TwoRoots(a, b))
  {
    RootsAreLeaves(a, b);
    assert TwoRoots(a, b)[0] in TwoRoots(a, b) && HttpLeaf(TwoRoots(a, b), TwoRoots(a, b)[0]);
  }

  lemma StrippedPair(f: Finding, g: Finding)
    requires f.selection == NotSelected && g.selection == NotSelected
    ensures Elements(StripAll([f, g])) == {f, g}
  {
    assert StripAll([f, g]) == [f, g];
  }
}
