/**
 * internal/selection/selection.go: which findings a report presents as primary. Each leaf branch selects,
 * among the confirmed blockers attached nearest the origin, one finding per statement; then at most one
 * finding with a proof for every leaf is promoted to the whole run.
 */
module Selecting {
  import opened Text
  import opened Model
  import opened Ids
  import opened Sorting
  import opened Branches

  // ---------------------------------------------------------------- order and equivalence of findings

  predicate LessFinding(a: Finding, b: Finding)
  {
    if a.ruleID != b.ruleID then Less(a.ruleID, b.ruleID) else CompareIds(a.findingID, b.findingID, FINDING_PREFIX) < 0
  }

  function ClaimById(claims: seq<Claim>, id: ClaimID): Option<Claim>
  {
    if claims == [] then None else if claims[0].claimID == id then Some(claims[0]) else ClaimById(claims[1..], id)
  }

  /** sameClaimProposition: the same statement about the same things; observation times are not compared. */
  predicate SameProposition(a: Claim, b: Claim)
  {
    && a.statement == b.statement
    && a.parameters.kind == b.parameters.kind
    && match a.parameters.kind
       case TcpRefused =>
         && a.parameters.tcpRefused.Some? && b.parameters.tcpRefused.Some?
         && var x, y := a.parameters.tcpRefused.value, b.parameters.tcpRefused.value;
         x.endpointEntityID == y.endpointEntityID && x.vantageID == y.vantageID
       case HostnameMismatch =>
         && a.parameters.hostnameMismatch.Some? && b.parameters.hostnameMismatch.Some?
         && var x, y := a.parameters.hostnameMismatch.value, b.parameters.hostnameMismatch.value;
         x.peerEntityID == y.peerEntityID && x.hostname == y.hostname && x.trustSource == y.trustSource
       case NoListener =>
         && a.parameters.listenerAbsent.Some? && b.parameters.listenerAbsent.Some?
         && a.parameters.listenerAbsent == b.parameters.listenerAbsent
       case OtherStatement(_) => a.claimID == b.claimID
  }

  predicate SameClaim(claims: seq<Claim>, a: ClaimID, b: ClaimID)
  {
    var x, y := ClaimById(claims, a), ClaimById(claims, b);
    x.Some? && y.Some? && SameProposition(x.value, y.value)
  }

  /** sameStatement: equal kind and title, and claim for claim the same proposition. */
  predicate SameStatement(claims: seq<Claim>, a: Finding, b: Finding)
  {
    && a.kind == b.kind && a.title == b.title && |a.claimIDs| == |b.claimIDs|
    && forall i :: 0 <= i < |a.claimIDs| ==> SameClaim(claims, a.claimIDs[i], b.claimIDs[i])
  }

  lemma SameSymmetric(claims: seq<Claim>, a: Finding, b: Finding)
    requires SameStatement(claims, a, b)
    ensures SameStatement(claims, b, a)
  {
    forall i | 0 <= i < |b.claimIDs|
      ensures SameClaim(claims, b.claimIDs[i], a.claimIDs[i])
    {
      assert SameClaim(claims, a.claimIDs[i], b.claimIDs[i]);
    }
  }

  lemma SameTransitive(claims: seq<Claim>, a: Finding, b: Finding, c: Finding)
    requires SameStatement(claims, a, b) && SameStatement(claims, b, c)
    ensures SameStatement(claims, a, c)
  {
    forall i | 0 <= i < |a.claimIDs|
      ensures SameClaim(claims, a.claimIDs[i], c.claimIDs[i])
    {
      assert SameClaim(claims, a.claimIDs[i], b.claimIDs[i]);
      assert SameClaim(claims, b.claimIDs[i], c.claimIDs[i]);
    }
  }

  // ---------------------------------------------------------------- what a leaf selects, declaratively

  /** The finding attaches above the leaf, with a position inside the branch it attaches to. */
  predicate InRange(branches: seq<Branch>, leaf: BranchID, f: Finding)
  {
    && f.ConfirmedBlocker()
    && var a := Attachment(f, leaf, ById(branches));
    && a.Some?
    && PositionOn(f.positions, a.value).Some?
    && PositionOn(f.positions, a.value).value < BranchEdgeCount(branches, a.value)
  }

  function Position(branches: seq<Branch>, leaf: BranchID, f: Finding): nat
    requires InRange(branches, leaf, f)
  {
    PositionOn(f.positions, Attachment(f, leaf, ById(branches)).value).value
  }

  /** The confirmed blockers of `all` at the smallest position met from this leaf. */
  predicate AtMinimum(branches: seq<Branch>, all: set<Finding>, leaf: BranchID, f: Finding)
  {
    && InRange(branches, leaf, f)
    && forall g :: g in all && InRange(branches, leaf, g) ==> Position(branches, leaf, f) <= Position(branches, leaf, g)
  }

  predicate ObservedTwin(branches: seq<Branch>, claims: seq<Claim>, all: set<Finding>, leaf: BranchID, f: Finding)
  {
    exists g :: g in all && AtMinimum(branches, all, leaf, g) && g.level == Observed && SameStatement(claims, f, g)
  }

  /** May represent its statement: observed, or nothing observed says the same. */
  predicate Eligible(branches: seq<Branch>, claims: seq<Claim>, all: set<Finding>, leaf: BranchID, f: Finding)
  {
    AtMinimum(branches, all, leaf, f) && (f.level == Observed || !ObservedTwin(branches, claims, all, leaf, f))
  }

  /** The first eligible finding of its statement. */
  predicate Chosen(branches: seq<Branch>, claims: seq<Claim>, all: set<Finding>, leaf: BranchID, f: Finding)
  {
    && Eligible(branches, claims, all, leaf, f)
    && forall g :: g in all && Eligible(branches, claims, all, leaf, g) && SameStatement(claims, f, g) ==> !LessFinding(g, f)
  }

  /** The selection that the rounds of a list of leaves leave a finding with: the last round that writes it. */
  function BranchSelection(
    branches: seq<Branch>, claims: seq<Claim>, all: set<Finding>, leaves: seq<BranchID>, f: Finding): Selection
  {
    if leaves == [] then NotSelected
    else
      var leaf := leaves[|leaves| - 1];
      if !AtMinimum(branches, all, leaf, f) then BranchSelection(branches, claims, all, leaves[..|leaves| - 1], f)
      else if Chosen(branches, claims, all, leaf, f) then BranchPrimary
      else Additional
  }

  predicate GlobalLess(a: Finding, b: Finding)
  {
    if a.level != b.level then a.level == Observed else LessFinding(a, b)
  }

  function SortedLeaves(branches: seq<Branch>): seq<BranchID> { StableSort(Less, Leaves(branches)) }

  /** The selection of a finding as a function of the set of findings alone, not of their order. */
  ghost function FinalSelection(branches: seq<Branch>, claims: seq<Claim>, all: set<Finding>, f: Finding): Selection
  {
    if !GlobalProof(f, branches) then BranchSelection(branches, claims, all, SortedLeaves(branches), f)
    else if exists g :: g in all && GlobalProof(g, branches) && GlobalLess(g, f) then Additional
    else GlobalPrimary
  }

  function Stripped(f: Finding): Finding { f.(selection := NotSelected) }

  function StripAll(fs: seq<Finding>): (s: seq<Finding>)
    ensures |s| == |fs| && forall i :: 0 <= i < |fs| ==> s[i] == Stripped(fs[i])
  {
    seq(|fs|, i requires 0 <= i < |fs| => Stripped(fs[i]))
  }

  function Elements(fs: seq<Finding>): set<Finding> { set f | f in fs }

  /** What Apply returns on ordered findings. */
  ghost function Applied(r: EvaluatedRun): EvaluatedRun
  {
    var fs := StripAll(r.findings);
    r.(findings := seq(|fs|, i requires 0 <= i < |fs| =>
      fs[i].(selection := FinalSelection(r.evidence.branches, r.claims, Elements(fs), fs[i]))))
  }

  /** lessFinding orders the findings totally. */
  ghost predicate Ordered(fs: seq<Finding>)
  {
    && (forall i :: 0 <= i < |fs| ==> !LessFinding(fs[i], fs[i]))
    && (forall i, j :: 0 <= i < j < |fs| ==> LessFinding(fs[i], fs[j]) || LessFinding(fs[j], fs[i]))
    && (forall i, j, k :: 0 <= i < |fs| && 0 <= j < |fs| && 0 <= k < |fs| && LessFinding(fs[i], fs[j]) && LessFinding(fs[j], fs[k]) ==>
                            LessFinding(fs[i], fs[k]))
  }

  /** Valid finding IDs with distinct numbers are enough. */
  lemma DistinctIdsOrder(fs: seq<Finding>)
    requires forall i :: 0 <= i < |fs| ==> ValidGenerated(fs[i].findingID, FINDING_PREFIX)
    requires forall i, j :: 0 <= i < j < |fs| ==>
               GeneratedNumber(fs[i].findingID, FINDING_PREFIX) != GeneratedNumber(fs[j].findingID, FINDING_PREFIX)
    ensures Ordered(fs)
  {
    forall i | 0 <= i < |fs|
      ensures !LessFinding(fs[i], fs[i])
    {
      CompareTies(fs[i].findingID, fs[i].findingID, FINDING_PREFIX);
    }
    forall i, j | 0 <= i < j < |fs|
      ensures LessFinding(fs[i], fs[j]) || LessFinding(fs[j], fs[i])
    {
      LessTrichotomy(fs[i].ruleID, fs[j].ruleID);
    }
    forall i, j, k | 0 <= i < |fs| && 0 <= j < |fs| && 0 <= k < |fs| && LessFinding(fs[i], fs[j]) && LessFinding(fs[j], fs[k])
      ensures LessFinding(fs[i], fs[k])
    {
      LessFindingTransitive(fs[i], fs[j], fs[k]);
    }
  }

  lemma LessFindingTransitive(a: Finding, b: Finding, c: Finding)
    requires LessFinding(a, b) && LessFinding(b, c)
    requires ValidGenerated(a.findingID, FINDING_PREFIX) && ValidGenerated(b.findingID, FINDING_PREFIX)
    requires ValidGenerated(c.findingID, FINDING_PREFIX)
    ensures LessFinding(a, c)
  {
    if a.ruleID != b.ruleID && b.ruleID != c.ruleID {
      LessTransitive(a.ruleID, b.ruleID, c.ruleID);
      LessIrreflexive(a.ruleID);
    } else if a.ruleID == b.ruleID == c.ruleID {
      CompareTransitive(a.findingID, b.findingID, c.findingID, FINDING_PREFIX);
    }
  }
}
