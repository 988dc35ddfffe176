/**
 * The branch forest as selection, its validator and the exit status see it. Each walks parent links of
 * its own with a set of seen branches, so that cyclic parents end the walk; all three are proved against
 * reachability along parent links.
 */
module Branches {
  import opened Text
  import opened Model
  import opened Graphs

  /** The last branch with an ID is the one found by ID. */
  function ById(branches: seq<Branch>): map<BranchID, Branch>
  {
    if branches == [] then map[]
    else
      var last := branches[|branches| - 1];
      ById(branches[..|branches| - 1])[last.branchID := last]
  }

  lemma {:induction false} ByIdFinds(branches: seq<Branch>)
    ensures forall id :: id in ById(branches) ==> ById(branches)[id] in branches && ById(branches)[id].branchID == id
    ensures forall b :: b in branches ==> b.branchID in ById(branches)
  {
    if branches != [] {
      ByIdFinds(branches[..|branches| - 1]);
      var last := branches[|branches| - 1];
      assert forall b :: b in branches ==> b in branches[..|branches| - 1] || b == last;
    }
  }

  method IndexBranches(branches: seq<Branch>) returns (m: map<BranchID, Branch>)
    ensures m == ById(branches)
  {
    m := map[];
    for i := 0 to |branches|
      invariant m == ById(branches[..i])
    {
      assert branches[..i + 1][..i] == branches[..i];
      m := m[branches[i].branchID := branches[i]];
    }
    assert branches[..|branches|] == branches;
  }

  /** The parent a walk goes on to; none for an unknown branch. */
  function Parent(m: map<BranchID, Branch>, id: BranchID): Option<BranchID>
  {
    if id in m then m[id].parent else None
  }

  /** Parent links as a graph: at most one edge from each branch. */
  function ParentLinks(m: map<BranchID, Branch>): map<BranchID, seq<BranchID>>
  {
    map id | id in m :: if m[id].parent.Some? then [m[id].parent.value] else []
  }

  /** `a` is `leaf` or reached from it along parent links, also on cyclic and dangling ones. */
  ghost predicate AncestorOrSelf(m: map<BranchID, Branch>, a: BranchID, leaf: BranchID)
  {
    Reaches(ParentLinks(m), leaf, a)
  }

  lemma ParentIsEdge(m: map<BranchID, Branch>, a: BranchID, b: BranchID)
    ensures Edge(ParentLinks(m), a, b) <==> Parent(m, a) == Some(b)
  {
  }

  /** The branches a walk from `current` meets before it ends or comes back to a seen one. */
  function Chain(m: map<BranchID, Branch>, current: BranchID, seen: set<BranchID>): seq<BranchID>
    decreases m.Keys - seen
  {
    if current in seen then []
    else if Parent(m, current).Some? then [current] + Chain(m, Parent(m, current).value, seen + {current})
    else [current]
  }

  lemma {:induction false} ChainIsReached(m: map<BranchID, Branch>, current: BranchID, seen: set<BranchID>, a: BranchID)
    requires a in Chain(m, current, seen)
    ensures AncestorOrSelf(m, a, current)
    decreases m.Keys - seen
  {
    var g := ParentLinks(m);
    if a == current {
      ReachesSelf(g, a);
    } else {
      var p := Parent(m, current).value;
      assert a in Chain(m, p, seen + {current});
      ChainIsReached(m, p, seen + {current}, a);
      ParentIsEdge(m, current, p);
      EdgeReaches(g, current, p);
      ReachesTransitive(g, current, p, a);
    }
  }

  /** The parent of a branch on the chain is on the chain or was seen before it began. */
  lemma {:induction false} ChainClosed(m: map<BranchID, Branch>, current: BranchID, seen: set<BranchID>, a: BranchID)
    requires a in Chain(m, current, seen) && Parent(m, a).Some?
    ensures Parent(m, a).value in Chain(m, current, seen) || Parent(m, a).value in seen
    decreases m.Keys - seen
  {
    var p := Parent(m, current);
    if p.Some? {
      if a == current {
        assert p.value in seen + {current} || p.value in Chain(m, p.value, seen + {current});
      } else {
        assert a in Chain(m, p.value, seen + {current});
        ChainClosed(m, p.value, seen + {current}, a);
      }
    }
  }

  /** The chain holds exactly the ancestors and the branch itself. */
  lemma ChainExact(m: map<BranchID, Branch>, leaf: BranchID, a: BranchID)
    ensures a in Chain(m, leaf, {}) <==> AncestorOrSelf(m, a, leaf)
  {
    var g := ParentLinks(m);
    var c := Chain(m, leaf, {});
    if a in c {
      ChainIsReached(m, leaf, {}, a);
    } else if AncestorOrSelf(m, a, leaf) {
      var s := set x | x in c;
      forall x, y | x in s && Edge(g, x, y)
        ensures y in s
      {
        ParentIsEdge(m, x, y);
        ChainClosed(m, leaf, {}, x);
      }
      ClosedReaches(g, s, leaf, a);
    }
  }

  predicate ContainsBranch(all: seq<Branch>, id: BranchID) { exists b :: b in all && b.branchID == id }

  /** The edge count of the first branch with the ID, 0 when there is none. */
  function BranchEdgeCount(all: seq<Branch>, id: BranchID): nat
  {
    if all == [] then 0 else if all[0].branchID == id then |all[0].edges| else BranchEdgeCount(all[1..], id)
  }

  // ---------------------------------------------------------------- leaves

  predicate HasChild(branches: seq<Branch>, id: BranchID) { exists b :: b in branches && b.parent == Some(id) }

  function Childless(branches: seq<Branch>, all: seq<Branch>): (s: seq<BranchID>)
    ensures forall id :: id in s <==> exists b :: b in branches && b.branchID == id && !HasChild(all, id)
  {
    if branches == [] then []
    else
      var rest, last := Childless(branches[..|branches| - 1], all), branches[|branches| - 1];
      assert forall b :: b in branches <==> b in branches[..|branches| - 1] || b == last;
      rest + if HasChild(all, last.branchID) then [] else [last.branchID]
  }

  /** The branches no branch names as its parent, in list order. */
  function Leaves(branches: seq<Branch>): seq<BranchID> { Childless(branches, branches) }

  /** The two loops that collect parents and then the branches outside them. */
  method CollectLeaves(branches: seq<Branch>) returns (leaves: seq<BranchID>)
    ensures leaves == Leaves(branches)
  {
    var children := CollectParents(branches);
    leaves := [];
    for i := 0 to |branches|
      invariant leaves == Childless(branches[..i], branches)
    {
      assert branches[..i + 1][..i] == branches[..i];
      if branches[i].branchID !in children {
        leaves := leaves + [branches[i].branchID];
      }
    }
    assert branches[..|branches|] == branches;
  }

  method CollectParents(branches: seq<Branch>) returns (children: set<BranchID>)
    ensures forall id :: id in children <==> HasChild(branches, id)
  {
    children := {};
    for i := 0 to |branches|
      invariant forall id :: id in children <==> HasChild(branches[..i], id)
    {
      assert branches[..i + 1] == branches[..i] + [branches[i]];
      HasChildOfNext(branches[..i], branches[i]);
      if branches[i].parent.Some? {
        children := children + {branches[i].parent.value};
      }
    }
    assert branches[..|branches|] == branches;
  }

  lemma HasChildOfNext(branches: seq<Branch>, b: Branch)
    ensures forall id :: HasChild(branches + [b], id) <==> HasChild(branches, id) || b.parent == Some(id)
  {
    assert forall x :: x in branches + [b] <==> x in branches || x == b;
  }

  // ---------------------------------------------------------------- the validator's walk

  /** One leaf of isAncestorOfAll. */
  method WalkMeets(candidate: BranchID, leaf: BranchID, m: map<BranchID, Branch>) returns (found: bool)
    ensures found <==> AncestorOrSelf(m, candidate, leaf)
  {
    var current := leaf;
    var seen: set<BranchID> := {};
    ChainExact(m, leaf, candidate);
    while true
      invariant candidate in Chain(m, leaf, {}) <==> candidate in Chain(m, current, seen)
      decreases m.Keys - seen
    {
      if current in seen {
        return false;
      }
      if current == candidate {
        return true;
      }
      var parent := Parent(m, current);
      if parent.None? {
        return false;
      }
      seen := seen + {current};
      current := parent.value;
    }
  }

  method IsAncestorOfAll(candidate: BranchID, leaves: seq<BranchID>, m: map<BranchID, Branch>) returns (all: bool)
    ensures all <==> forall leaf :: leaf in leaves ==> AncestorOrSelf(m, candidate, leaf)
  {
    for i := 0 to |leaves|
      invariant forall k :: 0 <= k < i ==> AncestorOrSelf(m, candidate, leaves[k])
    {
      var found := WalkMeets(candidate, leaves[i], m);
      if !found {
        return false;
      }
    }
    all := true;
  }

  // ---------------------------------------------------------------- attachment

  /** The position a finding gives for a branch: the first one listed. */
  function PositionOn(positions: seq<PathPosition>, id: BranchID): (r: Option<nat>)
    ensures r.Some? <==> exists p :: p in positions && p.branchID == id
  {
    if positions == [] then None
    else if positions[0].branchID == id then Some(positions[0].position)
    else
      assert forall p :: p in positions <==> p == positions[0] || p in positions[1..];
      PositionOn(positions[1..], id)
  }

  predicate Attaches(f: Finding, id: BranchID) { id in f.branchIDs && PositionOn(f.positions, id).Some? }

  /** The first branch of a chain the finding is attached to, with a position. */
  function FirstAttached(f: Finding, chain: seq<BranchID>): Option<BranchID>
  {
    if chain == [] then None else if Attaches(f, chain[0]) then Some(chain[0]) else FirstAttached(f, chain[1..])
  }

  lemma {:induction false} FirstAttachedFinds(f: Finding, chain: seq<BranchID>)
    ensures FirstAttached(f, chain).Some? <==> exists id :: id in chain && Attaches(f, id)
    ensures FirstAttached(f, chain).Some? ==>
              FirstAttached(f, chain).value in chain && Attaches(f, FirstAttached(f, chain).value)
  {
    if chain != [] {
      FirstAttachedFinds(f, chain[1..]);
      assert forall id :: id in chain <==> id == chain[0] || id in chain[1..];
    }
  }

  /** Where a finding attaches above a leaf: on the nearest branch of the walk it names with a position. */
  function Attachment(f: Finding, leaf: BranchID, m: map<BranchID, Branch>): Option<BranchID>
  {
    FirstAttached(f, Chain(m, leaf, {}))
  }

  /** findingBranchPosition */
  method FindingBranchPosition(f: Finding, leaf: BranchID, m: map<BranchID, Branch>)
    returns (attached: Option<BranchID>, position: nat)
    ensures attached == Attachment(f, leaf, m)
    ensures attached.Some? ==> PositionOn(f.positions, attached.value) == Some(position)
  {
    var current := leaf;
    var seen: set<BranchID> := {};
    position := 0;
    while true
      invariant Attachment(f, leaf, m) == FirstAttached(f, Chain(m, current, seen))
      decreases m.Keys - seen
    {
      if current in seen {
        return None, 0;
      }
      if current in f.branchIDs {
        var p := PositionOn(f.positions, current);
        if p.Some? {
          return Some(current), p.value;
        }
      }
      ChainStep(f, m, current, seen);
      var parent := Parent(m, current);
      if parent.None? {
        return None, 0;
      }
      seen := seen + {current};
      current := parent.value;
    }
  }

  lemma ChainStep(f: Finding, m: map<BranchID, Branch>, current: BranchID, seen: set<BranchID>)
    requires current !in seen && !Attaches(f, current)
    ensures FirstAttached(f, Chain(m, current, seen)) ==
            if Parent(m, current).Some? then FirstAttached(f, Chain(m, Parent(m, current).value, seen + {current}))
            else None
  {
    var c := Chain(m, current, seen);
    assert c[0] == current;
    if Parent(m, current).Some? {
      assert c[1..] == Chain(m, Parent(m, current).value, seen + {current});
    }
  }

  // ---------------------------------------------------------------- global primaries

  /**
   * GlobalPrimaryProof: a confirmed blocker attached, within range, to a known branch that is an ancestor
   * or self of every leaf; never when there is no leaf.
   */
  ghost predicate GlobalProof(f: Finding, branches: seq<Branch>)
  {
    && f.ConfirmedBlocker()
    && Leaves(branches) != []
    && exists id :: id in f.branchIDs && ProvesGlobally(f, branches, id)
  }

  ghost predicate ProvesGlobally(f: Finding, branches: seq<Branch>, id: BranchID)
  {
    var m := ById(branches);
    && id in m
    && PositionOn(f.positions, id).Some?
    && PositionOn(f.positions, id).value < |m[id].edges|
    && forall leaf :: leaf in Leaves(branches) ==> AncestorOrSelf(m, id, leaf)
  }

  method GlobalPrimaryProof(f: Finding, branches: seq<Branch>) returns (proof: bool)
    ensures proof <==> GlobalProof(f, branches)
  {
    if !f.ConfirmedBlocker() {
      return false;
    }
    var m := IndexBranches(branches);
    var leaves := CollectLeaves(branches);
    if |leaves| == 0 {
      return false;
    }
    for i := 0 to |f.branchIDs|
      invariant forall k :: 0 <= k < i ==> !ProvesGlobally(f, branches, f.branchIDs[k])
    {
      var proves := CheckCandidate(f, branches, m, leaves, f.branchIDs[i]);
      if proves {
        return true;
      }
    }
    forall id | id in f.branchIDs
      ensures !ProvesGlobally(f, branches, id)
    {
      var k :| 0 <= k < |f.branchIDs| && f.branchIDs[k] == id;
    }
    proof := false;
  }

  method CheckCandidate(f: Finding, branches: seq<Branch>, m: map<BranchID, Branch>, leaves: seq<BranchID>, id: BranchID)
    returns (proves: bool)
    requires m == ById(branches) && leaves == Leaves(branches)
    ensures proves <==> ProvesGlobally(f, branches, id)
  {
    var position := PositionOn(f.positions, id);
    if id !in m || position.None? {
      return false;
    }
    var all := IsAncestorOfAll(id, leaves, m);
    proves := all && position.value < |m[id].edges|;
  }

  /** ValidateSelection: no issue exactly when at most one finding is a global primary, and it has the proof. */
  method ValidateSelection(findings: seq<Finding>, branches: seq<Branch>) returns (issues: seq<Issue>)
    ensures issues == [] <==> ValidSelection(findings, branches)
  {
    issues := [];
    var global := 0;
    for i := 0 to |findings|
      invariant issues == [] <==> AllProven(findings[..i], branches)
      invariant global == GlobalCount(findings[..i])
    {
      assert findings[..i + 1] == findings[..i] + [findings[i]];
      if findings[i].selection == GlobalPrimary {
        global := global + 1;
        var proof := GlobalPrimaryProof(findings[i], branches);
        if !proof {
          issues := issues + [Issue(GlobalPrimaryCode, "/findings/" + Itoa(i) + "/selection",
                                    "global primary lacks a pre-split proof for every leaf branch")];
        }
      }
    }
    assert findings[..|findings|] == findings;
    GlobalCountAtMostOne(findings);
    if global > 1 {
      issues := issues + [Issue(GlobalPrimaryCode, "/findings", "multiple global primary findings")];
    }
  }

  function GlobalCount(findings: seq<Finding>): nat
  {
    if findings == [] then 0
    else GlobalCount(findings[..|findings| - 1]) + if findings[|findings| - 1].selection == GlobalPrimary then 1 else 0
  }

  ghost predicate AtMostOneGlobal(findings: seq<Finding>)
  {
    forall k, l :: 0 <= k < l < |findings| ==> !(findings[k].selection == findings[l].selection == GlobalPrimary)
  }

  lemma {:induction false} GlobalCountAtMostOne(findings: seq<Finding>)
    ensures GlobalCount(findings) <= 1 <==> AtMostOneGlobal(findings)
    ensures GlobalCount(findings) == 0 <==> forall k :: 0 <= k < |findings| ==> findings[k].selection != GlobalPrimary
  {
    if findings != [] {
      GlobalCountAtMostOne(findings[..|findings| - 1]);
    }
  }

  ghost predicate AllProven(findings: seq<Finding>, branches: seq<Branch>)
  {
    forall k :: 0 <= k < |findings| && findings[k].selection == GlobalPrimary ==> GlobalProof(findings[k], branches)
  }

  ghost predicate ValidSelection(findings: seq<Finding>, branches: seq<Branch>)
  {
    && AllProven(findings, branches)
    && AtMostOneGlobal(findings)
  }

  /** Two branches without parent and child share no ancestor: no finding is ever global there. */
  lemma TwoIsolatedBranchesNoGlobal(f: Finding, branches: seq<Branch>, a: BranchID, b: BranchID)
    requires a != b && a in ById(branches) && b in ById(branches)
    requires !HasChild(branches, a) && !HasChild(branches, b)
    requires ById(branches)[a].parent.None? && ById(branches)[b].parent.None?
    ensures !GlobalProof(f, branches)
  {
    var m := ById(branches);
    ByIdFinds(branches);
    assert a in Leaves(branches) && b in Leaves(branches);
    assert Chain(m, a, {}) == [a] && Chain(m, b, {}) == [b];
    forall id | id in f.branchIDs
      ensures !ProvesGlobally(f, branches, id)
    {
      ChainExact(m, a, id);
      ChainExact(m, b, id);
    }
  }
}
