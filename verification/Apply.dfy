/** The algorithm of selection.Apply, proved against the declarative selection of module Selecting. */
module SelectionApply {
  import opened Text
  import opened Model
  import opened Sorting
  import opened Branches
  import opened Selecting

  // ---------------------------------------------------------------- the candidates of a leaf

  datatype Candidate = Candidate(index: int, position: nat)

  /** A confirmed blocker attached above the leaf at a position its branch does not have. */
  predicate OutOfRange(branches: seq<Branch>, leaf: BranchID, f: Finding)
  {
    f.ConfirmedBlocker() && Attachment(f, leaf, ById(branches)).Some? && !InRange(branches, leaf, f)
  }

  function Candidates(branches: seq<Branch>, leaf: BranchID, fs: seq<Finding>): seq<Candidate>
  {
    if fs == [] then []
    else
      var i := |fs| - 1;
      Candidates(branches, leaf, fs[..i]) +
      if InRange(branches, leaf, fs[i]) then [Candidate(i, Selecting.Position(branches, leaf, fs[i]))] else []
  }

  predicate IsCandidate(branches: seq<Branch>, leaf: BranchID, fs: seq<Finding>, c: Candidate)
  {
    && 0 <= c.index < |fs|
    && InRange(branches, leaf, fs[c.index])
    && c.position == Selecting.Position(branches, leaf, fs[c.index])
  }

  ghost predicate Ascending(cs: seq<Candidate>) { forall k, l :: 0 <= k < l < |cs| ==> cs[k].index < cs[l].index }

  lemma {:induction false} CandidateIsExact(branches: seq<Branch>, leaf: BranchID, fs: seq<Finding>, c: Candidate)
    ensures c in Candidates(branches, leaf, fs) <==> IsCandidate(branches, leaf, fs, c)
  {
    if fs != [] {
      var i := |fs| - 1;
      CandidateIsExact(branches, leaf, fs[..i], c);
      assert c.index < i ==> 0 <= c.index ==> fs[..i][c.index] == fs[c.index];
    }
  }

  lemma {:induction false} CandidatesAscend(branches: seq<Branch>, leaf: BranchID, fs: seq<Finding>)
    ensures Ascending(Candidates(branches, leaf, fs))
  {
    if fs != [] {
      var i := |fs| - 1;
      var rest := Candidates(branches, leaf, fs[..i]);
      CandidatesAscend(branches, leaf, fs[..i]);
      forall k | 0 <= k < |rest|
        ensures rest[k].index < i
      {
        CandidateIsExact(branches, leaf, fs[..i], rest[k]);
      }
    }
  }

  /** Every in-range confirmed blocker is a candidate once, in list order, with its position. */
  lemma CandidatesExact(branches: seq<Branch>, leaf: BranchID, fs: seq<Finding>)
    ensures forall c :: c in Candidates(branches, leaf, fs) <==> IsCandidate(branches, leaf, fs, c)
    ensures Ascending(Candidates(branches, leaf, fs))
  {
    forall c
      ensures c in Candidates(branches, leaf, fs) <==> IsCandidate(branches, leaf, fs, c)
    {
      CandidateIsExact(branches, leaf, fs, c);
    }
    CandidatesAscend(branches, leaf, fs);
  }

  method CollectCandidates(branches: seq<Branch>, m: map<BranchID, Branch>, fs: seq<Finding>, leaf: BranchID, issues: seq<Issue>)
    returns (cs: seq<Candidate>, out: seq<Issue>)
    requires m == ById(branches)
    ensures cs == Candidates(branches, leaf, fs)
    ensures out == [] <==> issues == [] && forall f :: f in fs ==> !OutOfRange(branches, leaf, f)
  {
    cs, out := [], issues;
    for i := 0 to |fs|
      invariant cs == Candidates(branches, leaf, fs[..i])
      invariant out == [] <==> issues == [] && forall k :: 0 <= k < i ==> !OutOfRange(branches, leaf, fs[k])
    {
      assert fs[..i + 1][..i] == fs[..i];
      if fs[i].ConfirmedBlocker() {
        var attached, position := FindingBranchPosition(fs[i], leaf, m);
        if attached.Some? {
          if position >= BranchEdgeCount(branches, attached.value) {
            out := out + [Issue(GlobalPrimaryCode, "/findings", "finding path position is outside branch")];
          } else {
            cs := cs + [Candidate(i, position)];
          }
        }
      }
    }
    assert fs[..|fs|] == fs;
  }

  function LowestPosition(cs: seq<Candidate>): nat
    requires cs != []
  {
    var last := cs[|cs| - 1];
    if |cs| == 1 then last.position
    else
      var rest := LowestPosition(cs[..|cs| - 1]);
      if last.position < rest then last.position else rest
  }

  lemma {:induction false} LowestIsLeast(cs: seq<Candidate>, c: Candidate)
    requires c in cs
    ensures LowestPosition(cs) <= c.position
  {
    if |cs| > 1 && c != cs[|cs| - 1] {
      LowestIsLeast(cs[..|cs| - 1], c);
    }
  }

  lemma {:induction false} LowestIsTaken(cs: seq<Candidate>) returns (low: Candidate)
    requires cs != []
    ensures low in cs && low.position == LowestPosition(cs)
  {
    low := cs[|cs| - 1];
    if |cs| > 1 {
      var front := LowestIsTaken(cs[..|cs| - 1]);
      if low.position >= LowestPosition(cs[..|cs| - 1]) {
        low := front;
      }
    }
  }

  function IndicesAt(cs: seq<Candidate>, min: nat): (at: seq<int>)
    ensures forall i :: i in at <==> Candidate(i, min) in cs
  {
    if cs == [] then []
    else
      var last := cs[|cs| - 1];
      assert forall c :: c in cs <==> c in cs[..|cs| - 1] || c == last;
      IndicesAt(cs[..|cs| - 1], min) + if last.position == min then [last.index] else []
  }

  lemma {:induction false} IndicesDistinct(cs: seq<Candidate>, min: nat)
    requires forall k, l :: 0 <= k < l < |cs| ==> cs[k].index < cs[l].index
    ensures NoRepeats(IndicesAt(cs, min))
  {
    if cs == [] {
      assert IndicesAt(cs, min) == [];
    } else {
      var front := cs[..|cs| - 1];
      var rest := IndicesAt(front, min);
      IndicesDistinct(front, min);
      forall k | 0 <= k < |rest|
        ensures rest[k] != cs[|cs| - 1].index
      {
        assert rest[k] in rest && Candidate(rest[k], min) in front;
        var j :| 0 <= j < |front| && front[j] == Candidate(rest[k], min);
        assert cs[j] == front[j];
      }
      var at := IndicesAt(cs, min);
      assert at == rest || at == rest + [cs[|cs| - 1].index];
    }
  }

  /** The minimum position and the filter that keeps the candidates at it. */
  method KeepMinimum(cs: seq<Candidate>) returns (at: seq<int>)
    requires cs != []
    ensures at == IndicesAt(cs, LowestPosition(cs))
  {
    var min := cs[0].position;
    for k := 1 to |cs|
      invariant min == LowestPosition(cs[..k])
    {
      assert cs[..k + 1][..k] == cs[..k];
      if cs[k].position < min {
        min := cs[k].position;
      }
    }
    assert cs[..|cs|] == cs;
    at := [];
    for k := 0 to |cs|
      invariant at == IndicesAt(cs[..k], min)
    {
      assert cs[..k + 1][..k] == cs[..k];
      if cs[k].position == min {
        at := at + [cs[k].index];
      }
    }
  }

  predicate Indexed(at: seq<int>, n: int) { forall k :: 0 <= k < |at| ==> 0 <= at[k] < n }

  /** An order in which the findings at the minimum are looked at: each of their indices once. */
  ghost predicate IsOrder(branches: seq<Branch>, fs: seq<Finding>, leaf: BranchID, at: seq<int>)
  {
    && Indexed(at, |fs|)
    && (forall k :: 0 <= k < |at| ==> AtMinimum(branches, Elements(fs), leaf, fs[at[k]]))
    && (forall i :: 0 <= i < |fs| && AtMinimum(branches, Elements(fs), leaf, fs[i]) ==> i in at)
    && NoRepeats(at)
  }

  lemma KeptAreAtMinimum(branches: seq<Branch>, fs: seq<Finding>, leaf: BranchID)
    requires Candidates(branches, leaf, fs) != []
    ensures var cs := Candidates(branches, leaf, fs);
            var at := IndicesAt(cs, LowestPosition(cs)); IsOrder(branches, fs, leaf, at) && at != []
  {
    var cs := Candidates(branches, leaf, fs);
    var min := LowestPosition(cs);
    var at := IndicesAt(cs, min);
    CandidatesExact(branches, leaf, fs);
    IndicesDistinct(cs, min);
    var low := LowestIsTaken(cs);
    assert low.index in at;
    forall k | 0 <= k < |at|
      ensures 0 <= at[k] < |fs| && AtMinimum(branches, Elements(fs), leaf, fs[at[k]])
    {
      assert at[k] in at;
      KeptIsMinimal(branches, fs, leaf, at[k]);
    }
    forall i | 0 <= i < |fs| && AtMinimum(branches, Elements(fs), leaf, fs[i])
      ensures i in at
    {
      MinimalIsKept(branches, fs, leaf, i);
    }
  }

  lemma MinimalIsKept(branches: seq<Branch>, fs: seq<Finding>, leaf: BranchID, i: int)
    requires Candidates(branches, leaf, fs) != []
    requires 0 <= i < |fs| && AtMinimum(branches, Elements(fs), leaf, fs[i])
    ensures var cs := Candidates(branches, leaf, fs); Candidate(i, LowestPosition(cs)) in cs
  {
    var cs := Candidates(branches, leaf, fs);
    var low := LowestIsTaken(cs);
    CandidatesExact(branches, leaf, fs);
    assert IsCandidate(branches, leaf, fs, low) && fs[low.index] in Elements(fs);
    var c := Candidate(i, Selecting.Position(branches, leaf, fs[i]));
    assert IsCandidate(branches, leaf, fs, c);
    LowestIsLeast(cs, c);
  }

  lemma KeptIsMinimal(branches: seq<Branch>, fs: seq<Finding>, leaf: BranchID, i: int)
    requires var cs := Candidates(branches, leaf, fs); cs != [] && Candidate(i, LowestPosition(cs)) in cs
    ensures 0 <= i < |fs| && AtMinimum(branches, Elements(fs), leaf, fs[i])
  {
    var cs := Candidates(branches, leaf, fs);
    CandidatesExact(branches, leaf, fs);
    assert IsCandidate(branches, leaf, fs, Candidate(i, LowestPosition(cs)));
    forall g | g in Elements(fs) && InRange(branches, leaf, g)
      ensures LowestPosition(cs) <= Selecting.Position(branches, leaf, g)
    {
      var j :| 0 <= j < |fs| && fs[j] == g;
      var c := Candidate(j, Selecting.Position(branches, leaf, g));
      assert IsCandidate(branches, leaf, fs, c);
      LowestIsLeast(cs, c);
    }
  }

  // ---------------------------------------------------------------- choosing among the findings at the minimum

  predicate SaysTheSame(claims: seq<Claim>, fs: seq<Finding>, selected: seq<int>, f: Finding)
    requires Indexed(selected, |fs|)
  {
    exists k :: 0 <= k < |selected| && SameStatement(claims, f, fs[selected[k]])
  }

  /** The primaries among the first q findings looked at. */
  function Primaries(branches: seq<Branch>, claims: seq<Claim>, fs: seq<Finding>, leaf: BranchID, at: seq<int>): (p: seq<int>)
    requires Indexed(at, |fs|)
    ensures Indexed(p, |fs|) && forall s :: s in p ==> s in at
  {
    if at == [] then []
    else
      var earlier := Primaries(branches, claims, fs, leaf, at[..|at| - 1]);
      var f := fs[at[|at| - 1]];
      if Eligible(branches, claims, Elements(fs), leaf, f) && !SaysTheSame(claims, fs, earlier, f)
      then earlier + [at[|at| - 1]] else earlier
  }

  /** The selections after a round: primary, additional, or as before for a finding not at the minimum. */
  ghost predicate RoundWrites(
    branches: seq<Branch>, claims: seq<Claim>, fs: seq<Finding>, leaf: BranchID, at: seq<int>,
    sel: seq<Selection>, sel': seq<Selection>)
    requires Indexed(at, |fs|)
    requires |sel| == |fs|
  {
    && |sel'| == |sel|
    && forall i :: 0 <= i < |sel| ==>
         sel'[i] == if i !in at then sel[i]
                    else if i in Primaries(branches, claims, fs, leaf, at) then BranchPrimary else Additional
  }

  method FindObservedTwin(branches: seq<Branch>, claims: seq<Claim>, fs: seq<Finding>, leaf: BranchID, at: seq<int>, f: Finding)
    returns (twin: bool)
    requires IsOrder(branches, fs, leaf, at)
    ensures twin <==> ObservedTwin(branches, claims, Elements(fs), leaf, f)
  {
    for k := 0 to |at|
      invariant forall l :: 0 <= l < k ==> !(fs[at[l]].level == Observed && SameStatement(claims, f, fs[at[l]]))
    {
      if fs[at[k]].level == Observed && SameStatement(claims, f, fs[at[k]]) {
        assert fs[at[k]] in Elements(fs);
        return true;
      }
    }
    forall g | g in Elements(fs) && AtMinimum(branches, Elements(fs), leaf, g) && g.level == Observed
      ensures !SameStatement(claims, f, g)
    {
      var i :| 0 <= i < |fs| && fs[i] == g;
      assert i in at;
    }
    twin := false;
  }

  method FindDuplicate(claims: seq<Claim>, fs: seq<Finding>, selected: seq<int>, f: Finding) returns (same: bool)
    requires Indexed(selected, |fs|)
    ensures same <==> SaysTheSame(claims, fs, selected, f)
  {
    for k := 0 to |selected|
      invariant forall l :: 0 <= l < k ==> !SameStatement(claims, f, fs[selected[l]])
    {
      if SameStatement(claims, f, fs[selected[k]]) {
        return true;
      }
    }
    same := false;
  }

  /** Looking at one more finding: it joins the primaries or is additional. */
  lemma RoundWritesMore(
    branches: seq<Branch>, claims: seq<Claim>, fs: seq<Finding>, leaf: BranchID, at: seq<int>, c: int,
    sel: seq<Selection>, sel': seq<Selection>)
    requires Indexed(at, |fs|) && 0 <= c < |fs| && c !in at && |sel| == |fs|
    requires RoundWrites(branches, claims, fs, leaf, at, sel, sel')
    ensures var earlier := Primaries(branches, claims, fs, leaf, at);
            var picked := Eligible(branches, claims, Elements(fs), leaf, fs[c]) && !SaysTheSame(claims, fs, earlier, fs[c]);
            && Primaries(branches, claims, fs, leaf, at + [c]) == (if picked then earlier + [c] else earlier)
            && RoundWrites(branches, claims, fs, leaf, at + [c], sel, sel'[c := if picked then BranchPrimary else Additional])
  {
    assert (at + [c])[..|at|] == at;
  }

  /** Whether a finding becomes a primary: no observed twin outranks it, and no primary already says the same. */
  method Judge(
    branches: seq<Branch>, claims: seq<Claim>, fs: seq<Finding>, leaf: BranchID, at: seq<int>, selected: seq<int>, c: int)
    returns (picked: bool)
    requires IsOrder(branches, fs, leaf, at) && Indexed(selected, |fs|) && 0 <= c < |fs| && c in at
    ensures picked <==> Eligible(branches, claims, Elements(fs), leaf, fs[c]) && !SaysTheSame(claims, fs, selected, fs[c])
  {
    var twin := FindObservedTwin(branches, claims, fs, leaf, at, fs[c]);
    if twin && fs[c].level != Observed {
      return false;
    }
    var duplicate := FindDuplicate(claims, fs, selected, fs[c]);
    picked := !duplicate;
  }

  /** The choosing loop of one leaf. */
  method Choose(
    branches: seq<Branch>, claims: seq<Claim>, fs: seq<Finding>, leaf: BranchID, at: seq<int>, sel: seq<Selection>)
    returns (sel': seq<Selection>)
    requires IsOrder(branches, fs, leaf, at) && |sel| == |fs|
    ensures RoundWrites(branches, claims, fs, leaf, at, sel, sel')
  {
    sel' := sel;
    var selected: seq<int> := [];
    for q := 0 to |at|
      invariant selected == Primaries(branches, claims, fs, leaf, at[..q])
      invariant RoundWrites(branches, claims, fs, leaf, at[..q], sel, sel')
    {
      var c := at[q];
      TakeNext(at, q);
      RoundWritesMore(branches, claims, fs, leaf, at[..q], c, sel, sel');
      var picked := Judge(branches, claims, fs, leaf, at, selected, c);
      if picked {
        sel' := sel'[c := BranchPrimary];
        selected := selected + [c];
      } else {
        sel' := sel'[c := Additional];
      }
    }
    assert at[..|at|] == at;
  }

  // ---------------------------------------------------------------- what a round guarantees

  lemma {:induction false} PrimariesDiffer(
    branches: seq<Branch>, claims: seq<Claim>, fs: seq<Finding>, leaf: BranchID, at: seq<int>, k: nat, l: nat)
    requires Indexed(at, |fs|) && k < l < |Primaries(branches, claims, fs, leaf, at)|
    ensures var p := Primaries(branches, claims, fs, leaf, at); !SameStatement(claims, fs[p[l]], fs[p[k]])
  {
    if at != [] {
      var earlier := Primaries(branches, claims, fs, leaf, at[..|at| - 1]);
      if l < |earlier| {
        PrimariesDiffer(branches, claims, fs, leaf, at[..|at| - 1], k, l);
      }
    }
  }

  lemma {:induction false} PrimariesEligible(
    branches: seq<Branch>, claims: seq<Claim>, fs: seq<Finding>, leaf: BranchID, at: seq<int>, s: int)
    requires Indexed(at, |fs|) && s in Primaries(branches, claims, fs, leaf, at)
    ensures 0 <= s < |fs| && Eligible(branches, claims, Elements(fs), leaf, fs[s])
  {
    if s in Primaries(branches, claims, fs, leaf, at[..|at| - 1]) {
      PrimariesEligible(branches, claims, fs, leaf, at[..|at| - 1], s);
    }
  }

  /** An eligible finding looked at is primary or says the same as an earlier primary. */
  lemma {:induction false} EligibleCovered(
    branches: seq<Branch>, claims: seq<Claim>, fs: seq<Finding>, leaf: BranchID, at: seq<int>, q: nat) returns (s: nat)
    requires Indexed(at, |fs|) && q < |at| && Eligible(branches, claims, Elements(fs), leaf, fs[at[q]])
    ensures s <= q && at[s] in Primaries(branches, claims, fs, leaf, at)
    ensures s < q ==> SameStatement(claims, fs[at[q]], fs[at[s]])
    ensures at[q] !in Primaries(branches, claims, fs, leaf, at) ==> s < q
  {
    var n := |at| - 1;
    if q < n {
      s := EligibleCovered(branches, claims, fs, leaf, at[..n], q);
      if at[q] in Primaries(branches, claims, fs, leaf, at) {
        s := q;
      }
    } else {
      var earlier := Primaries(branches, claims, fs, leaf, at[..n]);
      s := q;
      if SaysTheSame(claims, fs, earlier, fs[at[q]]) {
        var k :| 0 <= k < |earlier| && SameStatement(claims, fs[at[q]], fs[earlier[k]]);
        assert earlier[k] in earlier && earlier[k] in at[..n];
        var j :| 0 <= j < |at[..n]| && at[..n][j] == earlier[k];
        s := j;
        assert at[s] == earlier[k];
      }
    }
  }

  /** What one leaf's round promises, in whatever order the findings at the minimum are looked at. */
  ghost predicate RoundSound(
    branches: seq<Branch>, claims: seq<Claim>, fs: seq<Finding>, leaf: BranchID, sel: seq<Selection>, sel': seq<Selection>)
  {
    var all := Elements(fs);
    && |sel| == |sel'| == |fs|
    // only findings at the minimum are written, as primary or additional
    && (forall i :: 0 <= i < |fs| ==>
          if AtMinimum(branches, all, leaf, fs[i]) then sel'[i] == BranchPrimary || sel'[i] == Additional
          else sel'[i] == sel[i])
    // an attached confirmed blocker in range means some primary
    && ((exists i :: 0 <= i < |fs| && InRange(branches, leaf, fs[i])) ==>
          exists i :: 0 <= i < |fs| && IsPrimary(branches, fs, leaf, sel', i))
    // no two primaries say the same
    && (forall i, j :: 0 <= i < |fs| && 0 <= j < |fs| && i != j &&
                       IsPrimary(branches, fs, leaf, sel', i) && IsPrimary(branches, fs, leaf, sel', j) ==>
                         !SameStatement(claims, fs[i], fs[j]))
    // what is demoted says the same as some primary
    && (forall i :: 0 <= i < |fs| && AtMinimum(branches, all, leaf, fs[i]) && sel'[i] == Additional ==>
                      exists j :: 0 <= j < |fs| && IsPrimary(branches, fs, leaf, sel', j) && SameStatement(claims, fs[i], fs[j]))
    // a statement somebody observed is represented by an observed finding
    && (forall i :: 0 <= i < |fs| && IsPrimary(branches, fs, leaf, sel', i) && ObservedTwin(branches, claims, all, leaf, fs[i]) ==>
                      fs[i].level == Observed)
  }

  ghost predicate IsPrimary(branches: seq<Branch>, fs: seq<Finding>, leaf: BranchID, sel: seq<Selection>, i: int)
    requires 0 <= i < |fs| && |sel| == |fs|
  {
    AtMinimum(branches, Elements(fs), leaf, fs[i]) && sel[i] == BranchPrimary
  }

  /** Every finding at the minimum, primary or not, has a primary that says the same or is primary itself. */
  lemma MinimumCovered(
    branches: seq<Branch>, claims: seq<Claim>, fs: seq<Finding>, leaf: BranchID, at: seq<int>, i: int) returns (j: int)
    requires IsOrder(branches, fs, leaf, at) && i in at
    ensures j in Primaries(branches, claims, fs, leaf, at)
    ensures i in Primaries(branches, claims, fs, leaf, at) || SameStatement(claims, fs[i], fs[j])
  {
    var all := Elements(fs);
    var q :| 0 <= q < |at| && at[q] == i;
    if Eligible(branches, claims, all, leaf, fs[i]) {
      var s := EligibleCovered(branches, claims, fs, leaf, at, q);
      j := at[s];
    } else {
      var g :| g in all && AtMinimum(branches, all, leaf, g) && g.level == Observed && SameStatement(claims, fs[i], g);
      var o :| 0 <= o < |fs| && fs[o] == g;
      assert o in at;
      var r :| 0 <= r < |at| && at[r] == o;
      var s := EligibleCovered(branches, claims, fs, leaf, at, r);
      j := at[s];
      if s < r {
        SameTransitive(claims, fs[i], g, fs[j]);
      }
    }
  }

  lemma RoundIsSound(
    branches: seq<Branch>, claims: seq<Claim>, fs: seq<Finding>, leaf: BranchID, at: seq<int>,
    sel: seq<Selection>, sel': seq<Selection>)
    requires IsOrder(branches, fs, leaf, at) && |sel| == |fs| && RoundWrites(branches, claims, fs, leaf, at, sel, sel')
    requires at != [] || forall i :: 0 <= i < |fs| ==> !InRange(branches, leaf, fs[i])
    ensures RoundSound(branches, claims, fs, leaf, sel, sel')
  {
    var all, p := Elements(fs), Primaries(branches, claims, fs, leaf, at);
    forall i | 0 <= i < |fs|
      ensures i in at <==> AtMinimum(branches, all, leaf, fs[i])
      ensures i in p <==> IsPrimary(branches, fs, leaf, sel', i)
    {
    }
    if at != [] {
      var j := MinimumCovered(branches, claims, fs, leaf, at, at[0]);
      assert j in p && IsPrimary(branches, fs, leaf, sel', j);
    }
    forall i, j | 0 <= i < |fs| && 0 <= j < |fs| && i != j && i in p && j in p
      ensures !SameStatement(claims, fs[i], fs[j])
    {
      PrimariesNotSame(branches, claims, fs, leaf, at, i, j);
    }
    forall i | 0 <= i < |fs| && i in at && i !in p
      ensures exists j :: 0 <= j < |fs| && IsPrimary(branches, fs, leaf, sel', j) && SameStatement(claims, fs[i], fs[j])
    {
      var j := MinimumCovered(branches, claims, fs, leaf, at, i);
      assert IsPrimary(branches, fs, leaf, sel', j);
    }
    forall i | 0 <= i < |fs| && i in p && ObservedTwin(branches, claims, all, leaf, fs[i])
      ensures fs[i].level == Observed
    {
      PrimariesEligible(branches, claims, fs, leaf, at, i);
    }
  }

  lemma PrimariesNotSame(
    branches: seq<Branch>, claims: seq<Claim>, fs: seq<Finding>, leaf: BranchID, at: seq<int>, i: int, j: int)
    requires Indexed(at, |fs|) && i != j
    requires i in Primaries(branches, claims, fs, leaf, at) && j in Primaries(branches, claims, fs, leaf, at)
    ensures !SameStatement(claims, fs[i], fs[j])
  {
    var p := Primaries(branches, claims, fs, leaf, at);
    var k :| 0 <= k < |p| && p[k] == i;
    var l :| 0 <= l < |p| && p[l] == j;
    if l < k {
      PrimariesDiffer(branches, claims, fs, leaf, at, l, k);
    } else {
      PrimariesDiffer(branches, claims, fs, leaf, at, k, l);
      if SameStatement(claims, fs[i], fs[j]) {
        SameSymmetric(claims, fs[i], fs[j]);
      }
    }
  }

  // ---------------------------------------------------------------- the sorted order

  /** The comparison the sorts use, on indices into the findings. */
  function IndexLess(fs: seq<Finding>): (int, int) -> bool
  {
    (i: int, j: int) => 0 <= i < |fs| && 0 <= j < |fs| && LessFinding(fs[i], fs[j])
  }

  lemma OrderPermuted(branches: seq<Branch>, fs: seq<Finding>, leaf: BranchID, at: seq<int>, r: seq<int>)
    requires IsOrder(branches, fs, leaf, at) && multiset(r) == multiset(at)
    ensures IsOrder(branches, fs, leaf, r)
  {
    SameElements(at, r);
    NoRepeatsPermuted(at, r);
    forall k | 0 <= k < |r|
      ensures 0 <= r[k] < |fs| && AtMinimum(branches, Elements(fs), leaf, fs[r[k]])
    {
      assert r[k] in at;
    }
  }

  lemma OrderedEitherWay(fs: seq<Finding>, i: int, j: int)
    requires Ordered(fs) && 0 <= i < |fs| && 0 <= j < |fs| && i != j
    ensures LessFinding(fs[i], fs[j]) || LessFinding(fs[j], fs[i])
  {
    if i < j {
      assert LessFinding(fs[i], fs[j]) || LessFinding(fs[j], fs[i]);
    } else {
      assert LessFinding(fs[j], fs[i]) || LessFinding(fs[i], fs[j]);
    }
  }

  lemma OrderedIsTotal(fs: seq<Finding>, at: seq<int>)
    requires Ordered(fs) && Indexed(at, |fs|)
    ensures Total(IndexLess(fs), at)
  {
    forall x, y | x in at && y in at && x != y
      ensures IndexLess(fs)(x, y) || IndexLess(fs)(y, x)
    {
      OrderedEitherWay(fs, x, y);
    }
  }

  /** On ordered findings looked at in order, the primaries are the chosen ones. */
  lemma SortedRoundChooses(
    branches: seq<Branch>, claims: seq<Claim>, fs: seq<Finding>, leaf: BranchID, at: seq<int>, i: int)
    requires IsOrder(branches, fs, leaf, at) && Ordered(fs) && Sorted(IndexLess(fs), at) && i in at
    ensures i in Primaries(branches, claims, fs, leaf, at) <==> Chosen(branches, claims, Elements(fs), leaf, fs[i])
  {
    var all, p := Elements(fs), Primaries(branches, claims, fs, leaf, at);
    var q :| 0 <= q < |at| && at[q] == i;
    if i in p {
      PrimariesEligible(branches, claims, fs, leaf, at, i);
      forall g | g in all && Eligible(branches, claims, all, leaf, g) && SameStatement(claims, fs[i], g)
        ensures !LessFinding(g, fs[i])
      {
        var o :| 0 <= o < |fs| && fs[o] == g;
        if LessFinding(g, fs[i]) {
          EarlierTwinExcludes(branches, claims, fs, leaf, at, q, o);
        }
      }
    } else {
      UnpickedNotChosen(branches, claims, fs, leaf, at, q);
    }
  }

  lemma UnpickedNotChosen(
    branches: seq<Branch>, claims: seq<Claim>, fs: seq<Finding>, leaf: BranchID, at: seq<int>, q: nat)
    requires IsOrder(branches, fs, leaf, at) && Ordered(fs) && Sorted(IndexLess(fs), at) && q < |at|
    requires at[q] !in Primaries(branches, claims, fs, leaf, at)
    ensures !Chosen(branches, claims, Elements(fs), leaf, fs[at[q]])
  {
    var i := at[q];
    if Eligible(branches, claims, Elements(fs), leaf, fs[i]) {
      var s := EligibleCovered(branches, claims, fs, leaf, at, q);
      var j := at[s];
      PrimariesEligible(branches, claims, fs, leaf, at, j);
      assert fs[j] in Elements(fs);
      assert !IndexLess(fs)(at[q], at[s]);
      OrderedEitherWay(fs, i, j);
    }
  }

  lemma EarlierTwinExcludes(
    branches: seq<Branch>, claims: seq<Claim>, fs: seq<Finding>, leaf: BranchID, at: seq<int>, q: nat, o: int)
    requires IsOrder(branches, fs, leaf, at) && Ordered(fs) && Sorted(IndexLess(fs), at) && q < |at|
    requires 0 <= o < |fs| && Eligible(branches, claims, Elements(fs), leaf, fs[o])
    requires SameStatement(claims, fs[at[q]], fs[o]) && LessFinding(fs[o], fs[at[q]])
    ensures at[q] !in Primaries(branches, claims, fs, leaf, at)
  {
    assert o in at;
    var r :| 0 <= r < |at| && at[r] == o;
    assert r < q by {
      assert IndexLess(fs)(at[r], at[q]);
    }
    var s := EligibleCovered(branches, claims, fs, leaf, at, r);
    assert at[s] != at[q];
    if s < r {
      SameTransitive(claims, fs[at[q]], fs[o], fs[at[s]]);
    }
    if at[q] in Primaries(branches, claims, fs, leaf, at) {
      PrimariesNotSame(branches, claims, fs, leaf, at, at[q], at[s]);
    }
  }

  // ---------------------------------------------------------------- Apply

  /** The round of one leaf. */
  method LeafRound(
    branches: seq<Branch>, m: map<BranchID, Branch>, claims: seq<Claim>, fs: seq<Finding>, leaf: BranchID,
    sel: seq<Selection>, issues: seq<Issue>)
    returns (sel': seq<Selection>, out: seq<Issue>)
    requires m == ById(branches) && |sel| == |fs|
    ensures RoundSound(branches, claims, fs, leaf, sel, sel')
    ensures Ordered(fs) ==> ChoosesAt(branches, claims, fs, leaf, sel')
    ensures out == [] <==> issues == [] && forall f :: f in fs ==> !OutOfRange(branches, leaf, f)
  {
    var cs;
    cs, out := CollectCandidates(branches, m, fs, leaf, issues);
    if |cs| == 0 {
      sel' := sel;
      NoCandidates(branches, claims, fs, leaf, sel);
      return;
    }
    var at := KeepMinimum(cs);
    KeptAreAtMinimum(branches, fs, leaf);
    ghost var kept := at;
    at := SortSlice(IndexLess(fs), at);
    OrderPermuted(branches, fs, leaf, kept, at);
    sel' := Choose(branches, claims, fs, leaf, at, sel);
    RoundIsSound(branches, claims, fs, leaf, at, sel, sel');
    if Ordered(fs) {
      OrderedIsTotal(fs, kept);
      TotalIsWeak(IndexLess(fs), kept);
      forall i | 0 <= i < |fs| && AtMinimum(branches, Elements(fs), leaf, fs[i])
        ensures sel'[i] == BranchPrimary <==> Chosen(branches, claims, Elements(fs), leaf, fs[i])
      {
        SortedRoundChooses(branches, claims, fs, leaf, at, i);
      }
    }
  }

  lemma InRangeIsCandidate(branches: seq<Branch>, leaf: BranchID, fs: seq<Finding>, i: int)
    requires 0 <= i < |fs| && InRange(branches, leaf, fs[i])
    ensures Candidates(branches, leaf, fs) != []
  {
    CandidateIsExact(branches, leaf, fs, Candidate(i, Selecting.Position(branches, leaf, fs[i])));
  }

  lemma NoCandidates(branches: seq<Branch>, claims: seq<Claim>, fs: seq<Finding>, leaf: BranchID, sel: seq<Selection>)
    requires Candidates(branches, leaf, fs) == [] && |sel| == |fs|
    ensures RoundSound(branches, claims, fs, leaf, sel, sel)
    ensures forall i :: 0 <= i < |fs| ==> !AtMinimum(branches, Elements(fs), leaf, fs[i])
  {
    forall i | 0 <= i < |fs|
      ensures !InRange(branches, leaf, fs[i])
    {
      if InRange(branches, leaf, fs[i]) {
        InRangeIsCandidate(branches, leaf, fs, i);
      }
    }
  }

  ghost predicate SomewhereInRange(branches: seq<Branch>, leaves: seq<BranchID>, f: Finding)
  {
    exists leaf :: leaf in leaves && InRange(branches, leaf, f)
  }

  /** After the rounds of some leaves: what a leaf has in range alone is selected, and on ordered findings as specified. */
  ghost predicate AfterRounds(
    branches: seq<Branch>, claims: seq<Claim>, fs: seq<Finding>, leaves: seq<BranchID>, sel: seq<Selection>)
  {
    && |sel| == |fs|
    && (forall i :: 0 <= i < |fs| ==> sel[i] != GlobalPrimary)
    && (forall i :: 0 <= i < |fs| && sel[i] != NotSelected ==> SomewhereInRange(branches, leaves, fs[i]))
    && (Ordered(fs) ==> forall i :: 0 <= i < |fs| ==>
          sel[i] == BranchSelection(branches, claims, Elements(fs), leaves, fs[i]))
  }

  ghost predicate ChoosesAt(
    branches: seq<Branch>, claims: seq<Claim>, fs: seq<Finding>, leaf: BranchID, sel: seq<Selection>)
  {
    && |sel| == |fs|
    && forall i :: 0 <= i < |fs| && AtMinimum(branches, Elements(fs), leaf, fs[i]) ==>
         (sel[i] == BranchPrimary <==> Chosen(branches, claims, Elements(fs), leaf, fs[i]))
  }

  lemma RoundExtends(
    branches: seq<Branch>, claims: seq<Claim>, fs: seq<Finding>, leaves: seq<BranchID>, leaf: BranchID,
    sel: seq<Selection>, sel': seq<Selection>)
    requires AfterRounds(branches, claims, fs, leaves, sel) && RoundSound(branches, claims, fs, leaf, sel, sel')
    requires Ordered(fs) ==> ChoosesAt(branches, claims, fs, leaf, sel')
    ensures AfterRounds(branches, claims, fs, leaves + [leaf], sel')
  {
    var all, leaves' := Elements(fs), leaves + [leaf];
    assert leaves'[..|leaves' | - 1] == leaves;
    forall i | 0 <= i < |fs|
      ensures sel'[i] != GlobalPrimary && (sel'[i] != NotSelected ==> SomewhereInRange(branches, leaves', fs[i]))
      ensures Ordered(fs) ==> sel'[i] == BranchSelection(branches, claims, all, leaves', fs[i])
    {
      if AtMinimum(branches, all, leaf, fs[i]) {
        assert leaf in leaves' && InRange(branches, leaf, fs[i]);
        assert sel'[i] == BranchPrimary || sel'[i] == Additional;
      } else {
        assert sel'[i] == sel[i];
        if SomewhereInRange(branches, leaves, fs[i]) {
          var l :| l in leaves && InRange(branches, l, fs[i]);
          assert l in leaves';
        }
      }
    }
  }

  ghost predicate NoneOutOfRange(branches: seq<Branch>, leaves: seq<BranchID>, fs: seq<Finding>)
  {
    forall leaf, f :: leaf in leaves && f in fs ==> !OutOfRange(branches, leaf, f)
  }

  /** The rounds of all leaves in the order given. */
  method LeafRounds(branches: seq<Branch>, claims: seq<Claim>, fs: seq<Finding>, leaves: seq<BranchID>)
    returns (sel: seq<Selection>, out: seq<Issue>)
    ensures AfterRounds(branches, claims, fs, leaves, sel)
    ensures out == [] <==> NoneOutOfRange(branches, leaves, fs)
  {
    var m := IndexBranches(branches);
    sel := seq(|fs|, _ => NotSelected);
    out := [];
    RoundsStart(branches, claims, fs);
    for n := 0 to |leaves|
      invariant AfterRounds(branches, claims, fs, leaves[..n], sel)
      invariant out == [] <==> NoneOutOfRange(branches, leaves[..n], fs)
    {
      TakeNext(leaves, n);
      sel, out := NextLeaf(branches, m, claims, fs, leaves[..n], leaves[n], sel, out);
    }
    assert leaves[..|leaves|] == leaves;
  }

  lemma RoundsStart(branches: seq<Branch>, claims: seq<Claim>, fs: seq<Finding>)
    ensures AfterRounds(branches, claims, fs, [], seq(|fs|, _ => NotSelected))
  {
  }

  method NextLeaf(
    branches: seq<Branch>, m: map<BranchID, Branch>, claims: seq<Claim>, fs: seq<Finding>, ghost leaves: seq<BranchID>,
    leaf: BranchID, sel: seq<Selection>, out: seq<Issue>)
    returns (sel': seq<Selection>, out': seq<Issue>)
    requires m == ById(branches) && AfterRounds(branches, claims, fs, leaves, sel)
    requires out == [] <==> NoneOutOfRange(branches, leaves, fs)
    ensures AfterRounds(branches, claims, fs, leaves + [leaf], sel')
    ensures out' == [] <==> NoneOutOfRange(branches, leaves + [leaf], fs)
  {
    sel', out' := LeafRound(branches, m, claims, fs, leaf, sel, out);
    RoundExtends(branches, claims, fs, leaves, leaf, sel, sel');
    RangeExtends(branches, leaves, leaf, fs);
  }

  lemma RangeExtends(branches: seq<Branch>, leaves: seq<BranchID>, leaf: BranchID, fs: seq<Finding>)
    ensures NoneOutOfRange(branches, leaves + [leaf], fs) <==>
            NoneOutOfRange(branches, leaves, fs) && forall f :: f in fs ==> !OutOfRange(branches, leaf, f)
  {
    assert forall l :: l in leaves + [leaf] <==> l in leaves || l == leaf;
  }

  // ---------------------------------------------------------------- promotion to the whole run

  function IndexGlobalLess(fs: seq<Finding>): (int, int) -> bool
  {
    (i: int, j: int) => 0 <= i < |fs| && 0 <= j < |fs| && GlobalLess(fs[i], fs[j])
  }

  lemma OrderedIsGlobalTotal(fs: seq<Finding>, at: seq<int>)
    requires Ordered(fs) && Indexed(at, |fs|) && forall k :: 0 <= k < |at| ==> fs[at[k]].ConfirmedBlocker()
    ensures Total(IndexGlobalLess(fs), at)
  {
    var less := IndexGlobalLess(fs);
    forall x, y | x in at && y in at && x != y
      ensures less(x, y) || less(y, x)
    {
      OrderedEitherWay(fs, x, y);
    }
    forall x, y, z | x in at && y in at && z in at && less(x, y) && less(y, z)
      ensures less(x, z)
    {
      assert LessFinding(fs[x], fs[y]) && LessFinding(fs[y], fs[z]) ==> LessFinding(fs[x], fs[z]);
    }
  }

  /** The findings with a proof for every leaf, in list order. */
  method CollectGlobal(branches: seq<Branch>, fs: seq<Finding>) returns (at: seq<int>)
    ensures Indexed(at, |fs|) && NoRepeats(at)
    ensures forall i :: i in at <==> 0 <= i < |fs| && GlobalProof(fs[i], branches)
  {
    at := [];
    for i := 0 to |fs|
      invariant Indexed(at, i) && NoRepeats(at)
      invariant forall k :: k in at <==> 0 <= k < i && GlobalProof(fs[k], branches)
    {
      var proof := GlobalPrimaryProof(fs[i], branches);
      if proof {
        at := at + [i];
      }
    }
  }

  ghost predicate ListsProven(branches: seq<Branch>, fs: seq<Finding>, at: seq<int>)
  {
    && Indexed(at, |fs|) && NoRepeats(at)
    && forall i :: 0 <= i < |fs| ==> (i in at <==> GlobalProof(fs[i], branches))
  }

  /** The sort of the findings with a global proof: observed ones first, then by rule and finding number. */
  method SortGlobal(branches: seq<Branch>, fs: seq<Finding>, found: seq<int>) returns (at: seq<int>)
    requires ListsProven(branches, fs, found)
    ensures ListsProven(branches, fs, at)
    ensures Ordered(fs) ==> Sorted(IndexGlobalLess(fs), at) && Total(IndexGlobalLess(fs), at)
  {
    at := SortSlice(IndexGlobalLess(fs), found);
    NoRepeatsPermuted(found, at);
    forall k | 0 <= k < |at|
      ensures 0 <= at[k] < |fs|
    {
      assert at[k] in found;
    }
    if Ordered(fs) {
      forall k | 0 <= k < |found|
        ensures fs[found[k]].ConfirmedBlocker()
      {
        assert found[k] in found;
      }
      OrderedIsGlobalTotal(fs, found);
      TotalIsWeak(IndexGlobalLess(fs), found);
      TotalOnSame(IndexGlobalLess(fs), found, at);
    }
  }

  method WritePromotions(fs: seq<Finding>, at: seq<int>, sel: seq<Selection>) returns (sel': seq<Selection>)
    requires Indexed(at, |fs|) && NoRepeats(at) && |sel| == |fs|
    ensures WritesOrder(fs, at, sel') && forall i :: 0 <= i < |fs| && i !in at ==> sel'[i] == sel[i]
  {
    sel' := sel;
    for k := 0 to |at|
      invariant |sel'| == |sel|
      invariant forall i :: 0 <= i < |fs| && i !in at ==> sel'[i] == sel[i]
      invariant forall j :: 0 <= j < k ==> sel'[at[j]] == if j == 0 then GlobalPrimary else Additional
    {
      sel' := sel'[at[k] := if k == 0 then GlobalPrimary else Additional];
    }
  }

  /** The findings with a global proof: the first in the sorted order is promoted, the others are additional. */
  method Promote(branches: seq<Branch>, fs: seq<Finding>, sel: seq<Selection>) returns (sel': seq<Selection>)
    requires |sel| == |fs| && forall i :: 0 <= i < |fs| ==> sel[i] != GlobalPrimary
    ensures PromotionSound(branches, fs, sel, sel')
    ensures Ordered(fs) ==> PromotesFirst(branches, fs, sel')
  {
    var found := CollectGlobal(branches, fs);
    var at := SortGlobal(branches, fs, found);
    sel' := WritePromotions(fs, at, sel);
    PromotionOfOrder(branches, fs, at, sel, sel');
    if Ordered(fs) {
      PromotionOfSorted(branches, fs, at, sel');
    }
  }

  /** Without a global proof a selection stays; among those with one, exactly one is promoted, if there are any. */
  ghost predicate PromotionSound(branches: seq<Branch>, fs: seq<Finding>, sel: seq<Selection>, sel': seq<Selection>)
  {
    && |sel| == |sel'| == |fs|
    && (forall i :: 0 <= i < |fs| ==>
          if GlobalProof(fs[i], branches) then sel'[i] == GlobalPrimary || sel'[i] == Additional else sel'[i] == sel[i])
    && (forall i, j :: 0 <= i < j < |fs| ==> !(sel'[i] == sel'[j] == GlobalPrimary))
    && ((exists i :: 0 <= i < |fs| && GlobalProof(fs[i], branches)) ==> exists i :: 0 <= i < |fs| && sel'[i] == GlobalPrimary)
  }

  ghost predicate PromotesFirst(branches: seq<Branch>, fs: seq<Finding>, sel: seq<Selection>)
  {
    && |sel| == |fs|
    && forall i :: 0 <= i < |fs| && GlobalProof(fs[i], branches) ==>
         (sel[i] == GlobalPrimary <==> !exists g :: g in Elements(fs) && GlobalProof(g, branches) && GlobalLess(g, fs[i]))
  }

  ghost predicate WritesOrder(fs: seq<Finding>, at: seq<int>, sel': seq<Selection>)
    requires Indexed(at, |fs|)
  {
    |sel'| == |fs| && forall j :: 0 <= j < |at| ==> sel'[at[j]] == if j == 0 then GlobalPrimary else Additional
  }

  lemma PromotionOfOrder(branches: seq<Branch>, fs: seq<Finding>, at: seq<int>, sel: seq<Selection>, sel': seq<Selection>)
    requires Indexed(at, |fs|) && WritesOrder(fs, at, sel') && |sel| == |fs|
    requires forall i :: 0 <= i < |fs| ==> (i in at <==> GlobalProof(fs[i], branches))
    requires forall i :: 0 <= i < |fs| ==> sel[i] != GlobalPrimary && (i !in at ==> sel'[i] == sel[i])
    ensures PromotionSound(branches, fs, sel, sel')
  {
    if at != [] {
      assert sel'[at[0]] == GlobalPrimary;
    }
    forall i | 0 <= i < |fs| && sel'[i] == GlobalPrimary
      ensures at != [] && i == at[0]
    {
      var j :| 0 <= j < |at| && at[j] == i;
    }
  }

  lemma PromotionOfSorted(branches: seq<Branch>, fs: seq<Finding>, at: seq<int>, sel': seq<Selection>)
    requires Indexed(at, |fs|) && WritesOrder(fs, at, sel') && Sorted(IndexGlobalLess(fs), at)
    requires Total(IndexGlobalLess(fs), at) && NoRepeats(at)
    requires forall i :: 0 <= i < |fs| ==> (i in at <==> GlobalProof(fs[i], branches))
    ensures PromotesFirst(branches, fs, sel')
  {
    var less := IndexGlobalLess(fs);
    forall i | 0 <= i < |fs| && GlobalProof(fs[i], branches)
      ensures sel'[i] == GlobalPrimary <==> !exists g :: g in Elements(fs) && GlobalProof(g, branches) && GlobalLess(g, fs[i])
    {
      var q :| 0 <= q < |at| && at[q] == i;
      if q == 0 {
        forall g | g in Elements(fs) && GlobalProof(g, branches)
          ensures !GlobalLess(g, fs[i])
        {
          var o :| 0 <= o < |fs| && fs[o] == g;
          var r :| 0 <= r < |at| && at[r] == o;
          assert !less(at[r], at[0]) by {
            assert at[0] in at;
          }
        }
      } else {
        assert at[0] in at && at[q] in at && at[0] != at[q];
        assert !less(at[q], at[0]);
        assert less(at[0], at[q]);
        assert fs[at[0]] in Elements(fs) && GlobalProof(fs[at[0]], branches);
      }
    }
  }

  // ---------------------------------------------------------------- the whole run

  /** Selections written back into the findings: no other field changes. */
  function WithSelections(fs: seq<Finding>, sel: seq<Selection>): (out: seq<Finding>)
    requires |sel| == |fs|
    ensures |out| == |fs| && forall i :: 0 <= i < |fs| ==> out[i] == fs[i].(selection := sel[i])
  {
    seq(|fs|, i requires 0 <= i < |fs| => fs[i].(selection := sel[i]))
  }

  lemma ProofIgnoresSelection(f: Finding, s: Selection, branches: seq<Branch>)
    ensures GlobalProof(f.(selection := s), branches) == GlobalProof(f, branches)
  {
    var g := f.(selection := s);
    forall id
      ensures ProvesGlobally(f, branches, id) == ProvesGlobally(g, branches, id)
    {
    }
  }

  /**
   * Apply: only selections change; only confirmed blockers with a place are selected; the validator of selections
   * accepts the result; and on findings that lessFinding orders the result is the specified one.
   */
  method Apply(r: EvaluatedRun) returns (out: EvaluatedRun, issues: seq<Issue>)
    ensures |out.findings| == |r.findings| && out == r.(findings := out.findings)
    ensures OnlyBlockersSelected(r.findings, out.findings)
    ensures SelectedArePlaced(r.evidence.branches, r.findings, out.findings)
    ensures ValidSelection(out.findings, r.evidence.branches)
    ensures PromotesSome(r.findings, out.findings, r.evidence.branches)
    ensures Ordered(StripAll(r.findings)) ==> out == Applied(r)
    ensures issues == [] <==> NoneOutOfRange(r.evidence.branches, SortedLeaves(r.evidence.branches), StripAll(r.findings))
  {
    var branches := r.evidence.branches;
    var fs := StripAll(r.findings);
    var leaves := CollectLeaves(branches);
    StringsTotal(leaves);
    leaves := SortSlice(Less, leaves);
    var sel;
    sel, issues := LeafRounds(branches, r.claims, fs, leaves);
    var promoted := Promote(branches, fs, sel);
    out := r.(findings := WithSelections(fs, promoted));
    SelectionsAreValid(branches, fs, sel, promoted);
    OnlySelectionsChange(branches, r.findings, sel, promoted);
    SomeIsPromoted(branches, r.findings, sel, promoted);
    SelectedHavePlaces(branches, r.findings, leaves, sel, promoted);
    if Ordered(fs) {
      SelectionsAreFinal(r, fs, leaves, sel, promoted);
    }
  }

  /** Nothing but the selections differs, and only confirmed blockers have one. */
  ghost predicate OnlyBlockersSelected(before: seq<Finding>, after: seq<Finding>)
  {
    && |after| == |before|
    && forall i :: 0 <= i < |before| ==>
         && after[i] == before[i].(selection := after[i].selection)
         && (after[i].selection != NotSelected ==> before[i].ConfirmedBlocker())
  }

  /** A selected finding is in range of some leaf or proved for all of them. */
  ghost predicate SelectedArePlaced(branches: seq<Branch>, before: seq<Finding>, after: seq<Finding>)
  {
    && |after| == |before|
    && forall i :: 0 <= i < |before| && after[i].selection != NotSelected ==>
         SomewhereInRange(branches, Leaves(branches), Stripped(before[i])) || GlobalProof(before[i], branches)
  }

  lemma SelectedHavePlaces(
    branches: seq<Branch>, before: seq<Finding>, leaves: seq<BranchID>, sel: seq<Selection>, promoted: seq<Selection>)
    requires PromotionSound(branches, StripAll(before), sel, promoted) && multiset(leaves) == multiset(Leaves(branches))
    requires forall i :: 0 <= i < |before| && sel[i] != NotSelected ==> SomewhereInRange(branches, leaves, StripAll(before)[i])
    ensures SelectedArePlaced(branches, before, WithSelections(StripAll(before), promoted))
  {
    SameElements(leaves, Leaves(branches));
    forall i | 0 <= i < |before| && promoted[i] != NotSelected
      ensures SomewhereInRange(branches, Leaves(branches), Stripped(before[i])) || GlobalProof(before[i], branches)
    {
      ProofIgnoresSelection(before[i], NotSelected, branches);
      if !GlobalProof(before[i], branches) {
        assert SomewhereInRange(branches, leaves, StripAll(before)[i]);
      }
    }
  }

  /** Where some finding has the proof, some finding is a global primary. */
  ghost predicate PromotesSome(before: seq<Finding>, after: seq<Finding>, branches: seq<Branch>)
  {
    (exists i :: 0 <= i < |before| && GlobalProof(before[i], branches)) ==>
      exists i :: 0 <= i < |after| && after[i].selection == GlobalPrimary
  }

  lemma SomeIsPromoted(branches: seq<Branch>, before: seq<Finding>, sel: seq<Selection>, promoted: seq<Selection>)
    requires PromotionSound(branches, StripAll(before), sel, promoted)
    ensures PromotesSome(before, WithSelections(StripAll(before), promoted), branches)
  {
    if i :| 0 <= i < |before| && GlobalProof(before[i], branches) {
      ProofIgnoresSelection(before[i], NotSelected, branches);
      assert GlobalProof(StripAll(before)[i], branches);
      var j :| 0 <= j < |before| && promoted[j] == GlobalPrimary;
      assert WithSelections(StripAll(before), promoted)[j].selection == GlobalPrimary;
    }
  }

  lemma OnlySelectionsChange(branches: seq<Branch>, before: seq<Finding>, sel: seq<Selection>, promoted: seq<Selection>)
    requires PromotionSound(branches, StripAll(before), sel, promoted)
    requires |sel| == |before|
    requires forall i :: 0 <= i < |before| && sel[i] != NotSelected ==> StripAll(before)[i].ConfirmedBlocker()
    ensures OnlyBlockersSelected(before, WithSelections(StripAll(before), promoted))
  {
  }

  lemma SelectionsAreValid(branches: seq<Branch>, fs: seq<Finding>, sel: seq<Selection>, promoted: seq<Selection>)
    requires PromotionSound(branches, fs, sel, promoted) && forall i :: 0 <= i < |fs| ==> sel[i] != GlobalPrimary
    ensures ValidSelection(WithSelections(fs, promoted), branches)
  {
    forall i | 0 <= i < |fs| && promoted[i] == GlobalPrimary
      ensures GlobalProof(WithSelections(fs, promoted)[i], branches)
    {
      ProofIgnoresSelection(fs[i], promoted[i], branches);
    }
  }

  lemma SelectionsAreFinal(
    r: EvaluatedRun, fs: seq<Finding>, leaves: seq<BranchID>, sel: seq<Selection>, promoted: seq<Selection>)
    requires fs == StripAll(r.findings) && Ordered(fs) && leaves == SortedLeaves(r.evidence.branches)
    requires AfterRounds(r.evidence.branches, r.claims, fs, leaves, sel)
    requires PromotionSound(r.evidence.branches, fs, sel, promoted) && PromotesFirst(r.evidence.branches, fs, promoted)
    ensures r.(findings := WithSelections(fs, promoted)) == Applied(r)
  {
    forall i | 0 <= i < |fs|
      ensures promoted[i] == FinalSelection(r.evidence.branches, r.claims, Elements(fs), fs[i])
    {
    }
    assert WithSelections(fs, promoted) == Applied(r).findings;
  }
}
