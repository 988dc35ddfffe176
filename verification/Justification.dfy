/**
 * The justification graph of internal/model/validate_evaluated.go: claims cite claims through the
 * claim-kind references of their supporting evidence, resolved through an ID index.
 */
module Justification {
  import opened Text
  import opened Model
  import opened Graphs

  /** Every entry of the index names a claim; what the validator's own loop builds satisfies it. */
  ghost predicate Indexes(ids: map<ClaimID, nat>, claims: seq<Claim>)
  {
    forall id :: id in ids ==> ids[id] < |claims|
  }

  /** The last claim carrying an ID is the one the index names. */
  function ClaimIndex(claims: seq<Claim>): (ids: map<ClaimID, nat>)
    ensures Indexes(ids, claims)
    ensures forall id :: id in ids ==> claims[ids[id]].claimID == id
    ensures forall i :: 0 <= i < |claims| ==> claims[i].claimID in ids && i <= ids[claims[i].claimID]
  {
    if claims == [] then map[]
    else
      var n := |claims| - 1;
      ClaimIndex(claims[..n])[claims[n].claimID := n]
  }

  /** The claim a reference resolves to, if it is a claim reference that resolves. */
  function Resolve(x: EvidenceRef, ids: map<ClaimID, nat>): Option<nat>
  {
    if x.kind == ClaimEvidence && x.claimID.Some? && x.claimID.value in ids then Some(ids[x.claimID.value]) else None
  }

  /** The claims a list of references resolves to, in order. */
  function Targets(refs: seq<EvidenceRef>, ids: map<ClaimID, nat>): seq<int>
  {
    if refs == [] then []
    else
      var last := Resolve(refs[|refs| - 1], ids);
      Targets(refs[..|refs| - 1], ids) + if last.Some? then [last.value] else []
  }

  lemma {:induction false} TargetsResolve(refs: seq<EvidenceRef>, ids: map<ClaimID, nat>)
    ensures forall j :: 0 <= j < |refs| && Resolve(refs[j], ids).Some? ==> Resolve(refs[j], ids).value in Targets(refs, ids)
    ensures forall n :: n in Targets(refs, ids) ==> exists j :: 0 <= j < |refs| && Resolve(refs[j], ids) == Some(n)
  {
    if refs != [] {
      var k := |refs| - 1;
      TargetsResolve(refs[..k], ids);
      forall n | n in Targets(refs, ids)
        ensures exists j :: 0 <= j < |refs| && Resolve(refs[j], ids) == Some(n)
      {
        if n in Targets(refs[..k], ids) {
          var j :| 0 <= j < k && Resolve(refs[..k][j], ids) == Some(n);
          assert Resolve(refs[j], ids) == Some(n);
        } else {
          assert Resolve(refs[k], ids) == Some(n);
        }
      }
    }
  }

  /** The justification graph: which claims each claim cites. */
  function Citations(claims: seq<Claim>, ids: map<ClaimID, nat>): map<int, seq<int>>
  {
    map i: int | 0 <= i < |claims| :: Targets(claims[i].supporting, ids)
  }

  lemma ResolvedIsCited(claims: seq<Claim>, ids: map<ClaimID, nat>, a: nat, j: nat)
    requires a < |claims| && j < |claims[a].supporting| && Resolve(claims[a].supporting[j], ids).Some?
    ensures Edge(Citations(claims, ids), a, Resolve(claims[a].supporting[j], ids).value)
  {
    TargetsResolve(claims[a].supporting, ids);
  }

  // ---------------------------------------------------------------- the three-colour search

  datatype Colour = White | Grey | Black

  datatype Frame = Frame(index: nat, next: nat)

  datatype Scan = Exhausted | BackEdge(target: nat) | Descend(target: nat)

  /** The inner loop of claimGraphHasCycle: on from `from` to the next reference that is not to a black claim. */
  method ScanReferences(refs: seq<EvidenceRef>, from: nat, state: seq<Colour>, ids: map<ClaimID, nat>)
    returns (next: nat, scan: Scan)
    requires from <= |refs| && forall id :: id in ids ==> ids[id] < |state|
    ensures from <= next <= |refs|
    ensures !scan.BackEdge? ==> forall j :: from <= j < next && Resolve(refs[j], ids).Some? ==>
              var n := Resolve(refs[j], ids).value;
              state[n] == Black || (scan.Descend? && n == scan.target)
    ensures scan.Exhausted? ==> next == |refs|
    ensures !scan.Exhausted? ==> next > from && Resolve(refs[next - 1], ids) == Some(scan.target)
    ensures scan.BackEdge? ==> state[scan.target] == Grey
    ensures scan.Descend? ==> state[scan.target] == White
  {
    next := from;
    while next < |refs|
      invariant from <= next <= |refs|
      invariant forall j :: from <= j < next && Resolve(refs[j], ids).Some? ==> state[Resolve(refs[j], ids).value] == Black
    {
      var target := Resolve(refs[next], ids);
      next := next + 1;
      if target.Some? {
        match state[target.value] {
          case Grey => return next, BackEdge(target.value);
          case White => return next, Descend(target.value);
          case Black =>
        }
      }
    }
    scan := Exhausted;
  }

  function Indices(stack: seq<Frame>): (p: seq<int>)
    ensures |p| == |stack|
  {
    seq(|stack|, k requires 0 <= k < |stack| => stack[k].index)
  }

  ghost predicate OnStack(stack: seq<Frame>, n: nat)
  {
    exists k :: 0 <= k < |stack| && stack[k].index == n
  }

  /** The stack holds the grey claims, each once. */
  ghost predicate Located(state: seq<Colour>, stack: seq<Frame>)
  {
    && (forall k :: 0 <= k < |stack| ==> stack[k].index < |state| && state[stack[k].index] == Grey)
    && (forall i, j :: 0 <= i < j < |stack| ==> stack[i].index != stack[j].index)
    && (forall n :: 0 <= n < |state| && state[n] == Grey ==> OnStack(stack, n))
  }

  /** What a frame has passed over leads to black claims or to the next frame. */
  ghost predicate Scanned(claims: seq<Claim>, ids: map<ClaimID, nat>, state: seq<Colour>, stack: seq<Frame>, k: nat)
    requires k < |stack| && Indexes(ids, claims) && |state| == |claims|
  {
    && stack[k].index < |claims|
    && stack[k].next <= |claims[stack[k].index].supporting|
    && forall j :: 0 <= j < stack[k].next && Resolve(claims[stack[k].index].supporting[j], ids).Some? ==>
                     var n := Resolve(claims[stack[k].index].supporting[j], ids).value;
                     state[n] == Black || (k + 1 < |stack| && n == stack[k + 1].index)
  }

  ghost predicate AllScanned(claims: seq<Claim>, ids: map<ClaimID, nat>, state: seq<Colour>, stack: seq<Frame>)
    requires Indexes(ids, claims) && |state| == |claims|
  {
    forall k :: 0 <= k < |stack| ==> Scanned(claims, ids, state, stack, k)
  }

  /** Black claims lead only to black claims that were finished earlier. */
  ghost predicate Finished(g: map<int, seq<int>>, state: seq<Colour>, rank: seq<int>, clock: int)
  {
    && |rank| == |state|
    && (forall a :: 0 <= a < |state| && state[a] == Black ==> rank[a] < clock)
    && (forall a, b :: 0 <= a < |state| && state[a] == Black && Edge(g, a, b) ==>
                         0 <= b < |state| && state[b] == Black && rank[b] < rank[a])
  }

  /** What is true of the search between two steps. */
  ghost predicate Searching(
    claims: seq<Claim>, ids: map<ClaimID, nat>, state: seq<Colour>, stack: seq<Frame>, rank: seq<int>, clock: int)
  {
    && Indexes(ids, claims)
    && |state| == |claims|
    && Located(state, stack)
    && (stack != [] ==> IsPath(Citations(claims, ids), Indices(stack)))
    && AllScanned(claims, ids, state, stack)
    && Finished(Citations(claims, ids), state, rank, clock)
  }

  lemma PushLocated(state: seq<Colour>, stack: seq<Frame>, next: nat, n: nat)
    requires Located(state, stack) && stack != [] && n < |state| && state[n] == White
    ensures var top := |stack| - 1;
            Located(state[n := Grey], stack[top := Frame(stack[top].index, next)] + [Frame(n, 0)])
  {
    var top := |stack| - 1;
    var stack' := stack[top := Frame(stack[top].index, next)] + [Frame(n, 0)];
    forall m: nat | m < |state| && state[n := Grey][m] == Grey
      ensures OnStack(stack', m)
    {
      if m == n {
        assert stack'[top + 1].index == n;
      } else {
        assert OnStack(stack, m);
        var k :| 0 <= k < |stack| && stack[k].index == m;
        assert stack'[k].index == m;
      }
    }
  }

  lemma PushKeepsSearching(
    claims: seq<Claim>, ids: map<ClaimID, nat>, state: seq<Colour>, stack: seq<Frame>, rank: seq<int>, clock: int,
    next: nat, n: nat)
    requires Searching(claims, ids, state, stack, rank, clock) && stack != []
    requires n < |claims| && state[n] == White
    requires var f := stack[|stack| - 1];
             && f.index < |claims|
             && f.next < next <= |claims[f.index].supporting|
             && Resolve(claims[f.index].supporting[next - 1], ids) == Some(n)
             && forall j :: f.next <= j < next && Resolve(claims[f.index].supporting[j], ids).Some? ==>
                              var b := Resolve(claims[f.index].supporting[j], ids).value; state[b] == Black || b == n
    ensures var top := |stack| - 1;
            Searching(claims, ids, state[n := Grey], stack[top := Frame(stack[top].index, next)] + [Frame(n, 0)],
                      rank, clock)
  {
    var g := Citations(claims, ids);
    var top := |stack| - 1;
    var stack' := stack[top := Frame(stack[top].index, next)] + [Frame(n, 0)];
    var state' := state[n := Grey];
    PushLocated(state, stack, next, n);
    ResolvedIsCited(claims, ids, stack[top].index, next - 1);
    ExtendPath(g, Indices(stack), n);
    assert Indices(stack') == Indices(stack) + [n];
    forall k | 0 <= k < |stack'|
      ensures Scanned(claims, ids, state', stack', k)
    {
      if k < |stack| {
        assert Scanned(claims, ids, state, stack, k);
      }
    }
  }

  lemma PopLocated(state: seq<Colour>, stack: seq<Frame>)
    requires Located(state, stack) && stack != []
    ensures var top := |stack| - 1; Located(state[stack[top].index := Black], stack[..top])
  {
    var top := |stack| - 1;
    var t := stack[top].index;
    forall m: nat | m < |state| && m != t && state[m] == Grey
      ensures OnStack(stack[..top], m)
    {
      assert OnStack(stack, m);
      var k :| 0 <= k < |stack| && stack[k].index == m;
      assert stack[..top][k].index == m;
    }
  }

  lemma PopScanned(claims: seq<Claim>, ids: map<ClaimID, nat>, state: seq<Colour>, stack: seq<Frame>)
    requires Indexes(ids, claims) && |state| == |claims|
    requires AllScanned(claims, ids, state, stack) && stack != []
    ensures var t := stack[|stack| - 1].index;
            t < |state| && AllScanned(claims, ids, state[t := Black], stack[..|stack| - 1])
  {
    var top := |stack| - 1;
    assert Scanned(claims, ids, state, stack, top);
    var state' := state[stack[top].index := Black];
    forall k | 0 <= k < top
      ensures Scanned(claims, ids, state', stack[..top], k)
    {
      assert Scanned(claims, ids, state, stack, k);
    }
  }

  lemma PopFinished(
    claims: seq<Claim>, ids: map<ClaimID, nat>, state: seq<Colour>, stack: seq<Frame>, rank: seq<int>, clock: int)
    requires Indexes(ids, claims) && |state| == |claims| && stack != []
    requires Finished(Citations(claims, ids), state, rank, clock) && Scanned(claims, ids, state, stack, |stack| - 1)
    requires var f := stack[|stack| - 1];
             && state[f.index] == Grey
             && forall j :: f.next <= j < |claims[f.index].supporting| && Resolve(claims[f.index].supporting[j], ids).Some? ==>
                              state[Resolve(claims[f.index].supporting[j], ids).value] == Black
    ensures var t := stack[|stack| - 1].index;
            Finished(Citations(claims, ids), state[t := Black], rank[t := clock], clock + 1)
  {
    var g := Citations(claims, ids);
    var t := stack[|stack| - 1].index;
    TargetsResolve(claims[t].supporting, ids);
    forall b | Edge(g, t, b)
      ensures 0 <= b < |state| && state[b] == Black
    {
      var j :| 0 <= j < |claims[t].supporting| && Resolve(claims[t].supporting[j], ids) == Some(b);
    }
  }

  lemma PopKeepsSearching(
    claims: seq<Claim>, ids: map<ClaimID, nat>, state: seq<Colour>, stack: seq<Frame>, rank: seq<int>, clock: int)
    requires Searching(claims, ids, state, stack, rank, clock) && stack != []
    requires var f := stack[|stack| - 1];
             && f.index < |claims|
             && forall j :: f.next <= j < |claims[f.index].supporting| && Resolve(claims[f.index].supporting[j], ids).Some? ==>
                              state[Resolve(claims[f.index].supporting[j], ids).value] == Black
    ensures var top := |stack| - 1; var t := stack[top].index;
            Searching(claims, ids, state[t := Black], stack[..top], rank[t := clock], clock + 1)
  {
    var g := Citations(claims, ids);
    var top := |stack| - 1;
    var t := stack[top].index;
    PopLocated(state, stack);
    PopScanned(claims, ids, state, stack);
    PopFinished(claims, ids, state, stack, rank, clock);
    assert IsPath(g, Indices(stack));
    if top > 0 {
      PathPrefix(g, Indices(stack), top);
      assert Indices(stack)[..top] == Indices(stack[..top]);
    }
  }

  lemma BackEdgeFound(
    claims: seq<Claim>, ids: map<ClaimID, nat>, state: seq<Colour>, stack: seq<Frame>, rank: seq<int>, clock: int,
    next: nat, n: nat)
    requires Searching(claims, ids, state, stack, rank, clock) && stack != []
    requires n < |state| && state[n] == Grey
    requires var f := stack[|stack| - 1];
             && f.index < |claims|
             && 0 < next <= |claims[f.index].supporting|
             && Resolve(claims[f.index].supporting[next - 1], ids) == Some(n)
    ensures HasCycle(Citations(claims, ids))
  {
    assert OnStack(stack, n);
    var k :| 0 <= k < |stack| && stack[k].index == n;
    ResolvedIsCited(claims, ids, stack[|stack| - 1].index, next - 1);
    BackEdgeCycle(Citations(claims, ids), Indices(stack), k);
  }

  lemma AllFinishedNoCycle(g: map<int, seq<int>>, state: seq<Colour>, rank: seq<int>, clock: int)
    requires Finished(g, state, rank, clock) && forall n :: 0 <= n < |state| ==> state[n] == Black
    requires forall n :: n in g ==> 0 <= n < |state|
    ensures !HasCycle(g)
  {
    var ranks := map n: int | 0 <= n < |state| :: rank[n];
    forall a, b | a in ranks && Edge(g, a, b)
      ensures b in ranks && ranks[b] < ranks[a]
    {
      assert state[a] == Black;
    }
    RankedHasNoCycle(g, ranks);
  }

  /** One turn of the middle loop: the top frame finds a back edge, descends to a white claim, or is finished. */
  method Advance(
    claims: seq<Claim>, ids: map<ClaimID, nat>, state: seq<Colour>, stack: seq<Frame>, ghost rank: seq<int>, ghost clock: int)
    returns (cycle: bool, state': seq<Colour>, stack': seq<Frame>, ghost rank': seq<int>, ghost clock': int)
    requires Searching(claims, ids, state, stack, rank, clock) && stack != []
    ensures cycle ==> HasCycle(Citations(claims, ids))
    ensures !cycle ==> Searching(claims, ids, state', stack', rank', clock')
    ensures !cycle ==> Progress(state, |stack|, state', |stack'|)
  {
    var top := |stack| - 1;
    var f := stack[top];
    assert Scanned(claims, ids, state, stack, top);
    var next, scan := ScanReferences(claims[f.index].supporting, f.next, state, ids);
    cycle, state', stack', rank', clock' := false, state, stack, rank, clock;
    match scan {
      case BackEdge(n) =>
        BackEdgeFound(claims, ids, state, stack, rank, clock, next, n);
        cycle := true;
      case Descend(n) =>
        PushKeepsSearching(claims, ids, state, stack, rank, clock, next, n);
        stack' := stack[top := Frame(f.index, next)] + [Frame(n, 0)];
        state' := state[n := Grey];
        assert Whites(state') < Whites(state) by {
          assert n in Whites(state) && n !in Whites(state');
        }
      case Exhausted =>
        PopKeepsSearching(claims, ids, state, stack, rank, clock);
        stack', state' := stack[..top], state[f.index := Black];
        rank', clock' := rank[f.index := clock], clock + 1;
        assert Whites(state') == Whites(state);
    }
  }

  /** The claims no search has entered. */
  ghost function Whites(state: seq<Colour>): set<nat>
  {
    set n: nat | n < |state| && state[n] == White
  }

  /** A turn enters a white claim or shortens the stack, and whitens nothing. */
  ghost predicate Progress(state: seq<Colour>, height: nat, state': seq<Colour>, height': nat)
  {
    && |state'| == |state|
    && (Whites(state') < Whites(state) || (Whites(state') == Whites(state) && height' < height))
  }

  /** claimGraphHasCycle: decides whether the citations contain a cycle, for every claim list and index. */
  method ClaimGraphHasCycle(claims: seq<Claim>, ids: map<ClaimID, nat>) returns (cycle: bool)
    requires Indexes(ids, claims)
    ensures cycle <==> HasCycle(Citations(claims, ids))
  {
    var state := seq(|claims|, _ => White);
    ghost var rank, clock := seq(|claims|, _ => 0), 0;
    for start := 0 to |claims|
      invariant Searching(claims, ids, state, [], rank, clock)
      invariant forall n :: 0 <= n < start ==> n !in Whites(state)
    {
      if state[start] == White {
        var stack := [Frame(start, 0)];
        assert stack[0].index == start;
        assert Whites(state[start := Grey]) <= Whites(state);
        state := state[start := Grey];
        while |stack| > 0
          invariant Searching(claims, ids, state, stack, rank, clock)
          invariant forall n :: 0 <= n <= start ==> n !in Whites(state)
          decreases Whites(state), |stack|
        {
          cycle, state, stack, rank, clock := Advance(claims, ids, state, stack, rank, clock);
          if cycle {
            return;
          }
        }
      }
    }
    NothingLeft(claims, ids, state, rank, clock);
    cycle := false;
  }

  lemma NothingLeft(claims: seq<Claim>, ids: map<ClaimID, nat>, state: seq<Colour>, rank: seq<int>, clock: int)
    requires Searching(claims, ids, state, [], rank, clock) && forall n :: 0 <= n < |claims| ==> n !in Whites(state)
    ensures !HasCycle(Citations(claims, ids))
  {
    forall n: nat | n < |state|
      ensures state[n] == Black
    {
      assert n !in Whites(state);
      assert state[n] == Grey ==> OnStack([], n);
    }
    AllFinishedNoCycle(Citations(claims, ids), state, rank, clock);
  }

  // ---------------------------------------------------------------- reaching base evidence

  ghost predicate HasBase(c: Claim)
  {
    exists j :: 0 <= j < |c.supporting| && c.supporting[j].kind != ClaimEvidence
  }

  /** Some claim reachable from `start` cites a record that is not a claim. */
  ghost predicate ReachesBase(claims: seq<Claim>, ids: map<ClaimID, nat>, start: int)
  {
    exists n :: Reaches(Citations(claims, ids), start, n) && 0 <= n < |claims| && HasBase(claims[n])
  }

  /** Every claim-kind reference of claim n resolves, and none to n itself. */
  ghost predicate WellCited(claims: seq<Claim>, ids: map<ClaimID, nat>, n: int)
    requires 0 <= n < |claims|
  {
    forall j :: 0 <= j < |claims[n].supporting| && claims[n].supporting[j].kind == ClaimEvidence ==>
                  Resolve(claims[n].supporting[j], ids).Some? && Resolve(claims[n].supporting[j], ids).value != n
  }

  ghost predicate AllWellCited(claims: seq<Claim>, ids: map<ClaimID, nat>)
  {
    forall n :: 0 <= n < |claims| ==> WellCited(claims, ids, n)
  }

  /** The same for the claims reachable from `start` alone. */
  ghost predicate WellCitedFrom(claims: seq<Claim>, ids: map<ClaimID, nat>, start: int)
  {
    forall n :: 0 <= n < |claims| && Reaches(Citations(claims, ids), start, n) ==> WellCited(claims, ids, n)
  }

  ghost function Unseen(done: seq<bool>): set<int>
  {
    set n | 0 <= n < |done| && !done[n]
  }

  /** The reference loop of claimPathReachesBase on the popped claim n: `broken` is its early return of false. */
  method PushCited(refs: seq<EvidenceRef>, n: nat, done: seq<bool>, ids: map<ClaimID, nat>, stack: seq<nat>)
    returns (broken: bool, found: bool, stack': seq<nat>)
    requires forall id :: id in ids ==> ids[id] < |done|
    ensures broken ==> exists j :: 0 <= j < |refs| && refs[j].kind == ClaimEvidence &&
                                   (Resolve(refs[j], ids).None? || Resolve(refs[j], ids).value == n)
    ensures !broken ==> (found <==> exists j :: 0 <= j < |refs| && refs[j].kind != ClaimEvidence)
    ensures stack <= stack'
    ensures forall k :: |stack| <= k < |stack'| ==> stack'[k] < |done| && stack'[k] in Targets(refs, ids)
    ensures !broken ==> forall j :: 0 <= j < |refs| && Resolve(refs[j], ids).Some? ==>
                          done[Resolve(refs[j], ids).value] || Resolve(refs[j], ids).value in stack'
  {
    TargetsResolve(refs, ids);
    found, stack', broken := false, stack, false;
    for j := 0 to |refs|
      invariant found <==> exists i :: 0 <= i < j && refs[i].kind != ClaimEvidence
      invariant stack <= stack'
      invariant forall k :: |stack| <= k < |stack'| ==> stack'[k] < |done| && stack'[k] in Targets(refs, ids)
      invariant forall i :: 0 <= i < j && Resolve(refs[i], ids).Some? ==>
                  done[Resolve(refs[i], ids).value] || Resolve(refs[i], ids).value in stack'
    {
      if refs[j].kind != ClaimEvidence {
        found := true;
        continue;
      }
      var target := Resolve(refs[j], ids);
      if target.None? || target.value == n {
        return true, found, stack';
      }
      if !done[target.value] {
        stack' := stack' + [target.value];
      }
    }
  }

  ghost predicate BaseSearch(
    claims: seq<Claim>, ids: map<ClaimID, nat>, start: int, done: seq<bool>, stack: seq<nat>)
  {
    && |done| == |claims|
    && (forall k :: 0 <= k < |stack| ==> stack[k] < |claims| && Reaches(Citations(claims, ids), start, stack[k]))
    && (forall n :: 0 <= n < |claims| && done[n] ==> !HasBase(claims[n]))
    && (forall a, b :: 0 <= a < |claims| && done[a] && Edge(Citations(claims, ids), a, b) ==>
                         0 <= b < |claims| && (done[b] || b in stack))
  }

  lemma CitedReaches(claims: seq<Claim>, ids: map<ClaimID, nat>, start: int, n: nat, m: nat)
    requires n < |claims| && Reaches(Citations(claims, ids), start, n) && m in Targets(claims[n].supporting, ids)
    ensures Reaches(Citations(claims, ids), start, m)
  {
    EdgeReaches(Citations(claims, ids), n, m);
    ReachesTransitive(Citations(claims, ids), start, n, m);
  }

  lemma NothingReached(claims: seq<Claim>, ids: map<ClaimID, nat>, start: int, done: seq<bool>)
    requires BaseSearch(claims, ids, start, done, []) && 0 <= start < |claims| && done[start]
    ensures !ReachesBase(claims, ids, start)
  {
    var g := Citations(claims, ids);
    var s := set n | 0 <= n < |claims| && done[n];
    forall n | Reaches(g, start, n) && 0 <= n < |claims|
      ensures !HasBase(claims[n])
    {
      ClosedReaches(g, s, start, n);
    }
  }

  /**
   * claimPathReachesBase: a true answer is always right. A false one is wrong only when some reachable claim
   * has a dangling or self-citing reference, which makes the search give up where it meets one.
   */
  method ClaimPathReachesBase(claims: seq<Claim>, start: nat, ids: map<ClaimID, nat>) returns (reaches: bool)
    requires Indexes(ids, claims) && start < |claims|
    ensures reaches ==> ReachesBase(claims, ids, start)
    ensures WellCitedFrom(claims, ids, start) ==> (reaches <==> ReachesBase(claims, ids, start))
  {
    var done := seq(|claims|, _ => false);
    var stack := [start];
    ReachesSelf(Citations(claims, ids), start as int);
    while |stack| > 0
      invariant BaseSearch(claims, ids, start, done, stack)
      invariant start in stack || done[start]
      decreases Unseen(done), |stack|
    {
      var n := stack[|stack| - 1];
      ghost var before := stack;
      stack := stack[..|stack| - 1];
      assert before == stack + [n];
      assert Reaches(Citations(claims, ids), start, n);
      if done[n] {
        PopSeen(claims, ids, start, done, stack, n);
        continue;
      }
      var broken, found, stack' := PushCited(claims[n].supporting, n, done, ids, stack);
      if broken {
        assert !WellCited(claims, ids, n);
        return false;
      }
      if found {
        assert HasBase(claims[n]);
        return true;
      }
      VisitKeepsSearch(claims, ids, start, done, stack, n, stack');
      assert n in Unseen(done) && n !in Unseen(done[n := true]);
      done, stack := done[n := true], stack';
    }
    NothingReached(claims, ids, start, done);
    reaches := false;
  }

  lemma PopSeen(claims: seq<Claim>, ids: map<ClaimID, nat>, start: int, done: seq<bool>, stack: seq<nat>, n: nat)
    requires BaseSearch(claims, ids, start, done, stack + [n]) && n < |claims| && done[n]
    ensures BaseSearch(claims, ids, start, done, stack)
  {
    var before := stack + [n];
    assert forall k :: 0 <= k < |stack| ==> stack[k] == before[k];
    forall a, b | 0 <= a < |claims| && done[a] && Edge(Citations(claims, ids), a, b)
      ensures 0 <= b < |claims| && (done[b] || b in stack)
    {
      assert done[b] || b in before;
    }
  }

  lemma VisitKeepsSearch(
    claims: seq<Claim>, ids: map<ClaimID, nat>, start: int, done: seq<bool>, stack: seq<nat>, n: nat, stack': seq<nat>)
    requires BaseSearch(claims, ids, start, done, stack + [n]) && Indexes(ids, claims)
    requires n < |claims| && !HasBase(claims[n]) && stack <= stack'
    requires forall k :: |stack| <= k < |stack'| ==> stack'[k] < |claims| && stack'[k] in Targets(claims[n].supporting, ids)
    requires forall j :: 0 <= j < |claims[n].supporting| && Resolve(claims[n].supporting[j], ids).Some? ==>
                           var m := Resolve(claims[n].supporting[j], ids).value; done[m] || m in stack'
    ensures BaseSearch(claims, ids, start, done[n := true], stack')
  {
    var g := Citations(claims, ids);
    var before := stack + [n];
    assert before[|stack|] == n;
    forall k | 0 <= k < |stack'|
      ensures stack'[k] < |claims| && Reaches(g, start, stack'[k])
    {
      if k < |stack| {
        assert stack'[k] == before[k];
      } else {
        CitedReaches(claims, ids, start, n, stack'[k]);
      }
    }
    TargetsResolve(claims[n].supporting, ids);
    forall a, b | 0 <= a < |claims| && done[n := true][a] && Edge(g, a, b)
      ensures 0 <= b < |claims| && (done[n := true][b] || b in stack')
    {
      if a == n {
        var j :| 0 <= j < |claims[n].supporting| && Resolve(claims[n].supporting[j], ids) == Some(b);
      } else {
        assert done[b] || b in before;
      }
    }
  }
}
