/** canonicalBranches of internal/model/canonicalize.go: the layered topological sort of the branch forest. */
module CanonicalBranches {
  import opened Text
  import opened Model
  import opened Graphs
  import opened Sorting
  import opened Branches

  ghost predicate DistinctIds(branches: seq<Branch>)
  {
    forall i, j :: 0 <= i < j < |branches| ==> branches[i].branchID != branches[j].branchID
  }

  // ---------------------------------------------------------------- depth

  /** `d` parent steps lead from the branch to one without a parent, every step resolving. */
  ghost predicate AtDepth(m: map<BranchID, Branch>, id: BranchID, d: nat)
    decreases d
  {
    && id in m
    && if d == 0 then m[id].parent.None? else m[id].parent.Some? && AtDepth(m, m[id].parent.value, d - 1)
  }

  ghost predicate Rooted(m: map<BranchID, Branch>, id: BranchID)
  {
    exists d: nat :: AtDepth(m, id, d)
  }

  lemma {:induction false} DepthUnique(m: map<BranchID, Branch>, id: BranchID, d: nat, e: nat)
    requires AtDepth(m, id, d) && AtDepth(m, id, e)
    ensures d == e
    decreases d
  {
    if d > 0 {
      DepthUnique(m, m[id].parent.value, d - 1, e - 1);
    }
  }

  ghost function Depth(m: map<BranchID, Branch>, id: BranchID): nat
  {
    if Rooted(m, id) then var d: nat :| AtDepth(m, id, d); d else 0
  }

  lemma DepthIs(m: map<BranchID, Branch>, id: BranchID, d: nat)
    requires AtDepth(m, id, d)
    ensures Rooted(m, id) && Depth(m, id) == d
  {
    DepthUnique(m, id, d, Depth(m, id));
  }

  /** Every parent link resolves and none leads back. */
  ghost predicate IsForest(m: map<BranchID, Branch>)
  {
    && (forall id :: id in m && m[id].parent.Some? ==> m[id].parent.value in m)
    && !HasCycle(ParentLinks(m))
  }

  /** The branches form a forest exactly when each of them has a depth. */
  lemma ForestMeansRooted(m: map<BranchID, Branch>)
    ensures IsForest(m) <==> forall id :: id in m ==> Rooted(m, id)
  {
    if forall id :: id in m ==> Rooted(m, id) {
      RootedIsForest(m);
    } else if forall id :: id in m && m[id].parent.Some? ==> m[id].parent.value in m {
      var start :| start in m && !Rooted(m, start);
      UnrootedCycles(m, start);
    }
  }

  lemma RootedThroughParent(m: map<BranchID, Branch>, id: BranchID)
    requires id in m && (m[id].parent.None? || Rooted(m, m[id].parent.value))
    ensures Rooted(m, id)
  {
    if m[id].parent.None? {
      assert AtDepth(m, id, 0);
    } else {
      var d: nat :| AtDepth(m, m[id].parent.value, d);
      assert AtDepth(m, id, d + 1);
    }
  }

  lemma UnrootedCycles(m: map<BranchID, Branch>, start: BranchID)
    requires forall id :: id in m && m[id].parent.Some? ==> m[id].parent.value in m
    requires start in m && !Rooted(m, start)
    ensures HasCycle(ParentLinks(m))
  {
    forall id | id in m && !Rooted(m, id)
      ensures m[id].parent.Some? && !Rooted(m, m[id].parent.value)
    {
      UnrootedParent(m, id);
    }
    var next := map id | id in m && m[id].parent.Some? && !Rooted(m, id) :: m[id].parent.value;
    forall id | id in next
      ensures next[id] in next && Edge(ParentLinks(m), id, next[id])
    {
      ParentIsEdge(m, id, next[id]);
    }
    EndlessWalkFrom(ParentLinks(m), next, start);
  }

  lemma UnrootedParent(m: map<BranchID, Branch>, id: BranchID)
    requires id in m && !Rooted(m, id)
    ensures m[id].parent.Some? && !Rooted(m, m[id].parent.value)
  {
    if m[id].parent.None? || Rooted(m, m[id].parent.value) {
      RootedThroughParent(m, id);
    }
  }

  lemma RootedIsForest(m: map<BranchID, Branch>)
    requires forall id :: id in m ==> Rooted(m, id)
    ensures IsForest(m)
  {
    var rank := map id | id in m :: Depth(m, id) as int;
    forall a, b | a in rank && Edge(ParentLinks(m), a, b)
      ensures b in rank && rank[b] < rank[a]
    {
      ParentIsEdge(m, a, b);
      var d: nat :| AtDepth(m, a, d);
      DepthIs(m, a, d);
      DepthIs(m, b, d - 1);
    }
    RankedHasNoCycle(ParentLinks(m), rank);
    forall id | id in m && m[id].parent.Some?
      ensures m[id].parent.value in m
    {
      var d: nat :| AtDepth(m, id, d);
      assert AtDepth(m, m[id].parent.value, d - 1);
    }
  }

  // ---------------------------------------------------------------- the canonical order

  ghost function DepthLess(m: map<BranchID, Branch>): (Branch, Branch) -> bool
  {
    (a: Branch, b: Branch) =>
      Depth(m, a.branchID) < Depth(m, b.branchID) ||
      (Depth(m, a.branchID) == Depth(m, b.branchID) && Less(a.branchID, b.branchID))
  }

  /** `out` holds the branches of `branches`, ordered by depth and within a depth by ID. */
  ghost predicate IsCanonical(branches: seq<Branch>, out: seq<Branch>)
  {
    multiset(out) == multiset(branches) && Sorted(DepthLess(ById(branches)), out)
  }

  lemma DepthLessTotal(m: map<BranchID, Branch>, s: seq<Branch>)
    requires DistinctIds(s)
    ensures Total(DepthLess(m), s)
  {
    var less := DepthLess(m);
    forall x | x in s
      ensures !less(x, x)
    {
      LessIrreflexive(x.branchID);
    }
    forall x, y, z | less(x, y) && less(y, z)
      ensures less(x, z)
    {
      if Less(x.branchID, y.branchID) && Less(y.branchID, z.branchID) {
        LessTransitive(x.branchID, y.branchID, z.branchID);
      }
    }
    forall x, y | x in s && y in s && x != y
      ensures less(x, y) || less(y, x)
    {
      LessTrichotomy(x.branchID, y.branchID);
    }
  }

  // ---------------------------------------------------------------- the layers

  predicate IsReady(b: Branch, done: set<BranchID>)
  {
    b.branchID !in done && (b.parent.None? || b.parent.value in done)
  }

  function Ready(branches: seq<Branch>, done: set<BranchID>): (s: seq<Branch>)
    ensures forall b :: b in s <==> b in branches && IsReady(b, done)
  {
    if branches == [] then []
    else
      var last := branches[|branches| - 1];
      assert forall b :: b in branches <==> b in branches[..|branches| - 1] || b == last;
      Ready(branches[..|branches| - 1], done) + if IsReady(last, done) then [last] else []
  }

  ghost function Undone(branches: seq<Branch>, done: set<BranchID>): seq<Branch>
  {
    if branches == [] then []
    else
      var last := branches[|branches| - 1];
      Undone(branches[..|branches| - 1], done) + if last.branchID !in done then [last] else []
  }

  /** A layer splits what is not done into the layer and what is not done after it. */
  lemma {:induction false} LayerSplits(branches: seq<Branch>, done: set<BranchID>, done': set<BranchID>)
    requires forall b :: b in branches ==> (b.branchID in done' <==> b.branchID in done || IsReady(b, done))
    ensures multiset(Undone(branches, done)) == multiset(Ready(branches, done)) + multiset(Undone(branches, done'))
  {
    if branches != [] {
      var n := |branches| - 1;
      assert branches[n] in branches;
      LayerSplits(branches[..n], done, done');
    }
  }

  /** Whatever the IDs, a layer takes each branch at most once. */
  lemma {:induction false} LayerWithin(branches: seq<Branch>, done: set<BranchID>, done': set<BranchID>)
    requires done <= done' && forall b :: b in branches && IsReady(b, done) ==> b.branchID in done'
    ensures multiset(Ready(branches, done)) + multiset(Undone(branches, done')) <= multiset(Undone(branches, done))
  {
    if branches != [] {
      var n := |branches| - 1;
      assert branches[n] in branches;
      LayerWithin(branches[..n], done, done');
    }
  }

  lemma AtMostIsAll<T>(a: seq<T>, b: seq<T>)
    requires multiset(a) <= multiset(b) && |a| >= |b|
    ensures multiset(a) == multiset(b)
  {
    var rest := multiset(b) - multiset(a);
    assert multiset(b) == multiset(a) + rest;
    assert |multiset(b)| == |multiset(a)| + |rest|;
  }

  lemma {:induction false} NothingDone(branches: seq<Branch>)
    ensures Undone(branches, {}) == branches
  {
    if branches != [] {
      NothingDone(branches[..|branches| - 1]);
    }
  }

  /** After k rounds: what is done has a depth below k, and it is laid out in canonical order. */
  ghost predicate Layered(branches: seq<Branch>, k: nat, done: set<BranchID>, out: seq<Branch>)
  {
    var m := ById(branches);
    && (forall b :: b in branches ==> (b.branchID in done <==> Rooted(m, b.branchID) && Depth(m, b.branchID) < k))
    && done <= m.Keys
    && multiset(out) + multiset(Undone(branches, done)) == multiset(branches)
    && (forall b :: b in out ==> b.branchID in done)
    && Sorted(DepthLess(m), out)
  }

  function LayerLess(): (Branch, Branch) -> bool { (a: Branch, b: Branch) => Less(a.branchID, b.branchID) }

  lemma ReadyIsNextLayer(branches: seq<Branch>, k: nat, done: set<BranchID>, out: seq<Branch>, b: Branch)
    requires DistinctIds(branches) && Layered(branches, k, done, out) && b in branches
    ensures IsReady(b, done) <==> Rooted(ById(branches), b.branchID) && Depth(ById(branches), b.branchID) == k
  {
    var m := ById(branches);
    ByIdFinds(branches);
    OneBranchPerId(branches, m[b.branchID], b);
    if b.parent.Some? && b.parent.value in m {
      assert m[b.parent.value] in branches;
    }
    if Rooted(m, b.branchID) {
      var d: nat :| AtDepth(m, b.branchID, d);
      DepthIs(m, b.branchID, d);
      if d > 0 {
        DepthIs(m, b.parent.value, d - 1);
      }
    } else if b.parent.None? {
      assert AtDepth(m, b.branchID, 0);
    } else if b.parent.value in done {
      var d: nat :| AtDepth(m, b.parent.value, d);
      assert AtDepth(m, b.branchID, d + 1);
    }
  }

  lemma OneBranchPerId(branches: seq<Branch>, a: Branch, b: Branch)
    requires DistinctIds(branches) && a in branches && b in branches && a.branchID == b.branchID
    ensures a == b
  {
    var i :| 0 <= i < |branches| && branches[i] == a;
    var j :| 0 <= j < |branches| && branches[j] == b;
  }

  lemma LayerLessOrders(s: seq<Branch>)
    ensures Weak(LayerLess(), s)
  {
    forall x: Branch
      ensures !LayerLess()(x, x)
    {
      LessIrreflexive(x.branchID);
    }
    forall x: Branch, y: Branch, z: Branch | LayerLess()(x, y) && LayerLess()(y, z)
      ensures LayerLess()(x, z)
    {
      LessTransitive(x.branchID, y.branchID, z.branchID);
    }
    forall x: Branch, y: Branch, z: Branch | LayerLess()(x, z)
      ensures LayerLess()(x, y) || LayerLess()(y, z)
    {
      LessTrichotomy(x.branchID, y.branchID);
      LessTrichotomy(y.branchID, z.branchID);
      if Less(y.branchID, x.branchID) && Less(z.branchID, y.branchID) {
        LessTransitive(z.branchID, y.branchID, x.branchID);
        LessAsymmetric(x.branchID, z.branchID);
      }
      if Less(y.branchID, x.branchID) {
        LessTransitive(y.branchID, x.branchID, z.branchID);
      }
    }
  }

  /** Appending a sorted layer keeps the canonical order. */
  lemma LayerAppends(branches: seq<Branch>, k: nat, done: set<BranchID>, out: seq<Branch>, layer: seq<Branch>)
    requires DistinctIds(branches) && Layered(branches, k, done, out)
    requires multiset(layer) == multiset(Ready(branches, done)) && Sorted(LayerLess(), layer)
    ensures Sorted(DepthLess(ById(branches)), out + layer)
  {
    var m, all := ById(branches), out + layer;
    SameElements(layer, Ready(branches, done));
    forall i, j | 0 <= i < j < |all|
      ensures !DepthLess(m)(all[j], all[i])
    {
      if j >= |out| {
        assert all[j] in layer;
        ReadyIsNextLayer(branches, k, done, out, all[j]);
        if i < |out| {
          OutIsBelow(branches, k, done, out, all[i]);
        } else {
          assert all[i] in layer;
          ReadyIsNextLayer(branches, k, done, out, all[i]);
          assert !LayerLess()(layer[j - |out|], layer[i - |out|]);
        }
      }
    }
  }

  lemma OutIsBelow(branches: seq<Branch>, k: nat, done: set<BranchID>, out: seq<Branch>, b: Branch)
    requires Layered(branches, k, done, out) && b in out
    ensures b in branches && Depth(ById(branches), b.branchID) < k
  {
    assert b in multiset(out);
    assert b in multiset(branches);
  }

  lemma LayerKeepsLayered(
    branches: seq<Branch>, k: nat, done: set<BranchID>, out: seq<Branch>, layer: seq<Branch>, done': set<BranchID>)
    requires DistinctIds(branches) && Layered(branches, k, done, out)
    requires multiset(layer) == multiset(Ready(branches, done)) && Sorted(LayerLess(), layer)
    requires done' == done + set b | b in layer :: b.branchID
    ensures Layered(branches, k + 1, done', out + layer)
  {
    var m := ById(branches);
    SameElements(layer, Ready(branches, done));
    ByIdFinds(branches);
    forall b | b in branches
      ensures b.branchID in done' <==> b.branchID in done || IsReady(b, done)
      ensures b.branchID in done' <==> Rooted(m, b.branchID) && Depth(m, b.branchID) < k + 1
    {
      if exists c :: c in layer && c.branchID == b.branchID {
        var c :| c in layer && c.branchID == b.branchID;
        OneBranchPerId(branches, b, c);
      }
      ReadyIsNextLayer(branches, k, done, out, b);
    }
    LayerSplits(branches, done, done');
    LayerAppends(branches, k, done, out, layer);
  }

  // ---------------------------------------------------------------- layers of any list of branches

  /** The branch is one layer below its parent; without a parent it is in layer 0. */
  ghost predicate InLayer(level: map<BranchID, nat>, b: Branch)
  {
    && b.branchID in level
    && if b.parent.None? then level[b.branchID] == 0
       else b.parent.value in level && level[b.branchID] == level[b.parent.value] + 1
  }

  predicate HasId(branches: seq<Branch>, id: BranchID) { exists b :: b in branches && b.branchID == id }

  /** A layer for every ID, which all branches with that ID agree on. */
  ghost predicate Levels(branches: seq<Branch>, level: map<BranchID, nat>)
  {
    (forall b :: b in branches ==> InLayer(level, b)) &&
    forall id {:trigger HasId(branches, id)} :: id in level ==> HasId(branches, id)
  }

  ghost predicate Layerable(branches: seq<Branch>) { exists level :: Levels(branches, level) }

  ghost function SomeLevels(branches: seq<Branch>): (level: map<BranchID, nat>)
    ensures Layerable(branches) ==> Levels(branches, level)
  {
    if Layerable(branches) then var level :| Levels(branches, level); level else map[]
  }

  lemma {:induction false} LevelIsDepth(branches: seq<Branch>, level: map<BranchID, nat>, id: BranchID, d: nat)
    requires Levels(branches, level) && id in level && level[id] == d
    ensures AtDepth(ById(branches), id, d)
    decreases d
  {
    var m := ById(branches);
    ByIdFinds(branches);
    assert HasId(branches, id);
    assert InLayer(level, m[id]);
    if d > 0 {
      LevelIsDepth(branches, level, m[id].parent.value, d - 1);
    }
  }

  /** With one branch per ID, layers exist exactly on forests. */
  lemma DistinctLayerable(branches: seq<Branch>)
    requires DistinctIds(branches)
    ensures Layerable(branches) <==> IsForest(ById(branches))
  {
    var m := ById(branches);
    ByIdFinds(branches);
    ForestMeansRooted(m);
    if Layerable(branches) {
      var level := SomeLevels(branches);
      forall id | id in m
        ensures Rooted(m, id)
      {
        assert InLayer(level, m[id]);
        LevelIsDepth(branches, level, id, level[id]);
      }
    } else if IsForest(m) {
      var level := map id | id in m :: Depth(m, id);
      forall b | b in branches
        ensures InLayer(level, b)
      {
        OneBranchPerId(branches, m[b.branchID], b);
        var d: nat :| AtDepth(m, b.branchID, d);
        DepthIs(m, b.branchID, d);
        if d > 0 {
          DepthIs(m, b.parent.value, d - 1);
        }
      }
      assert Levels(branches, level);
    }
  }

  /** After k rounds: what is laid out is in layers, and what is not done waits for what the last round did. */
  ghost predicate Built(branches: seq<Branch>, k: nat, done: set<BranchID>, level: map<BranchID, nat>, out: seq<Branch>)
  {
    && level.Keys == done
    && (forall id :: id in level ==> level[id] < k)
    && (forall id {:trigger HasId(branches, id)} :: id in level ==> HasId(branches, id))
    && (forall b :: b in out ==> InLayer(level, b))
    && (forall b :: b in branches && b.branchID !in done ==> Waits(b, k, level))
  }

  ghost predicate Waits(b: Branch, k: nat, level: map<BranchID, nat>)
  {
    if b.parent.None? then k == 0 else b.parent.value in level ==> level[b.parent.value] + 1 == k
  }

  ghost function NextLevel(level: map<BranchID, nat>, k: nat, fresh': set<BranchID>): map<BranchID, nat>
  {
    level + map id | id in fresh' :: k
  }

  lemma LayerBuilds(
    branches: seq<Branch>, k: nat, done: set<BranchID>, level: map<BranchID, nat>, out: seq<Branch>, layer: seq<Branch>,
    done': set<BranchID>)
    requires Built(branches, k, done, level, out) && forall b :: b in layer <==> b in branches && IsReady(b, done)
    requires done' == done + set b | b in layer :: b.branchID
    ensures Built(branches, k + 1, done', NextLevel(level, k, done' - done), out + layer)
  {
    var level' := NextLevel(level, k, done' - done);
    forall b | b in layer
      ensures InLayer(level', b)
    {
      assert Waits(b, k, level);
      assert b.branchID in level' && level'[b.branchID] == k;
      if b.parent.Some? {
        assert b.parent.value in level && level'[b.parent.value] == level[b.parent.value];
      }
    }
    forall b | b in out
      ensures InLayer(level', b)
    {
      assert InLayer(level, b);
    }
    forall b | b in branches && b.branchID !in done'
      ensures Waits(b, k + 1, level')
    {
      assert b !in layer;
    }
  }

  /** Where layers exist, k rounds lay out the first k of them. */
  ghost predicate Follows(branches: seq<Branch>, k: nat, done: set<BranchID>, out: seq<Branch>, level: map<BranchID, nat>)
  {
    && Levels(branches, level)
    && (forall b :: b in branches ==> (b.branchID in done <==> level[b.branchID] < k))
    && multiset(out) + multiset(Undone(branches, done)) == multiset(branches)
  }

  lemma ReadyIsLayer(branches: seq<Branch>, k: nat, done: set<BranchID>, out: seq<Branch>, level: map<BranchID, nat>, b: Branch)
    requires Follows(branches, k, done, out, level) && b in branches
    ensures IsReady(b, done) <==> level[b.branchID] == k
  {
    assert InLayer(level, b);
    if b.parent.Some? {
      assert HasId(branches, b.parent.value);
      var p :| p in branches && p.branchID == b.parent.value;
    }
  }

  lemma LayerFollows(
    branches: seq<Branch>, k: nat, done: set<BranchID>, out: seq<Branch>, level: map<BranchID, nat>, layer: seq<Branch>,
    done': set<BranchID>)
    requires Follows(branches, k, done, out, level) && multiset(layer) == multiset(Ready(branches, done))
    requires done' == done + set b | b in layer :: b.branchID
    ensures Follows(branches, k + 1, done', out + layer, level)
  {
    SameElements(layer, Ready(branches, done));
    forall b | b in branches
      ensures b.branchID in done' <==> b.branchID in done || IsReady(b, done)
      ensures b.branchID in done' <==> level[b.branchID] < k + 1
    {
      ReadyIsLayer(branches, k, done, out, level, b);
      if b.branchID in done' && b.branchID !in done {
        var c :| c in layer && c.branchID == b.branchID;
        ReadyIsLayer(branches, k, done, out, level, c);
      }
    }
    LayerSplits(branches, done, done');
  }

  /** With something left but nothing ready, there are no layers. */
  lemma StuckHasNoLevels(branches: seq<Branch>, k: nat, done: set<BranchID>, out: seq<Branch>, level: map<BranchID, nat>)
    requires Layerable(branches) ==> Follows(branches, k, done, out, level)
    requires |out| < |branches| && Ready(branches, done) == []
    ensures !Layerable(branches)
  {
    if Layerable(branches) {
      SomethingIsReady(branches, k, done, out, level);
    }
  }

  lemma SomethingIsReady(branches: seq<Branch>, k: nat, done: set<BranchID>, out: seq<Branch>, level: map<BranchID, nat>)
    requires Follows(branches, k, done, out, level) && |out| < |branches|
    ensures Ready(branches, done) != []
  {
    assert |multiset(branches)| == |multiset(out)| + |multiset(Undone(branches, done))|;
    UndoneEmpty(branches, done);
    var b :| b in branches && b.branchID !in done;
    UndoneLeadsToReady(branches, k, done, out, level, b);
  }

  lemma {:induction false} UndoneLeadsToReady(
    branches: seq<Branch>, k: nat, done: set<BranchID>, out: seq<Branch>, level: map<BranchID, nat>, b: Branch)
    requires Follows(branches, k, done, out, level) && b in branches && b.branchID !in done
    ensures Ready(branches, done) != []
    decreases InLayer(level, b), if b.branchID in level then level[b.branchID] else 0
  {
    assert InLayer(level, b);
    ReadyIsLayer(branches, k, done, out, level, b);
    if level[b.branchID] == k {
      assert b in Ready(branches, done);
    } else {
      assert HasId(branches, b.parent.value);
      var p :| p in branches && p.branchID == b.parent.value;
      assert InLayer(level, p);
      UndoneLeadsToReady(branches, k, done, out, level, p);
    }
  }

  // ---------------------------------------------------------------- the algorithm

  /**
   * canonicalBranches. It succeeds exactly on branches that can be layered, also with repeated IDs (with distinct
   * ones that is: on forests), and then returns distinct branches by depth and ID; when it fails it returns its
   * input.
   */
  method Canonicalize(branches: seq<Branch>) returns (out: seq<Branch>, ok: bool)
    ensures multiset(out) == multiset(branches)
    ensures !ok ==> out == branches
    ensures ok <==> Layerable(branches)
    ensures DistinctIds(branches) && ok ==> IsCanonical(branches, out)
  {
    out := [];
    var done: set<BranchID> := {};
    ghost var k, level: map<BranchID, nat> := 0, map[];
    ghost var fixed := SomeLevels(branches);
    NothingDone(branches);
    while |out| < |branches|
      invariant InProgress(branches, k, done, level, out, fixed)
      decreases |branches| - |out|
    {
      var candidates := CollectReady(branches, done);
      if |candidates| == 0 {
        StuckHasNoLevels(branches, k, done, out, fixed);
        return branches, false;
      }
      LayerLessOrders(candidates);
      candidates := SortSlice(LayerLess(), candidates);
      var done', out' := LayOut(candidates, done, out);
      LayerProgresses(branches, k, done, level, out, fixed, candidates, done');
      level := NextLevel(level, k, done' - done);
      k, done, out := k + 1, done', out';
    }
    AllInLayers(branches, k, done, level, out, fixed);
    ok := true;
  }

  /** What holds between two rounds; `fixed` are layers of the branches, if there are any. */
  ghost predicate InProgress(
    branches: seq<Branch>, k: nat, done: set<BranchID>, level: map<BranchID, nat>, out: seq<Branch>, fixed: map<BranchID, nat>)
  {
    && multiset(out) + multiset(Undone(branches, done)) <= multiset(branches)
    && Built(branches, k, done, level, out)
    && (Layerable(branches) ==> Follows(branches, k, done, out, fixed))
    && (DistinctIds(branches) ==> Layered(branches, k, done, out))
  }

  lemma LayerProgresses(
    branches: seq<Branch>, k: nat, done: set<BranchID>, level: map<BranchID, nat>, out: seq<Branch>, fixed: map<BranchID, nat>,
    layer: seq<Branch>, done': set<BranchID>)
    requires InProgress(branches, k, done, level, out, fixed)
    requires multiset(layer) == multiset(Ready(branches, done)) && Sorted(LayerLess(), layer)
    requires done' == done + set b | b in layer :: b.branchID
    ensures InProgress(branches, k + 1, done', NextLevel(level, k, done' - done), out + layer, fixed)
  {
    SameElements(layer, Ready(branches, done));
    if DistinctIds(branches) {
      LayerKeepsLayered(branches, k, done, out, layer, done');
    }
    if Layerable(branches) {
      LayerFollows(branches, k, done, out, fixed, layer, done');
    }
    LayerBuilds(branches, k, done, level, out, layer, done');
    assert forall b :: b in branches && IsReady(b, done) ==> b in layer && b.branchID in done';
    LayerWithin(branches, done, done');
  }

  lemma AllInLayers(
    branches: seq<Branch>, k: nat, done: set<BranchID>, level: map<BranchID, nat>, out: seq<Branch>, fixed: map<BranchID, nat>)
    requires InProgress(branches, k, done, level, out, fixed) && |out| >= |branches|
    ensures multiset(out) == multiset(branches) && Layerable(branches)
    ensures DistinctIds(branches) ==> IsCanonical(branches, out)
  {
    AtMostIsAll(out, branches);
    SameElements(out, branches);
    assert Levels(branches, level);
    if DistinctIds(branches) {
      AllLaidOut(branches, k, done, out);
    }
  }

  method LayOut(candidates: seq<Branch>, done: set<BranchID>, out: seq<Branch>)
    returns (done': set<BranchID>, out': seq<Branch>)
    ensures done' == done + (set b | b in candidates :: b.branchID) && out' == out + candidates
  {
    done', out' := done, out;
    for i := 0 to |candidates|
      invariant out' == out + candidates[..i]
      invariant done' == done + set b | b in candidates[..i] :: b.branchID
    {
      assert candidates[..i + 1] == candidates[..i] + [candidates[i]];
      done', out' := done' + {candidates[i].branchID}, out' + [candidates[i]];
    }
    assert candidates[..|candidates|] == candidates;
  }

  method CollectReady(branches: seq<Branch>, done: set<BranchID>) returns (candidates: seq<Branch>)
    ensures candidates == Ready(branches, done)
  {
    candidates := [];
    for i := 0 to |branches|
      invariant candidates == Ready(branches[..i], done)
    {
      assert branches[..i + 1][..i] == branches[..i];
      if branches[i].branchID in done {
        continue;
      }
      if branches[i].parent.None? || branches[i].parent.value in done {
        candidates := candidates + [branches[i]];
      }
    }
    assert branches[..|branches|] == branches;
  }

  lemma {:induction false} UndoneEmpty(branches: seq<Branch>, done: set<BranchID>)
    ensures Undone(branches, done) == [] <==> forall b :: b in branches ==> b.branchID in done
  {
    if branches != [] {
      var n := |branches| - 1;
      UndoneEmpty(branches[..n], done);
      assert forall b :: b in branches <==> b in branches[..n] || b == branches[n];
    }
  }

  lemma AllLaidOut(branches: seq<Branch>, k: nat, done: set<BranchID>, out: seq<Branch>)
    requires Layered(branches, k, done, out) && |out| >= |branches|
    ensures IsCanonical(branches, out) && IsForest(ById(branches))
  {
    var m := ById(branches);
    assert |multiset(branches)| == |multiset(out)| + |multiset(Undone(branches, done))|;
    assert Undone(branches, done) == [];
    UndoneEmpty(branches, done);
    ByIdFinds(branches);
    forall id | id in m
      ensures Rooted(m, id)
    {
      assert m[id] in branches;
    }
    ForestMeansRooted(m);
  }

  // ---------------------------------------------------------------- laws

  /** A branch comes after its parent. */
  lemma ParentsFirst(branches: seq<Branch>, out: seq<Branch>, i: int, j: int)
    requires DistinctIds(branches) && IsForest(ById(branches)) && IsCanonical(branches, out)
    requires 0 <= i < |out| && 0 <= j < |out| && out[j].parent == Some(out[i].branchID)
    ensures i < j
  {
    var m := ById(branches);
    ByIdFinds(branches);
    ForestMeansRooted(m);
    SameElements(out, branches);
    assert out[i] in branches && out[j] in branches;
    OneBranchPerId(branches, m[out[j].branchID], out[j]);
    var d: nat :| AtDepth(m, out[j].branchID, d);
    DepthIs(m, out[j].branchID, d);
    DepthIs(m, out[i].branchID, d - 1);
    assert DepthLess(m)(out[i], out[j]);
  }

  lemma DistinctPermuted(a: seq<Branch>, b: seq<Branch>)
    requires DistinctIds(a) && multiset(a) == multiset(b)
    ensures DistinctIds(b) && ById(a) == ById(b)
  {
    SameElements(a, b);
    NoRepeatsPermuted(a, b);
    forall i, j | 0 <= i < j < |b|
      ensures b[i].branchID != b[j].branchID
    {
      assert b[i] in a && b[j] in a;
      if b[i].branchID == b[j].branchID {
        OneBranchPerId(a, b[i], b[j]);
      }
    }
    ByIdFinds(a);
    ByIdFinds(b);
    forall id | id in ById(a) || id in ById(b)
      ensures id in ById(a) && id in ById(b) && ById(a)[id] == ById(b)[id]
    {
      OneBranchPerId(a, ById(a)[id], ById(b)[id]);
    }
  }

  /** The order the branches arrive in does not show in the result. */
  lemma CanonicalIsOrderIndependent(a: seq<Branch>, b: seq<Branch>, x: seq<Branch>, y: seq<Branch>)
    requires DistinctIds(a) && multiset(a) == multiset(b) && IsCanonical(a, x) && IsCanonical(b, y)
    ensures x == y
  {
    DistinctPermuted(a, b);
    DistinctPermuted(a, x);
    DepthLessTotal(ById(a), x);
    SortedUnique(DepthLess(ById(a)), x, y);
  }

  /** Ordering what is ordered changes nothing. */
  lemma CanonicalIsIdempotent(branches: seq<Branch>, out: seq<Branch>, again: seq<Branch>)
    requires DistinctIds(branches) && IsCanonical(branches, out) && IsCanonical(out, again)
    ensures again == out
  {
    DistinctPermuted(branches, out);
    DepthLessTotal(ById(out), out);
    SortedUnique(DepthLess(ById(out)), out, again);
  }
}
