/** Directed graphs as adjacency maps: paths, reachability and cycles. */
module Graphs {

  /** A node outside the map has no successors. */
  ghost predicate Edge<N(!new)>(g: map<N, seq<N>>, a: N, b: N)
  {
    a in g && b in g[a]
  }

  ghost predicate Step<N(!new)>(g: map<N, seq<N>>, p: seq<N>, i: int)
    requires 0 <= i < |p| - 1
  {
    Edge(g, p[i], p[i + 1])
  }

  ghost predicate IsPath<N(!new)>(g: map<N, seq<N>>, p: seq<N>)
  {
    |p| > 0 && forall i :: 0 <= i < |p| - 1 ==> Step(g, p, i)
  }

  lemma ExtendPath<N(!new)>(g: map<N, seq<N>>, p: seq<N>, b: N)
    requires IsPath(g, p) && Edge(g, p[|p| - 1], b)
    ensures IsPath(g, p + [b])
  {
    var q := p + [b];
    forall i | 0 <= i < |q| - 1
      ensures Step(g, q, i)
    {
      assert i < |p| - 1 ==> Step(g, p, i);
    }
  }

  lemma PathPrefix<N(!new)>(g: map<N, seq<N>>, p: seq<N>, n: nat)
    requires IsPath(g, p) && 0 < n <= |p|
    ensures IsPath(g, p[..n])
  {
    forall i | 0 <= i < n - 1
      ensures Step(g, p[..n], i)
    {
      assert Step(g, p, i);
    }
  }

  ghost predicate PathFromTo<N(!new)>(g: map<N, seq<N>>, p: seq<N>, a: N, b: N)
  {
    IsPath(g, p) && p[0] == a && p[|p| - 1] == b
  }

  /** Reflexive and transitive. */
  ghost predicate Reaches<N(!new)>(g: map<N, seq<N>>, a: N, b: N)
  {
    exists p: seq<N> :: PathFromTo(g, p, a, b)
  }

  /** A closed walk of at least one edge goes through `a`. */
  ghost predicate OnCycle<N(!new)>(g: map<N, seq<N>>, a: N)
  {
    exists p: seq<N> :: |p| >= 2 && PathFromTo(g, p, a, a)
  }

  ghost predicate HasCycle<N(!new)>(g: map<N, seq<N>>)
  {
    exists a :: OnCycle(g, a)
  }

  ghost predicate ReachesCycle<N(!new)>(g: map<N, seq<N>>, a: N)
  {
    exists c :: Reaches(g, a, c) && OnCycle(g, c)
  }

  lemma ReachesSelf<N(!new)>(g: map<N, seq<N>>, a: N)
    ensures Reaches(g, a, a)
  {
    assert PathFromTo(g, [a], a, a);
  }

  lemma PathConcat<N(!new)>(g: map<N, seq<N>>, p: seq<N>, q: seq<N>, a: N, b: N, c: N)
    requires PathFromTo(g, p, a, b) && PathFromTo(g, q, b, c)
    ensures PathFromTo(g, p + q[1..], a, c)
  {
    var r := p + q[1..];
    forall i | 0 <= i < |r| - 1
      ensures Step(g, r, i)
    {
      if i < |p| - 1 {
        assert Step(g, p, i);
      } else {
        var k := i - (|p| - 1);
        assert Step(g, q, k);
        assert r[i] == q[k] && r[i + 1] == q[k + 1];
      }
    }
  }

  lemma ReachesTransitive<N(!new)>(g: map<N, seq<N>>, a: N, b: N, c: N)
    requires Reaches(g, a, b) && Reaches(g, b, c)
    ensures Reaches(g, a, c)
  {
    var p :| PathFromTo(g, p, a, b);
    var q :| PathFromTo(g, q, b, c);
    PathConcat(g, p, q, a, b, c);
  }

  lemma EdgeReaches<N(!new)>(g: map<N, seq<N>>, a: N, b: N)
    requires Edge(g, a, b)
    ensures Reaches(g, a, b)
  {
    ExtendPath(g, [a], b);
    assert PathFromTo(g, [a, b], a, b);
  }

  /** What lies one edge before a node that reaches a cycle reaches it too. */
  lemma EdgeReachesCycle<N(!new)>(g: map<N, seq<N>>, a: N, b: N)
    requires Edge(g, a, b) && ReachesCycle(g, b)
    ensures ReachesCycle(g, a)
  {
    var c :| Reaches(g, b, c) && OnCycle(g, c);
    EdgeReaches(g, a, b);
    ReachesTransitive(g, a, b, c);
  }

  /** A node none of whose successors reaches a cycle does not reach one. */
  lemma SuccessorsReachNoCycle<N(!new)>(g: map<N, seq<N>>, a: N)
    requires forall b :: Edge(g, a, b) ==> !ReachesCycle(g, b)
    ensures !ReachesCycle(g, a)
  {
    forall c | Reaches(g, a, c)
      ensures !OnCycle(g, c)
    {
      var p :| PathFromTo(g, p, a, c);
      if |p| > 1 {
        TailReaches(g, p, a, c);
        assert !ReachesCycle(g, p[1]);
      } else {
        forall q: seq<N> | PathFromTo(g, q, c, c)
          ensures |q| < 2
        {
          if |q| >= 2 {
            TailReaches(g, q, c, c);
            assert false;
          }
        }
      }
    }
  }

  lemma TailReaches<N(!new)>(g: map<N, seq<N>>, p: seq<N>, a: N, c: N)
    requires PathFromTo(g, p, a, c) && |p| > 1
    ensures Edge(g, a, p[1]) && Reaches(g, p[1], c)
  {
    assert Step(g, p, 0);
    SubPath(g, p, 1, |p| - 1);
  }

  lemma SubPath<N(!new)>(g: map<N, seq<N>>, p: seq<N>, i: nat, j: nat)
    requires IsPath(g, p) && i <= j < |p|
    ensures PathFromTo(g, p[i..j + 1], p[i], p[j])
  {
    var q := p[i..j + 1];
    forall k | 0 <= k < |q| - 1
      ensures Step(g, q, k)
    {
      assert Step(g, p, i + k);
    }
  }

  /** An edge from the end of a path back to one of its nodes closes a cycle. */
  lemma BackEdgeCycle<N(!new)>(g: map<N, seq<N>>, p: seq<N>, i: nat)
    requires IsPath(g, p) && i < |p| && Edge(g, p[|p| - 1], p[i])
    ensures OnCycle(g, p[i])
  {
    SubPath(g, p, i, |p| - 1);
    var q := p[i..|p|];
    var r := q + [p[i]];
    ExtendPath(g, q, p[i]);
    assert PathFromTo(g, r, p[i], p[i]);
  }

  /** What a set closed under edges reaches stays in the set. */
  lemma {:induction false} ClosedPath<N(!new)>(g: map<N, seq<N>>, s: set<N>, p: seq<N>)
    requires forall a, b :: a in s && Edge(g, a, b) ==> b in s
    requires IsPath(g, p) && p[0] in s
    ensures p[|p| - 1] in s
  {
    if |p| > 1 {
      assert Step(g, p, |p| - 2);
      PathPrefix(g, p, |p| - 1);
      ClosedPath(g, s, p[..|p| - 1]);
    }
  }

  lemma ClosedReaches<N(!new)>(g: map<N, seq<N>>, s: set<N>, a: N, b: N)
    requires forall a, b :: a in s && Edge(g, a, b) ==> b in s
    requires a in s && Reaches(g, a, b)
    ensures b in s
  {
    var p :| PathFromTo(g, p, a, b);
    ClosedPath(g, s, p);
  }

  lemma LastEdge<N(!new)>(g: map<N, seq<N>>, a: N, c: N) returns (x: N)
    requires Reaches(g, a, c) && a != c
    ensures Reaches(g, a, x) && Edge(g, x, c)
  {
    var p :| PathFromTo(g, p, a, c);
    x := p[|p| - 2];
    assert Step(g, p, |p| - 2);
    SubPath(g, p, 0, |p| - 2);
  }

  lemma NoSuccessorNoCycle<N(!new)>(g: map<N, seq<N>>, a: N)
    requires a !in g
    ensures !OnCycle(g, a)
  {
    forall p: seq<N> | PathFromTo(g, p, a, a)
      ensures |p| < 2
    {
      assert |p| >= 2 ==> Step(g, p, 0);
    }
  }

  /** `rank` strictly decreases along every edge out of its domain, which is closed under edges. */
  ghost predicate Ranked<N(!new)>(g: map<N, seq<N>>, rank: map<N, int>)
  {
    forall a, b :: a in rank && Edge(g, a, b) ==> b in rank && rank[b] < rank[a]
  }

  lemma {:induction false} RankedPath<N(!new)>(g: map<N, seq<N>>, rank: map<N, int>, p: seq<N>)
    requires Ranked(g, rank) && IsPath(g, p) && p[0] in rank
    ensures p[|p| - 1] in rank && rank[p[|p| - 1]] <= rank[p[0]] - (|p| - 1)
  {
    if |p| > 1 {
      var q := p[1..];
      assert Step(g, p, 0);
      SubPath(g, p, 1, |p| - 1);
      assert p[1..|p|] == q;
      RankedPath(g, rank, q);
    }
  }

  /** No cycle goes through a ranked node, and none is reachable from it. */
  lemma RankedReachesNoCycle<N(!new)>(g: map<N, seq<N>>, rank: map<N, int>, a: N)
    requires Ranked(g, rank) && a in rank
    ensures !ReachesCycle(g, a) && !OnCycle(g, a)
  {
    forall c | Reaches(g, a, c)
      ensures !OnCycle(g, c)
    {
      var p :| PathFromTo(g, p, a, c);
      RankedPath(g, rank, p);
      forall q: seq<N> | PathFromTo(g, q, c, c)
        ensures |q| < 2
      {
        RankedPath(g, rank, q);
      }
    }
    ReachesSelf(g, a);
  }

  lemma RankedHasNoCycle<N(!new)>(g: map<N, seq<N>>, rank: map<N, int>)
    requires Ranked(g, rank) && g.Keys <= rank.Keys
    ensures !HasCycle(g)
  {
    forall a
      ensures !OnCycle(g, a)
    {
      if a in g {
        RankedReachesNoCycle(g, rank, a);
      } else {
        NoSuccessorNoCycle(g, a);
      }
    }
  }

  /** Pigeonhole: a walk that can always go on inside a finite set comes back to where it was. */
  lemma {:induction false} EndlessWalkCycles<N(!new)>(g: map<N, seq<N>>, next: map<N, N>, p: seq<N>, unused: set<N>)
    requires forall a :: a in next ==> next[a] in next && Edge(g, a, next[a])
    requires IsPath(g, p) && forall x :: x in p ==> x in next
    requires forall x :: x in next && x !in unused ==> x in p
    ensures exists c :: c in next && OnCycle(g, c)
    decreases |unused|
  {
    var last := p[|p| - 1];
    assert last in p;
    var b := next[last];
    if b in p {
      var i :| 0 <= i < |p| && p[i] == b;
      BackEdgeCycle(g, p, i);
    } else {
      var q := p + [b];
      ExtendPath(g, p, b);
      EndlessWalkCycles(g, next, q, unused - {b});
    }
  }

  lemma EndlessWalkFrom<N(!new)>(g: map<N, seq<N>>, next: map<N, N>, start: N)
    requires forall a :: a in next ==> next[a] in next && Edge(g, a, next[a])
    requires start in next
    ensures HasCycle(g)
  {
    EndlessWalkCycles(g, next, [start], next.Keys);
  }
}
