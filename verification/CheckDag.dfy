/** validateCheckDAG of internal/model/validate_base_remaining.go: dependency cycles among check definitions. */
module CheckDag {
  import opened Model
  import opened Graphs

  /** The dependency map: the last definition of a check ID wins, and an unknown ID has no dependencies. */
  function Dependencies(defs: seq<CheckDefinition>): (g: map<CheckID, seq<CheckID>>)
    ensures forall id :: id in g <==> exists i :: 0 <= i < |defs| && defs[i].checkID == id
  {
    if defs == [] then map[]
    else
      var last := defs[|defs| - 1];
      assert defs == defs[..|defs| - 1] + [last];
      Dependencies(defs[..|defs| - 1])[last.checkID := last.dependencies]
  }

  const MISSING := Issue(ReferenceMissingCode, "/check_definitions", "dependency check missing")

  const CYCLE := Issue(InvalidValueCode, "/check_definitions", "dependency cycle")

  /** One issue for every occurrence of an unknown dependency. */
  function MissingIn(deps: seq<CheckID>, known: set<CheckID>): seq<Issue>
  {
    if deps == [] then []
    else MissingIn(deps[..|deps| - 1], known) + if deps[|deps| - 1] in known then [] else [MISSING]
  }

  function MissingIssues(defs: seq<CheckDefinition>, known: set<CheckID>): seq<Issue>
  {
    if defs == [] then []
    else MissingIssues(defs[..|defs| - 1], known) + MissingIn(defs[|defs| - 1].dependencies, known)
  }

  /** One issue for every definition whose check can reach a cycle, in order. */
  ghost function CycleIssues(g: map<CheckID, seq<CheckID>>, defs: seq<CheckDefinition>): seq<Issue>
  {
    if defs == [] then []
    else CycleIssues(g, defs[..|defs| - 1]) + if ReachesCycle(g, defs[|defs| - 1].checkID) then [CYCLE] else []
  }

  /** All check IDs the search can meet. */
  ghost predicate Covers(all: set<CheckID>, g: map<CheckID, seq<CheckID>>)
  {
    g.Keys <= all && forall a, b :: Edge(g, a, b) ==> b in all
  }

  /** Black checks reach no cycle; grey ones are on the current path or were left behind and reach one. */
  ghost predicate Sorted(g: map<CheckID, seq<CheckID>>, grey: set<CheckID>, black: set<CheckID>, path: seq<CheckID>)
  {
    && grey !! black
    && (forall x :: x in path ==> x in grey)
    && (forall x :: x in black ==> !ReachesCycle(g, x))
    && (forall x :: x in grey ==> x in path || ReachesCycle(g, x))
  }

  /**
   * The recursive closure `visit` over its shared state: `grey` are the IDs in state 1, `black` those in
   * state 2. A failed visit returns at once and leaves grey IDs behind; each of them reaches a cycle.
   */
  method Visit(
    g: map<CheckID, seq<CheckID>>, id: CheckID, grey: set<CheckID>, black: set<CheckID>,
    ghost path: seq<CheckID>, ghost all: set<CheckID>)
    returns (ok: bool, grey': set<CheckID>, black': set<CheckID>)
    requires Covers(all, g) && id in all
    requires Sorted(g, grey, black, path)
    requires path != [] ==> IsPath(g, path) && Edge(g, path[|path| - 1], id)
    ensures ok <==> !ReachesCycle(g, id)
    ensures ok ==> id in black' && grey' == grey
    ensures Sorted(g, grey', black', path) && grey <= grey' && black <= black'
    decreases all - grey - black
  {
    grey', black' := grey, black;
    if id in grey {
      GreyMet(g, id, grey, black, path);
      return false, grey, black;
    }
    if id in black {
      return true, grey, black;
    }
    grey' := grey + {id};
    ghost var path' := path + [id];
    if path != [] {
      ExtendPath(g, path, id);
    }
    assert path'[|path|] == id;
    var deps := if id in g then g[id] else [];
    for i := 0 to |deps|
      invariant grey' == grey + {id} && black <= black'
      invariant Sorted(g, grey', black', path')
      invariant forall k :: 0 <= k < i ==> !ReachesCycle(g, deps[k])
    {
      assert Edge(g, id, deps[i]);
      assert id in all - grey - black;
      ok, grey', black' := Visit(g, deps[i], grey', black', path', all);
      if !ok {
        EdgeReachesCycle(g, id, deps[i]);
        return false, grey', black';
      }
    }
    SuccessorsReachNoCycle(g, id);
    black' := black' + {id};
    grey' := grey;
    ok := true;
  }

  lemma GreyMet(g: map<CheckID, seq<CheckID>>, id: CheckID, grey: set<CheckID>, black: set<CheckID>, path: seq<CheckID>)
    requires Sorted(g, grey, black, path) && id in grey
    requires path != [] ==> IsPath(g, path) && Edge(g, path[|path| - 1], id)
    ensures ReachesCycle(g, id)
  {
    if id in path {
      var i :| 0 <= i < |path| && path[i] == id;
      BackEdgeCycle(g, path, i);
      ReachesSelf(g, id);
    }
  }

  /**
   * validateCheckDAG appends one issue per unknown dependency, and then exactly one per definition whose
   * check can reach a dependency cycle.
   */
  method ValidateCheckDag(issues: seq<Issue>, defs: seq<CheckDefinition>) returns (out: seq<Issue>)
    ensures var g := Dependencies(defs); out == issues + MissingIssues(defs, g.Keys) + CycleIssues(g, defs)
  {
    var g := IndexDependencies(defs);
    var missing := ReportMissing(defs, g.Keys);
    var cycles := ReportCycles(g, defs);
    out := issues + missing + cycles;
  }

  method ReportCycles(g: map<CheckID, seq<CheckID>>, defs: seq<CheckDefinition>) returns (out: seq<Issue>)
    requires forall i :: 0 <= i < |defs| ==> defs[i].checkID in g
    ensures out == CycleIssues(g, defs)
  {
    out := [];
    ghost var all := g.Keys + (set a, b | a in g && b in g[a] :: b);
    var grey, black: set<CheckID> := {}, {};
    for i := 0 to |defs|
      invariant Sorted(g, grey, black, [])
      invariant out == CycleIssues(g, defs[..i])
    {
      assert defs[..i + 1][..i] == defs[..i];
      var ok: bool;
      ok, grey, black := Visit(g, defs[i].checkID, grey, black, [], all);
      if !ok {
        out := out + [CYCLE];
      }
    }
    assert defs[..|defs|] == defs;
  }

  method IndexDependencies(defs: seq<CheckDefinition>) returns (g: map<CheckID, seq<CheckID>>)
    ensures g == Dependencies(defs)
  {
    g := map[];
    for i := 0 to |defs|
      invariant g == Dependencies(defs[..i])
    {
      assert defs[..i + 1][..i] == defs[..i];
      g := g[defs[i].checkID := defs[i].dependencies];
    }
    assert defs[..|defs|] == defs;
  }

  method ReportMissing(defs: seq<CheckDefinition>, known: set<CheckID>) returns (out: seq<Issue>)
    ensures out == MissingIssues(defs, known)
  {
    out := [];
    for i := 0 to |defs|
      invariant out == MissingIssues(defs[..i], known)
    {
      var deps := defs[i].dependencies;
      ghost var before := out;
      for j := 0 to |deps|
        invariant out == before + MissingIn(deps[..j], known)
      {
        assert deps[..j + 1][..j] == deps[..j];
        if deps[j] !in known {
          out := out + [MISSING];
        }
      }
      assert deps[..|deps|] == deps;
      assert defs[..i + 1][..i] == defs[..i];
    }
    assert defs[..|defs|] == defs;
  }

  lemma {:induction false} CycleIssuesEmpty(g: map<CheckID, seq<CheckID>>, defs: seq<CheckDefinition>)
    ensures CycleIssues(g, defs) == [] <==> forall i :: 0 <= i < |defs| ==> !ReachesCycle(g, defs[i].checkID)
  {
    if defs != [] {
      CycleIssuesEmpty(g, defs[..|defs| - 1]);
    }
  }

  /** No cycle issue is raised exactly when the dependency graph has no cycle. */
  lemma NoCycleIssueMeansAcyclic(defs: seq<CheckDefinition>)
    ensures var g := Dependencies(defs); CycleIssues(g, defs) == [] <==> !HasCycle(g)
  {
    var g := Dependencies(defs);
    CycleIssuesEmpty(g, defs);
    forall c | OnCycle(g, c)
      ensures c in g && ReachesCycle(g, c)
    {
      if c !in g {
        NoSuccessorNoCycle(g, c);
      }
      ReachesSelf(g, c);
    }
  }
}
