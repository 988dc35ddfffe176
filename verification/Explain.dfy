/**
 * BuildExplanation of internal/render/explain.go: a breadth-first search from a finding's claims through
 * supporting and contradicting claim references, collecting the evidence the claims rest on.
 */
module Explaining {
  import opened Text
  import opened Model
  import opened Graphs
  import opened Sorting
  import opened Justification
  import opened ClaimValidation
  import opened Canonical

  datatype Resolved = Resolved(
    ref: EvidenceRef,
    observation: Option<Observation>,
    visibility: Option<VisibilityAssessment>,
    assertion: Option<Assertion>,
    contradicting: bool)

  datatype Outcome =
    | FindingMissing
    | ClaimMissing(id: ClaimID)
    | Explained(finding: Finding, claims: seq<Claim>, evidence: seq<Resolved>)

  // ---------------------------------------------------------------- the claim graph by ID

  function ByClaimId(claims: seq<Claim>): map<ClaimID, Claim>
  {
    if claims == [] then map[]
    else
      var last := claims[|claims| - 1];
      ByClaimId(claims[..|claims| - 1])[last.claimID := last]
  }

  lemma {:induction false} ByClaimIdIsIndex(claims: seq<Claim>)
    ensures ByClaimId(claims).Keys == ClaimIndex(claims).Keys
    ensures forall id :: id in ByClaimId(claims) ==>
              ByClaimId(claims)[id] == claims[ClaimIndex(claims)[id]] && ByClaimId(claims)[id].claimID == id
  {
    if claims != [] {
      ByClaimIdIsIndex(claims[..|claims| - 1]);
    }
  }

  /** A reference the search follows instead of listing it. */
  predicate IsLink(x: EvidenceRef) { x.kind == ClaimEvidence && x.claimID.Some? }

  function Links(refs: seq<EvidenceRef>): seq<ClaimID>
  {
    if refs == [] then []
    else
      var last := refs[|refs| - 1];
      Links(refs[..|refs| - 1]) + if IsLink(last) then [last.claimID.value] else []
  }

  lemma {:induction false} LinksExact(refs: seq<EvidenceRef>, id: ClaimID)
    ensures id in Links(refs) <==> exists x :: x in refs && IsLink(x) && x.claimID.value == id
  {
    if refs != [] {
      LinksExact(refs[..|refs| - 1], id);
      assert forall x :: x in refs <==> x in refs[..|refs| - 1] || x == refs[|refs| - 1];
    }
  }

  function AllRefs(c: Claim): seq<EvidenceRef> { c.supporting + c.contradicting }

  /** Which claims each claim refers to, supporting and contradicting alike. */
  function LinkGraph(claimsById: map<ClaimID, Claim>): map<ClaimID, seq<ClaimID>>
  {
    map id | id in claimsById :: Links(claimsById[id].supporting) + Links(claimsById[id].contradicting)
  }

  ghost predicate ReachedFrom(g: map<ClaimID, seq<ClaimID>>, roots: seq<ClaimID>, id: ClaimID)
  {
    exists root :: root in roots && Reaches(g, root, id)
  }

  // ---------------------------------------------------------------- evidence keys

  function KindName(k: EvidenceKind): string
  {
    match k
    case ObservationEvidence => "OBSERVATION"
    case ClaimEvidence => "CLAIM"
    case VisibilityEvidence => "VISIBILITY"
    case AssertionEvidence => "ASSERTION"
    case OtherEvidence(name) => name
  }

  function Key(x: EvidenceRef): string { KindName(x.kind) + ":" + RefId(x) }

  function KeyOrder(s: string): nat
  {
    if "OBSERVATION:" <= s then 0 else if "VISIBILITY:" <= s then 1 else if "ASSERTION:" <= s then 2 else 9
  }

  /** evidenceKeyLess */
  predicate KeyLess(a: string, b: string)
  {
    if KeyOrder(a) != KeyOrder(b) then KeyOrder(a) < KeyOrder(b) else Less(a, b)
  }

  lemma KeysAreTotal(s: seq<string>)
    ensures Total(KeyLess, s)
  {
    forall x
      ensures !KeyLess(x, x)
    {
      LessIrreflexive(x);
    }
    forall x, y, z | KeyLess(x, y) && KeyLess(y, z)
      ensures KeyLess(x, z)
    {
      if KeyOrder(x) == KeyOrder(y) == KeyOrder(z) {
        LessTransitive(x, y, z);
      }
    }
    forall x, y | x != y
      ensures KeyLess(x, y) || KeyLess(y, x)
    {
      LessTrichotomy(x, y);
    }
  }

  lemma KindsApart(a: EvidenceRef, b: EvidenceRef)
    requires !a.kind.OtherEvidence? && !b.kind.OtherEvidence? && Key(a) == Key(b)
    ensures a.kind == b.kind && RefId(a) == RefId(b)
  {
    var s, t := KindName(a.kind), KindName(b.kind);
    assert Key(a)[0] == s[0] && Key(b)[0] == t[0];
    assert a.kind == b.kind;
    assert Key(a)[|s| + 1..] == RefId(a) && Key(b)[|t| + 1..] == RefId(b);
  }

  /** On well-formed references the key tells them apart. */
  lemma KeyInjective(a: EvidenceRef, b: EvidenceRef)
    requires WellReferred(a) && WellReferred(b) && Key(a) == Key(b)
    ensures a == b
  {
    KindsApart(a, b);
  }

  // ---------------------------------------------------------------- collecting evidence

  function LastObservation(all: seq<Observation>, id: string): Option<Observation>
  {
    if all == [] then None
    else if all[|all| - 1].observationID == id then Some(all[|all| - 1])
    else LastObservation(all[..|all| - 1], id)
  }

  function LastVisibility(all: seq<VisibilityAssessment>, id: string): Option<VisibilityAssessment>
  {
    if all == [] then None
    else if all[|all| - 1].visibilityID == id then Some(all[|all| - 1])
    else LastVisibility(all[..|all| - 1], id)
  }

  function LastAssertion(all: seq<Assertion>, id: string): Option<Assertion>
  {
    if all == [] then None
    else if all[|all| - 1].assertionID == id then Some(all[|all| - 1])
    else LastAssertion(all[..|all| - 1], id)
  }

  lemma {:induction false} ObservationIsFound(all: seq<Observation>, id: string)
    ensures LastObservation(all, id).Some? <==> ContainsObservation(all, id)
    ensures LastObservation(all, id).Some? ==>
              LastObservation(all, id).value in all && LastObservation(all, id).value.observationID == id
  {
    if all != [] {
      ObservationIsFound(all[..|all| - 1], id);
      assert forall x :: x in all <==> x in all[..|all| - 1] || x == all[|all| - 1];
    }
  }

  lemma {:induction false} VisibilityIsFound(all: seq<VisibilityAssessment>, id: string)
    ensures LastVisibility(all, id).Some? <==> ContainsVisibility(all, id)
    ensures LastVisibility(all, id).Some? ==>
              LastVisibility(all, id).value in all && LastVisibility(all, id).value.visibilityID == id
  {
    if all != [] {
      VisibilityIsFound(all[..|all| - 1], id);
      assert forall x :: x in all <==> x in all[..|all| - 1] || x == all[|all| - 1];
    }
  }

  lemma {:induction false} AssertionIsFound(all: seq<Assertion>, id: string)
    ensures LastAssertion(all, id).Some? <==> ContainsAssertion(all, id)
    ensures LastAssertion(all, id).Some? ==>
              LastAssertion(all, id).value in all && LastAssertion(all, id).value.assertionID == id
  {
    if all != [] {
      AssertionIsFound(all[..|all| - 1], id);
      assert forall x :: x in all <==> x in all[..|all| - 1] || x == all[|all| - 1];
    }
  }

  /** The entry for a reference: the record it names, looked up by its own kind alone. */
  function Entry(e: EvidenceRun, x: EvidenceRef, contradicting: bool): Resolved
  {
    Resolved(
      x,
      if x.kind == ObservationEvidence && x.observationID.Some?
      then LastObservation(e.observations, x.observationID.value) else None,
      if x.kind == VisibilityEvidence && x.visibilityID.Some?
      then LastVisibility(e.visibility, x.visibilityID.value) else None,
      if x.kind == AssertionEvidence && x.assertionID.Some?
      then LastAssertion(e.assertions, x.assertionID.value) else None,
      contradicting)
  }

  method ResolveEntry(e: EvidenceRun, x: EvidenceRef, contradicting: bool) returns (r: Resolved)
    ensures r == Entry(e, x, contradicting)
  {
    r := Resolved(x, None, None, None, contradicting);
    match x.kind {
      case ObservationEvidence =>
        for i := 0 to |e.observations|
          invariant r == Resolved(x, if x.observationID.Some? then LastObservation(e.observations[..i], x.observationID.value)
                                     else None, None, None, contradicting)
        {
          assert e.observations[..i + 1][..i] == e.observations[..i];
          if x.observationID.Some? && e.observations[i].observationID == x.observationID.value {
            r := r.(observation := Some(e.observations[i]));
          }
        }
        assert e.observations[..|e.observations|] == e.observations;
      case VisibilityEvidence =>
        for i := 0 to |e.visibility|
          invariant r == Resolved(x, None, if x.visibilityID.Some? then LastVisibility(e.visibility[..i], x.visibilityID.value)
                                           else None, None, contradicting)
        {
          assert e.visibility[..i + 1][..i] == e.visibility[..i];
          if x.visibilityID.Some? && e.visibility[i].visibilityID == x.visibilityID.value {
            r := r.(visibility := Some(e.visibility[i]));
          }
        }
        assert e.visibility[..|e.visibility|] == e.visibility;
      case AssertionEvidence =>
        for i := 0 to |e.assertions|
          invariant r == Resolved(x, None, None, if x.assertionID.Some? then LastAssertion(e.assertions[..i], x.assertionID.value)
                                                 else None, contradicting)
        {
          assert e.assertions[..i + 1][..i] == e.assertions[..i];
          if x.assertionID.Some? && e.assertions[i].assertionID == x.assertionID.value {
            r := r.(assertion := Some(e.assertions[i]));
          }
        }
        assert e.assertions[..|e.assertions|] == e.assertions;
      case _ =>
    }
  }

  /** The first reference under each key stays. */
  function AddEvidence(e: EvidenceRun, refs: seq<EvidenceRef>, contradicting: bool, m: map<string, Resolved>): map<string, Resolved>
  {
    if refs == [] then m
    else
      var last, before := refs[|refs| - 1], AddEvidence(e, refs[..|refs| - 1], contradicting, m);
      if IsLink(last) || Key(last) in before then before else before[Key(last) := Entry(e, last, contradicting)]
  }

  /** The links of `refs` to claims not visited yet. */
  function Unvisited(refs: seq<EvidenceRef>, visited: set<ClaimID>): seq<ClaimID>
  {
    if refs == [] then []
    else
      var last := refs[|refs| - 1];
      Unvisited(refs[..|refs| - 1], visited) +
      if IsLink(last) && last.claimID.value !in visited then [last.claimID.value] else []
  }

  lemma {:induction false} UnvisitedExact(refs: seq<EvidenceRef>, visited: set<ClaimID>, id: ClaimID)
    ensures id in Unvisited(refs, visited) <==> id in Links(refs) && id !in visited
  {
    if refs != [] {
      UnvisitedExact(refs[..|refs| - 1], visited, id);
    }
  }

  method ScanRefs(
    e: EvidenceRun, refs: seq<EvidenceRef>, contradicting: bool, visited: set<ClaimID>, queue: seq<ClaimID>,
    evidence: map<string, Resolved>)
    returns (queue': seq<ClaimID>, evidence': map<string, Resolved>)
    ensures queue' == queue + Unvisited(refs, visited)
    ensures evidence' == AddEvidence(e, refs, contradicting, evidence)
  {
    queue', evidence' := queue, evidence;
    for i := 0 to |refs|
      invariant queue' == queue + Unvisited(refs[..i], visited)
      invariant evidence' == AddEvidence(e, refs[..i], contradicting, evidence)
    {
      var x := refs[i];
      assert refs[..i + 1][..i] == refs[..i];
      if IsLink(x) {
        if x.claimID.value !in visited {
          queue' := queue' + [x.claimID.value];
        }
      } else if Key(x) !in evidence' {
        var entry := ResolveEntry(e, x, contradicting);
        evidence' := evidence'[Key(x) := entry];
      }
    }
    assert refs[..|refs|] == refs;
  }

  // ---------------------------------------------------------------- what the collected evidence is

  /** A reference of one of the claims that is no link. */
  ghost predicate Listed(claims: seq<Claim>, x: EvidenceRef)
  {
    !IsLink(x) && exists c :: c in claims && x in AllRefs(c)
  }

  /** The entry is that of a listed reference, found in a list of its own polarity. */
  ghost predicate Stems(e: EvidenceRun, claims: seq<Claim>, r: Resolved)
  {
    && !IsLink(r.ref) && r == Entry(e, r.ref, r.contradicting)
    && exists c :: c in claims && r.ref in (if r.contradicting then c.contradicting else c.supporting)
  }

  /** One entry for each key of a listed reference, and none else. */
  ghost predicate Collected(e: EvidenceRun, claims: seq<Claim>, m: map<string, Resolved>)
  {
    && (forall x :: Listed(claims, x) ==> Key(x) in m)
    && (forall k :: k in m ==> Key(m[k].ref) == k && Stems(e, claims, m[k]))
  }

  /** `m'` keeps the entries of `m` and adds one for each new key of `refs`. */
  ghost predicate Adds(
    e: EvidenceRun, refs: seq<EvidenceRef>, contradicting: bool, m: map<string, Resolved>, m': map<string, Resolved>)
  {
    && (forall k :: k in m ==> k in m' && m'[k] == m[k])
    && (forall x :: x in refs && !IsLink(x) ==> Key(x) in m')
    && (forall k :: k in m' && k !in m ==> Added(e, refs, contradicting, k, m'[k]))
  }

  ghost predicate Added(e: EvidenceRun, refs: seq<EvidenceRef>, contradicting: bool, k: string, r: Resolved)
  {
    r.ref in refs && !IsLink(r.ref) && Key(r.ref) == k && r == Entry(e, r.ref, contradicting)
  }

  lemma {:induction false} AddEvidenceKeys(e: EvidenceRun, refs: seq<EvidenceRef>, contradicting: bool, m: map<string, Resolved>)
    ensures Adds(e, refs, contradicting, m, AddEvidence(e, refs, contradicting, m))
  {
    if refs != [] {
      var n := |refs| - 1;
      AddEvidenceKeys(e, refs[..n], contradicting, m);
      assert forall x :: x in refs <==> x in refs[..n] || x == refs[n];
      var before, after := AddEvidence(e, refs[..n], contradicting, m), AddEvidence(e, refs, contradicting, m);
      forall k | k in after && k !in m
        ensures Added(e, refs, contradicting, k, after[k])
      {
        assert k in before ==> Added(e, refs[..n], contradicting, k, before[k]);
      }
    }
  }

  function AddClaim(e: EvidenceRun, c: Claim, m: map<string, Resolved>): map<string, Resolved>
  {
    AddEvidence(e, c.contradicting, true, AddEvidence(e, c.supporting, false, m))
  }

  lemma CollectedGrows(e: EvidenceRun, claims: seq<Claim>, c: Claim, m: map<string, Resolved>)
    requires Collected(e, claims, m)
    ensures Collected(e, claims + [c], AddClaim(e, c, m))
  {
    var m1 := AddEvidence(e, c.supporting, false, m);
    var m2 := AddClaim(e, c, m);
    AddEvidenceKeys(e, c.supporting, false, m);
    AddEvidenceKeys(e, c.contradicting, true, m1);
    assert forall d :: d in claims + [c] <==> d in claims || d == c;
    forall x | Listed(claims + [c], x)
      ensures Key(x) in m2
    {
      var d :| d in claims + [c] && x in AllRefs(d);
      if d in claims {
        assert Listed(claims, x);
      }
    }
    forall k | k in m2
      ensures Key(m2[k].ref) == k && Stems(e, claims + [c], m2[k])
    {
      assert c in claims + [c];
      if k in m {
        assert Stems(e, claims, m[k]);
      }
    }
  }

  // ---------------------------------------------------------------- the search

  function ClaimIdsOf(claims: seq<Claim>): set<ClaimID> { set c | c in claims :: c.claimID }

  /** Between rounds: the listed claims are the visited ones, each once, and what they lead to is listed or queued. */
  ghost predicate Searching(
    claimsById: map<ClaimID, Claim>, roots: seq<ClaimID>, queue: seq<ClaimID>, visited: set<ClaimID>, claims: seq<Claim>)
  {
    var g := LinkGraph(claimsById);
    && (forall c :: c in claims ==> c.claimID in claimsById && claimsById[c.claimID] == c)
    && NoRepeats(claims)
    && (forall id :: id in visited <==> id in ClaimIdsOf(claims))
    && (forall id :: id in visited || id in queue ==> ReachedFrom(g, roots, id))
    && (forall id :: id in roots ==> id in visited || id in queue)
    && (forall a, b :: a in visited && Edge(g, a, b) ==> b in visited || b in queue)
  }

  lemma SearchStarts(claimsById: map<ClaimID, Claim>, roots: seq<ClaimID>)
    ensures Searching(claimsById, roots, roots, {}, [])
  {
    forall id | id in roots
      ensures ReachedFrom(LinkGraph(claimsById), roots, id)
    {
      ReachesSelf(LinkGraph(claimsById), id);
    }
  }

  lemma SkipVisited(
    claimsById: map<ClaimID, Claim>, roots: seq<ClaimID>, queue: seq<ClaimID>, visited: set<ClaimID>, claims: seq<Claim>)
    requires Searching(claimsById, roots, queue, visited, claims) && queue != [] && queue[0] in visited
    ensures Searching(claimsById, roots, queue[1..], visited, claims)
  {
    assert queue == [queue[0]] + queue[1..];
  }

  lemma VisitClaim(
    claimsById: map<ClaimID, Claim>, roots: seq<ClaimID>, queue: seq<ClaimID>, visited: set<ClaimID>, claims: seq<Claim>,
    more: seq<ClaimID>)
    requires forall id :: id in claimsById ==> claimsById[id].claimID == id
    requires Searching(claimsById, roots, queue, visited, claims)
    requires queue != [] && queue[0] !in visited && queue[0] in claimsById
    requires forall id :: id in more <==> id in LinkGraph(claimsById)[queue[0]] && id !in visited + {queue[0]}
    ensures Searching(claimsById, roots, queue[1..] + more, visited + {queue[0]}, claims + [claimsById[queue[0]]])
  {
    var g, id, c := LinkGraph(claimsById), queue[0], claimsById[queue[0]];
    assert queue == [id] + queue[1..];
    ClaimIdsOfNext(claims, c);
    assert c !in claims;
    LinksAreReached(g, roots, id, more);
  }

  lemma ClaimIdsOfNext(claims: seq<Claim>, c: Claim)
    ensures ClaimIdsOf(claims + [c]) == ClaimIdsOf(claims) + {c.claimID}
  {
    assert forall d :: d in claims + [c] <==> d in claims || d == c;
  }

  lemma LinksAreReached(g: map<ClaimID, seq<ClaimID>>, roots: seq<ClaimID>, id: ClaimID, more: seq<ClaimID>)
    requires ReachedFrom(g, roots, id) && id in g && forall b :: b in more ==> b in g[id]
    ensures forall b :: b in more ==> ReachedFrom(g, roots, b)
  {
    forall b | b in more
      ensures ReachedFrom(g, roots, b)
    {
      var root :| root in roots && Reaches(g, root, id);
      EdgeReaches(g, id, b);
      ReachesTransitive(g, root, id, b);
    }
  }

  /** When the queue is empty the visited claims are the reachable ones. */
  lemma SearchEnds(claimsById: map<ClaimID, Claim>, roots: seq<ClaimID>, visited: set<ClaimID>, claims: seq<Claim>)
    requires Searching(claimsById, roots, [], visited, claims)
    ensures forall id :: id in ClaimIdsOf(claims) <==> ReachedFrom(LinkGraph(claimsById), roots, id)
  {
    var g := LinkGraph(claimsById);
    forall id | ReachedFrom(g, roots, id)
      ensures id in visited
    {
      var root :| root in roots && Reaches(g, root, id);
      ClosedReaches(g, visited, root, id);
    }
  }

  method IndexById(claims: seq<Claim>) returns (m: map<ClaimID, Claim>)
    ensures m == ByClaimId(claims)
  {
    m := map[];
    for i := 0 to |claims|
      invariant m == ByClaimId(claims[..i])
    {
      assert claims[..i + 1][..i] == claims[..i];
      m := m[claims[i].claimID := claims[i]];
    }
    assert claims[..|claims|] == claims;
  }

  /** One round on a claim that exists and was not visited: list it, queue its links, collect its evidence. */
  method Visit(
    e: EvidenceRun, claimsById: map<ClaimID, Claim>, ghost roots: seq<ClaimID>, queue: seq<ClaimID>, visited: set<ClaimID>,
    claims: seq<Claim>, evidence: map<string, Resolved>)
    returns (queue': seq<ClaimID>, visited': set<ClaimID>, claims': seq<Claim>, evidence': map<string, Resolved>)
    requires forall id :: id in claimsById ==> claimsById[id].claimID == id
    requires Searching(claimsById, roots, queue, visited, claims) && Collected(e, claims, evidence)
    requires queue != [] && queue[0] !in visited && queue[0] in claimsById
    ensures Searching(claimsById, roots, queue', visited', claims') && Collected(e, claims', evidence')
    ensures visited' == visited + {queue[0]}
  {
    var id := queue[0];
    var c := claimsById[id];
    visited' := visited + {id};
    claims' := claims + [c];
    queue', evidence' := ScanRefs(e, c.supporting, false, visited', queue[1..], evidence);
    queue', evidence' := ScanRefs(e, c.contradicting, true, visited', queue', evidence');
    Visited(e, claimsById, roots, queue, visited, claims, evidence, queue');
  }

  lemma Visited(
    e: EvidenceRun, claimsById: map<ClaimID, Claim>, roots: seq<ClaimID>, queue: seq<ClaimID>, visited: set<ClaimID>,
    claims: seq<Claim>, evidence: map<string, Resolved>, queue': seq<ClaimID>)
    requires forall id :: id in claimsById ==> claimsById[id].claimID == id
    requires Searching(claimsById, roots, queue, visited, claims) && Collected(e, claims, evidence)
    requires queue != [] && queue[0] !in visited && queue[0] in claimsById
    requires var c, now := claimsById[queue[0]], visited + {queue[0]};
             queue' == queue[1..] + Unvisited(c.supporting, now) + Unvisited(c.contradicting, now)
    ensures Searching(claimsById, roots, queue', visited + {queue[0]}, claims + [claimsById[queue[0]]])
    ensures Collected(e, claims + [claimsById[queue[0]]], AddClaim(e, claimsById[queue[0]], evidence))
  {
    var c, now := claimsById[queue[0]], visited + {queue[0]};
    var more := Unvisited(c.supporting, now) + Unvisited(c.contradicting, now);
    assert queue' == queue[1..] + more;
    MoreIsUnvisited(claimsById, queue[0], now);
    VisitClaim(claimsById, roots, queue, visited, claims, more);
    CollectedGrows(e, claims, c, evidence);
  }

  /** The search loop: it ends with the reachable claims, or at one that does not exist. */
  method Search(e: EvidenceRun, claimsById: map<ClaimID, Claim>, roots: seq<ClaimID>)
    returns (missing: Option<ClaimID>, claims: seq<Claim>, evidence: map<string, Resolved>)
    requires forall id :: id in claimsById ==> claimsById[id].claimID == id
    ensures missing.Some? ==> missing.value !in claimsById && ReachedFrom(LinkGraph(claimsById), roots, missing.value)
    ensures missing.None? ==> Reached(claimsById, roots, claims) && Collected(e, claims, evidence)
  {
    var queue := roots;
    var visited: set<ClaimID> := {};
    claims, evidence := [], map[];
    SearchStarts(claimsById, roots);
    while |queue| > 0
      invariant Searching(claimsById, roots, queue, visited, claims)
      invariant Collected(e, claims, evidence)
      decreases claimsById.Keys - visited, |queue|
    {
      var id := queue[0];
      if id in visited {
        SkipVisited(claimsById, roots, queue, visited, claims);
        queue := queue[1..];
        continue;
      }
      if id !in claimsById {
        return Some(id), claims, evidence;
      }
      queue, visited, claims, evidence := Visit(e, claimsById, roots, queue, visited, claims, evidence);
    }
    SearchEnds(claimsById, roots, visited, claims);
    missing := None;
  }

  lemma MoreIsUnvisited(claimsById: map<ClaimID, Claim>, id: ClaimID, visited: set<ClaimID>)
    requires id in claimsById
    ensures var c := claimsById[id];
            forall b :: b in Unvisited(c.supporting, visited) + Unvisited(c.contradicting, visited) <==>
                          b in LinkGraph(claimsById)[id] && b !in visited
  {
    var c := claimsById[id];
    forall b
      ensures b in Unvisited(c.supporting, visited) + Unvisited(c.contradicting, visited) <==>
              b in LinkGraph(claimsById)[id] && b !in visited
    {
      UnvisitedExact(c.supporting, visited, b);
      UnvisitedExact(c.contradicting, visited, b);
    }
  }

  /** The claims reachable from the roots, each exactly once, and no other. */
  ghost predicate Reached(claimsById: map<ClaimID, Claim>, roots: seq<ClaimID>, claims: seq<Claim>)
  {
    && (forall c :: c in claims ==> c.claimID in claimsById && claimsById[c.claimID] == c)
    && NoRepeats(claims)
    && (forall id :: id in ClaimIdsOf(claims) <==> ReachedFrom(LinkGraph(claimsById), roots, id))
  }

  // ---------------------------------------------------------------- the explanation

  /** The entries in key order, one per key. */
  ghost predicate Ordered(m: map<string, Resolved>, out: seq<Resolved>)
  {
    && (forall i, j :: 0 <= i < j < |out| ==> KeyLess(Key(out[i].ref), Key(out[j].ref)))
    && (forall i :: 0 <= i < |out| ==> Key(out[i].ref) in m && m[Key(out[i].ref)] == out[i])
    && (forall k :: k in m ==> m[k] in out)
  }

  /** Go ranges over a map in any order; sorting the keys hides it. */
  method OrderEvidence(m: map<string, Resolved>) returns (out: seq<Resolved>)
    requires forall k :: k in m ==> Key(m[k].ref) == k
    ensures Ordered(m, out)
  {
    var keys := KeysInSomeOrder(m);
    keys := SortKeys(keys);
    out := LookUp(m, keys);
    EntriesAreOrdered(m, keys, out);
  }

  method LookUp(m: map<string, Resolved>, keys: seq<string>) returns (out: seq<Resolved>)
    requires forall k :: k in keys ==> k in m
    ensures |out| == |keys| && forall j :: 0 <= j < |keys| ==> out[j] == m[keys[j]]
  {
    out := [];
    for i := 0 to |keys|
      invariant |out| == i
      invariant forall j :: 0 <= j < i ==> out[j] == m[keys[j]]
    {
      assert keys[i] in keys;
      out := out + [m[keys[i]]];
    }
  }

  method SortKeys(keys: seq<string>) returns (r: seq<string>)
    requires NoRepeats(keys)
    ensures Ascending(r) && forall k :: k in r <==> k in keys
  {
    r := SortSlice(KeyLess, keys);
    KeysAscend(keys, r);
  }

  ghost predicate Ascending(keys: seq<string>)
  {
    forall i, j :: 0 <= i < j < |keys| ==> KeyLess(keys[i], keys[j])
  }

  lemma KeysAscend(unsorted: seq<string>, keys: seq<string>)
    requires NoRepeats(unsorted) && multiset(keys) == multiset(unsorted)
    requires Total(KeyLess, unsorted) ==> keys == StableSort(KeyLess, unsorted)
    ensures Ascending(keys)
  {
    KeysAreTotal(unsorted);
    StableSortIsSortedTotal(KeyLess, unsorted);
    NoRepeatsPermuted(unsorted, keys);
    forall i, j | 0 <= i < j < |keys|
      ensures KeyLess(keys[i], keys[j])
    {
      assert keys[i] != keys[j] && !KeyLess(keys[j], keys[i]);
    }
  }

  lemma EntriesAreOrdered(m: map<string, Resolved>, keys: seq<string>, out: seq<Resolved>)
    requires (forall k :: k in m ==> Key(m[k].ref) == k) && (forall k :: k in keys <==> k in m)
    requires |out| == |keys| && forall j :: 0 <= j < |keys| ==> keys[j] in m && out[j] == m[keys[j]]
    requires Ascending(keys)
    ensures Ordered(m, out)
  {
    forall k | k in m
      ensures m[k] in out
    {
      var j :| 0 <= j < |keys| && keys[j] == k;
      assert out[j] == m[k];
    }
    forall i | 0 <= i < |out|
      ensures Key(out[i].ref) == keys[i] && keys[i] in m
    {
    }
  }

  method KeysInSomeOrder(m: map<string, Resolved>) returns (keys: seq<string>)
    ensures NoRepeats(keys) && forall k :: k in keys <==> k in m
  {
    keys := [];
    var left := m.Keys;
    while left != {}
      invariant NoRepeats(keys) && left <= m.Keys
      invariant forall k :: k in keys <==> k in m && k !in left
      decreases left
    {
      var k :| k in left;
      keys, left := keys + [k], left - {k};
    }
  }

  method FindFinding(findings: seq<Finding>, id: FindingID) returns (f: Option<Finding>)
    ensures f.None? <==> forall x :: x in findings ==> x.findingID != id
    ensures f.Some? ==> f.value in findings && f.value.findingID == id
  {
    for i := 0 to |findings|
      invariant forall x :: x in findings[..i] ==> x.findingID != id
    {
      if findings[i].findingID == id {
        return Some(findings[i]);
      }
      assert findings[..i + 1] == findings[..i] + [findings[i]];
    }
    assert findings[..|findings|] == findings;
    f := None;
  }

  /** What a successful explanation lists. */
  ghost predicate Explains(r: EvaluatedRun, f: Finding, claims: seq<Claim>, evidence: seq<Resolved>)
  {
    && Reached(ByClaimId(r.claims), f.claimIDs, claims)
    && (forall i :: 0 <= i < |evidence| ==> Stems(r.evidence, claims, evidence[i]))
    && (forall x :: Listed(claims, x) ==> exists i :: 0 <= i < |evidence| && Key(evidence[i].ref) == Key(x))
    && (forall i, j :: 0 <= i < j < |evidence| ==> KeyLess(Key(evidence[i].ref), Key(evidence[j].ref)))
  }

  /**
   * BuildExplanation: it fails exactly when the finding, or a claim reachable from it, does not exist, and
   * otherwise lists the reachable claims once each and the evidence they cite in key order, one entry per key.
   */
  method BuildExplanation(r: EvaluatedRun, id: FindingID) returns (out: Outcome)
    ensures out.FindingMissing? <==> forall f :: f in r.findings ==> f.findingID != id
    ensures out.ClaimMissing? ==>
              && out.id !in ByClaimId(r.claims)
              && exists f :: f in r.findings && f.findingID == id &&
                             ReachedFrom(LinkGraph(ByClaimId(r.claims)), f.claimIDs, out.id)
    ensures out.Explained? ==>
              && out.finding in r.findings && out.finding.findingID == id
              && Explains(r, out.finding, out.claims, out.evidence)
    ensures SoundRun(r, ClaimIndex(r.claims)) && !out.FindingMissing? ==> out.Explained?
  {
    var f := FindFinding(r.findings, id);
    if f.None? {
      return FindingMissing;
    }
    var claimsById := IndexById(r.claims);
    ByClaimIdIsIndex(r.claims);
    var missing, claims, evidence := Search(r.evidence, claimsById, f.value.claimIDs);
    if missing.Some? {
      if SoundRun(r, ClaimIndex(r.claims)) {
        AcceptedReachesOnlyClaims(r, f.value, missing.value);
      }
      return ClaimMissing(missing.value);
    }
    var entries := OrderEvidence(evidence);
    EntriesExplain(r, f.value, claims, evidence, entries);
    out := Explained(f.value, claims, entries);
  }

  lemma EntriesExplain(
    r: EvaluatedRun, f: Finding, claims: seq<Claim>, evidence: map<string, Resolved>, entries: seq<Resolved>)
    requires Reached(ByClaimId(r.claims), f.claimIDs, claims) && Collected(r.evidence, claims, evidence)
    requires Ordered(evidence, entries)
    ensures Explains(r, f, claims, entries)
  {
    forall x | Listed(claims, x)
      ensures exists i :: 0 <= i < |entries| && Key(entries[i].ref) == Key(x)
    {
      assert evidence[Key(x)] in entries;
      var i :| 0 <= i < |entries| && entries[i] == evidence[Key(x)];
      assert Key(entries[i].ref) == Key(x);
    }
  }

  // ---------------------------------------------------------------- accepted runs

  lemma SoundLinkResolves(r: EvaluatedRun, ids: map<ClaimID, nat>, i: nat, x: EvidenceRef)
    requires Indexes(ids, r.claims) && SoundClaims(r, ids) && i < |r.claims| && x in AllRefs(r.claims[i]) && IsLink(x)
    ensures x.claimID.value in ids
  {
    assert SoundClaim(r, ids, i);
    assert x in r.claims[i].supporting || x in r.claims[i].contradicting;
    assert SoundRef(r, ids, i, x);
  }

  lemma SoundLinks(r: EvaluatedRun, a: ClaimID, b: ClaimID)
    requires SoundClaims(r, ClaimIndex(r.claims)) && Edge(LinkGraph(ByClaimId(r.claims)), a, b)
    ensures b in ByClaimId(r.claims)
  {
    ByClaimIdIsIndex(r.claims);
    var c := ByClaimId(r.claims)[a];
    var x := LinkTo(c, b);
    SoundLinkResolves(r, ClaimIndex(r.claims), ClaimIndex(r.claims)[a], x);
  }

  lemma LinkTo(c: Claim, b: ClaimID) returns (x: EvidenceRef)
    requires b in Links(c.supporting) + Links(c.contradicting)
    ensures x in AllRefs(c) && IsLink(x) && x.claimID.value == b
  {
    if b in Links(c.supporting) {
      LinksExact(c.supporting, b);
      x :| x in c.supporting && IsLink(x) && x.claimID.value == b;
    } else {
      LinksExact(c.contradicting, b);
      x :| x in c.contradicting && IsLink(x) && x.claimID.value == b;
    }
  }

  /** In an accepted run every claim reachable from a finding exists, so its explanation does not fail. */
  lemma AcceptedReachesOnlyClaims(r: EvaluatedRun, f: Finding, id: ClaimID)
    requires SoundRun(r, ClaimIndex(r.claims)) && f in r.findings
    requires ReachedFrom(LinkGraph(ByClaimId(r.claims)), f.claimIDs, id)
    ensures id in ByClaimId(r.claims)
  {
    var ids, m := ClaimIndex(r.claims), ByClaimId(r.claims);
    var g := LinkGraph(m);
    ByClaimIdIsIndex(r.claims);
    var root :| root in f.claimIDs && Reaches(g, root, id);
    var k :| 0 <= k < |r.findings| && r.findings[k] == f;
    assert SoundFinding(r, ids, r.findings[k]);
    assert SoundFindingClaim(r, ids, f, root);
    forall a, b | a in m.Keys && Edge(g, a, b)
      ensures b in m.Keys
    {
      SoundLinks(r, a, b);
    }
    ClosedReaches(g, m.Keys, root, id);
  }

  lemma AcceptedRefsAreWellReferred(r: EvaluatedRun, c: Claim, x: EvidenceRef)
    requires SoundRun(r, ClaimIndex(r.claims)) && c.claimID in ByClaimId(r.claims) && ByClaimId(r.claims)[c.claimID] == c
    requires x in AllRefs(c)
    ensures WellReferred(x) && (!IsLink(x) ==> NamesRecord(r.evidence, x))
  {
    var ids := ClaimIndex(r.claims);
    ByClaimIdIsIndex(r.claims);
    assert SoundClaim(r, ids, ids[c.claimID]);
    assert SoundRef(r, ids, ids[c.claimID], x);
  }

  /** In an accepted run the entries are exactly the distinct non-claim references, each with its record. */
  lemma AcceptedEvidenceIsExact(r: EvaluatedRun, f: Finding, claims: seq<Claim>, evidence: seq<Resolved>, x: EvidenceRef)
    requires SoundRun(r, ClaimIndex(r.claims)) && Explains(r, f, claims, evidence)
    ensures Listed(claims, x) <==> exists i :: 0 <= i < |evidence| && evidence[i].ref == x
    ensures forall i, j :: 0 <= i < j < |evidence| ==> evidence[i].ref != evidence[j].ref
    ensures forall i :: 0 <= i < |evidence| && evidence[i].ref == x ==> HasRecord(evidence[i])
  {
    forall i, j | 0 <= i < j < |evidence|
      ensures evidence[i].ref != evidence[j].ref
    {
      LessIrreflexive(Key(evidence[i].ref));
    }
    forall i | 0 <= i < |evidence| && evidence[i].ref == x
      ensures Listed(claims, x) && HasRecord(evidence[i])
    {
      EntryIsListed(r, f, claims, evidence[i]);
    }
    if Listed(claims, x) {
      var c :| c in claims && x in AllRefs(c);
      AcceptedRefsAreWellReferred(r, c, x);
      var i :| 0 <= i < |evidence| && Key(evidence[i].ref) == Key(x);
      EntryIsListed(r, f, claims, evidence[i]);
      KeyInjective(evidence[i].ref, x);
    }
  }

  ghost predicate HasRecord(x: Resolved)
  {
    match x.ref.kind
    case ObservationEvidence => x.observation.Some? && Some(x.observation.value.observationID) == x.ref.observationID
    case VisibilityEvidence => x.visibility.Some? && Some(x.visibility.value.visibilityID) == x.ref.visibilityID
    case AssertionEvidence => x.assertion.Some? && Some(x.assertion.value.assertionID) == x.ref.assertionID
    case _ => false
  }

  lemma EntryIsListed(r: EvaluatedRun, f: Finding, claims: seq<Claim>, x: Resolved)
    requires SoundRun(r, ClaimIndex(r.claims)) && Reached(ByClaimId(r.claims), f.claimIDs, claims)
    requires Stems(r.evidence, claims, x)
    ensures Listed(claims, x.ref) && WellReferred(x.ref) && HasRecord(x)
  {
    var c :| c in claims && x.ref in (if x.contradicting then c.contradicting else c.supporting);
    assert x.ref in AllRefs(c);
    AcceptedRefsAreWellReferred(r, c, x.ref);
    match x.ref.kind {
      case ObservationEvidence => ObservationIsFound(r.evidence.observations, x.ref.observationID.value);
      case VisibilityEvidence => VisibilityIsFound(r.evidence.visibility, x.ref.visibilityID.value);
      case AssertionEvidence => AssertionIsFound(r.evidence.assertions, x.ref.assertionID.value);
      case _ =>
    }
  }
}
