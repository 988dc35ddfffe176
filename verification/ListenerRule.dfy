/**
 * The rule of internal/rules/listener/no_matching_listener.go: which visibility assessments become the
 * conclusion that nothing listens. The address the target's hostname spells, if any, is a parameter.
 */
module ListenerRule {
  import opened Text
  import opened Model
  import opened Sorting
  import opened ListenerAbsence
  import opened Evaluating
  import EvaluatorRun

  // ---------------------------------------------------------------- destinations

  /** addressFamily: everything that is not an IPv6 address counts as IPv4. */
  function FamilyOf(a: Address): string { if a.V6? then "IPV6" else "IPV4" }

  predicate Unspecified(a: Address) { a == V4(0) || a == V6(0, "") }

  predicate Loopback(a: Address) { a == V4(0x7F00_0001) || a == V6(1, "") }

  predicate BindingCovers(binding: string, listener: Address, destination: Address)
  {
    if binding == "EXACT" then listener == destination
    else if binding == "WILDCARD" then Unspecified(listener)
    else if binding == "LOOPBACK" then Loopback(destination)
    else false
  }

  /** A socket endpoint the client tried: TCP, on the target's port. */
  predicate IsTargetEndpoint(r: EvidenceRun, x: Entity)
  {
    x.kind == "SOCKET_ENDPOINT" && x.endpoint.Some? && x.endpoint.value.transport == "TCP" &&
    x.endpoint.value.port == r.target.effectivePort
  }

  /** Some evidence names the address as one the target is reached at. */
  ghost predicate IsDestination(r: EvidenceRun, host: Option<Address>, family: string, a: Address)
  {
    && FamilyOf(a) == family
    && (host == Some(a) || exists x :: x in r.entities && IsTargetEndpoint(r, x) && x.endpoint.value.address == a)
  }

  method AppendUnique(addresses: seq<Address>, a: Address) returns (r: seq<Address>)
    requires NoRepeats(addresses)
    ensures NoRepeats(r) && forall x :: x in r <==> x in addresses || x == a
  {
    for i := 0 to |addresses|
      invariant forall k :: 0 <= k < i ==> addresses[k] != a
    {
      if addresses[i] == a {
        return addresses;
      }
    }
    r := addresses + [a];
  }

  /** targetDestinations: exactly the named addresses of the family, each once. */
  method TargetDestinations(r: EvidenceRun, host: Option<Address>, family: string) returns (found: seq<Address>)
    ensures NoRepeats(found) && forall a :: a in found <==> IsDestination(r, host, family, a)
  {
    found := [];
    for i := 0 to |r.entities|
      invariant NoRepeats(found)
      invariant forall a :: a in found <==>
                  FamilyOf(a) == family &&
                  exists x :: x in r.entities[..i] && IsTargetEndpoint(r, x) && x.endpoint.value.address == a
    {
      var x := r.entities[i];
      assert r.entities[..i + 1] == r.entities[..i] + [x];
      ghost var before := found;
      if IsTargetEndpoint(r, x) && FamilyOf(x.endpoint.value.address) == family {
        found := AppendUnique(found, x.endpoint.value.address);
      }
      DestinationsGrow(r, family, r.entities[..i], x, before, found);
    }
    assert r.entities[..|r.entities|] == r.entities;
    if host.Some? && FamilyOf(host.value) == family {
      found := AppendUnique(found, host.value);
    }
  }

  lemma DestinationsGrow(
    r: EvidenceRun, family: string, xs: seq<Entity>, x: Entity, before: seq<Address>, after: seq<Address>)
    requires forall a :: a in before <==>
               FamilyOf(a) == family && exists y :: y in xs && IsTargetEndpoint(r, y) && y.endpoint.value.address == a
    requires if IsTargetEndpoint(r, x) && FamilyOf(x.endpoint.value.address) == family
             then forall a :: a in after <==> a in before || a == x.endpoint.value.address else after == before
    ensures forall a :: a in after <==>
              FamilyOf(a) == family && exists y :: y in xs + [x] && IsTargetEndpoint(r, y) && y.endpoint.value.address == a
  {
    assert forall y :: y in xs + [x] <==> y in xs || y == x;
  }

  // ---------------------------------------------------------------- scope and compatibility

  /** The family matters to the target: it has a destination there, or no evidence names any. */
  ghost predicate Applies(r: EvidenceRun, host: Option<Address>, family: string)
  {
    || (exists a :: IsDestination(r, host, family, a))
    || (host.None? && forall x :: x in r.entities ==> !IsTargetEndpoint(r, x))
  }

  /** scopeAppliesToTarget */
  method ScopeAppliesToTarget(r: EvidenceRun, host: Option<Address>, family: string) returns (applies: bool)
    ensures applies <==> Applies(r, host, family)
  {
    var destinations := TargetDestinations(r, host, family);
    if |destinations| > 0 {
      assert destinations[0] in destinations;
      return true;
    }
    assert forall a :: !IsDestination(r, host, family, a);
    if host.Some? {
      assert FamilyOf(host.value) == family ==> IsDestination(r, host, family, host.value);
      return FamilyOf(host.value) == family;
    }
    for i := 0 to |r.entities|
      invariant forall k :: 0 <= k < i ==> !IsTargetEndpoint(r, r.entities[k])
    {
      if IsTargetEndpoint(r, r.entities[i]) {
        return false;
      }
    }
    applies := true;
  }

  /** The last entity with an ID. */
  function EntitiesById(entities: seq<Entity>): map<EntityID, Entity>
  {
    if entities == [] then map[]
    else EntitiesById(entities[..|entities| - 1])[entities[|entities| - 1].entityID := entities[|entities| - 1]]
  }

  /** The observation shows a listener on the scope's first port that takes connections to the destination. */
  predicate Covers(r: EvidenceRun, s: ListenerScope, o: Observation, destination: Address)
  {
    var m := EntitiesById(r.entities);
    && o.kind == ENTRY && o.payload.entry.Some?
    && var p := o.payload.entry.value;
       && p.namespaceEntityID == s.namespaceEntityID && p.protocol == s.protocol && p.port == s.portStart
       && p.listenerEntityID in m && m[p.listenerEntityID].listener.Some?
       && var endpoint := m[p.listenerEntityID].listener.value;
          && endpoint.transport == "TCP" && endpoint.port == s.portStart && FamilyOf(endpoint.address) == s.family
          && BindingCovers(p.binding, endpoint.address, destination)
  }

  ghost predicate Compatible(r: EvidenceRun, host: Option<Address>, s: ListenerScope)
  {
    exists o, a :: o in r.observations && IsDestination(r, host, s.family, a) && Covers(r, s, o, a)
  }

  method IndexEntities(entities: seq<Entity>) returns (m: map<EntityID, Entity>)
    ensures m == EntitiesById(entities)
  {
    m := map[];
    for i := 0 to |entities|
      invariant m == EntitiesById(entities[..i])
    {
      assert entities[..i + 1][..i] == entities[..i];
      m := m[entities[i].entityID := entities[i]];
    }
    assert entities[..|entities|] == entities;
  }

  /** hasCompatibleListener */
  method HasCompatibleListener(r: EvidenceRun, host: Option<Address>, s: ListenerScope) returns (found: bool)
    ensures found <==> Compatible(r, host, s)
  {
    var destinations := TargetDestinations(r, host, s.family);
    if |destinations| == 0 {
      return false;
    }
    var entities := IndexEntities(r.entities);
    for i := 0 to |r.observations|
      invariant forall k, a :: 0 <= k < i && a in destinations ==> !Covers(r, s, r.observations[k], a)
    {
      var o := r.observations[i];
      if o.kind != ENTRY || o.payload.entry.None? {
        continue;
      }
      var p := o.payload.entry.value;
      if p.namespaceEntityID != s.namespaceEntityID || p.protocol != s.protocol || p.port != s.portStart ||
         p.listenerEntityID !in entities || entities[p.listenerEntityID].listener.None?
      {
        continue;
      }
      var endpoint := entities[p.listenerEntityID].listener.value;
      if endpoint.transport != "TCP" || endpoint.port != s.portStart || FamilyOf(endpoint.address) != s.family {
        continue;
      }
      for j := 0 to |destinations|
        invariant forall k :: 0 <= k < j ==> !BindingCovers(p.binding, endpoint.address, destinations[k])
      {
        if BindingCovers(p.binding, endpoint.address, destinations[j]) {
          assert Covers(r, s, o, destinations[j]) && destinations[j] in destinations && o in r.observations;
          return true;
        }
      }
    }
    found := false;
  }

  // ---------------------------------------------------------------- where the assessment is cited

  predicate Cites(x: EvidenceRef, id: VisibilityID) { x.kind == VisibilityEvidence && x.visibilityID == Some(id) }

  /** One position for each citation: an edge that cites the assessment twice brings its place up twice. */
  function RefPositions(refs: seq<EvidenceRef>, id: VisibilityID, p: PathPosition): seq<PathPosition>
  {
    if refs == [] then [] else RefPositions(refs[..|refs| - 1], id, p) + if Cites(refs[|refs| - 1], id) then [p] else []
  }

  function EdgePositions(edges: seq<PathEdge>, edgeID: string, id: VisibilityID, p: PathPosition): seq<PathPosition>
  {
    if edges == [] then []
    else
      var last := edges[|edges| - 1];
      EdgePositions(edges[..|edges| - 1], edgeID, id, p) + if last.edgeID == edgeID then RefPositions(last.refs, id, p) else []
  }

  function BranchPositions(edges: seq<PathEdge>, b: Branch, n: nat, id: VisibilityID): seq<PathPosition>
    requires n <= |b.edges|
  {
    if n == 0 then []
    else BranchPositions(edges, b, n - 1, id) + EdgePositions(edges, b.edges[n - 1], id, PathPosition(b.branchID, n - 1))
  }

  function AllPositions(edges: seq<PathEdge>, branches: seq<Branch>, id: VisibilityID): seq<PathPosition>
  {
    if branches == [] then []
    else
      var last := branches[|branches| - 1];
      AllPositions(edges, branches[..|branches| - 1], id) + BranchPositions(edges, last, |last.edges|, id)
  }

  function BranchIdsOf(ps: seq<PathPosition>): (ids: seq<BranchID>)
    ensures |ids| == |ps|
  {
    seq(|ps|, i requires 0 <= i < |ps| => ps[i].branchID)
  }

  /** An edge with this ID cites the assessment. */
  ghost predicate EdgeCites(edges: seq<PathEdge>, edgeID: string, id: VisibilityID)
  {
    exists e, x :: e in edges && e.edgeID == edgeID && x in e.refs && Cites(x, id)
  }

  lemma {:induction false} RefPositionsExact(refs: seq<EvidenceRef>, id: VisibilityID, p: PathPosition, q: PathPosition)
    ensures q in RefPositions(refs, id, p) <==> q == p && exists x :: x in refs && Cites(x, id)
  {
    if refs != [] {
      RefPositionsExact(refs[..|refs| - 1], id, p, q);
      assert forall x :: x in refs <==> x in refs[..|refs| - 1] || x == refs[|refs| - 1];
    }
  }

  lemma {:induction false} EdgePositionsExact(
    edges: seq<PathEdge>, edgeID: string, id: VisibilityID, p: PathPosition, q: PathPosition)
    ensures q in EdgePositions(edges, edgeID, id, p) <==> q == p && EdgeCites(edges, edgeID, id)
  {
    if edges != [] {
      var last := edges[|edges| - 1];
      EdgePositionsExact(edges[..|edges| - 1], edgeID, id, p, q);
      RefPositionsExact(last.refs, id, p, q);
      assert forall e :: e in edges <==> e in edges[..|edges| - 1] || e == last;
    }
  }

  lemma {:induction false} BranchPositionsExact(edges: seq<PathEdge>, b: Branch, n: nat, id: VisibilityID, q: PathPosition)
    requires n <= |b.edges|
    ensures q in BranchPositions(edges, b, n, id) <==>
              q.branchID == b.branchID && q.position < n && EdgeCites(edges, b.edges[q.position], id)
  {
    if n > 0 {
      BranchPositionsExact(edges, b, n - 1, id, q);
      EdgePositionsExact(edges, b.edges[n - 1], id, PathPosition(b.branchID, n - 1), q);
    }
  }

  /** The positions are those of the edges that cite the assessment, on the branches they lie on. */
  lemma {:induction false} PositionsExact(edges: seq<PathEdge>, branches: seq<Branch>, id: VisibilityID, q: PathPosition)
    ensures q in AllPositions(edges, branches, id) <==>
              exists b :: b in branches && q.branchID == b.branchID && q.position < |b.edges| &&
                          EdgeCites(edges, b.edges[q.position], id)
  {
    if branches != [] {
      var last := branches[|branches| - 1];
      PositionsExact(edges, branches[..|branches| - 1], id, q);
      BranchPositionsExact(edges, last, |last.edges|, id, q);
      assert forall b :: b in branches <==> b in branches[..|branches| - 1] || b == last;
    }
  }

  method CollectEdge(edges: seq<PathEdge>, edgeID: string, id: VisibilityID, p: PathPosition) returns (ps: seq<PathPosition>)
    ensures ps == EdgePositions(edges, edgeID, id, p)
  {
    ps := [];
    for i := 0 to |edges|
      invariant ps == EdgePositions(edges[..i], edgeID, id, p)
    {
      assert edges[..i + 1][..i] == edges[..i];
      if edges[i].edgeID != edgeID {
        continue;
      }
      ghost var before := ps;
      var refs := edges[i].refs;
      for j := 0 to |refs|
        invariant ps == before + RefPositions(refs[..j], id, p)
      {
        assert refs[..j + 1][..j] == refs[..j];
        if Cites(refs[j], id) {
          ps := ps + [p];
        }
      }
      assert refs[..|refs|] == refs;
    }
    assert edges[..|edges|] == edges;
  }

  /** branchesFor */
  method BranchesFor(r: EvidenceRun, id: VisibilityID) returns (branches: seq<BranchID>, positions: seq<PathPosition>)
    ensures positions == AllPositions(r.pathEdges, r.branches, id) && branches == BranchIdsOf(positions)
  {
    positions := [];
    for i := 0 to |r.branches|
      invariant positions == AllPositions(r.pathEdges, r.branches[..i], id)
    {
      var b := r.branches[i];
      assert r.branches[..i + 1][..i] == r.branches[..i];
      ghost var before := positions;
      for k := 0 to |b.edges|
        invariant positions == before + BranchPositions(r.pathEdges, b, k, id)
      {
        var more := CollectEdge(r.pathEdges, b.edges[k], id, PathPosition(b.branchID, k));
        assert before + BranchPositions(r.pathEdges, b, k, id) + more == before + BranchPositions(r.pathEdges, b, k + 1, id);
        positions := positions + more;
      }
    }
    assert r.branches[..|r.branches|] == r.branches;
    branches := BranchIdsOf(positions);
  }

  // ---------------------------------------------------------------- the rule

  /** The rule concludes from the assessment that nothing listens. */
  ghost predicate Concludes(r: EvidenceRun, host: Option<Address>, v: VisibilityAssessment)
  {
    && AbsenceValid(r, v, r.target.effectivePort)
    && (r.requestedScope == "LOCAL_ORIGIN" ==>
          Applies(r, host, v.scope.listener.value.family) && !Compatible(r, host, v.scope.listener.value))
  }

  function ObservationTemplates(ids: seq<ObservationID>): (ts: seq<EvidenceTemplate>)
    ensures |ts| == |ids|
  {
    seq(|ids|, i requires 0 <= i < |ids| => EvidenceTemplate(ObservationEvidence, ids[i], "", "", ""))
  }

  /** One claim resting on the assessment and its basis, one blocker resting on the claim. */
  function CandidateFor(r: EvidenceRun, v: VisibilityAssessment): RuleCandidate
    requires v.scope.listener.Some?
  {
    var s, positions := v.scope.listener.value, AllPositions(r.pathEdges, r.branches, v.visibilityID);
    var parameters := ListenerAbsentParameters(
      s.namespaceEntityID, v.vantageID, s.protocol, s.family, s.binding, r.target.effectivePort);
    RuleCandidate(
      "listener-" + v.visibilityID,
      [ClaimTemplate("absence", NoListener, Inferred, [s.namespaceEntityID], BranchIdsOf(positions),
                     ClaimParameters(NoListener, None, None, Some(parameters)),
                     [EvidenceTemplate(VisibilityEvidence, "", "", v.visibilityID, "")] + ObservationTemplates(v.basis), [], [])],
      [FindingTemplate(Blocker, "NO_MATCHING_LISTENER_VISIBLE", Inferred, BranchIdsOf(positions), positions, ["absence"], [],
                       ["inspect the listener in the matching namespace"], NotSelected)])
  }

  ghost function Conclusions(r: EvidenceRun, host: Option<Address>, vs: seq<VisibilityAssessment>): seq<RuleCandidate>
  {
    if vs == [] then []
    else
      var last := vs[|vs| - 1];
      Conclusions(r, host, vs[..|vs| - 1]) + if Concludes(r, host, last) then [CandidateFor(r, last)] else []
  }

  method ConcludesFrom(r: EvidenceRun, host: Option<Address>, v: VisibilityAssessment) returns (concludes: bool)
    ensures concludes <==> Concludes(r, host, v)
  {
    var localDiagnosis := r.requestedScope == "LOCAL_ORIGIN";
    if v.scope.listener.None? {
      return false;
    }
    var applies := true;
    if localDiagnosis {
      applies := ScopeAppliesToTarget(r, host, v.scope.listener.value.family);
    }
    if !applies {
      return false;
    }
    var valid := ListenerAbsenceEvidenceValid(r, v, r.target.effectivePort);
    if !valid {
      return false;
    }
    if localDiagnosis {
      var compatible := HasCompatibleListener(r, host, v.scope.listener.value);
      return !compatible;
    }
    concludes := true;
  }

  /** Evaluate: one candidate for each assessment the rule concludes from, and no other. */
  method EvaluateRule(r: EvidenceRun, host: Option<Address>) returns (out: seq<RuleCandidate>)
    ensures out == Conclusions(r, host, r.visibility)
  {
    out := [];
    for i := 0 to |r.visibility|
      invariant out == Conclusions(r, host, r.visibility[..i])
    {
      var v := r.visibility[i];
      assert r.visibility[..i + 1][..i] == r.visibility[..i];
      var concludes := ConcludesFrom(r, host, v);
      if !concludes {
        continue;
      }
      var s := v.scope.listener.value;
      var basis := ObservationTemplates(v.basis);
      var branches, positions := BranchesFor(r, v.visibilityID);
      var parameters := ListenerAbsentParameters(
        s.namespaceEntityID, v.vantageID, s.protocol, s.family, s.binding, r.target.effectivePort);
      var c := ClaimTemplate(
        "absence", NoListener, Inferred, [s.namespaceEntityID], branches,
        ClaimParameters(NoListener, None, None, Some(parameters)),
        [EvidenceTemplate(VisibilityEvidence, "", "", v.visibilityID, "")] + basis, [], []);
      var f := FindingTemplate(
        Blocker, "NO_MATCHING_LISTENER_VISIBLE", Inferred, branches, positions, ["absence"], [],
        ["inspect the listener in the matching namespace"], NotSelected);
      out := out + [RuleCandidate("listener-" + v.visibilityID, [c], [f])];
    }
    assert r.visibility[..|r.visibility|] == r.visibility;
  }

  lemma {:induction false} ConclusionsExact(r: EvidenceRun, host: Option<Address>, vs: seq<VisibilityAssessment>, c: RuleCandidate)
    ensures c in Conclusions(r, host, vs) <==> exists v :: v in vs && Concludes(r, host, v) && c == CandidateFor(r, v)
  {
    if vs != [] {
      ConclusionsExact(r, host, vs[..|vs| - 1], c);
      assert forall v :: v in vs <==> v in vs[..|vs| - 1] || v == vs[|vs| - 1];
    }
  }

  /** What the rule returns always passes the evaluator's template checks. */
  lemma ConclusionsPassTemplates(r: EvidenceRun, v: VisibilityAssessment)
    requires v.scope.listener.Some?
    ensures EvaluatorRun.CandidatePassesAll(CandidateFor(r, v))
  {
    var ts := CandidateFor(r, v).claims;
    assert ts[..0] == [] && EvaluatorRun.KeysOf(ts[..0]) == {};
    assert EvaluatorRun.WellKeyedAt(ts, 0);
    assert ts[0] in ts && "absence" in EvaluatorRun.KeysOf(ts);
  }
}
