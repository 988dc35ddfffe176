/**
 * The evaluator of internal/rules/evaluate.go: the candidates the rules return are checked and put in
 * order, and their templates become claims and findings with generated IDs.
 */
module Evaluating {
  import opened Text
  import opened Model
  import opened Ids
  import opened Sorting

  datatype EvidenceTemplate = EvidenceTemplate(
    kind: EvidenceKind, observationID: string, claimKey: string, visibilityID: string, assertionID: string)

  datatype ClaimTemplate = ClaimTemplate(
    localKey: string,
    statement: Statement,
    level: Level,
    subjects: seq<EntityID>,
    branchIDs: seq<BranchID>,
    parameters: ClaimParameters,
    supporting: seq<EvidenceTemplate>,
    contradicting: seq<EvidenceTemplate>,
    missing: seq<MissingEvidence>)

  datatype FindingTemplate = FindingTemplate(
    kind: FindingKind,
    title: string,
    level: Level,
    branchIDs: seq<BranchID>,
    positions: seq<PathPosition>,
    claimKeys: seq<string>,
    limitations: seq<Limitation>,
    experiments: seq<string>,
    selection: Selection)

  datatype RuleCandidate = RuleCandidate(key: string, claims: seq<ClaimTemplate>, findings: seq<FindingTemplate>)

  /** A registered rule and what it returns on the run under evaluation. */
  datatype RuleOutput = RuleOutput(ruleID: RuleID, candidates: seq<RuleCandidate>)

  datatype Compiled = Compiled(ruleID: RuleID, candidate: RuleCandidate)

  // ---------------------------------------------------------------- candidate keys

  predicate ValidCandidateKey(s: string)
  {
    s != "" && forall c :: c in s ==> '!' <= c <= '~' && c != '/' && c != '\\'
  }

  const INVALID_KEY := Issue(DuplicateCandidateKeyCode, "/evaluation", "candidate key is invalid or sensitive")
  const DUPLICATE_KEY := Issue(DuplicateCandidateKeyCode, "/evaluation", "duplicate candidate key")

  function SeenKeys(cs: seq<RuleCandidate>): set<string> { set c | c in cs && ValidCandidateKey(c.key) :: c.key }

  lemma SeenKeysGrow(cs: seq<RuleCandidate>, c: RuleCandidate)
    ensures SeenKeys(cs + [c]) == SeenKeys(cs) + if ValidCandidateKey(c.key) then {c.key} else {}
  {
    assert forall x :: x in cs + [c] <==> x in cs || x == c;
  }

  function KeyIssues(cs: seq<RuleCandidate>): seq<Issue>
  {
    if cs == [] then []
    else
      var last := cs[|cs| - 1];
      KeyIssues(cs[..|cs| - 1]) +
      if !ValidCandidateKey(last.key) then [INVALID_KEY]
      else if last.key in SeenKeys(cs[..|cs| - 1]) then [DUPLICATE_KEY] else []
  }

  /** The first candidate with each valid key. */
  function Accepted(ruleID: RuleID, cs: seq<RuleCandidate>): seq<Compiled>
  {
    if cs == [] then []
    else
      var last := cs[|cs| - 1];
      Accepted(ruleID, cs[..|cs| - 1]) +
      if ValidCandidateKey(last.key) && last.key !in SeenKeys(cs[..|cs| - 1]) then [Compiled(ruleID, last)] else []
  }

  function AllKeyIssues(outputs: seq<RuleOutput>): seq<Issue>
  {
    if outputs == [] then []
    else AllKeyIssues(outputs[..|outputs| - 1]) + KeyIssues(outputs[|outputs| - 1].candidates)
  }

  function AllAccepted(outputs: seq<RuleOutput>): seq<Compiled>
  {
    if outputs == [] then []
    else
      var last := outputs[|outputs| - 1];
      AllAccepted(outputs[..|outputs| - 1]) + Accepted(last.ruleID, last.candidates)
  }

  lemma NextCandidate(ruleID: RuleID, raw: seq<RuleCandidate>, i: nat)
    requires i < |raw|
    ensures SeenKeys(raw[..i + 1]) == SeenKeys(raw[..i]) + if ValidCandidateKey(raw[i].key) then {raw[i].key} else {}
    ensures var fresh' := ValidCandidateKey(raw[i].key) && raw[i].key !in SeenKeys(raw[..i]);
            Accepted(ruleID, raw[..i + 1]) == Accepted(ruleID, raw[..i]) + if fresh' then [Compiled(ruleID, raw[i])] else []
    ensures KeyIssues(raw[..i + 1]) == KeyIssues(raw[..i]) +
              if !ValidCandidateKey(raw[i].key) then [INVALID_KEY]
              else if raw[i].key in SeenKeys(raw[..i]) then [DUPLICATE_KEY] else []
  {
    assert raw[..i + 1][..i] == raw[..i];
    assert raw[..i + 1] == raw[..i] + [raw[i]];
    SeenKeysGrow(raw[..i], raw[i]);
  }

  method CollectFromRule(output: RuleOutput, before: seq<Compiled>, found: seq<Issue>)
    returns (candidates: seq<Compiled>, issues: seq<Issue>)
    ensures candidates == before + Accepted(output.ruleID, output.candidates)
    ensures issues == found + KeyIssues(output.candidates)
  {
    candidates, issues := before, found;
    var seen: set<string> := {};
    var raw := output.candidates;
    for i := 0 to |raw|
      invariant seen == SeenKeys(raw[..i])
      invariant candidates == before + Accepted(output.ruleID, raw[..i])
      invariant issues == found + KeyIssues(raw[..i])
    {
      NextCandidate(output.ruleID, raw, i);
      seen, candidates, issues := TakeCandidate(output.ruleID, raw[i], seen, candidates, issues);
    }
    assert raw[..|raw|] == raw;
  }

  /** One candidate: an invalid key, a repeated key, or one more candidate. */
  method TakeCandidate(ruleID: RuleID, c: RuleCandidate, seen: set<string>, before: seq<Compiled>, found: seq<Issue>)
    returns (seen': set<string>, candidates: seq<Compiled>, issues: seq<Issue>)
    ensures seen' == seen + if ValidCandidateKey(c.key) then {c.key} else {}
    ensures candidates == before + if ValidCandidateKey(c.key) && c.key !in seen then [Compiled(ruleID, c)] else []
    ensures issues == found + if !ValidCandidateKey(c.key) then [INVALID_KEY]
                              else if c.key in seen then [DUPLICATE_KEY] else []
  {
    seen', candidates, issues := seen, before, found;
    if !ValidCandidateKey(c.key) {
      issues := issues + [INVALID_KEY];
      return;
    }
    if c.key in seen {
      issues := issues + [DUPLICATE_KEY];
      return;
    }
    seen' := seen + {c.key};
    candidates := candidates + [Compiled(ruleID, c)];
  }

  method CollectCandidates(outputs: seq<RuleOutput>) returns (candidates: seq<Compiled>, issues: seq<Issue>)
    ensures candidates == AllAccepted(outputs) && issues == AllKeyIssues(outputs)
  {
    candidates, issues := [], [];
    for i := 0 to |outputs|
      invariant candidates == AllAccepted(outputs[..i]) && issues == AllKeyIssues(outputs[..i])
    {
      assert outputs[..i + 1][..i] == outputs[..i];
      candidates, issues := CollectFromRule(outputs[i], candidates, issues);
    }
    assert outputs[..|outputs|] == outputs;
  }

  function CompiledLess(a: Compiled, b: Compiled): bool
  {
    if a.ruleID != b.ruleID then Less(a.ruleID, b.ruleID) else Less(a.candidate.key, b.candidate.key)
  }

  /** The order the templates are compiled in. */
  function Candidates(outputs: seq<RuleOutput>): seq<Compiled> { StableSort(CompiledLess, AllAccepted(outputs)) }

  // ---------------------------------------------------------------- claims

  function ClaimIdAt(n: nat): (id: ClaimID)
    ensures id != ""
  {
    GeneratedId(CLAIM_PREFIX, n + 1)
  }

  function FindingIdAt(n: nat): FindingID { GeneratedId(FINDING_PREFIX, n + 1) }

  const LOCAL_KEY := Issue(InvalidValueCode, "/evaluation", "duplicate or empty local claim key")
  const NOT_EARLIER := Issue(ForwardClaimCode, "/evaluation", "template claim reference is not earlier in candidate")
  const KEY_MISSING := Issue(ReferenceMissingCode, "/evaluation", "finding local claim key missing")

  /** The ID under a local key; the empty ID when there is none. */
  function Local(local: map<string, ClaimID>, key: string): ClaimID { if key in local then local[key] else "" }

  /** evidenceFromTemplate */
  function FromTemplate(x: EvidenceTemplate, local: map<string, ClaimID>): EvidenceRef
  {
    match x.kind
    case ObservationEvidence => EvidenceRef(ObservationEvidence, Some(x.observationID), None, None, None)
    case ClaimEvidence => EvidenceRef(ClaimEvidence, None, Some(Local(local, x.claimKey)), None, None)
    case VisibilityEvidence => EvidenceRef(VisibilityEvidence, None, None, Some(x.visibilityID), None)
    case AssertionEvidence => EvidenceRef(AssertionEvidence, None, None, None, Some(x.assertionID))
    case OtherEvidence(_) => EvidenceRef(OtherEvidence(""), None, None, None, None)
  }

  function FromTemplates(xs: seq<EvidenceTemplate>, local: map<string, ClaimID>): (refs: seq<EvidenceRef>)
    ensures |refs| == |xs|
  {
    seq(|xs|, j requires 0 <= j < |xs| => FromTemplate(xs[j], local))
  }

  predicate Unresolved(x: EvidenceTemplate, local: map<string, ClaimID>)
  {
    x.kind == ClaimEvidence && x.claimKey !in local
  }

  function TemplateIssues(xs: seq<EvidenceTemplate>, local: map<string, ClaimID>): seq<Issue>
  {
    if xs == [] then []
    else TemplateIssues(xs[..|xs| - 1], local) + if Unresolved(xs[|xs| - 1], local) then [NOT_EARLIER] else []
  }

  method CompileRefs(xs: seq<EvidenceTemplate>, local: map<string, ClaimID>, found: seq<Issue>)
    returns (refs: seq<EvidenceRef>, issues: seq<Issue>)
    ensures refs == FromTemplates(xs, local) && issues == found + TemplateIssues(xs, local)
  {
    refs, issues := [], found;
    for j := 0 to |xs|
      invariant refs == FromTemplates(xs, local)[..j]
      invariant issues == found + TemplateIssues(xs[..j], local)
    {
      assert xs[..j + 1][..j] == xs[..j];
      if Unresolved(xs[j], local) {
        issues := issues + [NOT_EARLIER];
      }
      refs := refs + [FromTemplate(xs[j], local)];
    }
    assert xs[..|xs|] == xs;
  }

  /** The claims of one candidate in the making: all claims so far, this candidate's keys, all issues so far. */
  datatype Draft = Draft(claims: seq<Claim>, local: map<string, ClaimID>, issues: seq<Issue>)

  function CompiledClaim(ruleID: RuleID, t: ClaimTemplate, id: ClaimID, local: map<string, ClaimID>): Claim
  {
    Claim(id, t.statement, t.level, t.subjects, t.branchIDs, t.parameters, FromTemplates(t.supporting, local),
          FromTemplates(t.contradicting, local), t.missing, ruleID)
  }

  /** The claim's own key is registered before its references are looked up. */
  function ClaimStep(ruleID: RuleID, t: ClaimTemplate, d: Draft): Draft
  {
    if t.localKey == "" || t.localKey in d.local then d.(issues := d.issues + [LOCAL_KEY])
    else
      var id := ClaimIdAt(|d.claims|);
      var local := d.local[t.localKey := id];
      Draft(d.claims + [CompiledClaim(ruleID, t, id, local)], local,
            d.issues + TemplateIssues(t.supporting, local) + TemplateIssues(t.contradicting, local))
  }

  function CandidateClaims(ruleID: RuleID, ts: seq<ClaimTemplate>, before: seq<Claim>, found: seq<Issue>): Draft
  {
    if ts == [] then Draft(before, map[], found)
    else ClaimStep(ruleID, ts[|ts| - 1], CandidateClaims(ruleID, ts[..|ts| - 1], before, found))
  }

  datatype Compilation = Compilation(claims: seq<Claim>, locals: seq<map<string, ClaimID>>, issues: seq<Issue>)

  function AllClaims(cs: seq<Compiled>): (r: Compilation)
    ensures |r.locals| == |cs|
  {
    if cs == [] then Compilation([], [], [])
    else
      var last := cs[|cs| - 1];
      var r := AllClaims(cs[..|cs| - 1]);
      var d := CandidateClaims(last.ruleID, last.candidate.claims, r.claims, r.issues);
      Compilation(d.claims, r.locals + [d.local], d.issues)
  }

  method CompileCandidate(c: Compiled, before: seq<Claim>, number: nat, found: seq<Issue>)
    returns (d: Draft, next: nat)
    requires number == |before| + 1
    ensures d == CandidateClaims(c.ruleID, c.candidate.claims, before, found) && next == |d.claims| + 1
  {
    var ts := c.candidate.claims;
    var claims, local: map<string, ClaimID>, issues := before, map[], found;
    next := number;
    for i := 0 to |ts|
      invariant next == |claims| + 1
      invariant Draft(claims, local, issues) == CandidateClaims(c.ruleID, ts[..i], before, found)
    {
      var t := ts[i];
      assert ts[..i + 1][..i] == ts[..i];
      if t.localKey == "" || Local(local, t.localKey) != "" {
        LocalsAreNotEmpty(c.ruleID, ts[..i], before, found);
        issues := issues + [LOCAL_KEY];
        continue;
      }
      LocalsAreNotEmpty(c.ruleID, ts[..i], before, found);
      var id := GeneratedId(CLAIM_PREFIX, next);
      next := next + 1;
      local := local[t.localKey := id];
      var supporting, contradicting;
      supporting, issues := CompileRefs(t.supporting, local, issues);
      contradicting, issues := CompileRefs(t.contradicting, local, issues);
      claims := claims + [Claim(id, t.statement, t.level, t.subjects, t.branchIDs, t.parameters, supporting,
                                contradicting, t.missing, c.ruleID)];
    }
    assert ts[..|ts|] == ts;
    d := Draft(claims, local, issues);
  }

  ghost predicate NonEmptyIds(local: map<string, ClaimID>) { forall k :: k in local ==> local[k] != "" }

  lemma {:induction false} LocalsAreNotEmpty(ruleID: RuleID, ts: seq<ClaimTemplate>, before: seq<Claim>, found: seq<Issue>)
    ensures NonEmptyIds(CandidateClaims(ruleID, ts, before, found).local)
  {
    if ts != [] {
      LocalsAreNotEmpty(ruleID, ts[..|ts| - 1], before, found);
      var d := CandidateClaims(ruleID, ts[..|ts| - 1], before, found);
      assert NonEmptyIds(ClaimStep(ruleID, ts[|ts| - 1], d).local);
    }
  }

  method CompileClaims(cs: seq<Compiled>) returns (r: Compilation)
    ensures r == AllClaims(cs)
  {
    var claims, locals, issues, number := [], [], [], 1;
    for i := 0 to |cs|
      invariant number == |claims| + 1
      invariant Compilation(claims, locals, issues) == AllClaims(cs[..i])
    {
      assert cs[..i + 1][..i] == cs[..i];
      var d;
      d, number := CompileCandidate(cs[i], claims, number, issues);
      claims, locals, issues := d.claims, locals + [d.local], d.issues;
    }
    assert cs[..|cs|] == cs;
    r := Compilation(claims, locals, issues);
  }

  // ---------------------------------------------------------------- findings

  function LocalClaims(keys: seq<string>, local: map<string, ClaimID>): (ids: seq<ClaimID>)
    ensures |ids| == |keys|
  {
    seq(|keys|, j requires 0 <= j < |keys| => Local(local, keys[j]))
  }

  function MissingKeyIssues(keys: seq<string>, local: map<string, ClaimID>): seq<Issue>
  {
    if keys == [] then []
    else MissingKeyIssues(keys[..|keys| - 1], local) + if keys[|keys| - 1] in local then [] else [KEY_MISSING]
  }

  /** Whatever selection a template carries, a compiled finding has none. */
  function CompiledFinding(ruleID: RuleID, t: FindingTemplate, id: FindingID, local: map<string, ClaimID>): Finding
  {
    Finding(id, t.kind, t.title, t.level, t.branchIDs, t.positions, LocalClaims(t.claimKeys, local), ruleID,
            t.limitations, t.experiments, NotSelected)
  }

  datatype Findings = Findings(findings: seq<Finding>, issues: seq<Issue>)

  function CandidateFindings(ruleID: RuleID, ts: seq<FindingTemplate>, local: map<string, ClaimID>, before: Findings): Findings
  {
    if ts == [] then before
    else
      var t := ts[|ts| - 1];
      var r := CandidateFindings(ruleID, ts[..|ts| - 1], local, before);
      Findings(r.findings + [CompiledFinding(ruleID, t, FindingIdAt(|r.findings|), local)],
               r.issues + MissingKeyIssues(t.claimKeys, local))
  }

  function AllFindings(cs: seq<Compiled>, locals: seq<map<string, ClaimID>>): Findings
    requires |locals| == |cs|
  {
    if cs == [] then Findings([], [])
    else
      var n := |cs| - 1;
      CandidateFindings(cs[n].ruleID, cs[n].candidate.findings, locals[n], AllFindings(cs[..n], locals[..n]))
  }

  method CompileKeys(keys: seq<string>, local: map<string, ClaimID>, found: seq<Issue>)
    returns (ids: seq<ClaimID>, issues: seq<Issue>)
    requires NonEmptyIds(local)
    ensures ids == LocalClaims(keys, local) && issues == found + MissingKeyIssues(keys, local)
  {
    ids, issues := [], found;
    for j := 0 to |keys|
      invariant ids == LocalClaims(keys, local)[..j]
      invariant issues == found + MissingKeyIssues(keys[..j], local)
    {
      assert keys[..j + 1][..j] == keys[..j];
      var id := Local(local, keys[j]);
      if id == "" {
        issues := issues + [KEY_MISSING];
      }
      ids := ids + [id];
    }
    assert keys[..|keys|] == keys;
  }

  method CompileFindingsOf(c: Compiled, local: map<string, ClaimID>, before: Findings, number: nat)
    returns (r: Findings, next: nat)
    requires number == |before.findings| + 1 && NonEmptyIds(local)
    ensures r == CandidateFindings(c.ruleID, c.candidate.findings, local, before) && next == |r.findings| + 1
  {
    var ts := c.candidate.findings;
    r, next := before, number;
    for i := 0 to |ts|
      invariant next == |r.findings| + 1
      invariant r == CandidateFindings(c.ruleID, ts[..i], local, before)
    {
      var t := ts[i];
      assert ts[..i + 1][..i] == ts[..i];
      var ids, issues := CompileKeys(t.claimKeys, local, r.issues);
      var f := Finding(GeneratedId(FINDING_PREFIX, next), t.kind, t.title, t.level, t.branchIDs, t.positions, ids,
                       c.ruleID, t.limitations, t.experiments, NotSelected);
      next := next + 1;
      r := Findings(r.findings + [f], issues);
    }
    assert ts[..|ts|] == ts;
  }

  method CompileFindings(cs: seq<Compiled>, locals: seq<map<string, ClaimID>>) returns (r: Findings)
    requires |locals| == |cs| && forall i :: 0 <= i < |cs| ==> NonEmptyIds(locals[i])
    ensures r == AllFindings(cs, locals)
  {
    var number := 1;
    r := Findings([], []);
    for i := 0 to |cs|
      invariant number == |r.findings| + 1
      invariant r == AllFindings(cs[..i], locals[..i])
    {
      assert cs[..i + 1][..i] == cs[..i] && locals[..i + 1][..i] == locals[..i];
      r, number := CompileFindingsOf(cs[i], locals[i], r, number);
    }
    assert cs[..|cs|] == cs && locals[..|cs|] == locals;
  }

  lemma {:induction false} NoEmptyLocal(cs: seq<Compiled>)
    ensures forall i :: 0 <= i < |cs| ==> NonEmptyIds(AllClaims(cs).locals[i])
  {
    if cs != [] {
      var n := |cs| - 1;
      NoEmptyLocal(cs[..n]);
      var r := AllClaims(cs[..n]);
      LocalsAreNotEmpty(cs[n].ruleID, cs[n].candidate.claims, r.claims, r.issues);
      assert forall i :: 0 <= i < n ==> AllClaims(cs).locals[i] == r.locals[i];
    }
  }

  // ---------------------------------------------------------------- the template phase

  /** The issues of the template phase. */
  function TemplatePhaseIssues(outputs: seq<RuleOutput>): seq<Issue>
  {
    if AllKeyIssues(outputs) != [] then AllKeyIssues(outputs)
    else
      var r := AllClaims(Candidates(outputs));
      r.issues + AllFindings(Candidates(outputs), r.locals).issues
  }

  /** The run the template phase hands to the selection. */
  function Compile(outputs: seq<RuleOutput>, evidence: EvidenceRun, evaluation: Evaluation): EvaluatedRun
  {
    var r := AllClaims(Candidates(outputs));
    EvaluatedRun(evidence, evaluation, r.claims, AllFindings(Candidates(outputs), r.locals).findings)
  }

  method CompileTemplates(outputs: seq<RuleOutput>, evidence: EvidenceRun, evaluation: Evaluation)
    returns (run: EvaluatedRun, issues: seq<Issue>)
    ensures issues == TemplatePhaseIssues(outputs)
    ensures issues == [] ==> run == Compile(outputs, evidence, evaluation)
  {
    var candidates;
    candidates, issues := CollectCandidates(outputs);
    candidates := StableSort(CompiledLess, candidates);
    run := EvaluatedRun(evidence, evaluation, [], []);
    if |issues| > 0 {
      return;
    }
    var r := CompileClaims(candidates);
    NoEmptyLocal(candidates);
    var f := CompileFindings(candidates, r.locals);
    run := run.(claims := r.claims, findings := f.findings);
    issues := r.issues + f.issues;
  }
}
