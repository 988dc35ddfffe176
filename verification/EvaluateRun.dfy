/**
 * Evaluator.Evaluate of internal/rules/evaluate.go from the rules' candidates to the accepted run, and the
 * exact conditions under which its template phase raises no issue.
 */
module EvaluatorRun {
  import opened Text
  import opened Model
  import opened Ids
  import opened Sorting
  import opened Justification
  import opened ClaimValidation
  import opened Canonical
  import opened CanonicalRuns
  import opened Evaluating
  import opened EvaluatorLaws
  import opened Branches
  import opened Selecting
  import Canonicalizing
  import SelectionApply

  // ---------------------------------------------------------------- which templates pass

  function KeysOf(ts: seq<ClaimTemplate>): set<string> { set t | t in ts :: t.localKey }

  predicate CitesKeys(xs: seq<EvidenceTemplate>, keys: set<string>)
  {
    forall x :: x in xs && x.kind == ClaimEvidence ==> x.claimKey in keys
  }

  /** A key of its own, and claim references to keys up to and including its own. */
  ghost predicate WellKeyedAt(ts: seq<ClaimTemplate>, j: nat)
    requires j < |ts|
  {
    && ts[j].localKey != "" && ts[j].localKey !in KeysOf(ts[..j])
    && CitesKeys(ts[j].supporting, KeysOf(ts[..j]) + {ts[j].localKey})
    && CitesKeys(ts[j].contradicting, KeysOf(ts[..j]) + {ts[j].localKey})
  }

  ghost predicate WellKeyed(ts: seq<ClaimTemplate>) { forall j :: 0 <= j < |ts| ==> WellKeyedAt(ts, j) }

  lemma CitesResolved(xs: seq<EvidenceTemplate>, local: map<string, ClaimID>)
    ensures TemplateIssues(xs, local) == [] <==> CitesKeys(xs, local.Keys)
  {
    NoTemplateIssues(xs, local);
    assert forall j :: 0 <= j < |xs| ==> xs[j] in xs;
  }

  lemma WellKeyedPrefix(ts: seq<ClaimTemplate>)
    requires ts != []
    ensures WellKeyed(ts) <==> WellKeyed(ts[..|ts| - 1]) && WellKeyedAt(ts, |ts| - 1)
  {
    var n := |ts| - 1;
    forall j | 0 <= j < n
      ensures WellKeyedAt(ts, j) <==> WellKeyedAt(ts[..n], j)
    {
      assert ts[..n][..j] == ts[..j];
    }
  }

  /** The claim templates of a candidate pass exactly when each is well keyed. */
  lemma {:induction false} CandidatePasses(ruleID: RuleID, ts: seq<ClaimTemplate>, before: seq<Claim>, found: seq<Issue>)
    ensures CandidateClaims(ruleID, ts, before, found).issues == [] <==> found == [] && WellKeyed(ts)
    ensures WellKeyed(ts) ==> CandidateClaims(ruleID, ts, before, found).local.Keys == KeysOf(ts)
  {
    if ts != [] {
      var n := |ts| - 1;
      var d := CandidateClaims(ruleID, ts[..n], before, found);
      CandidatePasses(ruleID, ts[..n], before, found);
      WellKeyedPrefix(ts);
      assert ts == ts[..n] + [ts[n]];
      if WellKeyed(ts[..n]) {
        StepPasses(ruleID, ts, d);
      }
    }
  }

  lemma StepPasses(ruleID: RuleID, ts: seq<ClaimTemplate>, d: Draft)
    requires ts != [] && d.local.Keys == KeysOf(ts[..|ts| - 1])
    ensures ClaimStep(ruleID, ts[|ts| - 1], d).issues == [] <==> d.issues == [] && WellKeyedAt(ts, |ts| - 1)
    ensures WellKeyedAt(ts, |ts| - 1) ==> ClaimStep(ruleID, ts[|ts| - 1], d).local.Keys == KeysOf(ts)
  {
    var n := |ts| - 1;
    var local := d.local[ts[n].localKey := ClaimIdAt(|d.claims|)];
    assert local.Keys == KeysOf(ts[..n]) + {ts[n].localKey};
    assert KeysOf(ts) == KeysOf(ts[..n]) + {ts[n].localKey} by {
      assert forall t :: t in ts <==> t in ts[..n] || t == ts[n];
    }
    CitesResolved(ts[n].supporting, local);
    CitesResolved(ts[n].contradicting, local);
  }

  ghost predicate ClaimsPass(cs: seq<Compiled>) { forall k :: 0 <= k < |cs| ==> WellKeyed(cs[k].candidate.claims) }

  ghost predicate LocalsKeyed(cs: seq<Compiled>, locals: seq<map<string, ClaimID>>)
    requires |cs| == |locals|
  {
    forall k :: 0 <= k < |cs| ==> locals[k].Keys == KeysOf(cs[k].candidate.claims)
  }

  lemma {:induction false} AllClaimsPass(cs: seq<Compiled>)
    ensures AllClaims(cs).issues == [] <==> ClaimsPass(cs)
    ensures ClaimsPass(cs) ==> LocalsKeyed(cs, AllClaims(cs).locals)
  {
    if cs != [] {
      var n := |cs| - 1;
      var r := AllClaims(cs[..n]);
      AllClaimsPass(cs[..n]);
      CandidatePasses(cs[n].ruleID, cs[n].candidate.claims, r.claims, r.issues);
      ClaimsPassPrefix(cs);
      if ClaimsPass(cs) {
        LocalsKeyedGrow(cs, r.locals, CandidateClaims(cs[n].ruleID, cs[n].candidate.claims, r.claims, r.issues).local);
      }
    }
  }

  lemma ClaimsPassPrefix(cs: seq<Compiled>)
    requires cs != []
    ensures ClaimsPass(cs) <==> ClaimsPass(cs[..|cs| - 1]) && WellKeyed(cs[|cs| - 1].candidate.claims)
  {
    assert forall k :: 0 <= k < |cs| - 1 ==> cs[..|cs| - 1][k] == cs[k];
  }

  lemma LocalsKeyedGrow(cs: seq<Compiled>, locals: seq<map<string, ClaimID>>, local: map<string, ClaimID>)
    requires cs != [] && |locals| == |cs| - 1 && LocalsKeyed(cs[..|cs| - 1], locals)
    requires local.Keys == KeysOf(cs[|cs| - 1].candidate.claims)
    ensures LocalsKeyed(cs, locals + [local])
  {
    forall k | 0 <= k < |cs|
      ensures (locals + [local])[k].Keys == KeysOf(cs[k].candidate.claims)
    {
      if k < |cs| - 1 {
        assert cs[..|cs| - 1][k] == cs[k];
      }
    }
  }

  predicate FindingKeysPass(ts: seq<FindingTemplate>, keys: set<string>)
  {
    forall t, k :: t in ts && k in t.claimKeys ==> k in keys
  }

  lemma {:induction false} CandidateFindingsPass(
    ruleID: RuleID, ts: seq<FindingTemplate>, local: map<string, ClaimID>, before: Findings)
    ensures CandidateFindings(ruleID, ts, local, before).issues == [] <==>
              before.issues == [] && FindingKeysPass(ts, local.Keys)
  {
    if ts != [] {
      var n := |ts| - 1;
      CandidateFindingsPass(ruleID, ts[..n], local, before);
      NoMissingKeys(ts[n].claimKeys, local);
      assert forall t :: t in ts <==> t in ts[..n] || t == ts[n];
      assert forall k :: k in ts[n].claimKeys <==> exists j :: 0 <= j < |ts[n].claimKeys| && ts[n].claimKeys[j] == k;
    }
  }

  lemma {:induction false} AllFindingsPass(cs: seq<Compiled>, locals: seq<map<string, ClaimID>>)
    requires |cs| == |locals|
    ensures AllFindings(cs, locals).issues == [] <==>
              forall k :: 0 <= k < |cs| ==> FindingKeysPass(cs[k].candidate.findings, locals[k].Keys)
  {
    if cs != [] {
      var n := |cs| - 1;
      AllFindingsPass(cs[..n], locals[..n]);
      CandidateFindingsPass(cs[n].ruleID, cs[n].candidate.findings, locals[n], AllFindings(cs[..n], locals[..n]));
    }
  }

  /** What the template phase demands of one candidate. */
  ghost predicate CandidatePassesAll(c: RuleCandidate)
  {
    WellKeyed(c.claims) && FindingKeysPass(c.findings, KeysOf(c.claims))
  }

  /** The template phase raises no issue exactly when every key is valid, new and resolved. */
  lemma TemplatePhasePasses(outputs: seq<RuleOutput>)
    ensures TemplatePhaseIssues(outputs) == [] <==>
              AllKeyIssues(outputs) == [] &&
              forall k :: 0 <= k < |Candidates(outputs)| ==> CandidatePassesAll(Candidates(outputs)[k].candidate)
  {
    var cs := Candidates(outputs);
    AllClaimsPass(cs);
    AllFindingsPass(cs, AllClaims(cs).locals);
  }

  // ---------------------------------------------------------------- accepted references

  /** Every claim of candidate k cites earlier claims of that candidate alone. */
  ghost predicate CitesBack(cs: seq<Compiled>, claims: seq<Claim>, k: nat)
    requires k < |cs|
  {
    && Start(cs, k + 1) <= |claims|
    && forall i :: Start(cs, k) <= i < Start(cs, k + 1) ==> RefersWithin(claims[i], Start(cs, k), i)
  }

  lemma IndexOfClaimIdAt(claims: seq<Claim>, n: nat)
    requires NumberedFrom1(claims) && n < |claims|
    ensures ClaimIdAt(n) in ClaimIndex(claims) && ClaimIndex(claims)[ClaimIdAt(n)] == n
  {
    assert claims[n].claimID == ClaimIdAt(n);
    ClaimIdAtInjective(n, ClaimIndex(claims)[ClaimIdAt(n)]);
  }

  lemma ClaimIdAtInjective(m: nat, n: nat)
    ensures ClaimIdAt(m) == ClaimIdAt(n) ==> m == n
  {
    if ClaimIdAt(m) == ClaimIdAt(n) {
      GeneratedIdInjective(CLAIM_PREFIX, m + 1, n + 1);
    }
  }

  lemma AlikeRefersWithin(a: Claim, b: Claim, lo: int, hi: int)
    requires AlikeClaim(a, b) && RefersWithin(a, lo, hi)
    ensures RefersWithin(b, lo, hi)
  {
    SameElements(a.supporting, b.supporting);
    SameElements(a.contradicting, b.contradicting);
    forall x | x in b.supporting + b.contradicting && x.kind == ClaimEvidence
      ensures x.claimID.Some? && NamesClaim(x.claimID.value, lo, hi)
    {
      assert x in a.supporting + a.contradicting;
    }
  }

  /** The template phase lets a claim cite itself; the validator does not. */
  lemma SoundReferencesGoBack(r: EvaluatedRun, i: nat, lo: nat)
    requires NumberedFrom1(r.claims) && i < |r.claims| && RefersWithin(r.claims[i], lo, i + 1)
    requires SoundClaim(r, ClaimIndex(r.claims), i)
    ensures RefersWithin(r.claims[i], lo, i)
  {
    var c := r.claims[i];
    forall x | x in c.supporting + c.contradicting && x.kind == ClaimEvidence
      ensures x.claimID.Some? && NamesClaim(x.claimID.value, lo, i)
    {
      var n: nat :| lo <= n < i + 1 && x.claimID.value == ClaimIdAt(n);
      IndexOfClaimIdAt(r.claims, n);
      assert x in c.supporting || x in c.contradicting;
      assert SoundRef(r, ClaimIndex(r.claims), i, x);
    }
  }

  /** A claim that cites itself is one the reference checks reject. */
  lemma SelfReferenceIsRejected(r: EvaluatedRun, i: nat, x: EvidenceRef)
    requires NumberedFrom1(r.claims) && i < |r.claims| && x in r.claims[i].supporting
    requires x.kind == ClaimEvidence && x.claimID == Some(ClaimIdAt(i))
    ensures !SoundRun(r, ClaimIndex(r.claims))
  {
    IndexOfClaimIdAt(r.claims, i);
    var ids := ClaimIndex(r.claims);
    assert Resolve(x, ids) == Some(i);
    assert !SoundRef(r, ids, i, x);
    assert SoundRun(r, ids) ==> SoundClaim(r, ids, i);
  }

  lemma {:induction false} SingleCandidate(ruleID: RuleID, c: RuleCandidate)
    requires ValidCandidateKey(c.key)
    ensures AllKeyIssues([RuleOutput(ruleID, [c])]) == []
    ensures Candidates([RuleOutput(ruleID, [c])]) == [Compiled(ruleID, c)]
  {
    var outputs, cs := [RuleOutput(ruleID, [c])], [Compiled(ruleID, c)];
    assert outputs[..0] == [] && [c][..0] == [];
    assert SeenKeys([]) == {} && KeyIssues([c]) == KeyIssues([]);
    assert AllKeyIssues(outputs) == AllKeyIssues([]) + KeyIssues([c]);
    assert Accepted(ruleID, [c]) == cs && AllAccepted(outputs) == cs;
    assert cs[1..] == [] && StableSort(CompiledLess, cs) == cs;
  }

  /** Yet the template phase passes such a candidate without an issue. */
  lemma SelfReferencePassesTemplates(evidence: EvidenceRun, evaluation: Evaluation) returns (outputs: seq<RuleOutput>)
    ensures TemplatePhaseIssues(outputs) == []
    ensures !SoundRun(Compile(outputs, evidence, evaluation), ClaimIndex(Compile(outputs, evidence, evaluation).claims))
  {
    var own := EvidenceTemplate(ClaimEvidence, "", "a", "", "");
    var t := ClaimTemplate("a", NoListener, Inferred, [], [], ClaimParameters(NoListener, None, None, None), [own], [], []);
    var c := RuleCandidate("k", [t], []);
    outputs := [RuleOutput("r", [c])];
    SingleCandidate("r", c);
    OwnKeyIsWellKeyed(t, own);
    TemplatePhasePasses(outputs);
    CitesItself([Compiled("r", c)], t, own, Compile(outputs, evidence, evaluation));
  }

  lemma OwnKeyIsWellKeyed(t: ClaimTemplate, own: EvidenceTemplate)
    requires t.supporting == [own] && t.contradicting == [] && own.claimKey == t.localKey != ""
    ensures WellKeyed([t])
  {
    assert KeysOf([t][..0]) == {};
    assert WellKeyedAt([t], 0);
  }

  lemma {:induction false} CitesItself(cs: seq<Compiled>, t: ClaimTemplate, own: EvidenceTemplate, r: EvaluatedRun)
    requires |cs| == 1 && cs[0].candidate.claims == [t] && AllClaims(cs).issues == [] && r.claims == AllClaims(cs).claims
    requires t.supporting == [own] && own.kind == ClaimEvidence && own.claimKey == t.localKey != ""
    ensures !SoundRun(r, ClaimIndex(r.claims))
  {
    OneClaim(cs, t);
    ClaimsAreLaidOut(cs);
    SelfReferenceIsRejected(r, 0, r.claims[0].supporting[0]);
  }

  lemma {:induction false} OneClaim(cs: seq<Compiled>, t: ClaimTemplate)
    requires |cs| == 1 && cs[0].candidate.claims == [t] && t.localKey != ""
    ensures |AllClaims(cs).claims| == 1
    ensures AllClaims(cs).claims[0].supporting == FromTemplates(t.supporting, map[t.localKey := ClaimIdAt(0)])
  {
    assert cs[..0] == [] && [t][..0] == [];
    assert CandidateClaims(cs[0].ruleID, [t], [], []) == ClaimStep(cs[0].ruleID, t, Draft([], map[], []));
  }

  // ---------------------------------------------------------------- the whole evaluation

  /**
   * The compiled claims in their order, numbered from 1, each citing only earlier claims of its own
   * candidate, in a run that passes every reference check.
   */
  ghost predicate EvaluatedFrom(cs: seq<Compiled>, out: EvaluatedRun)
  {
    && SoundRun(out, ClaimIndex(out.claims))
    && NumberedFrom1(out.claims)
    && |out.claims| == |AllClaims(cs).claims|
    && Pointwise(AlikeClaim, AllClaims(cs).claims, out.claims)
    && forall k :: 0 <= k < |cs| ==> CitesBack(cs, out.claims, k)
  }

  /**
   * The compiled findings in their order, numbered from 1, each with the selection that the set of findings
   * gives it, and a selection the validator accepts.
   */
  ghost predicate SelectedFrom(compiled: EvaluatedRun, out: EvaluatedRun)
  {
    && FindingsNumberedFrom1(out.findings)
    && |out.findings| == |compiled.findings|
    && Pointwise(AlikeFinding, Applied(compiled).findings, out.findings)
    && (forall f :: f in out.findings && f.selection != NotSelected ==> f.ConfirmedBlocker())
    && ValidSelection(out.findings, out.evidence.branches)
  }

  /** Evaluate: what an accepted run is. */
  method Evaluate(outputs: seq<RuleOutput>, evidence: EvidenceRun, evaluation: Evaluation)
    returns (out: EvaluatedRun, issues: seq<Issue>)
    requires |AllClaims(Candidates(outputs)).claims| <= MAX_UINT64
    requires |Compile(outputs, evidence, evaluation).findings| <= MAX_UINT64
    ensures TemplatePhaseIssues(outputs) != [] ==> issues == TemplatePhaseIssues(outputs)
    ensures issues == [] ==> EvaluatedFrom(Candidates(outputs), out)
    ensures issues == [] ==> SelectedFrom(Compile(outputs, evidence, evaluation), out)
  {
    var run;
    run, issues := CompileTemplates(outputs, evidence, evaluation);
    out := run;
    if |issues| > 0 {
      return;
    }
    var cs := Candidates(outputs);
    FindingsAreLaidOut(cs, AllClaims(cs).locals);
    CompiledAreOrdered(run.findings);
    var selected, applied := SelectionApply.Apply(run);
    if |applied| > 0 {
      return selected, applied;
    }
    out, issues := CanonicalizeAndCheck(cs, run, selected);
  }

  /** Numbers from 1 are distinct: lessFinding orders the compiled findings. */
  lemma CompiledAreOrdered(findings: seq<Finding>)
    requires FindingsNumberedFrom1(findings) && |findings| <= MAX_UINT64
    ensures Ordered(StripAll(findings))
  {
    var fs := StripAll(findings);
    FindingsInNumberOrder(fs);
    assert forall i :: 0 <= i < |fs| ==> fs[i].findingID == FindingIds(fs)[i];
    DistinctIdsOrder(fs);
  }

  /** CanonicalizeAndValidateEvaluatedRun, of whose validation the checks of references and selections are modelled. */
  method CanonicalizeAndCheck(cs: seq<Compiled>, ghost compiled: EvaluatedRun, run: EvaluatedRun)
    returns (out: EvaluatedRun, issues: seq<Issue>)
    requires AllClaims(cs).issues == [] && run.claims == AllClaims(cs).claims && |run.claims| <= MAX_UINT64
    requires FindingsNumberedFrom1(compiled.findings) && |compiled.findings| <= MAX_UINT64
    requires run == Applied(compiled) && SelectionApply.OnlyBlockersSelected(compiled.findings, run.findings)
    ensures issues == [] ==> EvaluatedFrom(cs, out) && SelectedFrom(compiled, out)
  {
    ClaimsAreLaidOut(cs);
    assert FindingsNumberedFrom1(run.findings);
    out, issues := CanonicalizeNumbered(run);
    if |issues| > 0 {
      return;
    }
    issues := ValidateReferences(out);
    var more := ValidateSelection(out.findings, out.evidence.branches);
    if issues == [] {
      AcceptedCitesBack(cs, run.claims, AllClaims(cs).locals, out);
      SelectedFindingsStay(compiled, run, out);
    }
    issues := issues + more;
  }

  /** Canonicalizing keeps claims and findings that are numbered from 1 in their order. */
  method CanonicalizeNumbered(run: EvaluatedRun) returns (out: EvaluatedRun, issues: seq<Issue>)
    requires NumberedFrom1(run.claims) && |run.claims| <= MAX_UINT64
    requires FindingsNumberedFrom1(run.findings) && |run.findings| <= MAX_UINT64
    ensures |out.claims| == |run.claims| && Pointwise(AlikeClaim, run.claims, out.claims)
    ensures |out.findings| == |run.findings| && Pointwise(AlikeFinding, run.findings, out.findings)
  {
    ClaimsAlreadySorted(run.claims);
    FindingsAlreadySorted(run.findings);
    out, issues := Canonicalizing.CanonicalizeEvaluated(run);
  }

  /** Copies in another order keep their ID, kind, level and selection. */
  lemma SelectedFindingsStay(compiled: EvaluatedRun, run: EvaluatedRun, out: EvaluatedRun)
    requires FindingsNumberedFrom1(compiled.findings) && SelectionApply.OnlyBlockersSelected(compiled.findings, run.findings)
    requires |out.findings| == |run.findings| && Pointwise(AlikeFinding, run.findings, out.findings)
    ensures FindingsNumberedFrom1(out.findings)
    ensures forall f :: f in out.findings && f.selection != NotSelected ==> f.ConfirmedBlocker()
  {
    forall i | 0 <= i < |out.findings|
      ensures out.findings[i].findingID == FindingIdAt(i)
      ensures out.findings[i].selection != NotSelected ==> out.findings[i].ConfirmedBlocker()
    {
      assert AlikeFinding(run.findings[i], out.findings[i]);
      assert compiled.findings[i].findingID == FindingIdAt(i);
      assert run.findings[i] == compiled.findings[i].(selection := run.findings[i].selection);
    }
  }

  lemma AcceptedCitesBack(cs: seq<Compiled>, claims: seq<Claim>, locals: seq<map<string, ClaimID>>, out: EvaluatedRun)
    requires |locals| == |cs| && LaidOut(cs, claims, locals)
    requires |out.claims| == |claims| && Pointwise(AlikeClaim, claims, out.claims)
    requires SoundRun(out, ClaimIndex(out.claims))
    ensures NumberedFrom1(out.claims)
    ensures forall k :: 0 <= k < |cs| ==> CitesBack(cs, out.claims, k)
  {
    forall i | 0 <= i < |claims|
      ensures out.claims[i].claimID == ClaimIdAt(i)
    {
      assert AlikeClaim(claims[i], out.claims[i]);
    }
    forall k | 0 <= k < |cs|
      ensures CitesBack(cs, out.claims, k)
    {
      StartsGrow(cs, k + 1, |cs|);
      forall i | Start(cs, k) <= i < Start(cs, k + 1)
        ensures RefersWithin(out.claims[i], Start(cs, k), i)
      {
        assert CandidateAt(cs, claims, k);
        assert LaidAt(cs[k].ruleID, cs[k].candidate.claims, Start(cs, k), claims, i - Start(cs, k));
        AlikeRefersWithin(claims[i], out.claims[i], Start(cs, k), i + 1);
        SoundReferencesGoBack(out, i, Start(cs, k));
      }
    }
  }
}
