/** The evaluator does not depend on the order in which a rule returns its candidates. */
module EvaluatorOrder {
  import opened Text
  import opened Model
  import opened Sorting
  import opened Evaluating

  // ---------------------------------------------------------------- key issues

  predicate BadKey(c: RuleCandidate) { !ValidCandidateKey(c.key) }

  function Filter<T>(p: T -> bool, s: seq<T>): seq<T>
  {
    if s == [] then [] else Filter(p, s[..|s| - 1]) + if p(s[|s| - 1]) then [s[|s| - 1]] else []
  }

  lemma {:induction false} FilterCounts<T(!new)>(p: T -> bool, s: seq<T>)
    ensures forall x :: multiset(Filter(p, s))[x] == if p(x) then multiset(s)[x] else 0
  {
    if s != [] {
      FilterCounts(p, s[..|s| - 1]);
      assert s == s[..|s| - 1] + [s[|s| - 1]];
    }
  }

  lemma FilterPermuted<T(!new)>(p: T -> bool, a: seq<T>, b: seq<T>)
    requires multiset(a) == multiset(b)
    ensures |Filter(p, a)| == |Filter(p, b)|
  {
    FilterCounts(p, a);
    FilterCounts(p, b);
    assert multiset(Filter(p, a)) == multiset(Filter(p, b));
    SameElements(Filter(p, a), Filter(p, b));
  }

  lemma TwoIssues()
    ensures INVALID_KEY != DUPLICATE_KEY
  {
    assert INVALID_KEY.message[0] != DUPLICATE_KEY.message[0];
  }

  /** One issue for each invalid key. */
  lemma {:induction false} InvalidKeyCounts(cs: seq<RuleCandidate>)
    ensures multiset(KeyIssues(cs))[INVALID_KEY] == |Filter(BadKey, cs)|
  {
    if cs != [] {
      TwoIssues();
      InvalidKeyCounts(cs[..|cs| - 1]);
    }
  }

  lemma KeyIssuesOfNext(cs: seq<RuleCandidate>)
    requires cs != []
    ensures SeenKeys(cs) == SeenKeys(cs[..|cs| - 1]) +
                            if ValidCandidateKey(cs[|cs| - 1].key) then {cs[|cs| - 1].key} else {}
  {
    NextCandidate("", cs, |cs| - 1);
    assert cs[..|cs| - 1 + 1] == cs;
  }

  /** One for each repetition of a valid one. */
  lemma {:induction false} DuplicateKeyCounts(cs: seq<RuleCandidate>)
    ensures multiset(KeyIssues(cs))[DUPLICATE_KEY] + |Filter(BadKey, cs)| + |SeenKeys(cs)| == |cs|
  {
    if cs != [] {
      var n := |cs| - 1;
      TwoIssues();
      DuplicateKeyCounts(cs[..n]);
      KeyIssuesOfNext(cs);
      if ValidCandidateKey(cs[n].key) && cs[n].key !in SeenKeys(cs[..n]) {
        assert |SeenKeys(cs)| == |SeenKeys(cs[..n])| + 1;
      } else {
        assert SeenKeys(cs) == SeenKeys(cs[..n]);
      }
    }
  }

  lemma {:induction false} OnlyKeyIssues(cs: seq<RuleCandidate>)
    ensures forall x :: x in KeyIssues(cs) ==> x == INVALID_KEY || x == DUPLICATE_KEY
  {
    if cs != [] {
      OnlyKeyIssues(cs[..|cs| - 1]);
    }
  }

  lemma SeenKeysPermuted(a: seq<RuleCandidate>, b: seq<RuleCandidate>)
    requires multiset(a) == multiset(b)
    ensures |a| == |b| && SeenKeys(a) == SeenKeys(b)
  {
    SameElements(a, b);
  }

  lemma KeyIssuesAre(cs: seq<RuleCandidate>, x: Issue)
    ensures multiset(KeyIssues(cs))[x] ==
            if x == INVALID_KEY then |Filter(BadKey, cs)|
            else if x == DUPLICATE_KEY then |cs| - |Filter(BadKey, cs)| - |SeenKeys(cs)| else 0
  {
    InvalidKeyCounts(cs);
    DuplicateKeyCounts(cs);
    OnlyKeyIssues(cs);
    assert x in multiset(KeyIssues(cs)) <==> x in KeyIssues(cs);
  }

  lemma KeyIssuesPermuted(a: seq<RuleCandidate>, b: seq<RuleCandidate>)
    requires multiset(a) == multiset(b)
    ensures multiset(KeyIssues(a)) == multiset(KeyIssues(b))
  {
    FilterPermuted(BadKey, a, b);
    SeenKeysPermuted(a, b);
    forall x
      ensures multiset(KeyIssues(a))[x] == multiset(KeyIssues(b))[x]
    {
      KeyIssuesAre(a, x);
      KeyIssuesAre(b, x);
    }
  }

  ghost predicate SoundKeys(cs: seq<RuleCandidate>)
  {
    && (forall c :: c in cs ==> ValidCandidateKey(c.key))
    && (forall i, j :: 0 <= i < j < |cs| ==> cs[i].key != cs[j].key)
  }

  /** A rule raises no key issue exactly when its keys are valid and distinct. */
  lemma {:induction false} KeysAreSound(cs: seq<RuleCandidate>)
    ensures KeyIssues(cs) == [] <==> SoundKeys(cs)
  {
    if cs != [] {
      KeysAreSound(cs[..|cs| - 1]);
      SoundKeysOfNext(cs);
    }
  }

  lemma SoundKeysOfNext(cs: seq<RuleCandidate>)
    requires cs != []
    ensures var n := |cs| - 1;
            SoundKeys(cs) <==> SoundKeys(cs[..n]) && ValidCandidateKey(cs[n].key) && cs[n].key !in SeenKeys(cs[..n])
  {
    var n := |cs| - 1;
    assert cs[n] in cs && forall c :: c in cs <==> c in cs[..n] || c == cs[n];
    assert forall i :: 0 <= i < n ==> cs[..n][i] == cs[i] && cs[i] in cs[..n];
  }

  lemma {:induction false} AcceptedCounts(ruleID: RuleID, cs: seq<RuleCandidate>)
    requires KeyIssues(cs) == []
    ensures forall x :: multiset(Accepted(ruleID, cs))[x] == if x.ruleID == ruleID then multiset(cs)[x.candidate] else 0
  {
    if cs != [] {
      AcceptedCounts(ruleID, cs[..|cs| - 1]);
      assert cs == cs[..|cs| - 1] + [cs[|cs| - 1]];
    }
  }

  // ---------------------------------------------------------------- all rules

  /** The same rules in the same order, each returning the same candidates in some order. */
  ghost predicate Reordered(a: seq<RuleOutput>, b: seq<RuleOutput>)
  {
    && |a| == |b|
    && forall k :: 0 <= k < |a| ==> a[k].ruleID == b[k].ruleID && multiset(a[k].candidates) == multiset(b[k].candidates)
  }

  ghost predicate DistinctRules(outputs: seq<RuleOutput>)
  {
    forall i, j :: 0 <= i < j < |outputs| ==> outputs[i].ruleID != outputs[j].ruleID
  }

  lemma {:induction false} AllKeyIssuesPermuted(a: seq<RuleOutput>, b: seq<RuleOutput>)
    requires Reordered(a, b)
    ensures multiset(AllKeyIssues(a)) == multiset(AllKeyIssues(b))
  {
    if a != [] {
      var n := |a| - 1;
      AllKeyIssuesPermuted(a[..n], b[..n]);
      KeyIssuesPermuted(a[n].candidates, b[n].candidates);
    }
  }

  lemma {:induction false} AllAcceptedPermuted(a: seq<RuleOutput>, b: seq<RuleOutput>)
    requires Reordered(a, b) && AllKeyIssues(a) == [] && AllKeyIssues(b) == []
    ensures multiset(AllAccepted(a)) == multiset(AllAccepted(b))
  {
    if a != [] {
      var n := |a| - 1;
      AllAcceptedPermuted(a[..n], b[..n]);
      AcceptedCounts(a[n].ruleID, a[n].candidates);
      AcceptedCounts(b[n].ruleID, b[n].candidates);
      assert multiset(Accepted(a[n].ruleID, a[n].candidates)) == multiset(Accepted(b[n].ruleID, b[n].candidates));
    }
  }

  lemma {:induction false} AcceptedComesFrom(outputs: seq<RuleOutput>, x: Compiled) returns (k: nat)
    requires AllKeyIssues(outputs) == [] && x in AllAccepted(outputs)
    ensures k < |outputs| && outputs[k].ruleID == x.ruleID && x.candidate in outputs[k].candidates
    ensures SoundKeys(outputs[k].candidates)
  {
    var n := |outputs| - 1;
    KeysAreSound(outputs[n].candidates);
    AcceptedCounts(outputs[n].ruleID, outputs[n].candidates);
    if x in AllAccepted(outputs[..n]) {
      k := AcceptedComesFrom(outputs[..n], x);
    } else {
      k := n;
    }
  }

  /** Rule and key tell the candidates apart, so the stable sort has one result. */
  lemma CandidatesTotal(outputs: seq<RuleOutput>)
    requires DistinctRules(outputs) && AllKeyIssues(outputs) == []
    ensures Total(CompiledLess, AllAccepted(outputs))
  {
    var s := AllAccepted(outputs);
    forall x | x in s
      ensures !CompiledLess(x, x)
    {
      LessIrreflexive(x.candidate.key);
    }
    forall x, y, z | CompiledLess(x, y) && CompiledLess(y, z)
      ensures CompiledLess(x, z)
    {
      CompiledLessTransitive(x, y, z);
    }
    forall x, y | x in s && y in s && x != y
      ensures CompiledLess(x, y) || CompiledLess(y, x)
    {
      LessTrichotomy(x.ruleID, y.ruleID);
      LessTrichotomy(x.candidate.key, y.candidate.key);
      if x.ruleID == y.ruleID && x.candidate.key == y.candidate.key {
        var k := AcceptedComesFrom(outputs, x);
        var l := AcceptedComesFrom(outputs, y);
        assert false;
      }
    }
  }

  lemma CompiledLessTransitive(x: Compiled, y: Compiled, z: Compiled)
    requires CompiledLess(x, y) && CompiledLess(y, z)
    ensures CompiledLess(x, z)
  {
    if x.ruleID == y.ruleID == z.ruleID {
      LessTransitive(x.candidate.key, y.candidate.key, z.candidate.key);
    } else if x.ruleID != y.ruleID && y.ruleID != z.ruleID {
      LessTransitive(x.ruleID, y.ruleID, z.ruleID);
      if x.ruleID == z.ruleID {
        LessIrreflexive(x.ruleID);
      }
    }
  }

  /** Permuting a rule's candidates changes neither the issues, as a multiset, nor the compiled run. */
  lemma CandidateOrderIsIrrelevant(a: seq<RuleOutput>, b: seq<RuleOutput>, evidence: EvidenceRun, evaluation: Evaluation)
    requires Reordered(a, b) && DistinctRules(a)
    ensures multiset(TemplatePhaseIssues(a)) == multiset(TemplatePhaseIssues(b))
    ensures AllKeyIssues(a) == [] ==> Compile(a, evidence, evaluation) == Compile(b, evidence, evaluation)
  {
    AllKeyIssuesPermuted(a, b);
    SameElements(AllKeyIssues(a), AllKeyIssues(b));
    if AllKeyIssues(a) == [] {
      AllAcceptedPermuted(a, b);
      CandidatesTotal(a);
      SortOfPermutation(CompiledLess, AllAccepted(a), AllAccepted(b));
    }
  }
}
