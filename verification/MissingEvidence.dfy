/** The order of missing-evidence requirements: compareMissingEvidence of internal/model/canonicalize.go. */
module MissingEvidences {
  import opened Text
  import opened Model
  import opened Ids
  import opened Sorting

  // ---------------------------------------------------------------- the comparison

  /** compareOptionalString: with exactly one side empty it answers -1 whichever side that is. */
  function CompareOptional(a: string, b: string): int
  {
    if a == b then 0
    else if a == "" then -1
    else if b == "" || Less(a, b) then -1
    else 1
  }

  function OrEmpty(o: Option<string>): string { if o.Some? then o.value else "" }

  function CompareNumbers(a: int, b: int): int { if a < b then -1 else if a > b then 1 else 0 }

  function CompareBools(a: bool, b: bool): int { if a == b then 0 else if !a then -1 else 1 }

  function KindOrder(k: RequirementKind): nat
  {
    match k
    case ObservationRequired => 0
    case VisibilityRequired => 1
    case VantageRequired => 2
    case OtherRequirement(_) => 99
  }

  function FirstNonZero(s: seq<int>): int
  {
    if s == [] then 0 else if s[0] != 0 then s[0] else FirstNonZero(s[1..])
  }

  function CompareListeners(x: ListenerScope, y: ListenerScope): int
  {
    FirstNonZero([
      CompareOptional(x.namespaceEntityID, y.namespaceEntityID),
      CompareOptional(x.protocol, y.protocol),
      CompareOptional(x.family, y.family),
      CompareOptional(x.binding, y.binding),
      CompareNumbers(x.portStart, y.portStart),
      CompareNumbers(x.portEnd, y.portEnd),
      CompareBools(x.ownershipRequired, y.ownershipRequired)])
  }

  function CompareScopes(a: Option<VisibilityScope>, b: Option<VisibilityScope>): int
  {
    if a.None? || b.None? then (if a.None? && b.None? then 0 else if a.None? then -1 else 1)
    else
      var x, y := a.value, b.value;
      var c := CompareOptional(x.kind, y.kind);
      if c != 0 then c
      else if x.listener.None? || y.listener.None? then
        (if x.listener.None? && y.listener.None? then 0 else if x.listener.None? then -1 else 1)
      else CompareListeners(x.listener.value, y.listener.value)
  }

  /** compareMissingEvidence */
  function CompareMissing(a: MissingEvidence, b: MissingEvidence): int
  {
    var kinds := CompareNumbers(KindOrder(a.kind), KindOrder(b.kind));
    if kinds != 0 then kinds else
    var observations := CompareOptional(OrEmpty(a.observationKind), OrEmpty(b.observationKind));
    if observations != 0 then observations else
    var subjects := CompareOptional(OrEmpty(a.subjectKind), OrEmpty(b.subjectKind));
    if subjects != 0 then subjects else
    var scopes := CompareScopes(a.scope, b.scope);
    if scopes != 0 then scopes else
    CompareOptional(OrEmpty(a.vantageID), OrEmpty(b.vantageID))
  }

  /** Swapping the sides flips the sign exactly when both sides are empty or neither is. */
  lemma OptionalFlips(a: string, b: string)
    ensures CompareOptional(a, b) == -CompareOptional(b, a) <==> (a == "" <==> b == "")
  {
    LessTrichotomy(a, b);
    if Less(a, b) {
      LessAsymmetric(a, b);
    }
  }

  // ---------------------------------------------------------------- well-formed requirements

  const OBSERVATION_KINDS: set<string> := {
    "SYSTEM_RESOLUTION_RESULT", "TCP_CONNECTION_RESULT", "TLS_TRANSPORT_RESULT", "TLS_PEER_SUMMARY",
    "CERTIFICATE_VERIFICATION_RESULT", "HTTP_RESULT", "ACTIVE_PROXY_ROUTE_SUMMARY", "CONFIGURED_PROXY_ROUTE_SUMMARY",
    "UPSTREAM_SELECTION_SUMMARY", "LISTENER_INVENTORY_ENTRY", "LISTENER_INVENTORY_RESULT", "PROCESS_OWNERSHIP_ENTRY",
    "DOCKER_RUNTIME_SUMMARY", "CAPABILITY_PERMISSION_RESULT" }

  predicate ValidListenerScope(s: ListenerScope)
  {
    && ValidPlain(s.namespaceEntityID, "entity-")
    && s.protocol in {"TCP", "UDP"}
    && s.family in {"IPV4", "IPV6"}
    && s.binding in {"EXACT", "WILDCARD", "LOOPBACK"}
    && s.portStart <= s.portEnd
  }

  /** validateMissingEvidenceRequirement: what it adds to the issues. */
  function RequirementIssues(m: MissingEvidence, pointer: string): seq<Issue>
  {
    var extra := [Issue(InvalidValueCode, pointer, "missing-evidence fields do not match its kind")];
    match m.kind
    case ObservationRequired =>
      (if m.observationKind.None?
       then [Issue(UnknownUnionKindCode, pointer + "/observation_kind", "observation kind is required")]
       else if m.observationKind.value !in OBSERVATION_KINDS
       then [Issue(UnknownEnumCode, pointer + "/observation_kind", "unknown observation kind")] else []) +
      (if m.subjectKind.Some? || m.scope.Some? || m.vantageID.Some? then extra else [])
    case VisibilityRequired =>
      (if m.subjectKind != Some("LISTENER")
       then [Issue(UnknownEnumCode, pointer + "/visibility_subject_kind", "listener visibility subject is required")]
       else []) +
      (if m.scope.None? || m.scope.value.listener.None? || m.scope.value.kind != "LISTENER"
       then [Issue(UnknownUnionKindCode, pointer + "/visibility_scope", "listener visibility scope is required")]
       else if !ValidListenerScope(m.scope.value.listener.value)
       then [Issue(InvalidValueCode, pointer + "/visibility_scope", "invalid listener visibility scope")] else []) +
      (if m.observationKind.Some? || m.vantageID.Some? then extra else [])
    case VantageRequired =>
      (if m.vantageID.None? then [Issue(UnknownUnionKindCode, pointer + "/vantage_id", "vantage ID is required")]
       else if !ValidPlain(m.vantageID.value, "vantage-")
       then [Issue(InvalidValueCode, pointer + "/vantage_id", "invalid vantage ID")] else []) +
      (if m.observationKind.Some? || m.subjectKind.Some? || m.scope.Some? then extra else [])
    case OtherRequirement(_) => [Issue(UnknownUnionKindCode, pointer + "/kind", "unknown missing-evidence kind")]
  }

  predicate WellFormed(m: MissingEvidence) { RequirementIssues(m, "") == [] }

  // ---------------------------------------------------------------- the comparison field by field

  /** One compared field: a string that may be empty, or a number. */
  datatype Field = Name(text: string) | Number(n: int)

  function CompareFields(a: Field, b: Field): int
  {
    match (a, b)
    case (Name(x), Name(y)) => CompareOptional(x, y)
    case (Number(x), Number(y)) => CompareNumbers(x, y)
    case _ => 0
  }

  function ScopeOf(m: MissingEvidence): VisibilityScope
  {
    if m.scope.Some? then m.scope.value else VisibilityScope("", None)
  }

  function ListenerOf(m: MissingEvidence): ListenerScope
  {
    if ScopeOf(m).listener.Some? then ScopeOf(m).listener.value else ListenerScope("", "", "", "", 0, 0, false)
  }

  const NUMBERS: set<nat> := {0, 3, 5, 10, 11, 12}

  /** The fields in the order they are compared; a missing scope or listener is a 0 and blanks. */
  function FieldAt(m: MissingEvidence, i: nat): (f: Field)
    requires i < 14
    ensures f.Number? <==> i in NUMBERS
  {
    match i
    case 0 => Number(KindOrder(m.kind))
    case 1 => Name(OrEmpty(m.observationKind))
    case 2 => Name(OrEmpty(m.subjectKind))
    case 3 => Number(if m.scope.Some? then 1 else 0)
    case 4 => Name(ScopeOf(m).kind)
    case 5 => Number(if ScopeOf(m).listener.Some? then 1 else 0)
    case 6 => Name(ListenerOf(m).namespaceEntityID)
    case 7 => Name(ListenerOf(m).protocol)
    case 8 => Name(ListenerOf(m).family)
    case 9 => Name(ListenerOf(m).binding)
    case 10 => Number(ListenerOf(m).portStart)
    case 11 => Number(ListenerOf(m).portEnd)
    case 12 => Number(if ListenerOf(m).ownershipRequired then 1 else 0)
    case _ => Name(OrEmpty(m.vantageID))
  }

  function Fields(m: MissingEvidence): (k: seq<Field>)
    ensures |k| == 14 && forall i :: 0 <= i < 14 ==> k[i] == FieldAt(m, i)
  {
    seq(14, i requires 0 <= i < 14 => FieldAt(m, i))
  }

  /** The fields of two requirements have one type at each place. */
  predicate SameShape(a: seq<Field>, b: seq<Field>)
  {
    |a| == |b| && forall i :: 0 <= i < |a| ==> (a[i].Name? <==> b[i].Name?)
  }

  /** The comparison at the first place where the fields differ; 0 when they are equal. */
  function CompareFrom(a: seq<Field>, b: seq<Field>, i: nat): int
    requires SameShape(a, b) && i <= |a|
    decreases |a| - i
  {
    if i == |a| then 0
    else if CompareFields(a[i], b[i]) != 0 then CompareFields(a[i], b[i])
    else CompareFrom(a, b, i + 1)
  }

  lemma FieldsShape(a: MissingEvidence, b: MissingEvidence)
    ensures SameShape(Fields(a), Fields(b))
  {
  }

  lemma {:induction false} SkipEqual(p: seq<Field>, q: seq<Field>, i: nat, j: nat)
    requires SameShape(p, q) && i <= j <= |p| && forall k :: i <= k < j ==> p[k] == q[k]
    ensures CompareFrom(p, q, i) == CompareFrom(p, q, j)
    decreases j - i
  {
    if i < j {
      SkipEqual(p, q, i + 1, j);
    }
  }

  /** Places 3 to 12 hold the scope. */
  lemma ScopesByField(a: MissingEvidence, b: MissingEvidence)
    requires SameShape(Fields(a), Fields(b))
    ensures CompareFrom(Fields(a), Fields(b), 3) ==
            if CompareScopes(a.scope, b.scope) != 0 then CompareScopes(a.scope, b.scope)
            else CompareFrom(Fields(a), Fields(b), 13)
  {
    var p, q := Fields(a), Fields(b);
    if a.scope.None? && b.scope.None? {
      SkipEqual(p, q, 3, 13);
    } else if a.scope.Some? && b.scope.Some? {
      assert p[3] == q[3];
      assert CompareFrom(p, q, 3) == CompareFrom(p, q, 4);
      ScopeKindsByField(a, b);
    } else {
      assert p[3] != q[3];
    }
  }

  lemma ScopeKindsByField(a: MissingEvidence, b: MissingEvidence)
    requires SameShape(Fields(a), Fields(b)) && a.scope.Some? && b.scope.Some?
    ensures CompareFrom(Fields(a), Fields(b), 4) ==
            if CompareScopes(a.scope, b.scope) != 0 then CompareScopes(a.scope, b.scope)
            else CompareFrom(Fields(a), Fields(b), 13)
  {
    var p, q := Fields(a), Fields(b);
    var x, y := a.scope.value, b.scope.value;
    assert CompareFields(p[4], q[4]) == CompareOptional(x.kind, y.kind);
    if CompareOptional(x.kind, y.kind) == 0 {
      assert CompareFrom(p, q, 4) == CompareFrom(p, q, 5);
      if x.listener.None? && y.listener.None? {
        SkipEqual(p, q, 5, 13);
      } else if x.listener.Some? && y.listener.Some? {
        assert p[5] == q[5];
        assert CompareFrom(p, q, 5) == CompareFrom(p, q, 6);
        ListenersByField(a, b);
      } else {
        assert p[5] != q[5];
      }
    }
  }

  /** Places 6 to 12 hold the listener scope. */
  lemma ListenersByField(a: MissingEvidence, b: MissingEvidence)
    requires SameShape(Fields(a), Fields(b)) && a.scope.Some? && b.scope.Some?
    requires a.scope.value.listener.Some? && b.scope.value.listener.Some?
    ensures var c := CompareListeners(ListenerOf(a), ListenerOf(b));
            CompareFrom(Fields(a), Fields(b), 6) == if c != 0 then c else CompareFrom(Fields(a), Fields(b), 13)
  {
    var x, y := ListenerOf(a), ListenerOf(b);
    var s := [
      CompareOptional(x.namespaceEntityID, y.namespaceEntityID), CompareOptional(x.protocol, y.protocol),
      CompareOptional(x.family, y.family), CompareOptional(x.binding, y.binding),
      CompareNumbers(x.portStart, y.portStart), CompareNumbers(x.portEnd, y.portEnd),
      CompareBools(x.ownershipRequired, y.ownershipRequired)];
    assert CompareListeners(x, y) == FirstNonZero(s);
    FirstFrom(s, Fields(a), Fields(b), 6);
  }

  lemma {:induction false} FirstFrom(s: seq<int>, p: seq<Field>, q: seq<Field>, i: nat)
    requires SameShape(p, q) && i + |s| <= |p| && forall k :: 0 <= k < |s| ==> CompareFields(p[i + k], q[i + k]) == s[k]
    ensures CompareFrom(p, q, i) == if FirstNonZero(s) != 0 then FirstNonZero(s) else CompareFrom(p, q, i + |s|)
  {
    if s != [] {
      assert CompareFields(p[i + 0], q[i + 0]) == s[0];
      forall k | 0 <= k < |s[1..]|
        ensures CompareFields(p[i + 1 + k], q[i + 1 + k]) == s[1..][k]
      {
        assert CompareFields(p[i + (k + 1)], q[i + (k + 1)]) == s[k + 1];
      }
      FirstFrom(s[1..], p, q, i + 1);
    }
  }

  /** compareMissingEvidence compares at the first field that differs. */
  lemma CompareByField(a: MissingEvidence, b: MissingEvidence)
    requires SameShape(Fields(a), Fields(b))
    ensures CompareMissing(a, b) == CompareFrom(Fields(a), Fields(b), 0)
  {
    var p, q := Fields(a), Fields(b);
    ScopesByField(a, b);
    assert CompareFrom(p, q, 14) == 0;
    assert CompareFrom(p, q, 13) == CompareOptional(OrEmpty(a.vantageID), OrEmpty(b.vantageID));
    assert CompareFields(p[0], q[0]) == CompareNumbers(KindOrder(a.kind), KindOrder(b.kind));
    assert CompareFields(p[1], q[1]) == CompareOptional(OrEmpty(a.observationKind), OrEmpty(b.observationKind));
    assert CompareFields(p[2], q[2]) == CompareOptional(OrEmpty(a.subjectKind), OrEmpty(b.subjectKind));
    assert CompareFields(p[2], q[2]) == 0 ==> CompareFrom(p, q, 2) == CompareFrom(p, q, 3);
    assert CompareFields(p[1], q[1]) == 0 ==> CompareFrom(p, q, 1) == CompareFrom(p, q, 2);
    assert CompareFields(p[0], q[0]) == 0 ==> CompareFrom(p, q, 0) == CompareFrom(p, q, 1);
  }

  // ---------------------------------------------------------------- when the order fails

  /** Exactly one of two strings is empty. */
  predicate OneEmpty(a: Field, b: Field) { a.Name? && b.Name? && (a.text == "") != (b.text == "") }

  predicate FirstDifference(a: seq<Field>, b: seq<Field>, i: nat)
    requires SameShape(a, b)
  {
    i < |a| && a[i] != b[i] && forall j :: 0 <= j < i ==> a[j] == b[j]
  }

  /** The first field that differs is an optional string that one of the two requirements leaves empty. */
  ghost predicate OneSided(a: MissingEvidence, b: MissingEvidence)
  {
    && SameShape(Fields(a), Fields(b))
    && exists i: nat :: FirstDifference(Fields(a), Fields(b), i) && OneEmpty(Fields(a)[i], Fields(b)[i])
  }

  lemma FieldsOrder(a: Field, b: Field)
    requires a.Name? <==> b.Name?
    ensures CompareFields(a, b) == 0 <==> a == b
    ensures OneEmpty(a, b) ==> CompareFields(a, b) < 0 && CompareFields(b, a) < 0
    ensures !OneEmpty(a, b) ==> CompareFields(a, b) == -CompareFields(b, a)
  {
    if a.Name? {
      OptionalFlips(a.text, b.text);
    }
  }

  lemma {:induction false} EqualFieldsCompareEqual(a: seq<Field>, b: seq<Field>, i: nat)
    requires SameShape(a, b) && i <= |a| && forall j :: i <= j < |a| ==> a[j] == b[j]
    ensures CompareFrom(a, b, i) == 0
    decreases |a| - i
  {
    if i < |a| {
      FieldsOrder(a[i], b[i]);
      EqualFieldsCompareEqual(a, b, i + 1);
    }
  }

  /** The first difference decides. */
  lemma {:induction false} DifferenceDecides(a: seq<Field>, b: seq<Field>, i: nat, d: nat)
    requires SameShape(a, b) && i <= d && FirstDifference(a, b, d)
    ensures CompareFrom(a, b, i) == CompareFields(a[d], b[d])
    decreases d - i
  {
    FieldsOrder(a[i], b[i]);
    if i < d {
      DifferenceDecides(a, b, i + 1, d);
    }
  }

  lemma {:induction false} DifferenceExists(a: seq<Field>, b: seq<Field>, i: nat) returns (d: nat)
    requires SameShape(a, b) && i <= |a| && a != b && forall j :: 0 <= j < i ==> a[j] == b[j]
    ensures FirstDifference(a, b, d)
    decreases |a| - i
  {
    assert i < |a|;
    if a[i] != b[i] {
      d := i;
    } else {
      d := DifferenceExists(a, b, i + 1);
    }
  }

  /** Each of two requirements compares below the other exactly when their first difference is one-sided. */
  lemma BothBelowExactly(a: MissingEvidence, b: MissingEvidence)
    ensures CompareMissing(a, b) < 0 && CompareMissing(b, a) < 0 <==> OneSided(a, b)
    ensures !OneSided(a, b) ==> CompareMissing(a, b) == -CompareMissing(b, a)
    ensures CompareMissing(a, b) == 0 <==> Fields(a) == Fields(b)
  {
    FieldsShape(a, b);
    var p, q := Fields(a), Fields(b);
    CompareByField(a, b);
    CompareByField(b, a);
    if p == q {
      EqualFieldsCompareEqual(p, q, 0);
      EqualFieldsCompareEqual(q, p, 0);
    } else {
      var d := DifferenceExists(p, q, 0);
      DifferenceDecides(p, q, 0, d);
      DifferenceDecides(q, p, 0, d);
      FieldsOrder(p[d], q[d]);
      forall i: nat | FirstDifference(p, q, i)
        ensures i == d
      {
      }
    }
  }

  lemma NamesTransitive(a: Field, b: Field, c: Field)
    requires (a.Name? <==> b.Name?) && (b.Name? <==> c.Name?) && !OneEmpty(a, b) && !OneEmpty(b, c)
    requires CompareFields(a, b) < 0 && CompareFields(b, c) < 0
    ensures CompareFields(a, c) < 0
  {
    if a.Name? {
      LessTransitive(a.text, b.text, c.text);
      LessIrreflexive(a.text);
    }
  }

  lemma CompareChains(a: MissingEvidence, b: MissingEvidence, c: MissingEvidence)
    requires !OneSided(a, b) && !OneSided(b, c) && CompareMissing(a, b) < 0 && CompareMissing(b, c) < 0
    ensures CompareMissing(a, c) < 0
  {
    var p, q, r := Fields(a), Fields(b), Fields(c);
    FieldsShape(a, b);
    FieldsShape(b, c);
    FieldsShape(a, c);
    BothBelowExactly(a, b);
    BothBelowExactly(b, c);
    CompareByField(a, b);
    CompareByField(b, c);
    CompareByField(a, c);
    var d := DifferenceExists(p, q, 0);
    var e := DifferenceExists(q, r, 0);
    DifferenceDecides(p, q, 0, d);
    DifferenceDecides(q, r, 0, e);
    FieldsOrder(p[d], q[d]);
    var f := if d < e then d else e;
    if d == e {
      NamesTransitive(p[d], q[d], r[d]);
    }
    FieldsOrder(p[f], r[f]);
    DifferenceDecides(p, r, 0, f);
  }

  function MissingLess(a: MissingEvidence, b: MissingEvidence): bool { CompareMissing(a, b) < 0 }

  /** The comparison puts a list in a strict weak order exactly when no two of its requirements differ one-sidedly. */
  lemma CompareMissingIsWeakExactly(s: seq<MissingEvidence>)
    ensures Weak(MissingLess, s) <==> forall a, b :: a in s && b in s ==> !OneSided(a, b)
  {
    if Weak(MissingLess, s) {
      forall a, b | a in s && b in s
        ensures !OneSided(a, b)
      {
        BothBelowExactly(a, b);
        assert MissingLess(a, b) && MissingLess(b, a) ==> MissingLess(a, a);
      }
    } else if forall a, b :: a in s && b in s ==> !OneSided(a, b) {
      forall a | a in s
        ensures !MissingLess(a, a)
      {
        BothBelowExactly(a, a);
      }
      forall a, b, c | a in s && b in s && c in s && MissingLess(a, b) && MissingLess(b, c)
        ensures MissingLess(a, c)
      {
        CompareChains(a, b, c);
      }
      forall a, b, c | a in s && b in s && c in s && MissingLess(a, c)
        ensures MissingLess(a, b) || MissingLess(b, c)
      {
        NeitherBetween(a, b, c);
      }
    }
  }

  lemma NeitherBetween(a: MissingEvidence, b: MissingEvidence, c: MissingEvidence)
    requires !OneSided(a, b) && !OneSided(b, c) && !OneSided(a, c) && MissingLess(a, c)
    ensures MissingLess(a, b) || MissingLess(b, c)
  {
    BothBelowExactly(a, b);
    BothBelowExactly(b, c);
    BothBelowExactly(b, a);
    if !MissingLess(a, b) && CompareMissing(a, b) != 0 {
      OneSidedSymmetric(a, b);
      CompareChains(b, a, c);
    } else if CompareMissing(a, b) == 0 {
      FieldsShape(a, c);
      FieldsShape(b, c);
      CompareByField(a, c);
      CompareByField(b, c);
    }
  }

  lemma OneSidedSymmetric(a: MissingEvidence, b: MissingEvidence)
    ensures OneSided(a, b) <==> OneSided(b, a)
  {
    BothBelowExactly(a, b);
    BothBelowExactly(b, a);
  }

  // ---------------------------------------------------------------- the requirements the validator passes

  lemma FieldsDetermine(a: MissingEvidence, b: MissingEvidence)
    requires WellFormed(a) && WellFormed(b) && Fields(a) == Fields(b)
    ensures a == b
  {
    forall i | 0 <= i < 14
      ensures FieldAt(a, i) == FieldAt(b, i)
    {
      assert Fields(a)[i] == Fields(b)[i];
    }
    assert FieldAt(a, 0) == FieldAt(b, 0) && FieldAt(a, 1) == FieldAt(b, 1) && FieldAt(a, 13) == FieldAt(b, 13);
    if a.kind == VisibilityRequired {
      ListenerDetermines(a, b);
    }
  }

  lemma ListenerDetermines(a: MissingEvidence, b: MissingEvidence)
    requires forall i :: 0 <= i < 14 ==> FieldAt(a, i) == FieldAt(b, i)
    ensures ListenerOf(a) == ListenerOf(b)
  {
    assert FieldAt(a, 6) == FieldAt(b, 6) && FieldAt(a, 7) == FieldAt(b, 7) && FieldAt(a, 8) == FieldAt(b, 8);
    assert FieldAt(a, 9) == FieldAt(b, 9) && FieldAt(a, 10) == FieldAt(b, 10) && FieldAt(a, 11) == FieldAt(b, 11);
    assert FieldAt(a, 12) == FieldAt(b, 12);
  }

  /** Which strings a well-formed requirement of a kind leaves empty. */
  lemma EmptyFields(m: MissingEvidence, i: nat)
    requires WellFormed(m) && i < 14 && i !in NUMBERS
    ensures FieldAt(m, i).text == "" <==>
            !((m.kind == ObservationRequired && i == 1) || (m.kind == VisibilityRequired && (i == 2 || 3 < i < 13)) ||
              (m.kind == VantageRequired && i == 13))
  {
  }

  /** Of one kind, well-formed requirements leave the same strings empty. */
  lemma WellFormedIsNotOneSided(a: MissingEvidence, b: MissingEvidence)
    requires WellFormed(a) && WellFormed(b)
    ensures !OneSided(a, b)
  {
    FieldsShape(a, b);
    var p, q := Fields(a), Fields(b);
    forall i: nat | FirstDifference(p, q, i)
      ensures !OneEmpty(p[i], q[i])
    {
      if i !in NUMBERS {
        assert p[0] == q[0];
        assert KindOrder(a.kind) == KindOrder(b.kind);
        EmptyFields(a, i);
        EmptyFields(b, i);
      }
    }
  }

  /** compareMissingEvidence is a strict total order on the requirements the validator passes. */
  lemma CompareMissingIsTotal(a: MissingEvidence, b: MissingEvidence, c: MissingEvidence)
    requires WellFormed(a) && WellFormed(b) && WellFormed(c)
    ensures CompareMissing(a, b) == 0 <==> a == b
    ensures CompareMissing(a, b) == -CompareMissing(b, a)
    ensures CompareMissing(a, b) < 0 && CompareMissing(b, c) < 0 ==> CompareMissing(a, c) < 0
  {
    WellFormedIsNotOneSided(a, b);
    WellFormedIsNotOneSided(b, c);
    BothBelowExactly(a, b);
    if Fields(a) == Fields(b) {
      FieldsDetermine(a, b);
    }
    if CompareMissing(a, b) < 0 && CompareMissing(b, c) < 0 {
      CompareChains(a, b, c);
    }
  }

  /** Outside them each of two requirements can compare below the other. */
  lemma MalformedCompareBothWays() returns (a: MissingEvidence, b: MissingEvidence)
    ensures CompareMissing(a, b) < 0 && CompareMissing(b, a) < 0
    ensures WellFormed(a) && !WellFormed(b) && a.kind == b.kind
  {
    a := MissingEvidence(ObservationRequired, Some("HTTP_RESULT"), None, None, None);
    b := MissingEvidence(ObservationRequired, None, None, None, None);
  }
}
