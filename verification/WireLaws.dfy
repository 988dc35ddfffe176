/** What the scan reports: nothing exactly on closed documents, and the same places in both modes. */
module WireLaws {
  import opened Text
  import opened Model
  import opened Pointers
  import opened WireScan

  // ---------------------------------------------------------------- closed documents

  ghost predicate DistinctMembers(ms: seq<Member>)
  {
    forall i, j :: 0 <= i < j < |ms| ==> ms[i].name != ms[j].name
  }

  /** One object: no member twice, a known union kind, and allowed, required and well-valued members. */
  ghost predicate LocallyClosed(t: Tables, pointer: string, ms: seq<Member>)
  {
    var p := Normalize(pointer);
    && DistinctMembers(ms)
    && !UnionError(t, p, ms)
    && (forall name :: name in Required(t, p, ms) ==> HasMember(ms, name))
    && MembersAllowed(t, p, ms)
  }

  predicate MemberAllowed(t: Tables, p: string, ms: seq<Member>, i: nat)
    requires i < |ms|
  {
    var allowed := Allowed(t, p, ms);
    (allowed.Some? ==> ms[i].name in allowed.value) && EnumValid(t, p, ms[i].name, ms)
  }

  /** The item a decimal token names, written without leading zeros. */
  function ItemIndex(token: string, n: nat): Option<nat>
  {
    var i := ParseUint(token);
    if i.Some? && i.value < n && Itoa(i.value) == token then i else None
  }

  /** The value a path of tokens leads to. */
  function At(v: Json, path: seq<string>): Option<Json>
    decreases |path|
  {
    if path == [] then Some(v)
    else
      match v
      case Object(ms) => if HasMember(ms, path[0]) then At(MemberOf(ms, path[0]), path[1..]) else None
      case Array(items) =>
        var i := ItemIndex(path[0], |items|);
        if i.Some? then At(items[i.value], path[1..]) else None
      case _ => None
  }

  ghost predicate ClosedAt(t: Tables, v: Json, prefix: seq<string>, path: seq<string>)
  {
    At(v, path).Some? && At(v, path).value.Object? ==> LocallyClosed(t, Pointer(prefix + path), At(v, path).value.members)
  }

  /** Every object at every depth is closed. */
  ghost predicate Closed(t: Tables, v: Json, prefix: seq<string>) { forall path :: ClosedAt(t, v, prefix, path) }

  // ---------------------------------------------------------------- one object

  lemma DistinctOfNext(ms: seq<Member>)
    requires ms != []
    ensures var n := |ms| - 1; DistinctMembers(ms) <==> DistinctMembers(ms[..n]) && !HasMember(ms[..n], ms[n].name)
  {
    assert forall i :: 0 <= i < |ms| - 1 ==> ms[..|ms| - 1][i] == ms[i];
  }

  lemma {:induction false} NoDuplicateIssues(ms: seq<Member>, pointer: string)
    ensures DuplicateIssues(ms, pointer) == [] <==> DistinctMembers(ms)
  {
    if ms != [] {
      DistinctOfNext(ms);
      NoDuplicateIssues(ms[..|ms| - 1], pointer);
    }
  }

  lemma {:induction false} NoRequiredIssues(required: seq<string>, ms: seq<Member>, pointer: string)
    ensures RequiredIssues(required, ms, pointer) == [] <==> forall name :: name in required ==> HasMember(ms, name)
  {
    if required != [] {
      var n := |required| - 1;
      NoRequiredIssues(required[..n], ms, pointer);
      assert forall name :: name in required <==> name in required[..n] || name == required[n];
    }
  }

  lemma {:induction false} NothingInAny(lists: seq<seq<Issue>>)
    ensures Concat(lists) == [] <==> forall i :: 0 <= i < |lists| ==> lists[i] == []
  {
    if lists != [] {
      var n := |lists| - 1;
      NothingInAny(lists[..n]);
      assert |Concat(lists)| == |Concat(lists[..n])| + |lists[n]|;
      assert forall i :: 0 <= i < n ==> lists[..n][i] == lists[i];
    }
  }

  /** The value the scan visits for member i. */
  function Visited(ms: seq<Member>, i: nat): Json
    requires i < |ms|
  {
    ms[LastIndex(ms, ms[i].name)].value
  }

  lemma HeadPasses(t: Tables, ms: seq<Member>, pointer: string)
    ensures HeadIssues(t, ms, pointer) == [] <==>
              && DistinctMembers(ms) && !UnionError(t, Normalize(pointer), ms)
              && forall name :: name in Required(t, Normalize(pointer), ms) ==> HasMember(ms, name)
  {
    NoDuplicateIssues(ms, pointer);
    NoRequiredIssues(Required(t, Normalize(pointer), ms), ms, pointer);
  }

  /** The value the scan visits for member i raises nothing. */
  ghost predicate ValueQuiet(t: Tables, ms: seq<Member>, i: nat, pointer: string, minor: bool)
    requires i < |ms|
  {
    ValueIssues(t, Visited(ms, i), Child(pointer, ms[i].name), minor) == []
  }

  lemma MemberPasses(t: Tables, v: Json, i: nat, pointer: string, minor: bool)
    requires v.Object? && i < |v.members|
    ensures MemberIssues(t, v, i, pointer, minor) == [] <==>
              MemberAllowed(t, Normalize(pointer), v.members, i) && ValueQuiet(t, v.members, i, pointer, minor)
  {
  }

  ghost predicate MembersAllowed(t: Tables, p: string, ms: seq<Member>)
  {
    forall i :: 0 <= i < |ms| ==> MemberAllowed(t, p, ms, i)
  }

  ghost predicate ValuesQuiet(t: Tables, ms: seq<Member>, pointer: string, minor: bool)
  {
    forall i :: 0 <= i < |ms| ==> ValueQuiet(t, ms, i, pointer, minor)
  }

  lemma MembersPass(t: Tables, v: Json, pointer: string, minor: bool)
    requires v.Object?
    ensures Concat(MemberLists(t, v, pointer, minor)) == [] <==>
              MembersAllowed(t, Normalize(pointer), v.members) && ValuesQuiet(t, v.members, pointer, minor)
  {
    var lists := MemberLists(t, v, pointer, minor);
    NothingInAny(lists);
    forall i | 0 <= i < |v.members|
      ensures lists[i] == [] <==>
                MemberAllowed(t, Normalize(pointer), v.members, i) && ValueQuiet(t, v.members, i, pointer, minor)
    {
      MemberPasses(t, v, i, pointer, minor);
    }
  }

  /** An object raises nothing exactly when it is closed itself and its members' values raise nothing. */
  lemma ObjectPasses(t: Tables, v: Json, pointer: string, minor: bool)
    requires v.Object?
    ensures ValueIssues(t, v, pointer, minor) == [] <==>
              LocallyClosed(t, pointer, v.members) && ValuesQuiet(t, v.members, pointer, minor)
  {
    HeadPasses(t, v.members, pointer);
    MembersPass(t, v, pointer, minor);
    assert |ValueIssues(t, v, pointer, minor)| ==
           |HeadIssues(t, v.members, pointer)| + |Concat(MemberLists(t, v, pointer, minor))|;
  }

  // ---------------------------------------------------------------- every depth

  lemma {:induction false} DigitsEscapePlain(s: string)
    requires AllDigits(s)
    ensures Escape(s) == s
  {
    if s != "" {
      EscapeStep(s);
      DigitsEscapePlain(s[1..]);
    }
  }

  lemma PointerOfChild(prefix: seq<string>, token: string)
    ensures Pointer(prefix + [token]) == Child(Pointer(prefix), token)
  {
    var path := prefix + [token];
    assert path[..|path| - 1] == prefix;
  }

  lemma {:induction false} ItemIndexOfItoa(i: nat, n: nat)
    requires i < n <= MAX_UINT64
    ensures ItemIndex(Itoa(i), n) == Some(i)
  {
    ItoaValue(i);
  }

  lemma MemberPath(t: Tables, v: Json, prefix: seq<string>, i: nat, rest: seq<string>)
    requires v.Object? && i < |v.members|
    ensures ClosedAt(t, v, prefix, [v.members[i].name] + rest) <==>
              ClosedAt(t, Visited(v.members, i), prefix + [v.members[i].name], rest)
  {
    PathBelow(prefix, v.members[i].name, rest);
  }

  lemma MembersAreClosed(t: Tables, v: Json, prefix: seq<string>, i: nat)
    requires v.Object? && Closed(t, v, prefix) && i < |v.members|
    ensures Closed(t, Visited(v.members, i), prefix + [v.members[i].name])
  {
    forall rest
      ensures ClosedAt(t, Visited(v.members, i), prefix + [v.members[i].name], rest)
    {
      MemberPath(t, v, prefix, i, rest);
      assert ClosedAt(t, v, prefix, [v.members[i].name] + rest);
    }
  }

  lemma ObjectIsClosed(t: Tables, v: Json, prefix: seq<string>, path: seq<string>)
    requires v.Object? && LocallyClosed(t, Pointer(prefix), v.members)
    requires forall i :: 0 <= i < |v.members| ==> Closed(t, Visited(v.members, i), prefix + [v.members[i].name])
    ensures ClosedAt(t, v, prefix, path)
  {
    if path == [] {
      assert prefix + path == prefix;
    } else if HasMember(v.members, path[0]) {
      var i := LastIndex(v.members, path[0]);
      MemberPath(t, v, prefix, i, path[1..]);
      assert [v.members[i].name] + path[1..] == path;
      assert ClosedAt(t, Visited(v.members, i), prefix + [v.members[i].name], path[1..]);
    }
  }

  lemma MemberPaths(t: Tables, v: Json, prefix: seq<string>)
    requires v.Object?
    ensures Closed(t, v, prefix) <==>
              && LocallyClosed(t, Pointer(prefix), v.members)
              && forall i :: 0 <= i < |v.members| ==> Closed(t, Visited(v.members, i), prefix + [v.members[i].name])
  {
    if Closed(t, v, prefix) {
      assert prefix + [] == prefix && ClosedAt(t, v, prefix, []);
      forall i | 0 <= i < |v.members|
        ensures Closed(t, Visited(v.members, i), prefix + [v.members[i].name])
      {
        MembersAreClosed(t, v, prefix, i);
      }
    } else if LocallyClosed(t, Pointer(prefix), v.members) &&
              forall i :: 0 <= i < |v.members| ==> Closed(t, Visited(v.members, i), prefix + [v.members[i].name])
    {
      forall path
        ensures ClosedAt(t, v, prefix, path)
      {
        ObjectIsClosed(t, v, prefix, path);
      }
    }
  }

  lemma PathBelow(prefix: seq<string>, token: string, rest: seq<string>)
    ensures ([token] + rest)[0] == token && ([token] + rest)[1..] == rest
    ensures prefix + ([token] + rest) == prefix + [token] + rest
  {
  }

  lemma ItemPath(t: Tables, v: Json, prefix: seq<string>, i: nat, rest: seq<string>)
    requires v.Array? && i < |v.items| <= MAX_UINT64
    ensures ClosedAt(t, v, prefix, [Itoa(i)] + rest) <==> ClosedAt(t, v.items[i], prefix + [Itoa(i)], rest)
  {
    ItemIndexOfItoa(i, |v.items|);
    PathBelow(prefix, Itoa(i), rest);
  }

  lemma ItemsAreClosed(t: Tables, v: Json, prefix: seq<string>, i: nat)
    requires v.Array? && Closed(t, v, prefix) && i < |v.items| <= MAX_UINT64
    ensures Closed(t, v.items[i], prefix + [Itoa(i)])
  {
    forall rest
      ensures ClosedAt(t, v.items[i], prefix + [Itoa(i)], rest)
    {
      ItemPath(t, v, prefix, i, rest);
      assert ClosedAt(t, v, prefix, [Itoa(i)] + rest);
    }
  }

  lemma ArrayIsClosed(t: Tables, v: Json, prefix: seq<string>, path: seq<string>)
    requires v.Array? && |v.items| <= MAX_UINT64
    requires forall i :: 0 <= i < |v.items| ==> Closed(t, v.items[i], prefix + [Itoa(i)])
    ensures ClosedAt(t, v, prefix, path)
  {
    if path != [] && ItemIndex(path[0], |v.items|).Some? {
      var i := ItemIndex(path[0], |v.items|).value;
      ItemPath(t, v, prefix, i, path[1..]);
      assert [Itoa(i)] + path[1..] == path;
      assert ClosedAt(t, v.items[i], prefix + [Itoa(i)], path[1..]);
    }
  }

  lemma ItemPaths(t: Tables, v: Json, prefix: seq<string>)
    requires v.Array? && |v.items| <= MAX_UINT64
    ensures Closed(t, v, prefix) <==>
              forall i :: 0 <= i < |v.items| ==> Closed(t, v.items[i], prefix + [Itoa(i)])
  {
    if Closed(t, v, prefix) {
      forall i | 0 <= i < |v.items|
        ensures Closed(t, v.items[i], prefix + [Itoa(i)])
      {
        ItemsAreClosed(t, v, prefix, i);
      }
    } else if forall i :: 0 <= i < |v.items| ==> Closed(t, v.items[i], prefix + [Itoa(i)]) {
      forall path
        ensures ClosedAt(t, v, prefix, path)
      {
        ArrayIsClosed(t, v, prefix, path);
      }
    }
  }

  /** Arrays have lengths a machine integer holds. */
  ghost predicate Countable(v: Json)
  {
    match v
    case Object(ms) => forall i :: 0 <= i < |ms| ==> Countable(ms[i].value)
    case Array(items) => |items| <= MAX_UINT64 && forall i :: 0 <= i < |items| ==> Countable(items[i])
    case _ => true
  }

  /**
   * The scan reports nothing exactly when every object at every depth has distinct, allowed and required
   * members, a known kind where it is a union, and known enum values.
   */
  lemma {:induction false} ScanPassesClosed(t: Tables, v: Json, prefix: seq<string>, minor: bool)
    requires Countable(v)
    ensures ValueIssues(t, v, Pointer(prefix), minor) == [] <==> Closed(t, v, prefix)
    decreases v, 1
  {
    match v {
      case Object(_) => ScanPassesObject(t, v, prefix, minor);
      case Array(_) => ScanPassesArray(t, v, prefix, minor);
      case _ => NothingBelow(t, v, prefix);
    }
  }

  lemma {:induction false} ScanPassesObject(t: Tables, v: Json, prefix: seq<string>, minor: bool)
    requires v.Object? && Countable(v)
    ensures ValueIssues(t, v, Pointer(prefix), minor) == [] <==> Closed(t, v, prefix)
    decreases v, 0
  {
    var ms := v.members;
    ObjectPasses(t, v, Pointer(prefix), minor);
    MemberPaths(t, v, prefix);
    forall i | 0 <= i < |ms|
      ensures ValueQuiet(t, ms, i, Pointer(prefix), minor) <==> Closed(t, Visited(ms, i), prefix + [ms[i].name])
    {
      PointerOfChild(prefix, ms[i].name);
      ScanPassesClosed(t, Visited(ms, i), prefix + [ms[i].name], minor);
    }
  }

  lemma {:induction false} ScanPassesArray(t: Tables, v: Json, prefix: seq<string>, minor: bool)
    requires v.Array? && Countable(v)
    ensures ValueIssues(t, v, Pointer(prefix), minor) == [] <==> Closed(t, v, prefix)
    decreases v, 0
  {
    NothingInAny(ItemLists(t, v, Pointer(prefix), minor));
    ItemPaths(t, v, prefix);
    forall i | 0 <= i < |v.items|
      ensures ItemLists(t, v, Pointer(prefix), minor)[i] == [] <==> Closed(t, v.items[i], prefix + [Itoa(i)])
    {
      PointerOfChild(prefix, Itoa(i));
      DigitsEscapePlain(Itoa(i));
      ScanPassesClosed(t, v.items[i], prefix + [Itoa(i)], minor);
    }
  }

  /** For a whole document: no issue exactly when it is an object closed at every depth. */
  method ScanDocument(t: Tables, root: Json, minor: bool) returns (issues: seq<Issue>)
    requires Countable(root)
    ensures issues == [] <==> root.Object? && Closed(t, root, [])
  {
    issues := ScanWithMode(t, root, minor);
    if root.Object? {
      ScanPassesClosed(t, root, [], minor);
    }
  }

  lemma NothingBelow(t: Tables, v: Json, prefix: seq<string>)
    requires !v.Object? && !v.Array?
    ensures Closed(t, v, prefix)
  {
    forall path
      ensures ClosedAt(t, v, prefix, path)
    {
    }
  }

  // ---------------------------------------------------------------- the two modes

  function Relabelled(i: Issue): Issue { if i.code == UnknownFieldCode then i.(code := NewerMinorIgnoredCode) else i }

  function Relabel(s: seq<Issue>): (r: seq<Issue>)
    ensures |r| == |s|
  {
    seq(|s|, k requires 0 <= k < |s| => Relabelled(s[k]))
  }

  lemma RelabelAfter(a: seq<Issue>, b: seq<Issue>)
    ensures Relabel(a + b) == Relabel(a) + Relabel(b)
  {
  }

  ghost predicate NoUnknownCode(s: seq<Issue>) { forall i :: i in s ==> i.code != UnknownFieldCode }

  lemma KeptByRelabel(s: seq<Issue>)
    requires NoUnknownCode(s)
    ensures Relabel(s) == s
  {
    assert forall k :: 0 <= k < |s| ==> s[k] in s;
  }

  lemma {:induction false} DuplicatesAreOtherCodes(ms: seq<Member>, pointer: string)
    ensures NoUnknownCode(DuplicateIssues(ms, pointer))
  {
    if ms != [] {
      DuplicatesAreOtherCodes(ms[..|ms| - 1], pointer);
    }
  }

  lemma {:induction false} RequiredAreOtherCodes(required: seq<string>, ms: seq<Member>, pointer: string)
    ensures NoUnknownCode(RequiredIssues(required, ms, pointer))
  {
    if required != [] {
      RequiredAreOtherCodes(required[..|required| - 1], ms, pointer);
    }
  }

  lemma HeadIsKept(t: Tables, ms: seq<Member>, pointer: string)
    ensures Relabel(HeadIssues(t, ms, pointer)) == HeadIssues(t, ms, pointer)
  {
    DuplicatesAreOtherCodes(ms, pointer);
    RequiredAreOtherCodes(Required(t, Normalize(pointer), ms), ms, pointer);
    KeptByRelabel(HeadIssues(t, ms, pointer));
  }

  lemma {:induction false} RelabelEach(exact: seq<seq<Issue>>, minor: seq<seq<Issue>>)
    requires |exact| == |minor| && forall i :: 0 <= i < |exact| ==> minor[i] == Relabel(exact[i])
    ensures Concat(minor) == Relabel(Concat(exact))
  {
    if exact != [] {
      var n := |exact| - 1;
      RelabelEach(exact[..n], minor[..n]);
      RelabelAfter(Concat(exact[..n]), exact[n]);
    }
  }

  /** Both modes report the same issues in the same order; only the code of an unknown member differs. */
  lemma {:induction false} ModesDifferInCode(t: Tables, v: Json, pointer: string)
    ensures ValueIssues(t, v, pointer, true) == Relabel(ValueIssues(t, v, pointer, false))
    decreases v, 1, 0
  {
    match v {
      case Object(ms) =>
        var exact, minor := MemberLists(t, v, pointer, false), MemberLists(t, v, pointer, true);
        HeadIsKept(t, ms, pointer);
        forall i | 0 <= i < |ms|
          ensures minor[i] == Relabel(exact[i])
        {
          MemberDiffersInCode(t, v, i, pointer);
        }
        RelabelEach(exact, minor);
        RelabelAfter(HeadIssues(t, ms, pointer), Concat(exact));
      case Array(items) =>
        var exact, minor := ItemLists(t, v, pointer, false), ItemLists(t, v, pointer, true);
        forall i | 0 <= i < |items|
          ensures minor[i] == Relabel(exact[i])
        {
          ModesDifferInCode(t, items[i], pointer + "/" + Itoa(i));
        }
        RelabelEach(exact, minor);
      case _ =>
    }
  }

  lemma {:induction false} MemberDiffersInCode(t: Tables, v: Json, i: nat, pointer: string)
    requires v.Object? && i < |v.members|
    ensures MemberIssues(t, v, i, pointer, true) == Relabel(MemberIssues(t, v, i, pointer, false))
    decreases v, 0, 0
  {
    var ms, name := v.members, v.members[i].name;
    var unknown, enums := UnknownIssues(t, ms, pointer, name, false), EnumIssues(t, ms, pointer, name);
    var nested := ValueIssues(t, Visited(ms, i), Child(pointer, name), false);
    ModesDifferInCode(t, Visited(ms, i), Child(pointer, name));
    KeptByRelabel(enums);
    assert UnknownIssues(t, ms, pointer, name, true) == Relabel(unknown);
    RelabelAfter(unknown, enums);
    RelabelAfter(unknown + enums, nested);
  }
}
