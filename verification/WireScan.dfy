/**
 * The recursive scan of internal/schema/v1/decode.go over a parsed JSON tree. The structural tables of
 * wire_shape.go are a parameter.
 */
module WireScan {
  import opened Text
  import opened Model
  import opened Pointers

  datatype Member = Member(name: string, value: Json)

  datatype Json = Null | Flag(b: bool) | Number(text: string) | Str(text: string) | Array(items: seq<Json>) | Object(members: seq<Member>)

  /** Decoding into a Go string: null leaves it empty. */
  function AsText(v: Json): Option<string>
  {
    match v
    case Str(s) => Some(s)
    case Null => Some("")
    case _ => None
  }

  /** The tables: closed member sets, closed sets by union kind, required members by union kind, enum values. */
  datatype Tables = Tables(
    shape: map<string, set<string>>,
    unions: map<string, map<string, set<string>>>,
    required: map<string, map<string, seq<string>>>,
    enums: map<string, seq<string>>,
    results: map<string, seq<string>>)

  // ---------------------------------------------------------------- members

  /** The last member with the name; the number of members when there is none. */
  function LastIndex(ms: seq<Member>, name: string): (i: nat)
    ensures i <= |ms|
    ensures i < |ms| ==> ms[i].name == name
    ensures i == |ms| <==> forall k :: 0 <= k < |ms| ==> ms[k].name != name
  {
    if ms == [] then 0
    else if ms[|ms| - 1].name == name then |ms| - 1
    else
      var i := LastIndex(ms[..|ms| - 1], name);
      if i == |ms| - 1 then |ms| else i
  }

  predicate HasMember(ms: seq<Member>, name: string) { LastIndex(ms, name) < |ms| }

  /** The member a Go map keeps under the name. */
  function MemberOf(ms: seq<Member>, name: string): Json
    requires HasMember(ms, name)
  {
    ms[LastIndex(ms, name)].value
  }

  /** The union kind of an object, when it has one that is a string. */
  function KindOf(ms: seq<Member>): Option<string>
  {
    if HasMember(ms, "kind") then AsText(MemberOf(ms, "kind")) else None
  }

  // ---------------------------------------------------------------- the tables applied

  /** wireFields: the union error, and the allowed members when they are closed. */
  function UnionError(t: Tables, p: string, ms: seq<Member>): bool
  {
    p in t.unions && (KindOf(ms).None? || KindOf(ms).value !in t.unions[p])
  }

  function Allowed(t: Tables, p: string, ms: seq<Member>): Option<set<string>>
  {
    if p in t.unions then (if UnionError(t, p, ms) then None else Some(t.unions[p][KindOf(ms).value]))
    else if p in t.shape then Some(t.shape[p]) else None
  }

  /** wireRequiredFields */
  function Required(t: Tables, p: string, ms: seq<Member>): seq<string>
  {
    if p in t.required && KindOf(ms).Some? && KindOf(ms).value in t.required[p] then t.required[p][KindOf(ms).value] else []
  }

  const PAYLOAD := "/observations/*/payload"

  /** wireEnumValues for a member that is no union kind; no values when anything goes. */
  function EnumValues(t: Tables, p: string, key: string, ms: seq<Member>): seq<string>
  {
    if p + "/" + key in t.enums then t.enums[p + "/" + key]
    else if p == PAYLOAD && KindOf(ms).Some? && key in {"result", "result_kind", "match_result"} then
      if KindOf(ms).value in t.results then t.results[KindOf(ms).value] else []
    else if key == "protocol" then ["TCP", "UDP"]
    else if key == "address_family" then ["IPV4", "IPV6"]
    else if key == "bind_semantics" then ["EXACT", "WILDCARD", "LOOPBACK"]
    else []
  }

  predicate EnumChecked(t: Tables, p: string, key: string, ms: seq<Member>)
  {
    EnumValues(t, p, key, ms) != [] && !(key == "kind" && p in t.unions)
  }

  predicate EnumValid(t: Tables, p: string, key: string, ms: seq<Member>)
    requires HasMember(ms, key)
  {
    var value := AsText(MemberOf(ms, key));
    EnumChecked(t, p, key, ms) ==> value.Some? && value.value in EnumValues(t, p, key, ms)
  }

  // ---------------------------------------------------------------- issues

  function Child(pointer: string, name: string): string { pointer + "/" + Escape(name) }

  function DuplicateIssues(ms: seq<Member>, pointer: string): seq<Issue>
  {
    if ms == [] then []
    else
      var n := |ms| - 1;
      DuplicateIssues(ms[..n], pointer) +
      if HasMember(ms[..n], ms[n].name)
      then [Issue(DuplicateFieldCode, Child(pointer, ms[n].name), "duplicate object member")] else []
  }

  function UnionIssues(t: Tables, ms: seq<Member>, pointer: string): seq<Issue>
  {
    if !UnionError(t, Normalize(pointer), ms) then []
    else if !HasMember(ms, "kind") then [Issue(MissingFieldCode, pointer + "/kind", "union kind is required")]
    else [Issue(UnknownUnionKindCode, pointer + "/kind", "unknown union kind")]
  }

  function RequiredIssues(required: seq<string>, ms: seq<Member>, pointer: string): seq<Issue>
  {
    if required == [] then []
    else
      var last := required[|required| - 1];
      RequiredIssues(required[..|required| - 1], ms, pointer) +
      if HasMember(ms, last) then []
      else [Issue(MissingFieldCode, Child(pointer, last), "required member is missing")]
  }

  function UnknownCode(minor: bool): Code { if minor then NewerMinorIgnoredCode else UnknownFieldCode }

  function UnknownIssues(t: Tables, ms: seq<Member>, pointer: string, name: string, minor: bool): seq<Issue>
  {
    var allowed := Allowed(t, Normalize(pointer), ms);
    if allowed.Some? && name !in allowed.value
    then [Issue(UnknownCode(minor), Child(pointer, name), "unknown member")] else []
  }

  function EnumIssues(t: Tables, ms: seq<Member>, pointer: string, name: string): seq<Issue>
    requires HasMember(ms, name)
  {
    if EnumValid(t, Normalize(pointer), name, ms) then []
    else [Issue(UnknownEnumCode, Child(pointer, name),
                if Child(pointer, name) == "/goal/kind" then "unknown goal enum" else "unknown enum value")]
  }

  /** What scanObject reports about the object itself, before it looks at the members one by one. */
  function HeadIssues(t: Tables, ms: seq<Member>, pointer: string): seq<Issue>
  {
    DuplicateIssues(ms, pointer) + UnionIssues(t, ms, pointer) +
    if UnionError(t, Normalize(pointer), ms) then []
    else RequiredIssues(Required(t, Normalize(pointer), ms), ms, pointer)
  }

  function Concat(lists: seq<seq<Issue>>): seq<Issue>
  {
    if lists == [] then [] else Concat(lists[..|lists| - 1]) + lists[|lists| - 1]
  }

  lemma ConcatNext(lists: seq<seq<Issue>>, i: nat)
    requires i < |lists|
    ensures Concat(lists[..i + 1]) == Concat(lists[..i]) + lists[i]
  {
    assert lists[..i + 1][..i] == lists[..i];
  }

  /** What the scan reports about a value at a pointer. */
  function ValueIssues(t: Tables, v: Json, pointer: string, minor: bool): seq<Issue>
    decreases v, 1, 0
  {
    match v
    case Object(ms) => HeadIssues(t, ms, pointer) + Concat(MemberLists(t, v, pointer, minor))
    case Array(_) => Concat(ItemLists(t, v, pointer, minor))
    case _ => []
  }

  /** Member i; a repeated name brings the last value under it up once more. */
  function MemberIssues(t: Tables, v: Json, i: nat, pointer: string, minor: bool): seq<Issue>
    requires v.Object? && i < |v.members|
    decreases v, 0, 0
  {
    var name := v.members[i].name;
    var value := v.members[LastIndex(v.members, name)].value;
    UnknownIssues(t, v.members, pointer, name, minor) + EnumIssues(t, v.members, pointer, name) +
    ValueIssues(t, value, Child(pointer, name), minor)
  }

  function MemberLists(t: Tables, v: Json, pointer: string, minor: bool): (lists: seq<seq<Issue>>)
    requires v.Object?
    ensures |lists| == |v.members|
    decreases v, 0, 1
  {
    seq(|v.members|, i requires 0 <= i < |v.members| => MemberIssues(t, v, i, pointer, minor))
  }

  function ItemLists(t: Tables, v: Json, pointer: string, minor: bool): (lists: seq<seq<Issue>>)
    requires v.Array?
    ensures |lists| == |v.items|
    decreases v, 0, 1
  {
    seq(|v.items|, i requires 0 <= i < |v.items| => ValueIssues(t, v.items[i], pointer + "/" + Itoa(i), minor))
  }

  // ---------------------------------------------------------------- the scanner

  method ScanHead(t: Tables, ms: seq<Member>, pointer: string, found: seq<Issue>) returns (issues: seq<Issue>)
    ensures issues == found + HeadIssues(t, ms, pointer)
  {
    var own: seq<Issue> := [];
    var seen: set<string> := {};
    for i := 0 to |ms|
      invariant forall name :: name in seen <==> HasMember(ms[..i], name)
      invariant own == DuplicateIssues(ms[..i], pointer)
    {
      var key := ms[i].name;
      assert ms[..i + 1][..i] == ms[..i];
      if key in seen {
        own := own + [Issue(DuplicateFieldCode, Child(pointer, key), "duplicate object member")];
      }
      seen := seen + {key};
    }
    assert ms[..|ms|] == ms;
    var p := NormalizePointer(pointer);
    var unionError := UnionError(t, p, ms);
    own := own + UnionIssues(t, ms, pointer);
    if !unionError {
      own := ScanRequired(Required(t, p, ms), ms, pointer, own);
    }
    issues := found + own;
  }

  method ScanRequired(required: seq<string>, ms: seq<Member>, pointer: string, found: seq<Issue>) returns (issues: seq<Issue>)
    ensures issues == found + RequiredIssues(required, ms, pointer)
  {
    issues := found;
    for i := 0 to |required|
      invariant issues == found + RequiredIssues(required[..i], ms, pointer)
    {
      assert required[..i + 1][..i] == required[..i];
      if !HasMember(ms, required[i]) {
        issues := issues + [Issue(MissingFieldCode, Child(pointer, required[i]), "required member is missing")];
      }
    }
    assert required[..|required|] == required;
  }

  lemma Associative(a: seq<Issue>, b: seq<Issue>, c: seq<Issue>)
    ensures a + b + c == a + (b + c)
  {
  }

  /** scanObject: head first, then the members in document order, each through the map of last values. */
  method ScanObject(t: Tables, v: Json, pointer: string, minor: bool, found: seq<Issue>) returns (issues: seq<Issue>)
    requires v.Object?
    ensures issues == found + ValueIssues(t, v, pointer, minor)
    decreases v, 0, 2
  {
    issues := ScanHead(t, v.members, pointer, found);
    issues := ScanMembers(t, v, pointer, minor, issues);
    Associative(found, HeadIssues(t, v.members, pointer), Concat(MemberLists(t, v, pointer, minor)));
  }

  method ScanMembers(t: Tables, v: Json, pointer: string, minor: bool, found: seq<Issue>) returns (issues: seq<Issue>)
    requires v.Object?
    ensures issues == found + Concat(MemberLists(t, v, pointer, minor))
    decreases v, 0, 1
  {
    issues := found;
    ghost var lists := MemberLists(t, v, pointer, minor);
    for i := 0 to |v.members|
      invariant issues == found + Concat(lists[..i])
    {
      ConcatNext(lists, i);
      issues := ScanMember(t, v, i, pointer, minor, issues);
      Associative(found, Concat(lists[..i]), lists[i]);
    }
    assert lists[..|v.members|] == lists;
  }

  method ScanMember(t: Tables, v: Json, i: nat, pointer: string, minor: bool, found: seq<Issue>) returns (issues: seq<Issue>)
    requires v.Object? && i < |v.members|
    ensures issues == found + MemberIssues(t, v, i, pointer, minor)
    decreases v, 0, 0
  {
    var name := v.members[i].name;
    var value := v.members[LastIndex(v.members, name)].value;
    var own := UnknownIssues(t, v.members, pointer, name, minor) + EnumIssues(t, v.members, pointer, name);
    issues := ScanNested(t, value, Child(pointer, name), minor, found + own);
    Associative(found, own, ValueIssues(t, value, Child(pointer, name), minor));
  }

  /** scanNested */
  method ScanNested(t: Tables, v: Json, pointer: string, minor: bool, found: seq<Issue>) returns (issues: seq<Issue>)
    ensures issues == found + ValueIssues(t, v, pointer, minor)
    decreases v, 1, 0
  {
    issues := found;
    match v {
      case Object(_) => issues := ScanObject(t, v, pointer, minor, found);
      case Array(_) => issues := ScanItems(t, v, pointer, minor, found);
      case _ =>
    }
  }

  method ScanItems(t: Tables, v: Json, pointer: string, minor: bool, found: seq<Issue>) returns (issues: seq<Issue>)
    requires v.Array?
    ensures issues == found + Concat(ItemLists(t, v, pointer, minor))
    decreases v, 0, 0
  {
    issues := found;
    ghost var lists := ItemLists(t, v, pointer, minor);
    for i := 0 to |v.items|
      invariant issues == found + Concat(lists[..i])
    {
      ConcatNext(lists, i);
      issues := ScanNested(t, v.items[i], pointer + "/" + Itoa(i), minor, issues);
      Associative(found, Concat(lists[..i]), lists[i]);
    }
    assert lists[..|v.items|] == lists;
  }

  /** scanWithMode: a document that is no object is invalid. */
  method ScanWithMode(t: Tables, root: Json, minor: bool) returns (issues: seq<Issue>)
    ensures root.Object? ==> issues == ValueIssues(t, root, "", minor)
    ensures !root.Object? ==> issues == [Issue(InvalidJsonCode, "/", "object expected")]
  {
    if !root.Object? {
      return [Issue(InvalidJsonCode, "/", "object expected")];
    }
    issues := ScanObject(t, root, "", minor, []);
  }
}
