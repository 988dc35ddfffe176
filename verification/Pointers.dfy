/** JSON Pointers as the decoder builds them (RFC 6901, sections 3 and 4): escaping, joining, normalizing. */
module Pointers {
  import opened Text

  // ---------------------------------------------------------------- escaping

  /** strings.ReplaceAll of one character. */
  function Replace(s: string, c: char, t: string): string
  {
    if s == "" then "" else (if s[0] == c then t else [s[0]]) + Replace(s[1..], c, t)
  }

  /** escapePointer: first `~`, then `/`. */
  function Escape(s: string): string { Replace(Replace(s, '~', "~0"), '/', "~1") }

  /** The reader's side of RFC 6901, section 4. */
  function Unescape(s: string): string
  {
    if s == "" then ""
    else if s[0] == '~' && |s| >= 2 && s[1] == '1' then "/" + Unescape(s[2..])
    else if s[0] == '~' && |s| >= 2 && s[1] == '0' then "~" + Unescape(s[2..])
    else [s[0]] + Unescape(s[1..])
  }

  function EscapedChar(c: char): string { if c == '~' then "~0" else if c == '/' then "~1" else [c] }

  lemma {:induction false} ReplaceAfter(a: string, b: string, c: char, t: string)
    ensures Replace(a + b, c, t) == Replace(a, c, t) + Replace(b, c, t)
  {
    if a == "" {
      assert a + b == b;
    } else {
      assert (a + b)[1..] == a[1..] + b;
      ReplaceAfter(a[1..], b, c, t);
    }
  }

  /** The two passes act on one character at a time. */
  lemma EscapeStep(s: string)
    requires s != ""
    ensures Escape(s) == EscapedChar(s[0]) + Escape(s[1..])
  {
    var head := if s[0] == '~' then "~0" else [s[0]];
    ReplaceAfter(head, Replace(s[1..], '~', "~0"), '/', "~1");
    if s[0] == '~' {
      assert Replace(head[1..], '/', "~1") == "0";
    }
  }

  /** Reading undoes escaping. */
  lemma {:induction false} UnescapeEscape(s: string)
    ensures Unescape(Escape(s)) == s
  {
    if s != "" {
      EscapeStep(s);
      UnescapeEscape(s[1..]);
      var t := EscapedChar(s[0]) + Escape(s[1..]);
      assert t[|EscapedChar(s[0])|..] == Escape(s[1..]);
      if s[0] != '~' && s[0] != '/' {
        assert t[1..] == Escape(s[1..]);
      } else {
        assert t[2..] == Escape(s[1..]);
      }
    }
  }

  predicate NoSlash(s: string) { forall i :: 0 <= i < |s| ==> s[i] != '/' }

  lemma {:induction false} EscapeHasNoSlash(s: string)
    ensures NoSlash(Escape(s))
  {
    if s != "" {
      EscapeStep(s);
      EscapeHasNoSlash(s[1..]);
    }
  }

  lemma EscapeInjective(a: string, b: string)
    requires Escape(a) == Escape(b)
    ensures a == b
  {
    UnescapeEscape(a);
    UnescapeEscape(b);
  }

  // ---------------------------------------------------------------- pointers

  /** The pointer to the place a path of reference tokens leads to. */
  function Pointer(path: seq<string>): string
  {
    if path == [] then "" else Pointer(path[..|path| - 1]) + "/" + Escape(path[|path| - 1])
  }

  lemma NoSlashAfter(a: string, s: string)
    requires NoSlash(s)
    ensures var p := a + "/" + s; p[|a|] == '/' && forall k :: |a| < k < |p| ==> p[k] != '/'
  {
    var p := a + "/" + s;
    forall k | |a| < k < |p|
      ensures p[k] != '/'
    {
      assert p[k] == s[k - |a| - 1];
    }
  }

  lemma LastSlash(a: string, s: string, b: string, t: string)
    requires a + "/" + s == b + "/" + t && NoSlash(s) && NoSlash(t)
    ensures a == b && s == t
  {
    var p, q := a + "/" + s, b + "/" + t;
    NoSlashAfter(a, s);
    NoSlashAfter(b, t);
    assert |a| == |b|;
    assert p[..|a|] == a && q[..|b|] == b && p[|a| + 1..] == s && q[|b| + 1..] == t;
  }

  /** Distinct paths have distinct pointers. */
  lemma {:induction false} PointerInjective(a: seq<string>, b: seq<string>)
    requires Pointer(a) == Pointer(b)
    ensures a == b
  {
    if a != [] && b != [] {
      var m, n := |a| - 1, |b| - 1;
      EscapeHasNoSlash(a[m]);
      EscapeHasNoSlash(b[n]);
      LastSlash(Pointer(a[..m]), Escape(a[m]), Pointer(b[..n]), Escape(b[n]));
      PointerInjective(a[..m], b[..n]);
      EscapeInjective(a[m], b[n]);
      assert a == a[..m] + [a[m]] && b == b[..n] + [b[n]];
    }
  }

  // ---------------------------------------------------------------- normalizing

  const MAX_INT: nat := 0x7FFF_FFFF_FFFF_FFFF

  /** strconv.Atoi succeeds: an optional sign, decimal digits, and a 64-bit result. */
  predicate IsInteger(s: string)
  {
    var signed := s != "" && (s[0] == '-' || s[0] == '+');
    var digits := if signed then s[1..] else s;
    digits != "" && AllDigits(digits) && Value(digits) <= if signed && s[0] == '-' then MAX_INT + 1 else MAX_INT
  }

  function Star(token: string): string { if IsInteger(token) then "*" else token }

  /** strings.Split at every slash. */
  function Split(s: string): (parts: seq<string>)
    ensures parts != []
  {
    if s == "" then [""]
    else
      var n := |s| - 1;
      var parts := Split(s[..n]);
      if s[n] == '/' then parts + [""] else parts[..|parts| - 1] + [parts[|parts| - 1] + [s[n]]]
  }

  function Join(parts: seq<string>): string
  {
    if parts == [] then ""
    else if |parts| == 1 then parts[0]
    else Join(parts[..|parts| - 1]) + "/" + parts[|parts| - 1]
  }

  function Stars(parts: seq<string>): (r: seq<string>)
    ensures |r| == |parts|
  {
    seq(|parts|, i requires 0 <= i < |parts| => Star(parts[i]))
  }

  function Normalize(pointer: string): string { Join(Stars(Split(pointer))) }

  /** normalizePointer rewrites the split parts in place. */
  method NormalizePointer(pointer: string) returns (r: string)
    ensures r == Normalize(pointer)
  {
    var split := Split(pointer);
    var parts := new string[|split|](i requires 0 <= i < |split| => split[i]);
    for i := 0 to parts.Length
      invariant forall k :: 0 <= k < i ==> parts[k] == Star(split[k])
      invariant forall k :: i <= k < parts.Length ==> parts[k] == split[k]
    {
      if IsInteger(parts[i]) {
        parts[i] := "*";
      }
    }
    assert parts[..] == Stars(split);
    r := Join(parts[..]);
  }

  lemma {:induction false} SplitLast(p: string, token: string)
    requires NoSlash(token)
    ensures Split(p + "/" + token) == Split(p) + [token]
  {
    var s := p + "/" + token;
    if token == "" {
      assert s[..|s| - 1] == p;
    } else {
      var n := |token| - 1;
      assert s[..|s| - 1] == p + "/" + token[..n] && s[|s| - 1] == token[n];
      SplitLast(p, token[..n]);
      assert token == token[..n] + [token[n]];
    }
  }

  /** One token more normalizes to one token more: a number, an array index or not, becomes a star. */
  lemma NormalizeChild(p: string, token: string)
    requires NoSlash(token)
    ensures Normalize(p + "/" + token) == Normalize(p) + "/" + Star(token)
  {
    SplitLast(p, token);
    var parts := Stars(Split(p) + [token]);
    assert parts == Stars(Split(p)) + [Star(token)];
    assert parts[..|parts| - 1] == Stars(Split(p));
  }

  lemma {:induction false} SplitNoSlash(s: string)
    requires NoSlash(s)
    ensures Split(s) == [s]
  {
    if s != "" {
      SplitNoSlash(s[..|s| - 1]);
      assert s == s[..|s| - 1] + [s[|s| - 1]];
    }
  }
}
