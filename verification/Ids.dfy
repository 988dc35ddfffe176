/** Generated claim and finding IDs of internal/model/ids.go: validity, printing and the numeric comparison. */
module Ids {
  import opened Text
  import opened Sorting

  const CLAIM_PREFIX := "claim-"
  const FINDING_PREFIX := "finding-"

  predicate IdCharacter(c: char)
  {
    '!' <= c <= '~' && c != '\"' && c != '\'' && c != '\\' && c != '/'
  }

  /** validID with generated set: prefix, at least six digits, a positive number within 64 bits. */
  predicate ValidGenerated(s: string, prefix: string)
  {
    && HasPrefix(s, prefix)
    && |s| > |prefix|
    && var rest := s[|prefix|..];
    && (forall i :: 0 <= i < |rest| ==> IdCharacter(rest[i]))
    && |rest| >= 6
    && AllDigits(rest)
    && ParseUint(rest).Some?
    && ParseUint(rest).value != 0
  }

  /** validID without the generated flag: printable after the prefix, no short number with a leading zero. */
  predicate ValidPlain(s: string, prefix: string)
  {
    && HasPrefix(s, prefix)
    && |s| > |prefix|
    && var rest := s[|prefix|..];
    && (forall i :: 0 <= i < |rest| ==> IdCharacter(rest[i]))
    && !(AllDigits(rest) && |rest| > 1 && rest[0] == '0' && |rest| < 6)
  }

  /** generatedNumber: the number of a valid generated ID. */
  function GeneratedNumber(s: string, prefix: string): (r: Option<nat>)
    ensures r.Some? <==> ValidGenerated(s, prefix)
  {
    if ValidGenerated(s, prefix) then ParseUint(s[|prefix|..]) else None
  }

  /** generatedID of the validator, and claimID and findingID of the evaluator: at least six digits. */
  function GeneratedId(prefix: string, n: nat): string
  {
    prefix + Pad(Itoa(n), 6)
  }

  /** strings.Compare */
  function CompareStrings(a: string, b: string): int
  {
    if a == b then 0 else if Less(a, b) then -1 else 1
  }

  /** compareUintIDs: by number when both IDs are valid, by text otherwise. */
  function CompareIds(a: string, b: string, prefix: string): int
  {
    var x, y := GeneratedNumber(a, prefix), GeneratedNumber(b, prefix);
    if x.None? || y.None? then CompareStrings(a, b)
    else if x.value < y.value then -1
    else if x.value > y.value then 1
    else 0
  }

  /** Printing and parsing are inverse on the numbers 64 bits hold. */
  lemma GeneratedRoundTrip(prefix: string, n: nat)
    requires 1 <= n <= MAX_UINT64
    ensures ValidGenerated(GeneratedId(prefix, n), prefix)
    ensures GeneratedNumber(GeneratedId(prefix, n), prefix) == Some(n)
  {
    var s := GeneratedId(prefix, n);
    var rest := Pad(Itoa(n), 6);
    assert s[|prefix|..] == rest && prefix <= s;
    PadValue(Itoa(n), 6);
    ItoaValue(n);
  }

  lemma GeneratedIdInjective(prefix: string, m: nat, n: nat)
    requires GeneratedId(prefix, m) == GeneratedId(prefix, n)
    ensures m == n
  {
    assert GeneratedId(prefix, m)[|prefix|..] == Pad(Itoa(m), 6);
    assert GeneratedId(prefix, n)[|prefix|..] == Pad(Itoa(n), 6);
    PadValue(Itoa(m), 6);
    PadValue(Itoa(n), 6);
    ItoaValue(m);
    ItoaValue(n);
  }

  /** The comparison orders printed IDs as numbers, also past the six digits where text order fails. */
  lemma CompareGenerated(prefix: string, m: nat, n: nat)
    requires 1 <= m <= MAX_UINT64 && 1 <= n <= MAX_UINT64
    ensures CompareIds(GeneratedId(prefix, m), GeneratedId(prefix, n), prefix) < 0 <==> m < n
    ensures CompareIds(GeneratedId(prefix, m), GeneratedId(prefix, n), prefix) == 0 <==> m == n
  {
    GeneratedRoundTrip(prefix, m);
    GeneratedRoundTrip(prefix, n);
  }

  /** Among valid IDs, and among invalid ones, the comparison is transitive. */
  lemma CompareTransitive(a: string, b: string, c: string, prefix: string)
    requires ValidGenerated(a, prefix) == ValidGenerated(b, prefix) == ValidGenerated(c, prefix)
    requires CompareIds(a, b, prefix) < 0 && CompareIds(b, c, prefix) < 0
    ensures CompareIds(a, c, prefix) < 0
  {
    if !ValidGenerated(a, prefix) {
      LessTransitive(a, b, c);
      LessIrreflexive(a);
    }
  }

  function IdLess(prefix: string): (string, string) -> bool { (a: string, b: string) => CompareIds(a, b, prefix) < 0 }

  /** An invalid ID stands, as text, between two valid ones whose numbers are not in that order. */
  predicate Wedged(x: string, y: string, z: string, prefix: string)
  {
    && ValidGenerated(x, prefix) && ValidGenerated(y, prefix) && !ValidGenerated(z, prefix)
    && Less(y, z) && Less(z, x)
    && GeneratedNumber(x, prefix).value <= GeneratedNumber(y, prefix).value
  }

  /** The comparison puts a list of IDs in a strict weak order exactly when it holds no wedged ID. */
  lemma CompareIsWeakExactly(s: seq<string>, prefix: string)
    ensures Weak(IdLess(prefix), s) <==> forall x, y, z :: x in s && y in s && z in s ==> !Wedged(x, y, z, prefix)
  {
    if Weak(IdLess(prefix), s) {
      forall x, y, z | x in s && y in s && z in s
        ensures !Wedged(x, y, z, prefix)
      {
        if Wedged(x, y, z, prefix) {
          WedgeTurnsBack(x, y, z, prefix);
        }
      }
    } else {
      CompareTiesAll(s, prefix);
      if x, y, z :| x in s && y in s && z in s && IdLess(prefix)(x, y) && IdLess(prefix)(y, z) && !IdLess(prefix)(x, z) {
        UnorderedIsWedged(x, y, z, prefix);
      } else {
        var x, y, z :| x in s && y in s && z in s && IdLess(prefix)(x, z) && !IdLess(prefix)(x, y) && !IdLess(prefix)(y, z);
        UnorderedIsWedged(x, y, z, prefix);
      }
    }
  }

  lemma CompareTiesAll(s: seq<string>, prefix: string)
    ensures forall x :: x in s ==> !IdLess(prefix)(x, x)
  {
    forall x | x in s
      ensures !IdLess(prefix)(x, x)
    {
      CompareTies(x, x, prefix);
    }
  }

  lemma WedgeTurnsBack(x: string, y: string, z: string, prefix: string)
    requires Wedged(x, y, z, prefix)
    ensures CompareIds(y, z, prefix) < 0 && CompareIds(z, x, prefix) < 0 && !(CompareIds(y, x, prefix) < 0)
  {
    LessIrreflexive(z);
  }

  /** Three IDs the comparison does not order are two valid ones and an invalid one between them. */
  lemma UnorderedIsWedged(x: string, y: string, z: string, prefix: string)
    requires var less := IdLess(prefix); (less(x, y) && less(y, z) && !less(x, z)) || (less(x, z) && !less(x, y) && !less(y, z))
    ensures Wedged(x, z, y, prefix) || Wedged(z, x, y, prefix) || Wedged(y, z, x, prefix) || Wedged(z, y, x, prefix) ||
            Wedged(x, y, z, prefix) || Wedged(y, x, z, prefix)
  {
    LessTrichotomy(x, y);
    LessTrichotomy(y, z);
    LessTrichotomy(x, z);
    TextOrder(x, y, z);
    TextOrder(y, x, z);
    TextOrder(x, z, y);
    TextOrder(z, x, y);
    TextOrder(z, y, x);
    TextOrder(y, z, x);
  }

  lemma TextOrder(x: string, y: string, z: string)
    ensures !Less(x, x) && !(Less(x, y) && Less(y, x))
    ensures Less(x, y) && Less(y, z) ==> Less(x, z)
  {
    LessIrreflexive(x);
    if Less(x, y) {
      LessAsymmetric(x, y);
      if Less(y, z) {
        LessTransitive(x, y, z);
      }
    }
  }

  /** With one invalid ID among valid ones it is not: these three are in a circle. */
  lemma CompareNotTransitive() returns (a: string, b: string, c: string)
    ensures ValidGenerated(a, CLAIM_PREFIX) && ValidGenerated(b, CLAIM_PREFIX) && !ValidGenerated(c, CLAIM_PREFIX)
    ensures CompareIds(a, b, CLAIM_PREFIX) < 0 && CompareIds(b, c, CLAIM_PREFIX) < 0 && CompareIds(c, a, CLAIM_PREFIX) < 0
  {
    a, b, c := GeneratedId(CLAIM_PREFIX, 999999), GeneratedId(CLAIM_PREFIX, 1000000), CLAIM_PREFIX + "5";
    GeneratedRoundTrip(CLAIM_PREFIX, 999999);
    GeneratedRoundTrip(CLAIM_PREFIX, 1000000);
    CompareGenerated(CLAIM_PREFIX, 999999, 1000000);
    Numerals();
    LessAfterPrefix(CLAIM_PREFIX, "1000000", "5");
    LessAfterPrefix(CLAIM_PREFIX, "5", "999999");
    assert c[|CLAIM_PREFIX|..] == "5";
    assert a != b && b != c && a != c;
  }

  lemma Numerals()
    ensures Pad(Itoa(999999), 6) == "999999" && Pad(Itoa(1000000), 6) == "1000000"
  {
    assert Itoa(9) == "9" && Itoa(99) == "99" && Itoa(999) == "999";
    assert Itoa(9999) == "9999";
    assert Itoa(99999) == "99999";
    assert Itoa(999999) == "999999";
    assert Itoa(1) == "1" && Itoa(10) == "10" && Itoa(100) == "100";
    assert Itoa(1000) == "1000";
    assert Itoa(10000) == "10000";
    assert Itoa(100000) == "100000";
    assert Itoa(1000000) == "1000000";
  }

  /** Two valid IDs compare equal when their numbers agree, so extra leading zeros make distinct IDs tie. */
  lemma CompareTies(a: string, b: string, prefix: string)
    ensures CompareIds(a, b, prefix) == 0 <==>
            a == b || (ValidGenerated(a, prefix) && GeneratedNumber(a, prefix) == GeneratedNumber(b, prefix))
    ensures CompareIds(a, b, prefix) == -CompareIds(b, a, prefix)
  {
    LessTrichotomy(a, b);
    LessIrreflexive(a);
    if Less(a, b) {
      LessAsymmetric(a, b);
    }
  }
}
