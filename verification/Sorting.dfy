/**
 * Go's sort package as the program sees it. sort.Slice promises a permutation that is in order when
 * `less` is a strict weak order; sort.SliceStable is the stable sort. When `less` is total on the
 * elements, the result is the same for every order the elements arrive in.
 */
module Sorting {
  import opened Text

  ghost predicate Weak<T(!new)>(less: (T, T) -> bool, s: seq<T>)
  {
    && (forall x :: x in s ==> !less(x, x))
    && (forall x, y, z :: x in s && y in s && z in s && less(x, y) && less(y, z) ==> less(x, z))
    && (forall x, y, z :: x in s && y in s && z in s && less(x, z) ==> less(x, y) || less(y, z))
  }

  /** A strict total order on the elements of `s`. */
  ghost predicate Total<T(!new)>(less: (T, T) -> bool, s: seq<T>)
  {
    && (forall x :: x in s ==> !less(x, x))
    && (forall x, y, z :: x in s && y in s && z in s && less(x, y) && less(y, z) ==> less(x, z))
    && (forall x, y :: x in s && y in s && x != y ==> less(x, y) || less(y, x))
  }

  ghost predicate Sorted<T(!new)>(less: (T, T) -> bool, s: seq<T>)
  {
    forall i, j :: 0 <= i < j < |s| ==> !less(s[j], s[i])
  }

  lemma TotalIsWeak<T(!new)>(less: (T, T) -> bool, s: seq<T>)
    requires Total(less, s)
    ensures Weak(less, s)
  {
    forall x, y, z | x in s && y in s && z in s && less(x, z)
      ensures less(x, y) || less(y, z)
    {
      if x != y && !less(x, y) {
        assert less(y, x);
      }
    }
  }

  lemma SameElements<T>(s: seq<T>, t: seq<T>)
    requires multiset(s) == multiset(t)
    ensures |s| == |t|
    ensures forall x :: x in s <==> x in t
  {
    assert |multiset(s)| == |multiset(t)|;
    forall x
      ensures x in s <==> x in t
    {
      assert x in s <==> x in multiset(s);
      assert x in t <==> x in multiset(t);
    }
  }

  lemma TakeNext<T>(s: seq<T>, n: nat)
    requires n < |s|
    ensures s[..n + 1] == s[..n] + [s[n]]
  {
  }

  ghost predicate NoRepeats<T(!new)>(s: seq<T>)
  {
    forall i, j :: 0 <= i < j < |s| ==> s[i] != s[j]
  }

  lemma {:induction false} NoRepeatsOnce<T(!new)>(s: seq<T>)
    ensures NoRepeats(s) <==> forall x :: x in s ==> multiset(s)[x] == 1
  {
    if s != [] {
      var t, x := s[..|s| - 1], s[|s| - 1];
      assert s == t + [x];
      NoRepeatsOnce(t);
      if NoRepeats(s) {
        assert x !in t;
      } else if forall y :: y in s ==> multiset(s)[y] == 1 {
        assert multiset(s)[x] == 1 && x !in multiset(t);
        assert forall y :: y in t ==> y in s && multiset(t)[y] == 1;
      }
    }
  }

  lemma NoRepeatsPermuted<T(!new)>(s: seq<T>, t: seq<T>)
    requires NoRepeats(s) && multiset(s) == multiset(t)
    ensures NoRepeats(t)
  {
    SameElements(s, t);
    NoRepeatsOnce(s);
    NoRepeatsOnce(t);
  }

  lemma TotalOnSame<T(!new)>(less: (T, T) -> bool, s: seq<T>, t: seq<T>)
    requires Total(less, s) && forall x :: x in t ==> x in s
    ensures Total(less, t)
  {
  }

  function Insert<T>(less: (T, T) -> bool, x: T, s: seq<T>): seq<T>
  {
    if s == [] then [x]
    else if less(s[0], x) then [s[0]] + Insert(less, x, s[1..])
    else [x] + s
  }

  /** sort.SliceStable: equal elements keep their order because each is inserted before its equals. */
  function StableSort<T>(less: (T, T) -> bool, s: seq<T>): seq<T>
  {
    if s == [] then [] else Insert(less, s[0], StableSort(less, s[1..]))
  }

  lemma {:induction false} InsertPermutes<T>(less: (T, T) -> bool, x: T, s: seq<T>)
    ensures multiset(Insert(less, x, s)) == multiset{x} + multiset(s)
  {
    if s != [] {
      assert s == [s[0]] + s[1..];
      if less(s[0], x) {
        InsertPermutes(less, x, s[1..]);
      }
    }
  }

  lemma {:induction false} StableSortPermutes<T>(less: (T, T) -> bool, s: seq<T>)
    ensures multiset(StableSort(less, s)) == multiset(s)
    ensures |StableSort(less, s)| == |s|
  {
    if s != [] {
      assert s == [s[0]] + s[1..];
      StableSortPermutes(less, s[1..]);
      InsertPermutes(less, s[0], StableSort(less, s[1..]));
    }
    SameElements(StableSort(less, s), s);
  }

  lemma SortedWithHead<T(!new)>(less: (T, T) -> bool, h: T, s: seq<T>)
    requires Sorted(less, s) && forall y :: y in s ==> !less(y, h)
    ensures Sorted(less, [h] + s)
  {
    var t := [h] + s;
    forall i, j | 0 <= i < j < |t|
      ensures !less(t[j], t[i])
    {
      assert t[j] == s[j - 1] && s[j - 1] in s;
    }
  }

  lemma SortedParts<T(!new)>(less: (T, T) -> bool, s: seq<T>)
    requires Sorted(less, s) && s != []
    ensures Sorted(less, s[1..]) && forall y :: y in s[1..] ==> !less(y, s[0])
  {
    forall y | y in s[1..]
      ensures !less(y, s[0])
    {
      var j :| 0 <= j < |s[1..]| && s[1..][j] == y;
      assert s[j + 1] == y;
    }
  }

  lemma {:induction false} InsertSorted<T(!new)>(less: (T, T) -> bool, x: T, s: seq<T>)
    requires Weak(less, [x] + s) && Sorted(less, s)
    ensures Sorted(less, Insert(less, x, s))
  {
    var t := [x] + s;
    assert forall y :: y in t <==> y == x || y in s;
    if s != [] {
      SortedParts(less, s);
      if less(s[0], x) {
        var rest := Insert(less, x, s[1..]);
        assert forall y :: y in [x] + s[1..] ==> y in t;
        InsertSorted(less, x, s[1..]);
        InsertPermutes(less, x, s[1..]);
        SameElements(rest, [x] + s[1..]);
        HeadBelowInserted(less, x, s, rest);
        SortedWithHead(less, s[0], rest);
      } else {
        HeadBelowRest(less, x, s);
        SortedWithHead(less, x, s);
      }
    }
  }

  lemma HeadBelowInserted<T(!new)>(less: (T, T) -> bool, x: T, s: seq<T>, rest: seq<T>)
    requires s != [] && Weak(less, [x] + s) && less(s[0], x)
    requires (forall y :: y in s[1..] ==> !less(y, s[0])) && forall y :: y in rest <==> y in [x] + s[1..]
    ensures forall y :: y in rest ==> !less(y, s[0])
  {
    assert ([x] + s)[0] == x && ([x] + s)[1] == s[0];
    forall y | y in rest
      ensures !less(y, s[0])
    {
      assert y == x || y in s[1..];
    }
  }

  lemma HeadBelowRest<T(!new)>(less: (T, T) -> bool, x: T, s: seq<T>)
    requires s != [] && Weak(less, [x] + s) && !less(s[0], x) && forall y :: y in s[1..] ==> !less(y, s[0])
    ensures forall y :: y in s ==> !less(y, x)
  {
    var t := [x] + s;
    assert t[0] == x && t[1] == s[0];
    forall y | y in s
      ensures !less(y, x)
    {
      var i :| 0 <= i < |s| && s[i] == y;
      assert t[i + 1] == y && (i > 0 ==> s[1..][i - 1] == y);
      assert x in t && s[0] in t && y in t;
    }
  }

  lemma {:induction false} StableSortSorted<T(!new)>(less: (T, T) -> bool, s: seq<T>)
    requires Weak(less, s)
    ensures Sorted(less, StableSort(less, s))
  {
    if s != [] {
      var t := StableSort(less, s[1..]);
      StableSortSorted(less, s[1..]);
      StableSortPermutes(less, s[1..]);
      SameElements(t, s[1..]);
      assert forall y :: y in [s[0]] + t ==> y in s;
      InsertSorted(less, s[0], t);
    }
  }

  lemma SortedHead<T(!new)>(less: (T, T) -> bool, a: seq<T>, b: seq<T>)
    requires a != [] && b != [] && a[0] in b && b[0] in a && Total(less, a) && Sorted(less, a) && Sorted(less, b)
    ensures a[0] == b[0]
  {
    var i :| 0 <= i < |b| && b[i] == a[0];
    var j :| 0 <= j < |a| && a[j] == b[0];
    assert i > 0 ==> !less(a[0], b[0]);
    assert j > 0 ==> !less(b[0], a[0]);
  }

  lemma SortedTail<T(!new)>(less: (T, T) -> bool, a: seq<T>)
    requires a != [] && Sorted(less, a)
    ensures Sorted(less, a[1..])
  {
  }

  /** In a total order there is one way to be sorted. */
  lemma {:induction false} SortedUnique<T(!new)>(less: (T, T) -> bool, a: seq<T>, b: seq<T>)
    requires multiset(a) == multiset(b) && Total(less, a) && Sorted(less, a) && Sorted(less, b)
    ensures a == b
  {
    SameElements(a, b);
    if a != [] {
      SortedHead(less, a, b);
      var x := a[0];
      SortedTail(less, a);
      SortedTail(less, b);
      TotalOnSame(less, a, a[1..]);
      assert a == [x] + a[1..] && b == [x] + b[1..];
      assert multiset(a[1..]) == multiset(a) - multiset{x};
      assert multiset(b[1..]) == multiset(b) - multiset{x};
      SortedUnique(less, a[1..], b[1..]);
    }
  }

  /** Order independence: every order of arrival sorts to the same sequence. */
  lemma SortOfPermutation<T(!new)>(less: (T, T) -> bool, a: seq<T>, b: seq<T>)
    requires multiset(a) == multiset(b) && Total(less, a)
    ensures StableSort(less, a) == StableSort(less, b)
  {
    SameElements(a, b);
    TotalIsWeak(less, a);
    TotalIsWeak(less, b);
    StableSortSorted(less, a);
    StableSortSorted(less, b);
    StableSortPermutes(less, a);
    StableSortPermutes(less, b);
    SameElements(StableSort(less, a), a);
    SortedUnique(less, StableSort(less, a), StableSort(less, b));
  }

  /** What is already in order stays as it is. */
  lemma SortOfSorted<T(!new)>(less: (T, T) -> bool, a: seq<T>)
    requires Total(less, a) && Sorted(less, a)
    ensures StableSort(less, a) == a
  {
    TotalIsWeak(less, a);
    StableSortSorted(less, a);
    StableSortPermutes(less, a);
    SortedUnique(less, a, StableSort(less, a));
  }

  lemma StableSortIsSortedTotal<T(!new)>(less: (T, T) -> bool, s: seq<T>)
    requires Total(less, s)
    ensures Sorted(less, StableSort(less, s)) && Total(less, StableSort(less, s))
  {
    TotalIsWeak(less, s);
    StableSortSorted(less, s);
    StableSortPermutes(less, s);
    SameElements(StableSort(less, s), s);
  }

  /** sort.Slice: callers learn that the result is a permutation, in order when `less` orders it. */
  method SortSlice<T(!new)>(less: (T, T) -> bool, s: seq<T>) returns (r: seq<T>)
    ensures multiset(r) == multiset(s) && |r| == |s|
    ensures forall x :: x in r <==> x in s
    ensures Weak(less, s) ==> Sorted(less, r)
    ensures Total(less, s) ==> r == StableSort(less, s)
  {
    r := StableSort(less, s);
    StableSortPermutes(less, s);
    SameElements(r, s);
    if Weak(less, s) {
      StableSortSorted(less, s);
    }
  }

  lemma StringsTotal(s: seq<string>)
    ensures Total(Less, s)
  {
    forall x
      ensures !Less(x, x)
    {
      LessIrreflexive(x);
    }
    forall x, y, z | Less(x, y) && Less(y, z)
      ensures Less(x, z)
    {
      LessTransitive(x, y, z);
    }
    forall x, y | x != y
      ensures Less(x, y) || Less(y, x)
    {
      LessTrichotomy(x, y);
    }
  }

  // ---------------------------------------------------------------- sorting and rewriting records

  function MapSeq<T>(f: T -> T, s: seq<T>): (r: seq<T>)
    ensures |r| == |s| && forall i :: 0 <= i < |s| ==> r[i] == f(s[i])
  {
    seq(|s|, i requires 0 <= i < |s| => f(s[i]))
  }

  /** A rewriting that the comparison does not see. */
  ghost predicate Unseen<T(!new)>(less: (T, T) -> bool, f: T -> T)
  {
    forall x, y :: less(f(x), f(y)) == less(x, y)
  }

  lemma {:induction false} InsertMaps<T(!new)>(less: (T, T) -> bool, f: T -> T, x: T, s: seq<T>)
    requires Unseen(less, f)
    ensures Insert(less, f(x), MapSeq(f, s)) == MapSeq(f, Insert(less, x, s))
  {
    var t := MapSeq(f, s);
    if s != [] {
      assert t[1..] == MapSeq(f, s[1..]);
      if less(s[0], x) {
        InsertMaps(less, f, x, s[1..]);
        assert MapSeq(f, Insert(less, x, s)) == [f(s[0])] + MapSeq(f, Insert(less, x, s[1..]));
      } else {
        assert MapSeq(f, [x] + s) == [f(x)] + t;
      }
    } else {
      assert MapSeq(f, [x]) == [f(x)];
    }
  }

  /** Sorting and rewriting records commute. */
  lemma {:induction false} SortMaps<T(!new)>(less: (T, T) -> bool, f: T -> T, s: seq<T>)
    requires Unseen(less, f)
    ensures StableSort(less, MapSeq(f, s)) == MapSeq(f, StableSort(less, s))
  {
    if s != [] {
      assert MapSeq(f, s)[1..] == MapSeq(f, s[1..]);
      SortMaps(less, f, s[1..]);
      InsertMaps(less, f, s[0], StableSort(less, s[1..]));
    }
  }
}
