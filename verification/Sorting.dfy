// The library sorts the source calls, as one stable insertion sort over an ordering.
module Sorting {
  ghost predicate TotalPreorder<T(!new)>(le: (T, T) -> bool) {
    && (forall a, b :: le(a, b) || le(b, a))
    && (forall a, b, c :: le(a, b) && le(b, c) ==> le(a, c))
  }

  predicate Sorted<T>(s: seq<T>, le: (T, T) -> bool) {
    forall i, j :: 0 <= i < j < |s| ==> le(s[i], s[j])
  }

  // x goes before the first element it may precede, so equal elements keep their order.
  function Insert<T>(x: T, s: seq<T>, le: (T, T) -> bool): seq<T> {
    if s == [] || le(x, s[0]) then [x] + s else [s[0]] + Insert(x, s[1..], le)
  }

  function SortBy<T>(s: seq<T>, le: (T, T) -> bool): seq<T> {
    if s == [] then [] else Insert(s[0], SortBy(s[1..], le), le)
  }

  lemma {:induction false} InsertMembers<T>(x: T, s: seq<T>, le: (T, T) -> bool)
    ensures multiset(Insert(x, s, le)) == multiset(s) + multiset{x}
  {
    if s != [] && !le(x, s[0]) {
      InsertMembers(x, s[1..], le);
      assert s == [s[0]] + s[1..];
    }
  }

  lemma SortedCons<T>(x: T, s: seq<T>, le: (T, T) -> bool)
    requires Sorted(s, le) && forall y :: y in s ==> le(x, y)
    ensures Sorted([x] + s, le)
  {
  }

  lemma {:induction false} InsertSorts<T(!new)>(x: T, s: seq<T>, le: (T, T) -> bool)
    requires TotalPreorder(le) && Sorted(s, le)
    ensures Sorted(Insert(x, s, le), le)
    ensures multiset(Insert(x, s, le)) == multiset(s) + multiset{x}
  {
    InsertMembers(x, s, le);
    if s == [] || le(x, s[0]) {
      forall y | y in s ensures le(x, y) {
        if y != s[0] { assert le(s[0], y); }
      }
      SortedCons(x, s, le);
    } else {
      assert Sorted(s[1..], le);
      InsertSorts(x, s[1..], le);
      InsertMembers(x, s[1..], le);
      var rest := Insert(x, s[1..], le);
      forall y | y in rest ensures le(s[0], y) {
        assert y in multiset(rest);
        assert y == x || y in s[1..];
      }
      hide Sorted;
      SortedCons(s[0], rest, le);
    }
  }

  lemma {:induction false} SortBySorts<T(!new)>(s: seq<T>, le: (T, T) -> bool)
    requires TotalPreorder(le)
    ensures Sorted(SortBy(s, le), le)
    ensures multiset(SortBy(s, le)) == multiset(s)
    ensures |SortBy(s, le)| == |s|
    ensures forall x :: x in SortBy(s, le) <==> x in s
  {
    if s != [] {
      SortBySorts(s[1..], le);
      InsertSorts(s[0], SortBy(s[1..], le), le);
      assert s == [s[0]] + s[1..];
    }
    SamePermutation(SortBy(s, le), s);
  }

  lemma SamePermutation<T>(a: seq<T>, b: seq<T>)
    requires multiset(a) == multiset(b)
    ensures |a| == |b|
    ensures forall x :: x in a <==> x in b
  {
    assert |a| == |multiset(a)| && |b| == |multiset(b)|;
    forall x ensures x in a <==> x in b {
      assert x in a <==> x in multiset(a);
      assert x in b <==> x in multiset(b);
    }
  }

  // A permutation of distinct elements has distinct elements.
  lemma NoRepeats<T>(s: seq<T>, p: seq<T>)
    requires multiset(s) == multiset(p)
    requires forall i, j :: 0 <= i < j < |s| ==> s[i] != s[j]
    ensures forall i, j :: 0 <= i < j < |p| ==> p[i] != p[j]
  {
    forall i, j | 0 <= i < j < |p| ensures p[i] != p[j] {
      if p[i] == p[j] {
        TwiceCounts(p, i, j);
        AtMostOnce(s, p[i]);
      }
    }
  }

  lemma TwiceCounts<T>(p: seq<T>, i: nat, j: nat)
    requires i < j < |p| && p[i] == p[j]
    ensures multiset(p)[p[i]] >= 2
  {
    assert p == p[..j] + p[j..];
    assert p[..j][i] == p[i] && p[j..][0] == p[i];
    assert p[i] in multiset(p[..j]) && p[i] in multiset(p[j..]);
  }

  lemma {:induction false} AtMostOnce<T>(s: seq<T>, x: T)
    requires forall i, j :: 0 <= i < j < |s| ==> s[i] != s[j]
    ensures multiset(s)[x] <= 1
  {
    if s != [] {
      AtMostOnce(s[1..], x);
      assert s == [s[0]] + s[1..];
      if s[0] == x { assert x !in s[1..]; }
    }
  }

  // Lexicographic order of strings.
  predicate StringLe(a: string, b: string) {
    a == [] || (b != [] && (a[0] < b[0] || (a[0] == b[0] && StringLe(a[1..], b[1..]))))
  }

  lemma {:induction false} StringLeReflexive(a: string)
    ensures StringLe(a, a)
  {
    if a != [] { StringLeReflexive(a[1..]); }
  }

  lemma {:induction false} StringLeTotal(a: string, b: string)
    ensures StringLe(a, b) || StringLe(b, a)
    ensures StringLe(a, b) && StringLe(b, a) ==> a == b
  {
    if a != [] && b != [] {
      StringLeTotal(a[1..], b[1..]);
      assert a == [a[0]] + a[1..] && b == [b[0]] + b[1..];
    }
  }

  lemma {:induction false} StringLeTransitive(a: string, b: string, c: string)
    requires StringLe(a, b) && StringLe(b, c)
    ensures StringLe(a, c)
  {
    if a != [] && a[0] == b[0] && b[0] == c[0] { StringLeTransitive(a[1..], b[1..], c[1..]); }
  }

  // a comes first where the strings first differ, or by being the shorter one.
  ghost predicate FirstDiffers(a: string, b: string, k: nat) {
    && k <= |a| && k <= |b| && a[..k] == b[..k]
    && (k == |a| || (k < |b| && a[k] < b[k]))
  }

  lemma {:induction false} StringLeIs(a: string, b: string)
    ensures StringLe(a, b) <==> exists k: nat :: FirstDiffers(a, b, k)
  {
    if a == [] {
      assert FirstDiffers(a, b, 0);
    } else if b != [] {
      if a[0] < b[0] { assert FirstDiffers(a, b, 0); }
      if a[0] == b[0] {
        StringLeIs(a[1..], b[1..]);
        assert a == [a[0]] + a[1..] && b == [b[0]] + b[1..];
        if k: nat :| FirstDiffers(a[1..], b[1..], k) {
          assert a[..k + 1] == [a[0]] + a[1..][..k] && b[..k + 1] == [b[0]] + b[1..][..k];
          assert FirstDiffers(a, b, k + 1);
        }
        if k: nat :| FirstDiffers(a, b, k) {
          assert k > 0;
          assert a[1..][..k - 1] == a[..k][1..] && b[1..][..k - 1] == b[..k][1..];
          assert FirstDiffers(a[1..], b[1..], k - 1);
        }
      }
    }
  }
}
