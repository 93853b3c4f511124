// Counting the elements of a sequence that satisfy a predicate.
module Counting {
  ghost function Count<T>(s: seq<T>, p: T -> bool): nat {
    if s == [] then 0 else (if p(s[0]) then 1 else 0) + Count(s[1..], p)
  }

  lemma {:induction false} CountConcat<T>(a: seq<T>, b: seq<T>, p: T -> bool)
    ensures Count(a + b, p) == Count(a, p) + Count(b, p)
  {
    if a == [] {
      assert a + b == b;
    } else {
      CountConcat(a[1..], b, p);
      assert (a + b)[1..] == a[1..] + b;
    }
  }

  lemma CountOne<T>(x: T, p: T -> bool)
    ensures Count([x], p) == if p(x) then 1 else 0
  {
    assert [x][1..] == [];
  }

  lemma CountMore<T>(s: seq<T>, j: nat, p: T -> bool)
    requires j < |s|
    ensures Count(s[..j + 1], p) == Count(s[..j], p) + (if p(s[j]) then 1 else 0)
  {
    assert s[..j + 1] == s[..j] + [s[j]];
    CountConcat(s[..j], [s[j]], p);
    CountOne(s[j], p);
  }

  lemma CountWithout<T>(b: seq<T>, i: nat, p: T -> bool)
    requires i < |b|
    ensures Count(b, p) == Count(b[..i] + b[i + 1..], p) + (if p(b[i]) then 1 else 0)
  {
    CountConcat(b[..i], b[i + 1..], p);
    CountMore(b, i, p);
    CountConcat(b[..i + 1], b[i + 1..], p);
    assert b[..i + 1] + b[i + 1..] == b;
  }

  lemma MultisetWithout<T>(a: seq<T>, b: seq<T>, i: nat)
    requires a != [] && i < |b| && b[i] == a[0] && multiset(a) == multiset(b)
    ensures multiset(a[1..]) == multiset(b[..i] + b[i + 1..])
  {
    assert b == b[..i] + [b[i]] + b[i + 1..];
    assert a == [a[0]] + a[1..];
    assert multiset(b) == multiset(b[..i]) + multiset{b[i]} + multiset(b[i + 1..]);
    assert multiset(a) == multiset{a[0]} + multiset(a[1..]);
    assert multiset(b[..i] + b[i + 1..]) == multiset(b[..i]) + multiset(b[i + 1..]);
    assert multiset(a[1..]) == multiset(a) - multiset{a[0]};
  }

  lemma {:induction false} CountPermutation<T>(a: seq<T>, b: seq<T>, p: T -> bool)
    requires multiset(a) == multiset(b)
    ensures Count(a, p) == Count(b, p)
  {
    if a == [] {
      assert |b| == |multiset(b)|;
    } else {
      assert a[0] in multiset(b);
      var i :| 0 <= i < |b| && b[i] == a[0];
      MultisetWithout(a, b, i);
      CountPermutation(a[1..], b[..i] + b[i + 1..], p);
      CountWithout(b, i, p);
    }
  }

  // Elements counted by p are counted by q.
  lemma {:induction false} CountLe<T>(s: seq<T>, p: T -> bool, q: T -> bool)
    requires forall x :: x in s && p(x) ==> q(x)
    ensures Count(s, p) <= Count(s, q)
  {
    if s != [] { CountLe(s[1..], p, q); }
  }

  lemma {:induction false} CountNone<T>(s: seq<T>, p: T -> bool)
    ensures Count(s, p) == 0 <==> forall x :: x in s ==> !p(x)
  {
    if s != [] {
      CountNone(s[1..], p);
      assert s == [s[0]] + s[1..];
    }
  }

  lemma {:induction false} CountSame<T>(s: seq<T>, p: T -> bool, q: T -> bool)
    requires forall x :: x in s ==> p(x) == q(x)
    ensures Count(s, p) == Count(s, q)
  {
    if s != [] { CountSame(s[1..], p, q); }
  }

  // What p counts and r does not, when r is part of p.
  lemma {:induction false} CountMinus<T>(s: seq<T>, p: T -> bool, r: T -> bool, d: T -> bool)
    requires forall x :: x in s ==> (r(x) ==> p(x)) && (d(x) <==> p(x) && !r(x))
    ensures Count(s, d) == Count(s, p) - Count(s, r)
  {
    if s != [] { CountMinus(s[1..], p, r, d); }
  }
}
