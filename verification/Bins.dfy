// Equal bins of a window (core/tabayyun-core/src/downsample.rs): which bin an instant falls in, where
// a bin starts, and the samples of a sorted frame inside the window.
module Bins {
  import opened Arithmetic
  import opened Int64
  import opened Frame

  // `buckets` equal bins of the window [from, to).
  datatype Grid = Grid(from: int, to: int, buckets: nat)

  predicate Proper(g: Grid) {
    g.from < g.to && g.buckets > 0
  }

  predicate Inside(t: int, g: Grid) {
    g.from <= t < g.to
  }

  function Scaled(x: int, n: int, s: int): int
    requires s > 0
  {
    x * n / s
  }

  function BinOf(t: int, g: Grid): (b: nat)
    requires g.buckets > 0
    ensures b < g.buckets
  {
    Min(Max(Scaled(t - g.from, g.buckets, Max(g.to - g.from, 1)), 0), g.buckets - 1)
  }

  function BinStart(b: nat, g: Grid): int
    requires g.buckets > 0
  {
    g.from + Scaled(g.to - g.from, b, g.buckets)
  }

  // ---- Rounding -------------------------------------------------------------------------

  lemma ScaledBracket(x: int, n: int, s: int)
    requires s > 0
    ensures Scaled(x, n, s) * s <= x * n < Scaled(x, n, s) * s + s
  {
  }

  lemma ScaledAtLeast(x: int, n: int, s: int, q: int)
    requires s > 0
    ensures q <= Scaled(x, n, s) <==> q * s <= x * n
  {
    ScaledBracket(x, n, s);
    var r := Scaled(x, n, s);
    if q <= r { ProductOrder(q, r, s); }
    if q > r {
      ProductOrder(r + 1, q, s);
      assert (r + 1) * s == r * s + s;
    }
  }

  lemma BinOfInside(t: int, g: Grid)
    requires Proper(g) && Inside(t, g)
    ensures BinOf(t, g) == Scaled(t - g.from, g.buckets, g.to - g.from)
  {
    hide Scaled;
    var x, n, s := t - g.from, g.buckets, g.to - g.from;
    ScaledAtLeast(x, n, s, 0);
    ScaledAtLeast(x, n, s, n);
    ProductOrder(x, s, n);
    ProductOrder(0, x, n);
  }

  lemma BinMonotone(t: int, u: int, g: Grid)
    requires Proper(g) && t <= u
    ensures BinOf(t, g) <= BinOf(u, g)
  {
    var n, s := g.buckets, g.to - g.from;
    var q := Scaled(t - g.from, n, s);
    ScaledBracket(t - g.from, n, s);
    ScaledAtLeast(u - g.from, n, s, q);
    ProductOrder(t - g.from, u - g.from, n);
    hide Scaled;
  }

  // The edge between bins c - 1 and c is a whole number of nanoseconds.
  predicate ExactEdge(c: nat, g: Grid)
    requires g.buckets > 0
  {
    Scaled(g.to - g.from, c, g.buckets) * g.buckets == (g.to - g.from) * c
  }

  lemma QuotientAtMost(x: int, n: int, s: int, b: int)
    requires n > 0 && b * s <= x * n
    ensures Scaled(s, b, n) <= x
  {
    ScaledAtLeast(s, b, n, x + 1);
    assert (x + 1) * n == x * n + n && s * b == b * s;
    hide Scaled;
  }

  lemma QuotientAtLeast(x: int, n: int, s: int, c: int)
    requires n > 0 && x * n < c * s
    ensures x <= Scaled(s, c, n)
    ensures Scaled(s, c, n) * n == s * c ==> x < Scaled(s, c, n)
  {
    ScaledAtLeast(s, c, n, x);
    assert s * c == c * s;
    ProductOrder(x, Scaled(s, c, n), n);
    hide Scaled;
  }

  // An instant lies between the start of its bin and the start of the next one; it is strictly before
  // the latter when that edge is exact.
  lemma BinBracket(t: int, g: Grid)
    requires Proper(g) && Inside(t, g)
    ensures BinStart(BinOf(t, g), g) <= t <= BinStart(BinOf(t, g) + 1, g)
    ensures ExactEdge(BinOf(t, g) + 1, g) ==> t < BinStart(BinOf(t, g) + 1, g)
  {
    hide BinOf;
    var x, n, s := t - g.from, g.buckets, g.to - g.from;
    BinOfInside(t, g);
    hide Scaled;
    var b := BinOf(t, g);
    ScaledBracket(x, n, s);
    QuotientAtMost(x, n, s, b);
    assert (b + 1) * s == b * s + s;
    QuotientAtLeast(x, n, s, b + 1);
  }

  lemma DividesSpan(g: Grid, c: nat)
    requires g.buckets > 0 && (g.to - g.from) % g.buckets == 0
    ensures ExactEdge(c, g)
  {
    var n, s := g.buckets, g.to - g.from;
    var k := s / n;
    assert s == n * k;
    assert s * c == (k * c) * n by { assert n * k * c == k * c * n; }
    ScaledAtLeast(s, c, n, k * c);
    ScaledBracket(s, c, n);
    ProductOrder(k * c, Scaled(s, c, n), n);
    hide Scaled;
  }

  lemma BinStartMonotone(b: nat, c: nat, g: Grid)
    requires Proper(g) && b <= c
    ensures BinStart(b, g) <= BinStart(c, g)
  {
    var n, s := g.buckets, g.to - g.from;
    ScaledBracket(s, b, n);
    ScaledAtLeast(s, c, n, Scaled(s, b, n));
    ProductOrder(b, c, s);
    assert s * b == b * s && s * c == c * s;
    hide Scaled;
  }

  lemma EdgeInside(s: int, c: nat, n: nat)
    requires s > 0 && c < n
    ensures 0 <= Scaled(s, c, n) < s
  {
    hide Scaled;
    ScaledAtLeast(s, c, n, 0);
    ProductOrder(0, c + 1, s);
    Distribute(c, 1, s);
    ScaledAtLeast(s, c, n, s);
    ProductOrder(c, n, s);
  }

  // Rounding an edge down and scaling it back gives c, or less when the edge was rounded.
  lemma EdgeBin(s: int, c: nat, n: nat)
    requires s > 0 && n > 0
    ensures Scaled(Scaled(s, c, n), n, s) <= c
    ensures Scaled(Scaled(s, c, n), n, s) == c <==> Scaled(s, c, n) * n == s * c
  {
    hide Scaled;
    var e := Scaled(s, c, n);
    ScaledBracket(s, c, n);
    Distribute(c, 1, s);
    ScaledAtLeast(e, n, s, c);
    ScaledAtLeast(e, n, s, c + 1);
  }

  // The two roundings agree exactly at exact edges: elsewhere the start of bin c is still in an
  // earlier bin.
  lemma BinStartInItsBin(c: nat, g: Grid)
    requires Proper(g) && c < g.buckets
    ensures Inside(BinStart(c, g), g)
    ensures BinOf(BinStart(c, g), g) == c <==> ExactEdge(c, g)
    ensures BinOf(BinStart(c, g), g) <= c
  {
    hide Scaled, BinOf;
    EdgeInside(g.to - g.from, c, g.buckets);
    EdgeBin(g.to - g.from, c, g.buckets);
    BinOfInside(BinStart(c, g), g);
  }

  // With a span of 10 and 3 buckets, t = 3 is in bin 0 although bin 1 starts at 3.
  lemma BinEdgeExample()
    ensures var g := Grid(0, 10, 3); BinOf(3, g) == 0 && BinStart(1, g) == 3 && !ExactEdge(1, g)
  {
  }

  // ---- Samples in the window ---------------------------------------------------------------

  predicate InOrder(ts: seq<int>) {
    forall i, j :: 0 <= i < j < |ts| ==> ts[i] <= ts[j]
  }

  // The partition point of the sorted timestamps: how many precede t.
  function Below(ts: seq<int>, t: int): (k: nat)
    ensures k <= |ts|
    ensures InOrder(ts) ==> forall i :: 0 <= i < |ts| ==> (ts[i] < t <==> i < k)
  {
    if ts == [] || ts[|ts| - 1] < t then |ts| else Below(ts[..|ts| - 1], t)
  }

  function WindowRange(ts: seq<int>, g: Grid): (r: (nat, nat))
    ensures r.0 <= r.1 <= |ts|
    ensures InOrder(ts) ==> forall i :: 0 <= i < |ts| ==> (Inside(ts[i], g) <==> r.0 <= i < r.1)
  {
    var lo, hi := Below(ts, g.from), Below(ts, g.to);
    (lo, if hi >= lo then hi else lo)
  }

  // Bin of sample i.
  function BinAt(f: SeriesFrame, g: Grid, i: nat): nat
    requires g.buckets > 0 && i < |f.ts|
  {
    BinOf(f.ts[i], g)
  }

  lemma BinsInOrder(f: SeriesFrame, g: Grid, i: nat, j: nat)
    requires Proper(g) && InOrder(f.ts) && i <= j < |f.ts|
    ensures BinAt(f, g, i) <= BinAt(f, g, j)
  {
    BinMonotone(f.ts[i], f.ts[j], g);
  }

  // The bin of a sample of the window, counted from its start.
  function BinNo(f: SeriesFrame, g: Grid, i: nat): int
    requires i < |f.ts| && g.from < g.to
  {
    (f.ts[i] - g.from) * g.buckets / (g.to - g.from)
  }

  lemma BinNoIs(f: SeriesFrame, g: Grid, i: nat)
    requires Proper(g) && i < |f.ts| && g.from <= f.ts[i] < g.to
    ensures BinAt(f, g, i) == BinNo(f, g, i)
  {
    hide BinOf;
    BinOfInside(f.ts[i], g);
  }
}
