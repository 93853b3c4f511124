// What M4 keeps, said of the samples themselves (downsample.rs, `m4_window`).
module M4Meaning {
  import opened Frame
  import opened Bins
  import opened Downsample

  predicate InWindow(f: SeriesFrame, g: Grid, i: nat) {
    i < |f.ts| && i < |f.values| && g.from <= f.ts[i] < g.to
  }

  // Samples i and j of the window lie in one bin.
  predicate SameBin(f: SeriesFrame, g: Grid, i: nat, j: nat)
    requires g.from < g.to
  {
    InWindow(f, g, i) && InWindow(f, g, j) && BinNo(f, g, i) == BinNo(f, g, j)
  }

  // Sample i is the first or the last of its bin, or the first to hold its least or greatest finite value.
  ghost predicate IsPick(f: SeriesFrame, g: Grid, i: nat)
    requires g.from < g.to
  {
    InWindow(f, g, i) && (
      || (forall j: nat :: SameBin(f, g, i, j) ==> i <= j)
      || (forall j: nat :: SameBin(f, g, i, j) ==> j <= i)
      || (f.values[i].Fin? && forall j: nat :: SameBin(f, g, i, j) && f.values[j].Fin? ==>
            f.values[i].x < f.values[j].x || (f.values[i].x == f.values[j].x && i <= j))
      || (f.values[i].Fin? && forall j: nat :: SameBin(f, g, i, j) && f.values[j].Fin? ==>
            f.values[i].x > f.values[j].x || (f.values[i].x == f.values[j].x && i <= j)))
  }

  ghost function WindowSamples(f: SeriesFrame, g: Grid): set<nat> {
    set i: nat | i < |f.ts| && InWindow(f, g, i)
  }

  // idx lists, in order, nothing for an empty window or no buckets, all samples of a window with at
  // most four per bucket, and else the picks.
  ghost predicate Keeps(f: SeriesFrame, g: Grid, idx: seq<nat>) {
    && (forall k, l :: 0 <= k < l < |idx| ==> idx[k] < idx[l])
    && if g.from >= g.to || g.buckets == 0 then idx == []
       else if |WindowSamples(f, g)| <= 4 * g.buckets then forall i: nat :: i in idx <==> InWindow(f, g, i)
       else forall i: nat :: i in idx <==> IsPick(f, g, i)
  }

  // The times and values are those of the samples idx.
  predicate Selects(f: SeriesFrame, idx: seq<nat>, ts: seq<int>, values: seq<Value>) {
    && |ts| == |values| == |idx|
    && forall k :: 0 <= k < |idx| ==>
         idx[k] < |f.ts| && idx[k] < |f.values| && ts[k] == f.ts[idx[k]] && values[k] == f.values[idx[k]]
  }

  // ---- The code's groups in these terms -----------------------------------------------------------

  lemma WindowIs(f: SeriesFrame, g: Grid, i: nat)
    requires f.Valid() && InOrder(f.ts)
    ensures InWindow(f, g, i) <==> WindowRange(f.ts, g).0 <= i < WindowRange(f.ts, g).1
  {
  }

  lemma CountRange(lo: nat, hi: nat, s: set<nat>)
    requires lo <= hi && forall i: nat :: i in s <==> lo <= i < hi
    ensures |s| == hi - lo
    decreases hi - lo
  {
    if lo == hi {
      assert s == {};
    } else {
      CountRange(lo, hi - 1, s - {hi - 1});
    }
  }

  lemma CountIs(f: SeriesFrame, g: Grid)
    requires f.Valid() && InOrder(f.ts)
    ensures |WindowSamples(f, g)| == WindowRange(f.ts, g).1 - WindowRange(f.ts, g).0
  {
    hide WindowRange, InWindow, InOrder;
    var (lo, hi) := WindowRange(f.ts, g);
    forall i: nat ensures i in WindowSamples(f, g) <==> lo <= i < hi {
      WindowIs(f, g, i);
    }
    CountRange(lo, hi, WindowSamples(f, g));
  }

  // The group of sample i holds exactly the samples of its bin.
  lemma GroupIs(f: SeriesFrame, g: Grid, lo: nat, hi: nat, a: nat, z: nat, i: nat, j: nat)
    requires f.Valid() && InOrder(f.ts) && Proper(g) && (lo, hi) == WindowRange(f.ts, g)
    requires Group(f, g, lo, hi, a, z) && a <= i < z
    ensures SameBin(f, g, i, j) <==> a <= j < z
  {
    hide WindowRange, BinOf, BinNo, InOrder;
    WindowIs(f, g, i);
    WindowIs(f, g, j);
    BinNoIs(f, g, i);
    if InWindow(f, g, j) { BinNoIs(f, g, j); }
  }

  lemma PickIff(f: SeriesFrame, g: Grid, lo: nat, hi: nat, i: nat)
    requires f.Valid() && InOrder(f.ts) && Proper(g) && (lo, hi) == WindowRange(f.ts, g) && lo <= i < hi
    ensures Downsample.Kept(f, g, lo, hi, i) <==> IsPick(f, g, i)
  {
    hide WindowRange, BinOf, BinNo, InOrder, Group, Downsample.Kept, KeptIn, IsPick, SameBin;
    var a, z := GroupOf(f, g, lo, hi, i);
    GroupBounds(f, g, lo, hi, a, z);
    KeptOfGroup(f, g, lo, hi, a, z, i);
    forall j: nat ensures SameBin(f, g, i, j) <==> a <= j < z { GroupIs(f, g, lo, hi, a, z, i, j); }
    WindowIs(f, g, i);
    PickInGroup(f, g, a, z, i);
  }

  lemma GroupBounds(f: SeriesFrame, g: Grid, lo: nat, hi: nat, a: nat, z: nat)
    requires g.buckets > 0 && hi <= |f.ts| && Group(f, g, lo, hi, a, z)
    ensures lo <= a < z <= hi
  {
  }

  lemma PickInGroup(f: SeriesFrame, g: Grid, a: nat, z: nat, i: nat)
    requires f.Valid() && g.from < g.to && a <= i < z <= |f.ts| && InWindow(f, g, i)
    requires forall j: nat :: SameBin(f, g, i, j) <==> a <= j < z
    ensures KeptIn(f, a, z, i) <==> IsPick(f, g, i)
  {
    hide SameBin, InWindow;
    assert SameBin(f, g, i, a) && SameBin(f, g, i, z - 1);
    ExtremeIff(f, g, a, z, i);
  }

  lemma ExtremeIff(f: SeriesFrame, g: Grid, a: nat, z: nat, i: nat)
    requires f.Valid() && g.from < g.to && a <= i < z <= |f.ts|
    requires forall j: nat :: SameBin(f, g, i, j) <==> a <= j < z
    ensures FirstExtreme(f, a, z, false, i) <==>
              f.values[i].Fin? && forall j: nat :: SameBin(f, g, i, j) && f.values[j].Fin? ==>
                f.values[i].x < f.values[j].x || (f.values[i].x == f.values[j].x && i <= j)
    ensures FirstExtreme(f, a, z, true, i) <==>
              f.values[i].Fin? && forall j: nat :: SameBin(f, g, i, j) && f.values[j].Fin? ==>
                f.values[i].x > f.values[j].x || (f.values[i].x == f.values[j].x && i <= j)
  {
    hide SameBin;
  }

  // What M4 keeps are the picks, all of a small window, or nothing.
  lemma M4Keeps(f: SeriesFrame, g: Grid, idx: seq<nat>, ts: seq<int>, values: seq<Value>)
    requires f.Valid() && InOrder(f.ts) && IsM4(f, g, idx)
    requires Within(idx, |f.ts|) && ts == SelectTs(f, idx) && values == SelectValues(f, idx)
    ensures Keeps(f, g, idx) && Selects(f, idx, ts, values)
  {
    hide WindowRange, InOrder, Downsample.Kept, IsPick, InWindow;
    var (lo, hi) := WindowRange(f.ts, g);
    if g.from < g.to && g.buckets > 0 {
      CountIs(f, g);
      forall i: nat ensures InWindow(f, g, i) <==> lo <= i < hi { WindowIs(f, g, i); }
      forall i: nat | lo <= i < hi ensures Downsample.Kept(f, g, lo, hi, i) <==> IsPick(f, g, i) {
        PickIff(f, g, lo, hi, i);
      }
      forall i: nat ensures IsPick(f, g, i) ==> InWindow(f, g, i) { PickInWindow(f, g, i); }
    }
  }

  lemma PickInWindow(f: SeriesFrame, g: Grid, i: nat)
    requires g.from < g.to
    ensures IsPick(f, g, i) ==> InWindow(f, g, i)
  {
  }
}
