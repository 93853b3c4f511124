// Chart downsampling (core/tabayyun-core/src/downsample.rs): m4_window keeps the first, minimum,
// maximum and last samples of every bin, and gap_breaks stops a line from bridging a gap.
module Downsample {
  import opened Frame
  import opened Sorting
  import opened Bins

  // ---- Which samples M4 keeps --------------------------------------------------------------

  predicate Beyond(up: bool, a: Value, b: Value) {
    a.Fin? && b.Fin? && if up then a.x > b.x else a.x < b.x
  }

  // Sample i is the first maximum (`up`) or minimum of the finite values in [a, z).
  ghost predicate FirstExtreme(f: SeriesFrame, a: nat, z: nat, up: bool, i: nat)
    requires f.Valid() && z <= |f.ts|
  {
    && a <= i < z && f.values[i].Fin?
    && forall j :: a <= j < z && f.values[j].Fin? ==>
         !Beyond(up, f.values[j], f.values[i]) && (j < i ==> Beyond(up, f.values[i], f.values[j]))
  }

  ghost predicate Extreme(f: SeriesFrame, a: nat, z: nat, up: bool, m: Option<nat>)
    requires f.Valid() && z <= |f.ts|
  {
    match m
    case None => forall j :: a <= j < z ==> !f.values[j].Fin?
    case Some(i) => FirstExtreme(f, a, z, up, i)
  }

  // The samples [a, z) of the window [lo, hi) are those of one bin.
  ghost predicate Group(f: SeriesFrame, g: Grid, lo: nat, hi: nat, a: nat, z: nat)
    requires g.buckets > 0 && hi <= |f.ts|
  {
    && lo <= a < z <= hi
    && forall j :: lo <= j < hi ==> (a <= j < z <==> BinAt(f, g, j) == BinAt(f, g, a))
  }

  ghost predicate Kept(f: SeriesFrame, g: Grid, lo: nat, hi: nat, i: nat)
    requires f.Valid() && g.buckets > 0 && hi <= |f.ts|
  {
    exists a: nat, z: nat :: Group(f, g, lo, hi, a, z) && a <= i < z <= hi && KeptIn(f, a, z, i)
  }

  // First, last, first minimum or first maximum of its bin [a, z).
  ghost predicate KeptIn(f: SeriesFrame, a: nat, z: nat, i: nat)
    requires f.Valid() && z <= |f.ts|
  {
    i == a || i == z - 1 || FirstExtreme(f, a, z, false, i) || FirstExtreme(f, a, z, true, i)
  }

  predicate NothingToKeep(f: SeriesFrame, g: Grid) {
    WindowRange(f.ts, g).0 == WindowRange(f.ts, g).1 || g.buckets == 0 || g.to <= g.from
  }

  predicate KeepsAll(f: SeriesFrame, g: Grid) {
    WindowRange(f.ts, g).1 - WindowRange(f.ts, g).0 <= g.buckets * 4
  }

  // The indices M4 keeps of a sorted frame, in order: all of a small window, else what Kept says.
  ghost predicate IsM4(f: SeriesFrame, g: Grid, idx: seq<nat>)
    requires f.Valid()
  {
    var (lo, hi) := WindowRange(f.ts, g);
    && Increasing(idx)
    && if NothingToKeep(f, g) then idx == []
       else forall i :: i in idx <==> lo <= i < hi && (KeepsAll(f, g) || Kept(f, g, lo, hi, i))
  }

  predicate Within(idx: seq<nat>, n: nat) {
    forall k :: 0 <= k < |idx| ==> idx[k] < n
  }

  function SelectTs(f: SeriesFrame, idx: seq<nat>): (r: seq<int>)
    requires Within(idx, |f.ts|)
    ensures |r| == |idx| && forall k :: 0 <= k < |idx| ==> r[k] == f.ts[idx[k]]
  {
    seq(|idx|, k requires 0 <= k < |idx| => f.ts[idx[k]])
  }

  function SelectValues(f: SeriesFrame, idx: seq<nat>): (r: seq<Value>)
    requires f.Valid() && Within(idx, |f.ts|)
    ensures |r| == |idx| && forall k :: 0 <= k < |idx| ==> r[k] == f.values[idx[k]]
  {
    seq(|idx|, k requires 0 <= k < |idx| => f.values[idx[k]])
  }

  // The selected samples of a frame are those M4 keeps.
  ghost predicate IsM4Of(f: SeriesFrame, g: Grid, ts: seq<int>, values: seq<Value>)
    requires f.Valid()
  {
    exists idx ::
      IsM4(f, g, idx) && Within(idx, |f.ts|) && ts == SelectTs(f, idx) && values == SelectValues(f, idx)
  }

  // ---- m4_window ---------------------------------------------------------------------------------

  function Flatten(m: Option<nat>): seq<nat> {
    if m.None? then [] else [m.value]
  }

  predicate IndexLe(a: nat, b: nat) {
    a <= b
  }

  // The up to four picks of a bin, sorted and without repetition.
  method SortedPicks(a: nat, m: Option<nat>, n: Option<nat>, z: nat) returns (out: seq<nat>)
    ensures Increasing(out) && |out| <= 4
    ensures forall i :: i in out <==> i == a || m == Some(i) || n == Some(i) || i == z
  {
    var picks := [a] + Flatten(m) + Flatten(n) + [z];
    assert |picks| <= 4;
    assert forall i :: i in picks <==> i == a || m == Some(i) || n == Some(i) || i == z;
    SortBySorts(picks, IndexLe);
    var sorted := SortBy(picks, IndexLe);
    out := Distinct(sorted);
  }

  method Distinct(sorted: seq<nat>) returns (out: seq<nat>)
    requires Sorted(sorted, IndexLe)
    ensures Increasing(out) && |out| <= |sorted|
    ensures forall i :: i in out <==> i in sorted
  {
    out := [];
    var last := None;
    for k := 0 to |sorted|
      invariant |out| <= k && Increasing(out)
      invariant forall i :: i in out <==> i in sorted[..k]
      invariant if k == 0 then last == None else last == Some(sorted[k - 1])
      invariant forall l :: 0 <= l < |out| ==> k > 0 && out[l] <= sorted[k - 1]
    {
      assert sorted[..k + 1] == sorted[..k] + [sorted[k]];
      if last != Some(sorted[k]) {
        assert forall l :: 0 <= l < |out| ==> out[l] < sorted[k] by {
          if k > 0 { assert IndexLe(sorted[k - 1], sorted[k]); }
        }
        out := out + [sorted[k]];
        last := Some(sorted[k]);
      } else {
        assert sorted[k - 1] in sorted[..k];
      }
    }
    assert sorted[..|sorted|] == sorted;
  }

  method Grown(f: SeriesFrame, a: nat, j: nat, up: bool, m: Option<nat>) returns (r: Option<nat>)
    requires f.Valid() && a <= j < |f.ts| && Extreme(f, a, j, up, m)
    ensures Extreme(f, a, j + 1, up, r)
  {
    r := if f.values[j].Fin? && (m.None? || Beyond(up, f.values[j], f.values[m.value])) then Some(j) else m;
  }

  // One bin, from its first sample `start`: where it ends and its extremes.
  method ScanBin(f: SeriesFrame, g: Grid, start: nat, hi: nat)
    returns (end: nat, low: Option<nat>, high: Option<nat>)
    requires f.Valid() && g.buckets > 0 && start < hi <= |f.ts|
    ensures start < end <= hi
    ensures forall j :: start <= j < end ==> BinAt(f, g, j) == BinAt(f, g, start)
    ensures end < hi ==> BinAt(f, g, end) != BinAt(f, g, start)
    ensures Extreme(f, start, end, false, low) && Extreme(f, start, end, true, high)
  {
    hide BinOf, Beyond, Extreme;
    var b := BinOf(f.ts[start], g);
    end := start + 1;
    low, high := None, None;
    var j := start;
    NoneYet(f, start);
    while true
      invariant j == end - 1 && start <= j < end <= hi
      invariant forall k :: start <= k < end ==> BinAt(f, g, k) == b
      invariant Extreme(f, start, j, false, low) && Extreme(f, start, j, true, high)
      decreases hi - end
    {
      low := Grown(f, start, j, false, low);
      high := Grown(f, start, j, true, high);
      if end >= hi || BinOf(f.ts[end], g) != b { break; }
      j := end;
      end := end + 1;
    }
  }

  lemma NoneYet(f: SeriesFrame, a: nat)
    requires f.Valid() && a <= |f.ts|
    ensures Extreme(f, a, a, false, None) && Extreme(f, a, a, true, None)
  {
  }

  lemma FirstExtremeUnique(f: SeriesFrame, a: nat, z: nat, up: bool, m: Option<nat>, i: nat)
    requires f.Valid() && z <= |f.ts| && Extreme(f, a, z, up, m)
    ensures FirstExtreme(f, a, z, up, i) <==> m == Some(i)
  {
  }

  lemma GroupUnique(f: SeriesFrame, g: Grid, lo: nat, hi: nat, a: nat, z: nat, b: nat, y: nat, i: nat)
    requires g.buckets > 0 && hi <= |f.ts|
    requires Group(f, g, lo, hi, a, z) && Group(f, g, lo, hi, b, y) && a <= i < z && b <= i < y
    ensures a == b && z == y
  {
    hide BinOf;
    assert BinAt(f, g, a) == BinAt(f, g, i) == BinAt(f, g, b);
    assert b <= a < y && a <= b < z;
    assert BinAt(f, g, z - 1) == BinAt(f, g, b) && BinAt(f, g, y - 1) == BinAt(f, g, a);
  }

  lemma KeptOfGroup(f: SeriesFrame, g: Grid, lo: nat, hi: nat, a: nat, z: nat, i: nat)
    requires f.Valid() && g.buckets > 0 && hi <= |f.ts| && Group(f, g, lo, hi, a, z) && a <= i < z
    ensures Kept(f, g, lo, hi, i) <==> KeptIn(f, a, z, i)
  {
    assert z <= hi;
    hide Group, KeptIn;
    if Kept(f, g, lo, hi, i) {
      var b: nat, y: nat :| Group(f, g, lo, hi, b, y) && b <= i < y <= hi && KeptIn(f, b, y, i);
      GroupUnique(f, g, lo, hi, a, z, b, y, i);
    }
  }

  // Bins are contiguous in a sorted frame.
  lemma GroupFound(f: SeriesFrame, g: Grid, lo: nat, hi: nat, a: nat, z: nat)
    requires Proper(g) && InOrder(f.ts) && lo <= a < z <= hi <= |f.ts|
    requires forall j :: a <= j < z ==> BinAt(f, g, j) == BinAt(f, g, a)
    requires a > lo ==> BinAt(f, g, a - 1) != BinAt(f, g, a)
    requires z < hi ==> BinAt(f, g, z) != BinAt(f, g, a)
    ensures Group(f, g, lo, hi, a, z)
  {
    hide InOrder, BinOf, BinAt;
    forall j | lo <= j < hi ensures a <= j < z <==> BinAt(f, g, j) == BinAt(f, g, a) {
      if j < a {
        BinsInOrder(f, g, j, a - 1);
        BinsInOrder(f, g, a - 1, a);
      }
      if j >= z {
        BinsInOrder(f, g, z, j);
        BinsInOrder(f, g, a, z);
      }
    }
  }

  lemma PicksAreKept(f: SeriesFrame, g: Grid, lo: nat, hi: nat, a: nat, z: nat, low: Option<nat>, high: Option<nat>,
                     picks: seq<nat>)
    requires f.Valid() && g.buckets > 0 && hi <= |f.ts| && Group(f, g, lo, hi, a, z)
    requires Extreme(f, a, z, false, low) && Extreme(f, a, z, true, high)
    requires forall i :: i in picks <==> i == a || low == Some(i) || high == Some(i) || i == z - 1
    ensures forall i :: i in picks <==> a <= i < z && Kept(f, g, lo, hi, i)
  {
    hide Kept, BinOf, FirstExtreme;
    forall i: nat ensures i in picks <==> a <= i < z && Kept(f, g, lo, hi, i) {
      FirstExtremeUnique(f, a, z, false, low, i);
      FirstExtremeUnique(f, a, z, true, high, i);
      if a <= i < z {
        KeptOfGroup(f, g, lo, hi, a, z, i);
      } else if i in picks {
        ExtremeInside(f, a, z, false, low);
        ExtremeInside(f, a, z, true, high);
        assert false;
      }
    }
  }

  lemma ExtremeInside(f: SeriesFrame, a: nat, z: nat, up: bool, m: Option<nat>)
    requires f.Valid() && z <= |f.ts| && Extreme(f, a, z, up, m)
    ensures m.Some? ==> a <= m.value < z
  {
  }

  // The kept indices below `start`, where a bin begins.
  ghost predicate KeptSoFar(f: SeriesFrame, g: Grid, lo: nat, hi: nat, start: nat, idx: seq<nat>)
    requires f.Valid() && g.buckets > 0 && hi <= |f.ts|
  {
    && Increasing(idx)
    && forall i :: i in idx <==> lo <= i < start && Kept(f, g, lo, hi, i)
  }

  lemma KeptFurther(f: SeriesFrame, g: Grid, lo: nat, hi: nat, start: nat, end: nat, idx: seq<nat>, picks: seq<nat>)
    requires f.Valid() && g.buckets > 0 && lo <= start < end <= hi <= |f.ts|
    requires KeptSoFar(f, g, lo, hi, start, idx) && Increasing(picks)
    requires forall i :: i in picks <==> start <= i < end && Kept(f, g, lo, hi, i)
    ensures KeptSoFar(f, g, lo, hi, end, idx + picks)
  {
    hide Kept;
    forall k | 0 <= k < |idx| ensures idx[k] < start { assert idx[k] in idx; }
    forall k | 0 <= k < |picks| ensures start <= picks[k] { assert picks[k] in picks; }
  }

  // Points sampled so far: at most four for every bin up to the one before `start`.
  predicate FourPerBin(f: SeriesFrame, g: Grid, lo: nat, start: nat, n: nat)
    requires g.buckets > 0 && start <= |f.ts|
  {
    if start <= lo then n == 0 else n <= 4 * (BinAt(f, g, start - 1) + 1)
  }

  method KeptIndices(f: SeriesFrame, g: Grid, lo: nat, hi: nat) returns (idx: seq<nat>)
    requires f.Valid() && InOrder(f.ts) && Proper(g) && lo < hi <= |f.ts|
    ensures KeptSoFar(f, g, lo, hi, hi, idx)
    ensures |idx| <= 4 * g.buckets
  {
    hide Kept, KeptSoFar, BinOf, Extreme, InOrder;
    idx := [];
    var start := lo;
    NothingKept(f, g, lo, hi);
    while start < hi
      invariant lo <= start <= hi
      invariant lo < start < hi ==> BinAt(f, g, start - 1) != BinAt(f, g, start)
      invariant KeptSoFar(f, g, lo, hi, start, idx)
      invariant FourPerBin(f, g, lo, start, |idx|)
    {
      var end, low, high := ScanBin(f, g, start, hi);
      GroupFound(f, g, lo, hi, start, end);
      var picks := SortedPicks(start, low, high, end - 1);
      PicksAreKept(f, g, lo, hi, start, end, low, high, picks);
      KeptFurther(f, g, lo, hi, start, end, idx, picks);
      if start > lo { BinsInOrder(f, g, start - 1, start); }
      idx := idx + picks;
      start := end;
    }
  }

  lemma NothingKept(f: SeriesFrame, g: Grid, lo: nat, hi: nat)
    requires f.Valid() && g.buckets > 0 && hi <= |f.ts|
    ensures KeptSoFar(f, g, lo, hi, lo, [])
  {
  }

  function Interval(lo: nat, hi: nat): (s: seq<nat>)
    requires lo <= hi
    ensures |s| == hi - lo && forall k :: 0 <= k < |s| ==> s[k] == lo + k
  {
    seq(hi - lo, k requires 0 <= k < hi - lo => lo + k)
  }

  lemma IntervalMembers(lo: nat, hi: nat)
    requires lo <= hi
    ensures Increasing(Interval(lo, hi))
    ensures forall i :: i in Interval(lo, hi) <==> lo <= i < hi
  {
    var s := Interval(lo, hi);
    forall i | lo <= i < hi ensures i in s { assert s[i - lo] == i; }
  }

  method M4Window(f: SeriesFrame, g: Grid) returns (ts: seq<int>, values: seq<Value>, ghost idx: seq<nat>)
    requires f.Valid() && InOrder(f.ts)
    ensures IsM4(f, g, idx) && |idx| <= 4 * g.buckets
    ensures Within(idx, |f.ts|) && ts == SelectTs(f, idx) && values == SelectValues(f, idx)
    ensures IsM4Of(f, g, ts, values) && |ts| == |values| <= 4 * g.buckets
  {
    hide Kept, InOrder, BinOf, Below, Interval;
    var (lo, hi) := WindowRange(f.ts, g);
    if NothingToKeep(f, g) { return [], [], []; }
    if KeepsAll(f, g) {
      idx := Interval(lo, hi);
      IntervalMembers(lo, hi);
      ts, values := f.ts[lo..hi], f.values[lo..hi];
      assert ts == SelectTs(f, idx) && values == SelectValues(f, idx);
    } else {
      var kept := KeptIndices(f, g, lo, hi);
      IsWithin(kept, hi);
      ts, values := SelectTs(f, kept), SelectValues(f, kept);
      idx := kept;
    }
  }

  lemma IsWithin(idx: seq<nat>, n: nat)
    requires forall i :: i in idx ==> i < n
    ensures Within(idx, n)
  {
    forall k | 0 <= k < |idx| ensures idx[k] < n { assert idx[k] in idx; }
  }

  // ---- What M4 promises -----------------------------------------------------------------------------

  // The kept samples are determined: two results of one call are the same.
  lemma M4Unique(f: SeriesFrame, g: Grid, idx: seq<nat>, other: seq<nat>)
    requires f.Valid() && IsM4(f, g, idx) && IsM4(f, g, other)
    ensures idx == other
  {
    hide Kept, WindowRange;
    var s: seq<int>, o: seq<int> := idx, other;
    forall t ensures t in s <==> t in o {
      if t >= 0 {
        var i: nat := t;
        assert i in idx <==> i in other;
      }
    }
    IncreasingUnique(idx, other);
  }

  lemma GroupOf(f: SeriesFrame, g: Grid, lo: nat, hi: nat, i: nat) returns (a: nat, z: nat)
    requires Proper(g) && InOrder(f.ts) && lo <= i < hi <= |f.ts|
    ensures Group(f, g, lo, hi, a, z) && a <= i < z
  {
    hide InOrder, BinOf;
    a, z := i, i + 1;
    while a > lo && BinAt(f, g, a - 1) == BinAt(f, g, i)
      invariant lo <= a <= i && forall j :: a <= j <= i ==> BinAt(f, g, j) == BinAt(f, g, i)
    {
      a := a - 1;
    }
    while z < hi && BinAt(f, g, z) == BinAt(f, g, i)
      invariant i < z <= hi && forall j :: a <= j < z ==> BinAt(f, g, j) == BinAt(f, g, i)
    {
      z := z + 1;
    }
    GroupFound(f, g, lo, hi, a, z);
  }

  lemma {:induction false} ExtremeExists(f: SeriesFrame, a: nat, z: nat, up: bool) returns (m: Option<nat>)
    requires f.Valid() && a <= z <= |f.ts|
    ensures Extreme(f, a, z, up, m)
    decreases z
  {
    if a == z {
      m := None;
    } else {
      m := ExtremeExists(f, a, z - 1, up);
      if f.values[z - 1].Fin? && (m.None? || Beyond(up, f.values[z - 1], f.values[m.value])) { m := Some(z - 1); }
    }
  }

  // Sample i is one of the window, and the results of M4 keep the ends of its bin and, if it is
  // finite, samples of its bin at least as low and at least as high.
  lemma BinEnvelope(f: SeriesFrame, g: Grid, idx: seq<nat>, i: nat) returns (a: nat, z: nat, low: nat, high: nat)
    requires f.Valid() && InOrder(f.ts) && IsM4(f, g, idx) && Proper(g)
    requires i < |f.ts| && Inside(f.ts[i], g)
    ensures a <= i < z <= |f.ts| && a in idx && z - 1 in idx
    ensures forall j :: 0 <= j < |f.ts| && Inside(f.ts[j], g) ==> (a <= j < z <==> BinAt(f, g, j) == BinAt(f, g, i))
    ensures a <= low < z && a <= high < z
    ensures f.values[i].Fin? ==>
              && low in idx && f.values[low].Fin? && f.values[low].x <= f.values[i].x
              && high in idx && f.values[high].Fin? && f.values[i].x <= f.values[high].x
  {
    hide InOrder, BinOf, Kept, Below;
    var (lo, hi) := WindowRange(f.ts, g);
    InWindowRange(f.ts, g, i);
    if KeepsAll(f, g) {
      a, z := GroupOf(f, g, lo, hi, i);
      low, high := i, i;
      GroupInWindow(f, g, lo, hi, a, z, i);
    } else {
      a, z := GroupOf(f, g, lo, hi, i);
      GroupInWindow(f, g, lo, hi, a, z, i);
      KeptOfGroup(f, g, lo, hi, a, z, a);
      KeptOfGroup(f, g, lo, hi, a, z, z - 1);
      low := KeptExtreme(f, g, lo, hi, a, z, false, i);
      high := KeptExtreme(f, g, lo, hi, a, z, true, i);
    }
  }

  lemma InWindowRange(ts: seq<int>, g: Grid, i: nat)
    requires InOrder(ts) && i < |ts|
    ensures Inside(ts[i], g) <==> WindowRange(ts, g).0 <= i < WindowRange(ts, g).1
  {
  }

  lemma GroupInWindow(f: SeriesFrame, g: Grid, lo: nat, hi: nat, a: nat, z: nat, i: nat)
    requires InOrder(f.ts) && g.buckets > 0 && (lo, hi) == WindowRange(f.ts, g)
    requires Group(f, g, lo, hi, a, z) && a <= i < z
    ensures forall j :: 0 <= j < |f.ts| && Inside(f.ts[j], g) ==> (a <= j < z <==> BinAt(f, g, j) == BinAt(f, g, i))
  {
    hide BinOf, Below, WindowRange;
    forall j | 0 <= j < |f.ts| && Inside(f.ts[j], g)
      ensures a <= j < z <==> BinAt(f, g, j) == BinAt(f, g, i)
    {
      InWindowRange(f.ts, g, j);
    }
  }

  lemma KeptExtreme(f: SeriesFrame, g: Grid, lo: nat, hi: nat, a: nat, z: nat, up: bool, i: nat) returns (m: nat)
    requires f.Valid() && g.buckets > 0 && hi <= |f.ts| && Group(f, g, lo, hi, a, z) && a <= i < z
    ensures a <= m < z
    ensures f.values[i].Fin? ==>
              f.values[m].Fin? && !Beyond(up, f.values[i], f.values[m]) && Kept(f, g, lo, hi, m)
  {
    var e := ExtremeExists(f, a, z, up);
    if e.Some? {
      m := e.value;
      KeptOfGroup(f, g, lo, hi, a, z, m);
    } else {
      m := i;
    }
  }

  // M4 keeps no sample from outside the window.
  lemma KeptInside(f: SeriesFrame, g: Grid, idx: seq<nat>, i: nat)
    requires f.Valid() && InOrder(f.ts) && IsM4(f, g, idx) && i in idx
    ensures i < |f.ts| && Inside(f.ts[i], g)
  {
    hide InOrder, Kept;
    assert i < |f.ts|;
    InWindowRange(f.ts, g, i);
  }

  // M4 of its own result, which has at most four points per bin, is that result.
  lemma M4Idempotent(f: SeriesFrame, g: Grid, idx: seq<nat>, h: SeriesFrame)
    requires f.Valid() && InOrder(f.ts) && IsM4(f, g, idx) && |idx| <= 4 * g.buckets && Within(idx, |f.ts|)
    requires h.Valid() && h.ts == SelectTs(f, idx) && h.values == SelectValues(f, idx)
    ensures InOrder(h.ts) && IsM4(h, g, Interval(0, |h.ts|))
  {
    hide Kept, Below;
    assert InOrder(h.ts) by {
      forall i, j | 0 <= i < j < |h.ts| ensures h.ts[i] <= h.ts[j] { assert idx[i] < idx[j]; }
    }
    var n := |h.ts|;
    forall k | 0 <= k < n ensures Inside(h.ts[k], g) { KeptInside(f, g, idx, idx[k]); }
    AllInside(h.ts, g);
    IntervalMembers(0, n);
  }

  lemma AllInside(ts: seq<int>, g: Grid)
    requires InOrder(ts) && forall k :: 0 <= k < |ts| ==> Inside(ts[k], g)
    ensures WindowRange(ts, g) == (0, |ts|)
  {
    var (lo, hi) := WindowRange(ts, g);
    if ts != [] {
      InWindowRange(ts, g, 0);
      InWindowRange(ts, g, |ts| - 1);
    }
  }
}
