// Epoch-anchored binning: `regularise` of core/tabayyun-core/src/seasonal.rs puts one series on a
// fixed step, `align` of core/tabayyun-core/src/align.rs puts several on one grid. Both are proved
// against one definition of a bin's mean, from which their agreement and conservation follow.
module Align {
  import opened Arithmetic
  import opened Int64
  import opened Frame

  const MAX_BINS: int := 500_000
  const MAX_CELLS: int := 20_000_000

  datatype Aligned = Aligned(ts: seq<int>, grid: int, columns: seq<seq<Value>>)

  // ---- The reference: bins of samples -------------------------------------------------------

  function Width(step: int): int {
    if step < 0 then -step else step
  }

  // Bin k holds the instants from k * step on, as many as the step is wide.
  predicate Within(t: int, step: int, k: int) {
    0 <= t - k * step < Width(step)
  }

  // The bin of an instant, by Euclidean division.
  function Bin(t: int, step: int): (k: int)
    requires step != 0
  {
    t / step
  }

  lemma BinHolds(t: int, step: int, k: int)
    requires step != 0
    ensures Bin(t, step) == k <==> Within(t, step, k)
  {
    var q := Bin(t, step);
    BinRemainder(t, step);
    hide Bin;
    if Within(t, step, k) { OneMultiple(t, step, q, k); }
  }

  lemma BinRemainder(t: int, step: int)
    requires step != 0
    ensures Within(t, step, Bin(t, step))
  {
    assert t == t / step * step + t % step;
  }

  lemma OneMultiple(t: int, step: int, q: int, k: int)
    requires step != 0 && Within(t, step, q) && Within(t, step, k)
    ensures q == k
  {
    var w := Width(step);
    var a, b := if step < 0 then -q else q, if step < 0 then -k else k;
    assert q * step == a * w && k * step == b * w;
    Distribute(a, 1, w);
    Distribute(b, 1, w);
    ProductOrder(a, b + 1, w);
    ProductOrder(b, a + 1, w);
  }

  lemma BinMonotone(t: int, u: int, step: int)
    requires step > 0 && t <= u
    ensures Bin(t, step) <= Bin(u, step)
  {
    BinHolds(t, step, Bin(t, step));
    BinHolds(u, step, Bin(u, step));
    hide Bin;
    Distribute(Bin(u, step), 1, step);
    ProductOrder(Bin(t, step), Bin(u, step) + 1, step);
  }

  // A sample counts when its value is finite and its quality usable.
  predicate Usable(f: SeriesFrame, i: nat)
    requires f.Valid() && i < |f.ts|
  {
    f.values[i].Fin? && f.quality[i].IsUsable()
  }

  // Sum and number of the usable samples among the first n that lie in bin k.
  function BinSum(f: SeriesFrame, step: int, k: int, n: nat): real
    requires f.Valid() && step != 0 && n <= |f.ts|
  {
    if n == 0 then 0.0
    else BinSum(f, step, k, n - 1)
         + (if Usable(f, n - 1) && Bin(f.ts[n - 1], step) == k then f.values[n - 1].x else 0.0)
  }

  function BinCount(f: SeriesFrame, step: int, k: int, n: nat): nat
    requires f.Valid() && step != 0 && n <= |f.ts|
  {
    if n == 0 then 0
    else BinCount(f, step, k, n - 1) + (if Usable(f, n - 1) && Bin(f.ts[n - 1], step) == k then 1 else 0)
  }

  function BinMean(f: SeriesFrame, step: int, k: int): Value
    requires f.Valid() && step != 0
  {
    var c := BinCount(f, step, k, |f.ts|);
    if c > 0 then Fin(BinSum(f, step, k, |f.ts|) / c as real) else NaN
  }

  // The means of n bins from bin lo on.
  function BinMeans(f: SeriesFrame, step: int, lo: int, n: nat): (means: seq<Value>)
    requires f.Valid() && step != 0
    ensures |means| == n
  {
    seq(n, j requires 0 <= j < n => BinMean(f, step, lo + j))
  }

  // ---- One series: regularise --------------------------------------------------------------

  function Least(ts: seq<int>): (m: int)
    requires ts != []
    ensures m in ts && forall t :: t in ts ==> m <= t
  {
    if |ts| == 1 then ts[0]
    else
      assert ts == [ts[0]] + ts[1..];
      Min(ts[0], Least(ts[1..]))
  }

  function Greatest(ts: seq<int>): (m: int)
    requires ts != []
    ensures m in ts && forall t :: t in ts ==> t <= m
  {
    if |ts| == 1 then ts[0]
    else
      assert ts == [ts[0]] + ts[1..];
      Max(ts[0], Greatest(ts[1..]))
  }

  // Whether the series fits the grid of a step: the first bin's start and the span are i64, and
  // the bins are not too many.
  predicate Regular(f: SeriesFrame, step: int) {
    && f.ts != [] && step > 0
    && InRange(Bin(Least(f.ts), step) * step)
    && InRange(Greatest(f.ts) - Bin(Least(f.ts), step) * step)
    && Bin(Greatest(f.ts), step) - Bin(Least(f.ts), step) < MAX_BINS
  }

  // How many bins the instants [t, u] reach.
  function BinsBetween(t: int, u: int, step: int): nat
    requires step > 0 && t <= u
  {
    BinMonotone(t, u, step);
    Bin(u, step) - Bin(t, step) + 1
  }

  // What regularise returns: no values unless the series is regular, else the means of all its bins.
  ghost predicate Regularised(f: SeriesFrame, step: int, start: int, values: seq<Value>)
    requires f.Valid()
  {
    if !Regular(f, step) then
      && values == []
      && start == if f.ts != [] && step > 0 && InRange(Bin(Least(f.ts), step) * step)
                  then Bin(Least(f.ts), step) * step else 0
    else
      var lo := Bin(Least(f.ts), step);
      start == lo * step && values == BinMeans(f, step, lo, BinsBetween(Least(f.ts), Greatest(f.ts), step))
  }

  // Sums and counts of the n bins from lo on, over the first i samples.
  ghost predicate Accumulated(f: SeriesFrame, step: int, lo: int, i: nat, sum: seq<real>, count: seq<nat>)
    requires f.Valid() && step != 0 && i <= |f.ts|
  {
    && |sum| == |count|
    && forall j :: 0 <= j < |sum| ==> sum[j] == BinSum(f, step, lo + j, i) && count[j] == BinCount(f, step, lo + j, i)
  }

  lemma NothingAccumulated(f: SeriesFrame, step: int, lo: int, sum: seq<real>, count: seq<nat>)
    requires f.Valid() && step != 0 && |sum| == |count|
    requires forall j :: 0 <= j < |sum| ==> sum[j] == 0.0 && count[j] == 0
    ensures Accumulated(f, step, lo, 0, sum, count)
  {
  }

  lemma UsableAdds(f: SeriesFrame, step: int, lo: int, i: nat, sum: seq<real>, count: seq<nat>, k: nat)
    requires f.Valid() && step != 0 && i < |f.ts| && Accumulated(f, step, lo, i, sum, count)
    requires Usable(f, i) && k == Bin(f.ts[i], step) - lo && k < |sum|
    ensures Accumulated(f, step, lo, i + 1, sum[k := sum[k] + f.values[i].x], count[k := count[k] + 1])
  {
    hide Bin, Usable;
  }

  lemma UnusableAddsNothing(f: SeriesFrame, step: int, lo: int, i: nat, sum: seq<real>, count: seq<nat>)
    requires f.Valid() && step != 0 && i < |f.ts| && Accumulated(f, step, lo, i, sum, count) && !Usable(f, i)
    ensures Accumulated(f, step, lo, i + 1, sum, count)
  {
    hide Bin, Usable;
  }

  method Regularise(f: SeriesFrame, step: int) returns (start: int, values: seq<Value>)
    requires f.Valid() && InRange(step)
    ensures Regularised(f, step, start, values)
  {
    hide BinMeans, Bin, Accumulated, InRange;
    if f.ts == [] {
      return 0, [];
    }
    var first, last := Least(f.ts), Greatest(f.ts);
    if step <= 0 {
      return 0, [];
    }
    var lo := Bin(first, step);
    start := lo * step;
    if !InRange(start) {
      return 0, [];
    }
    if !InRange(last - start) {
      return start, [];
    }
    var span := last - start;
    FromStart(last, step, lo);
    var n := span / step + 1;
    if n > MAX {
      return start, [];
    }
    if n > MAX_BINS {
      return start, [];
    }
    BinMonotone(first, last, step);
    AllSlots(f, step, start, n);
    values := Accumulate(f, step, start, n, lo);
  }

  // Sample i counts in the bin k-th from lo, where k is what the code computes from the first start.
  ghost predicate InSlots(f: SeriesFrame, step: int, start: int, lo: int, n: nat)
    requires f.Valid() && step > 0
  {
    forall i :: 0 <= i < |f.ts| ==> 0 <= Slot(f.ts[i], start, step) == Bin(f.ts[i], step) - lo < n
  }

  // The bin sums and counts of a regular series, and from them the means.
  method Accumulate(f: SeriesFrame, step: int, start: int, n: nat, lo: int) returns (values: seq<Value>)
    requires f.Valid() && step > 0 && InSlots(f, step, start, lo, n)
    ensures values == BinMeans(f, step, lo, n)
  {
    hide BinMeans, Bin, Accumulated, Slot;
    var sum, count := new real[n](_ => 0.0), new nat[n](_ => 0);
    NothingAccumulated(f, step, lo, sum[..], count[..]);
    for i := 0 to |f.ts|
      invariant Accumulated(f, step, lo, i, sum[..], count[..])
    {
      if f.values[i].Fin? && f.quality[i].IsUsable() {
        var k := Slot(f.ts[i], start, step);
        if k < n {
          UsableAdds(f, step, lo, i, sum[..], count[..], k);
          sum[k] := sum[k] + f.values[i].x;
          count[k] := count[k] + 1;
        }
      } else {
        UnusableAddsNothing(f, step, lo, i, sum[..], count[..]);
      }
    }
    values := MeansOf(sum, count);
    MeansAreBinMeans(f, step, lo, sum[..], count[..], values);
  }

  // The bin index the code computes from the first bin's start.
  function Slot(t: int, start: int, step: int): int
    requires step != 0
  {
    SatSub(t, start) / step
  }

  lemma AllSlots(f: SeriesFrame, step: int, start: int, n: nat)
    requires f.Valid() && Regular(f, step) && start == Bin(Least(f.ts), step) * step
    requires n == BinsBetween(Least(f.ts), Greatest(f.ts), step)
    ensures step > 0 && InSlots(f, step, start, Bin(Least(f.ts), step), n)
  {
    hide Bin, Slot;
    forall i | 0 <= i < |f.ts|
      ensures 0 <= Slot(f.ts[i], start, step) == Bin(f.ts[i], step) - Bin(Least(f.ts), step) < n
    {
      SampleSlot(f, step, start, i);
    }
  }

  lemma SampleSlot(f: SeriesFrame, step: int, start: int, i: nat)
    requires f.Valid() && Regular(f, step) && start == Bin(Least(f.ts), step) * step && i < |f.ts|
    ensures var lo := Bin(Least(f.ts), step);
            && Slot(f.ts[i], start, step) == Bin(f.ts[i], step) - lo
            && 0 <= Bin(f.ts[i], step) - lo <= Bin(Greatest(f.ts), step) - lo
  {
    var t, first, last := f.ts[i], Least(f.ts), Greatest(f.ts);
    assert t in f.ts && first <= t <= last;
    hide Bin, Least, Greatest;
    var lo := Bin(first, step);
    BinHolds(first, step, lo);
    BinMonotone(first, t, step);
    BinMonotone(t, last, step);
    FromStart(t, step, lo);
    assert SatSub(t, lo * step) == t - lo * step;
  }

  lemma MeansAreBinMeans(f: SeriesFrame, step: int, lo: int, sum: seq<real>, count: seq<nat>, values: seq<Value>)
    requires f.Valid() && step != 0 && |sum| == |values| && Accumulated(f, step, lo, |f.ts|, sum, count)
    requires |count| == |sum|
    requires forall j :: 0 <= j < |sum| ==> values[j] == if count[j] > 0 then Fin(sum[j] / count[j] as real) else NaN
    ensures values == BinMeans(f, step, lo, |sum|)
  {
    hide BinSum, BinCount;
    forall j | 0 <= j < |sum| ensures values[j] == BinMean(f, step, lo + j) {
      assert sum[j] == BinSum(f, step, lo + j, |f.ts|) && count[j] == BinCount(f, step, lo + j, |f.ts|);
    }
  }

  // Mean per bin from its sum and count.
  method MeansOf(sum: array<real>, count: array<nat>) returns (means: seq<Value>)
    requires sum.Length == count.Length
    ensures |means| == sum.Length
    ensures forall j :: 0 <= j < |means| ==>
              means[j] == if count[j] > 0 then Fin(sum[j] / count[j] as real) else NaN
  {
    means := [];
    for j := 0 to sum.Length
      invariant |means| == j
      invariant forall l :: 0 <= l < j ==> means[l] == if count[l] > 0 then Fin(sum[l] / count[l] as real) else NaN
    {
      means := means + [if count[j] > 0 then Fin(sum[j] / count[j] as real) else NaN];
    }
  }

  // Counting bins from the start of bin lo is the same as from the epoch.
  lemma FromStart(t: int, step: int, lo: int)
    requires step > 0
    ensures (t - lo * step) / step == Bin(t, step) - lo
  {
    var k := Bin(t, step);
    BinHolds(t, step, k);
    BinHolds(t - lo * step, step, k - lo);
    assert Bin(t - lo * step, step) == (t - lo * step) / step;
    hide Bin;
    Distribute(k, -lo, step);
    assert -lo * step == -(lo * step);
  }

  // ---- Several series: align -----------------------------------------------------------------

  // The grid: the given one when positive, else the coarsest expected interval of the members.
  function GridFor(gridNs: Option<int>, expected: seq<Option<int>>): Option<int> {
    if gridNs.Some? && gridNs.value > 0 then gridNs else Coarsest(expected)
  }

  function Coarsest(expected: seq<Option<int>>): Option<int> {
    if expected == [] then None
    else
      var rest := Coarsest(expected[1..]);
      if expected[0].None? then rest
      else if rest.None? then expected[0]
      else Some(Max(expected[0].value, rest.value))
  }

  function NoColumns(n: nat): seq<seq<Value>> {
    seq(n, _ => [])
  }

  function AllTimes(frames: seq<SeriesFrame>): seq<int> {
    if frames == [] then [] else frames[0].ts + AllTimes(frames[1..])
  }

  function BinsOf(ts: seq<int>, grid: int): (bins: seq<int>)
    requires grid != 0
    ensures |bins| == |ts| && forall i :: 0 <= i < |bins| ==> bins[i] == Bin(ts[i], grid)
  {
    seq(|ts|, i requires 0 <= i < |ts| => Bin(ts[i], grid))
  }

  // First and last bin over all members.
  function FirstBin(frames: seq<SeriesFrame>, grid: int): int
    requires grid != 0 && AllTimes(frames) != []
  {
    Least(BinsOf(AllTimes(frames), grid))
  }

  function LastBin(frames: seq<SeriesFrame>, grid: int): int
    requires grid != 0 && AllTimes(frames) != []
  {
    Greatest(BinsOf(AllTimes(frames), grid))
  }

  predicate Fits(frames: seq<SeriesFrame>, grid: int)
    requires grid != 0
  {
    && AllTimes(frames) != []
    && var n := LastBin(frames, grid) - FirstBin(frames, grid) + 1;
       n - 1 <= MAX && n * |frames| <= MAX_CELLS
  }

  lemma BinsInOrder(frames: seq<SeriesFrame>, grid: int)
    requires grid != 0 && AllTimes(frames) != []
    ensures FirstBin(frames, grid) <= LastBin(frames, grid)
  {
    assert LastBin(frames, grid) in BinsOf(AllTimes(frames), grid);
  }

  // Members on one grid: bin starts, saturated at the i64 limits, and each member's bin means.
  function AlignedTo(frames: seq<SeriesFrame>, grid: int): Aligned
    requires grid != 0 && forall f :: f in frames ==> f.Valid()
  {
    if !Fits(frames, grid) then Aligned([], grid, NoColumns(|frames|))
    else
      BinsInOrder(frames, grid);
      var lo, hi := FirstBin(frames, grid), LastBin(frames, grid);
      Aligned(seq(hi - lo + 1, j requires 0 <= j <= hi - lo => SatMul(lo + j, grid)), grid,
              seq(|frames|, m requires 0 <= m < |frames| => BinMeans(frames[m], grid, lo, hi - lo + 1)))
  }

  // A division that panics: by a grid of 0, or of i64::MIN by -1.
  predicate DivisionPanics(times: seq<int>, grid: int) {
    times != [] && (grid == 0 || (grid == -1 && MIN in times))
  }

  datatype AlignResult = Panics | Done(aligned: Aligned)

  // What align returns: nothing without a grid or samples, else the members on the grid.
  ghost predicate IsAligned(frames: seq<SeriesFrame>, g: Option<int>, r: AlignResult)
    requires forall f :: f in frames ==> f.Valid()
  {
    match g
    case None => r == Done(Aligned([], 0, NoColumns(|frames|)))
    case Some(grid) =>
      if DivisionPanics(AllTimes(frames), grid) then r == Panics
      else if grid == 0 then r == Done(Aligned([], 0, NoColumns(|frames|)))
      else r == Done(AlignedTo(frames, grid))
  }

  method Align(frames: seq<SeriesFrame>, gridNs: Option<int>, expected: seq<Option<int>>) returns (r: AlignResult)
    requires forall f :: f in frames ==> f.Valid()
    ensures IsAligned(frames, GridFor(gridNs, expected), r)
  {
    hide BinMeans, Bin, FirstBin, LastBin, AllTimes, GridFor;
    var g := GridFor(gridNs, expected);
    if g.None? {
      return Done(Aligned([], 0, NoColumns(|frames|)));
    }
    var grid := g.value;
    var times := AllTimes(frames);
    if times == [] {
      return Done(Aligned([], grid, NoColumns(|frames|)));
    }
    if DivisionPanics(times, grid) {
      return Panics;
    }
    BinsInOrder(frames, grid);
    var lo, hi := FirstBin(frames, grid), LastBin(frames, grid);
    var n := hi - lo + 1;
    if n - 1 > MAX || n * |frames| > MAX_CELLS {
      return Done(Aligned([], grid, NoColumns(|frames|)));
    }
    var columns := Columns(frames, grid, lo, hi);
    r := Done(Aligned(seq(n, j requires 0 <= j < n => SatMul(lo + j, grid)), grid, columns));
    assert r.aligned.ts == AlignedTo(frames, grid).ts;
    assert r.aligned.columns == AlignedTo(frames, grid).columns;
  }

  // Every member's column, in the order of the members.
  method Columns(frames: seq<SeriesFrame>, grid: int, lo: int, hi: int) returns (columns: seq<seq<Value>>)
    requires grid != 0 && Fits(frames, grid) && forall f :: f in frames ==> f.Valid()
    requires lo == FirstBin(frames, grid) && hi == LastBin(frames, grid) && lo <= hi
    ensures |columns| == |frames|
    ensures forall m :: 0 <= m < |frames| ==> columns[m] == BinMeans(frames[m], grid, lo, hi - lo + 1)
  {
    hide BinMeans, Bin, FirstBin, LastBin, AllTimes;
    columns := [];
    for m := 0 to |frames|
      invariant |columns| == m
      invariant forall l :: 0 <= l < m ==> columns[l] == BinMeans(frames[l], grid, lo, hi - lo + 1)
    {
      BinsCover(frames, grid, m);
      var column := Column(frames[m], grid, lo, hi);
      columns := columns + [column];
    }
  }

  lemma {:induction false} InAllTimes(frames: seq<SeriesFrame>, m: nat)
    requires m < |frames|
    ensures forall t :: t in frames[m].ts ==> t in AllTimes(frames)
  {
    if m > 0 { InAllTimes(frames[1..], m - 1); }
  }

  // One member's column: the sums accumulate in the column itself, which then becomes the means.
  method Column(f: SeriesFrame, grid: int, lo: int, hi: int) returns (column: seq<Value>)
    requires f.Valid() && grid != 0 && lo <= hi
    requires forall t :: t in f.ts ==> lo <= Bin(t, grid) <= hi
    ensures column == BinMeans(f, grid, lo, hi - lo + 1)
  {
    hide BinMeans, Bin, Accumulated;
    var n := hi - lo + 1;
    var sum, count := new real[n](_ => 0.0), new nat[n](_ => 0);
    NothingAccumulated(f, grid, lo, sum[..], count[..]);
    for i := 0 to |f.ts|
      invariant Accumulated(f, grid, lo, i, sum[..], count[..])
    {
      if f.values[i].Fin? && f.quality[i].IsUsable() {
        assert f.ts[i] in f.ts;
        var k := Bin(f.ts[i], grid) - lo;
        UsableAdds(f, grid, lo, i, sum[..], count[..], k);
        sum[k] := sum[k] + f.values[i].x;
        count[k] := count[k] + 1;
      } else {
        UnusableAddsNothing(f, grid, lo, i, sum[..], count[..]);
      }
    }
    column := MeansOf(sum, count);
    MeansAreBinMeans(f, grid, lo, sum[..], count[..], column);
  }

  // ---- Agreement and conservation -----------------------------------------------------------

  function Starts(start: int, step: int, n: nat): seq<int> {
    seq(n, j => start + j * step)
  }

  // Whenever regularise returns bins, aligning that one series to the same step returns the same
  // bin starts and the same values.
  lemma RegulariseAgreesWithAlign(f: SeriesFrame, step: int, start: int, values: seq<Value>)
    requires f.Valid() && Regular(f, step) && Regularised(f, step, start, values)
    ensures 0 < |values| <= MAX_BINS
    ensures AlignedTo([f], step) == Aligned(Starts(start, step, |values|), step, [values])
  {
    hide Bin, BinMeans, Least, Greatest, SatMul;
    assert AllTimes([f]) == f.ts;
    OrderedBins(f.ts, step);
    assert Fits([f], step);
    var lo, hi := Bin(Least(f.ts), step), Bin(Greatest(f.ts), step);
    var n := hi - lo + 1;
    forall j | 0 <= j < n ensures SatMul(lo + j, step) == lo * step + j * step {
      StartNotSaturated(f, step, j);
    }
    assert AlignedTo([f], step).ts == Starts(lo * step, step, n);
    assert AlignedTo([f], step).columns == [values];
  }

  lemma OrderedBins(ts: seq<int>, step: int)
    requires ts != [] && step > 0
    ensures Least(BinsOf(ts, step)) == Bin(Least(ts), step) <= Bin(Greatest(ts), step) == Greatest(BinsOf(ts, step))
  {
    var bins := BinsOf(ts, step);
    BinMonotone(Least(ts), Greatest(ts), step);
    var i :| 0 <= i < |ts| && ts[i] == Least(ts);
    var j :| 0 <= j < |ts| && ts[j] == Greatest(ts);
    assert bins[i] in bins && bins[j] in bins;
    var k :| 0 <= k < |bins| && bins[k] == Least(bins);
    var l :| 0 <= l < |bins| && bins[l] == Greatest(bins);
    hide Bin, Least, Greatest;
    assert ts[k] in ts && ts[l] in ts;
    BinMonotone(Least(ts), ts[k], step);
    BinMonotone(ts[l], Greatest(ts), step);
  }

  lemma StartNotSaturated(f: SeriesFrame, step: int, j: nat)
    requires f.Valid() && Regular(f, step)
    requires j <= Bin(Greatest(f.ts), step) - Bin(Least(f.ts), step)
    ensures var lo := Bin(Least(f.ts), step);
            SatMul(lo + j, step) == lo * step + j * step
  {
    hide Bin, Least;
    var lo, hi := Bin(Least(f.ts), step), Bin(Greatest(f.ts), step);
    BinHolds(Greatest(f.ts), step, hi);
    ProductOrder(lo + j, hi, step);
    ProductOrder(lo, lo + j, step);
    assert (lo + j) * step == lo * step + j * step;
    assert Greatest(f.ts) in f.ts;
  }

  // All usable samples: their number and their total.
  ghost function UsableCount(f: SeriesFrame, n: nat): nat
    requires f.Valid() && n <= |f.ts|
  {
    if n == 0 then 0 else UsableCount(f, n - 1) + (if Usable(f, n - 1) then 1 else 0)
  }

  ghost function UsableTotal(f: SeriesFrame, n: nat): real
    requires f.Valid() && n <= |f.ts|
  {
    if n == 0 then 0.0 else UsableTotal(f, n - 1) + (if Usable(f, n - 1) then f.values[n - 1].x else 0.0)
  }

  // Counts, and count-weighted means, summed over the m bins from lo on.
  ghost function CountsOver(f: SeriesFrame, step: int, lo: int, m: nat, n: nat): nat
    requires f.Valid() && step != 0 && n <= |f.ts|
  {
    if m == 0 then 0 else CountsOver(f, step, lo, m - 1, n) + BinCount(f, step, lo + m - 1, n)
  }

  ghost function SumsOver(f: SeriesFrame, step: int, lo: int, m: nat, n: nat): real
    requires f.Valid() && step != 0 && n <= |f.ts|
  {
    if m == 0 then 0.0 else SumsOver(f, step, lo, m - 1, n) + BinSum(f, step, lo + m - 1, n)
  }

  ghost function WeightedMeansOver(f: SeriesFrame, step: int, lo: int, m: nat): real
    requires f.Valid() && step != 0
  {
    if m == 0 then 0.0
    else
      var mean := BinMean(f, step, lo + m - 1);
      WeightedMeansOver(f, step, lo, m - 1)
      + (if mean.Fin? then BinCount(f, step, lo + m - 1, |f.ts|) as real * mean.x else 0.0)
  }

  lemma {:induction false} OneMoreSample(f: SeriesFrame, step: int, lo: int, m: nat, n: nat)
    requires f.Valid() && step != 0 && n < |f.ts|
    ensures var here := Usable(f, n) && lo <= Bin(f.ts[n], step) < lo + m;
            && CountsOver(f, step, lo, m, n + 1) == CountsOver(f, step, lo, m, n) + (if here then 1 else 0)
            && SumsOver(f, step, lo, m, n + 1) == SumsOver(f, step, lo, m, n) + (if here then f.values[n].x else 0.0)
  {
    hide Bin;
    if m > 0 { OneMoreSample(f, step, lo, m - 1, n); }
  }

  lemma {:induction false} NoSamples(f: SeriesFrame, step: int, lo: int, m: nat)
    requires f.Valid() && step != 0
    ensures CountsOver(f, step, lo, m, 0) == 0 && SumsOver(f, step, lo, m, 0) == 0.0
  {
    if m > 0 { NoSamples(f, step, lo, m - 1); }
  }

  lemma {:induction false} AllBinned(f: SeriesFrame, step: int, lo: int, m: nat, n: nat)
    requires f.Valid() && step != 0 && n <= |f.ts|
    requires forall t :: t in f.ts ==> lo <= Bin(t, step) < lo + m
    ensures CountsOver(f, step, lo, m, n) == UsableCount(f, n)
    ensures SumsOver(f, step, lo, m, n) == UsableTotal(f, n)
  {
    hide Bin;
    if n == 0 {
      NoSamples(f, step, lo, m);
    } else {
      AllBinned(f, step, lo, m, n - 1);
      OneMoreSample(f, step, lo, m, n - 1);
      assert f.ts[n - 1] in f.ts;
    }
  }

  lemma {:induction false} EmptyBinSum(f: SeriesFrame, step: int, k: int, n: nat)
    requires f.Valid() && step != 0 && n <= |f.ts| && BinCount(f, step, k, n) == 0
    ensures BinSum(f, step, k, n) == 0.0
  {
    if n > 0 { EmptyBinSum(f, step, k, n - 1); }
  }

  lemma {:induction false} WeightedMeansAreSums(f: SeriesFrame, step: int, lo: int, m: nat)
    requires f.Valid() && step != 0
    ensures WeightedMeansOver(f, step, lo, m) == SumsOver(f, step, lo, m, |f.ts|)
  {
    if m > 0 {
      WeightedMeansAreSums(f, step, lo, m - 1);
      var k := lo + m - 1;
      if BinCount(f, step, k, |f.ts|) == 0 { EmptyBinSum(f, step, k, |f.ts|); }
    }
  }

  // Of all bins of the step, k alone holds t.
  ghost predicate IsOnlyBin(t: int, step: int, k: int) {
    Within(t, step, k) && forall j :: Within(t, step, j) ==> j == k
  }

  // Nothing is lost or invented: every usable sample of a member lies in exactly one of the bins,
  // the counts sum to their number, and the count-weighted means to their total.
  lemma BinningConserves(f: SeriesFrame, step: int, lo: int, m: nat)
    requires f.Valid() && step != 0
    requires forall t :: t in f.ts ==> lo <= Bin(t, step) < lo + m
    ensures CountsOver(f, step, lo, m, |f.ts|) == UsableCount(f, |f.ts|)
    ensures WeightedMeansOver(f, step, lo, m) == UsableTotal(f, |f.ts|)
    ensures forall t :: t in f.ts ==> exists k :: lo <= k < lo + m && IsOnlyBin(t, step, k)
  {
    AllBinned(f, step, lo, m, |f.ts|);
    WeightedMeansAreSums(f, step, lo, m);
    forall t | t in f.ts ensures exists k :: lo <= k < lo + m && IsOnlyBin(t, step, k) {
      var k := Bin(t, step);
      BinHolds(t, step, k);
      forall j | Within(t, step, j) ensures j == k { BinHolds(t, step, j); }
      assert IsOnlyBin(t, step, k);
    }
  }

  // The bins both functions build cover every sample of the series.
  lemma BinsCover(frames: seq<SeriesFrame>, grid: int, m: nat)
    requires grid != 0 && AllTimes(frames) != [] && m < |frames|
    ensures forall t :: t in frames[m].ts ==> FirstBin(frames, grid) <= Bin(t, grid) <= LastBin(frames, grid)
  {
    InAllTimes(frames, m);
    var times := AllTimes(frames);
    forall t | t in frames[m].ts ensures FirstBin(frames, grid) <= Bin(t, grid) <= LastBin(frames, grid) {
      var i :| 0 <= i < |times| && times[i] == t;
      assert BinsOf(times, grid)[i] in BinsOf(times, grid);
    }
  }
}
