// What `regularise` and `align` return, said of the samples themselves (seasonal.rs and align.rs).
module AlignMeaning {
  import opened Arithmetic
  import opened Int64
  import opened Frame
  import opened Align

  // ---- One bin -----------------------------------------------------------------------------

  // Sample i counts in the bin [start, start + width): a finite value of good or estimated quality.
  predicate CountsAt(f: SeriesFrame, start: int, width: int, i: nat)
    requires f.Valid() && i < |f.ts|
  {
    f.values[i].Fin? && (f.quality[i] == Good || f.quality[i] == Estimated) && start <= f.ts[i] < start + width
  }

  ghost function SumIn(f: SeriesFrame, start: int, width: int, n: nat): real
    requires f.Valid() && n <= |f.ts|
  {
    if n == 0 then 0.0
    else SumIn(f, start, width, n - 1) + (if CountsAt(f, start, width, n - 1) then f.values[n - 1].x else 0.0)
  }

  ghost function CountIn(f: SeriesFrame, start: int, width: int, n: nat): nat
    requires f.Valid() && n <= |f.ts|
  {
    if n == 0 then 0
    else CountIn(f, start, width, n - 1) + (if CountsAt(f, start, width, n - 1) then 1 else 0)
  }

  // v is the mean of the samples that count in the bin, NaN when there is none.
  ghost predicate IsMean(f: SeriesFrame, start: int, width: int, v: Value)
    requires f.Valid()
  {
    if CountIn(f, start, width, |f.ts|) == 0 then v == NaN
    else v.Fin? && v.x * CountIn(f, start, width, |f.ts|) as real == SumIn(f, start, width, |f.ts|)
  }

  lemma {:induction false} BinIs(f: SeriesFrame, step: int, k: int, n: nat)
    requires f.Valid() && step != 0 && n <= |f.ts|
    ensures BinSum(f, step, k, n) == SumIn(f, k * step, Width(step), n)
    ensures BinCount(f, step, k, n) == CountIn(f, k * step, Width(step), n)
  {
    hide Bin, Width;
    if n > 0 {
      BinIs(f, step, k, n - 1);
      BinHolds(f.ts[n - 1], step, k);
    }
  }

  lemma MeanIs(f: SeriesFrame, step: int, k: int)
    requires f.Valid() && step != 0
    ensures IsMean(f, k * step, Width(step), BinMean(f, step, k))
  {
    hide BinSum, BinCount, SumIn, CountIn, Width;
    BinIs(f, step, k, |f.ts|);
    if BinCount(f, step, k, |f.ts|) > 0 {
      MeanTimes(BinSum(f, step, k, |f.ts|), BinCount(f, step, k, |f.ts|) as real);
    }
  }

  lemma MeanTimes(s: real, c: real)
    requires c > 0.0
    ensures s / c * c == s
  {
  }

  // ---- One series -----------------------------------------------------------------------------

  // The n bins from start on reach exactly from the first to the last timestamp.
  predicate Spans(ts: seq<int>, step: int, lo: int, n: nat)
    requires step > 0
  {
    && (forall t :: t in ts ==> lo * step <= t < (lo + n) * step)
    && (exists t :: t in ts && t < (lo + 1) * step)
    && (exists t :: t in ts && (lo + n - 1) * step <= t)
  }

  // regularise: nothing without samples, for a step that is not positive, or when the first start, the
  // span or the number of bins is out of bounds; else the mean of every bin.
  ghost predicate IsRegularised(f: SeriesFrame, step: int, start: int, values: seq<Value>)
    requires f.Valid()
  {
    if f.ts == [] || step <= 0 then start == 0 && values == []
    else exists lo: int, n: nat :: Spans(f.ts, step, lo, n) && RegularFrom(f, step, lo, n, start, values)
  }

  ghost predicate RegularFrom(f: SeriesFrame, step: int, lo: int, n: nat, start: int, values: seq<Value>)
    requires f.Valid() && step > 0
  {
    if lo * step < MIN then start == 0 && values == []
    else if n > 500_000 || exists t :: t in f.ts && t - lo * step > MAX then start == lo * step && values == []
    else
      && start == lo * step && |values| == n
      && forall j :: 0 <= j < n ==> IsMean(f, (lo + j) * step, step, values[j])
  }

  lemma RegularisedIs(f: SeriesFrame, step: int, start: int, values: seq<Value>)
    requires f.Valid() && Regularised(f, step, start, values)
    ensures IsRegularised(f, step, start, values)
  {
    if f.ts != [] && step > 0 {
      hide Bin, Regular, BinMeans, IsMean, Spans, Regularised;
      var first, last := Least(f.ts), Greatest(f.ts);
      var lo, n := Bin(first, step), BinsBetween(first, last, step);
      SpansIs(f.ts, step);
      FromIs(f, step, start, values);
    }
  }

  lemma SpansIs(ts: seq<int>, step: int)
    requires ts != [] && step > 0
    ensures Spans(ts, step, Bin(Least(ts), step), BinsBetween(Least(ts), Greatest(ts), step))
  {
    hide Bin, Least, Greatest;
    var first, last := Least(ts), Greatest(ts);
    var lo, n := Bin(first, step), BinsBetween(first, last, step);
    BinHolds(first, step, lo);
    BinHolds(last, step, Bin(last, step));
    assert lo + n - 1 == Bin(last, step);
    Distribute(lo, 1, step);
    Distribute(lo + n - 1, 1, step);
  }

  lemma FromIs(f: SeriesFrame, step: int, start: int, values: seq<Value>)
    requires f.Valid() && f.ts != [] && step > 0 && Regularised(f, step, start, values)
    ensures RegularFrom(f, step, Bin(Least(f.ts), step), BinsBetween(Least(f.ts), Greatest(f.ts), step), start, values)
  {
    hide Bin, IsMean, BinMean, Least, Greatest;
    var first, last := Least(f.ts), Greatest(f.ts);
    var lo, n := Bin(first, step), BinsBetween(first, last, step);
    BinHolds(first, step, lo);
    LastIsFarthest(f.ts, lo * step);
    if Regular(f, step) {
      forall j | 0 <= j < n ensures IsMean(f, (lo + j) * step, step, values[j]) {
        MeanIs(f, step, lo + j);
      }
    }
  }

  lemma LastIsFarthest(ts: seq<int>, start: int)
    requires ts != []
    ensures (exists t :: t in ts && t - start > MAX) <==> Greatest(ts) - start > MAX
    ensures forall t :: t in ts ==> Least(ts) <= t
  {
    assert Greatest(ts) in ts;
    hide Greatest, Least;
  }

  // ---- Several series ---------------------------------------------------------------------------

  // The grid is the given one when positive, else the largest of the members' expected intervals.
  predicate IsGrid(gridNs: Option<int>, expected: seq<Option<int>>, g: Option<int>) {
    if gridNs.Some? && gridNs.value > 0 then g == gridNs
    else
      && (forall e :: e in expected && e.Some? ==> g.Some? && e.value <= g.value)
      && (g.Some? ==> g in expected)
  }

  lemma {:induction false} CoarsestIs(expected: seq<Option<int>>)
    ensures forall e :: e in expected && e.Some? ==> Coarsest(expected).Some? && e.value <= Coarsest(expected).value
    ensures Coarsest(expected).Some? ==> Coarsest(expected) in expected
  {
    if expected != [] {
      CoarsestIs(expected[1..]);
      assert expected == [expected[0]] + expected[1..];
    }
  }

  lemma GridIs(gridNs: Option<int>, expected: seq<Option<int>>)
    ensures IsGrid(gridNs, expected, GridFor(gridNs, expected))
  {
    CoarsestIs(expected);
  }

  // Some member has a sample at t.
  ghost predicate SampleAt(frames: seq<SeriesFrame>, t: int) {
    exists m :: 0 <= m < |frames| && t in frames[m].ts
  }

  // t lies in bin k: in the |grid| nanoseconds from k * grid on.
  predicate InBin(t: int, grid: int, k: int) {
    k * grid <= t < k * grid + (if grid < 0 then -grid else grid)
  }

  // The n bins from lo on hold all samples, and the first and the last of them hold one.
  ghost predicate Reach(frames: seq<SeriesFrame>, grid: int, lo: int, n: nat) {
    && n > 0
    && (forall t :: SampleAt(frames, t) ==> exists k :: lo <= k < lo + n && InBin(t, grid, k))
    && (exists t :: SampleAt(frames, t) && InBin(t, grid, lo))
    && (exists t :: SampleAt(frames, t) && InBin(t, grid, lo + n - 1))
  }

  predicate IsEmpty(a: Aligned, grid: int, members: nat) {
    a.ts == [] && a.grid == grid && |a.columns| == members && forall m :: 0 <= m < members ==> a.columns[m] == []
  }

  // The bins' starts, kept inside 64 bits, and the means of each member.
  ghost predicate OnBins(frames: seq<SeriesFrame>, grid: int, lo: int, n: nat, a: Aligned)
    requires forall f :: f in frames ==> f.Valid()
  {
    && a.grid == grid && |a.ts| == n && |a.columns| == |frames|
    && (forall j :: 0 <= j < n ==> StartIs((lo + j) * grid, a.ts[j]))
    && (forall m :: 0 <= m < |frames| ==> |a.columns[m]| == n)
    && forall m, j :: 0 <= m < |frames| && 0 <= j < n ==>
         IsMean(frames[m], (lo + j) * grid, if grid < 0 then -grid else grid, a.columns[m][j])
  }

  predicate StartIs(exact: int, t: int) {
    t == if exact < MIN then MIN else if exact > MAX then MAX else exact
  }

  // align: a panic exactly when a sample's division fails, nothing without a grid or a sample or beyond
  // 20 million values, else the members on the bins.
  ghost predicate IsAlignment(frames: seq<SeriesFrame>, g: Option<int>, r: AlignResult)
    requires forall f :: f in frames ==> f.Valid()
  {
    if g.None? then r.Done? && IsEmpty(r.aligned, 0, |frames|)
    else if forall t :: !SampleAt(frames, t) then r.Done? && IsEmpty(r.aligned, g.value, |frames|)
    else if g.value == 0 || (g.value == -1 && SampleAt(frames, MIN)) then r.Panics?
    else
      && r.Done?
      && exists lo: int, n: nat :: Reach(frames, g.value, lo, n) && AlignedFrom(frames, g.value, lo, n, r.aligned)
  }

  ghost predicate AlignedFrom(frames: seq<SeriesFrame>, grid: int, lo: int, n: nat, a: Aligned)
    requires forall f :: f in frames ==> f.Valid()
  {
    if n - 1 > MAX || n * |frames| > 20_000_000 then IsEmpty(a, grid, |frames|)
    else OnBins(frames, grid, lo, n, a)
  }

  lemma {:induction false} TimesAre(frames: seq<SeriesFrame>, t: int)
    ensures t in AllTimes(frames) <==> SampleAt(frames, t)
  {
    if frames != [] {
      TimesAre(frames[1..], t);
      if SampleAt(frames, t) {
        var m :| 0 <= m < |frames| && t in frames[m].ts;
        if m > 0 { assert frames[1..][m - 1] == frames[m]; }
      }
      if SampleAt(frames[1..], t) {
        var m :| 0 <= m < |frames| - 1 && t in frames[1..][m].ts;
        assert frames[m + 1] == frames[1..][m];
      }
    }
  }

  lemma InBinIs(t: int, grid: int, k: int)
    requires grid != 0
    ensures InBin(t, grid, k) <==> Bin(t, grid) == k
  {
    BinHolds(t, grid, k);
    hide Bin;
  }

  lemma BinOfTime(frames: seq<SeriesFrame>, grid: int, k: int)
    requires grid != 0
    ensures k in BinsOf(AllTimes(frames), grid) <==> exists t :: SampleAt(frames, t) && InBin(t, grid, k)
  {
    hide Bin, SampleAt, InBin, AllTimes;
    var ts := AllTimes(frames);
    var bins := BinsOf(ts, grid);
    if k in bins {
      var i :| 0 <= i < |bins| && bins[i] == k;
      assert ts[i] in ts;
      TimesAre(frames, ts[i]);
      InBinIs(ts[i], grid, k);
    }
    if t :| SampleAt(frames, t) && InBin(t, grid, k) {
      TimesAre(frames, t);
      InBinIs(t, grid, k);
      var i :| 0 <= i < |ts| && ts[i] == t;
      assert bins[i] == k;
    }
  }

  lemma ReachIs(frames: seq<SeriesFrame>, grid: int)
    requires grid != 0 && AllTimes(frames) != []
    ensures FirstBin(frames, grid) <= LastBin(frames, grid)
    ensures Reach(frames, grid, FirstBin(frames, grid), LastBin(frames, grid) - FirstBin(frames, grid) + 1)
  {
    hide Bin, SampleAt, InBin, AllTimes, Least, Greatest;
    var bins := BinsOf(AllTimes(frames), grid);
    var lo, hi := Least(bins), Greatest(bins);
    BinOfTime(frames, grid, lo);
    BinOfTime(frames, grid, hi);
    forall t | SampleAt(frames, t) ensures exists k :: lo <= k < lo + (hi - lo + 1) && InBin(t, grid, k) {
      InBinIs(t, grid, Bin(t, grid));
      BinOfTime(frames, grid, Bin(t, grid));
      assert lo <= Bin(t, grid) <= hi;
    }
  }

  lemma OnBinsIs(frames: seq<SeriesFrame>, grid: int)
    requires grid != 0 && Fits(frames, grid) && forall f :: f in frames ==> f.Valid()
    ensures FirstBin(frames, grid) <= LastBin(frames, grid)
    ensures OnBins(frames, grid, FirstBin(frames, grid), LastBin(frames, grid) - FirstBin(frames, grid) + 1,
                   AlignedTo(frames, grid))
  {
    hide AllTimes, FirstBin, LastBin, IsMean, BinMean, StartIs, SatMul;
    BinsInOrder(frames, grid);
    var lo, n := FirstBin(frames, grid), LastBin(frames, grid) - FirstBin(frames, grid) + 1;
    var a := AlignedTo(frames, grid);
    forall j | 0 <= j < n ensures StartIs((lo + j) * grid, a.ts[j]) {
      SaturatedStart(lo + j, grid);
      assert a.ts[j] == SatMul(lo + j, grid);
    }
    forall m, j | 0 <= m < |frames| && 0 <= j < n
      ensures IsMean(frames[m], (lo + j) * grid, if grid < 0 then -grid else grid, a.columns[m][j])
    {
      MeanIs(frames[m], grid, lo + j);
      assert a.columns[m][j] == BinMean(frames[m], grid, lo + j);
    }
  }

  lemma SaturatedStart(k: int, grid: int)
    ensures StartIs(k * grid, SatMul(k, grid))
  {
  }

  lemma AlignmentIs(frames: seq<SeriesFrame>, g: Option<int>, r: AlignResult)
    requires (forall f :: f in frames ==> f.Valid()) && IsAligned(frames, g, r)
    ensures IsAlignment(frames, g, r)
  {
    hide AllTimes, SampleAt, Reach, OnBins;
    if g.Some? {
      var grid := g.value;
      NoTimes(frames);
      TimesAre(frames, MIN);
      if AllTimes(frames) != [] && grid != 0 {
        AlignedFromIs(frames, grid);
        ReachIs(frames, grid);
      }
    }
  }

  lemma NoTimes(frames: seq<SeriesFrame>)
    ensures AllTimes(frames) == [] <==> forall t :: !SampleAt(frames, t)
  {
    hide AllTimes, SampleAt;
    if AllTimes(frames) == [] {
      forall t ensures !SampleAt(frames, t) { TimesAre(frames, t); }
    } else {
      TimesAre(frames, AllTimes(frames)[0]);
    }
  }

  lemma AlignedFromIs(frames: seq<SeriesFrame>, grid: int)
    requires grid != 0 && AllTimes(frames) != [] && forall f :: f in frames ==> f.Valid()
    ensures FirstBin(frames, grid) <= LastBin(frames, grid)
    ensures AlignedFrom(frames, grid, FirstBin(frames, grid), LastBin(frames, grid) - FirstBin(frames, grid) + 1,
                        AlignedTo(frames, grid))
  {
    hide AllTimes, FirstBin, LastBin, OnBins;
    BinsInOrder(frames, grid);
    if Fits(frames, grid) { OnBinsIs(frames, grid); }
  }
}
