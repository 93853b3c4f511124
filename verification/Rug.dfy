// The quality rug of a chart (quality_runs of core/tabayyun-core/src/downsample.rs): runs of bins
// that hold samples of non-good quality.
module Rug {
  import opened Frame
  import opened Bins

  datatype QualityRun = QualityRun(start: int, end: int, quality: Quality)

  function Rank(q: Quality): nat {
    match q
    case Good => 0
    case Uncertain => 1
    case Estimated => 2
    case Bad => 3
  }

  // ---- Bins with a non-good sample -------------------------------------------------------------

  // A bin, its worst class, and whether a good sample lies between it and the previous such bin.
  datatype BinClass = BinClass(bin: nat, quality: Quality, broken: bool)

  // First and last non-good sample of a bin.
  datatype Extent = Extent(first: nat, last: nat)

  predicate NonGood(f: SeriesFrame, i: nat)
    requires f.Valid() && i < |f.ts|
  {
    f.quality[i] != Good
  }

  // e is the class of the bin whose non-good samples lie in x: the worst class present.
  ghost predicate Classes(f: SeriesFrame, g: Grid, e: BinClass, x: Extent)
    requires f.Valid() && g.buckets > 0
  {
    && x.first <= x.last < |f.ts|
    && NonGood(f, x.first) && NonGood(f, x.last)
    && (forall i :: x.first <= i <= x.last ==> BinAt(f, g, i) == e.bin && Rank(f.quality[i]) <= Rank(e.quality))
    && e.quality != Good && Witnessed(f, x, e.quality)
  }

  ghost predicate Fits(f: SeriesFrame, g: Grid, lo: nat, i: nat, e: BinClass, x: Extent)
    requires f.Valid() && g.buckets > 0
  {
    Classes(f, g, e, x) && lo <= x.first <= x.last < i
  }

  ghost predicate AllFit(f: SeriesFrame, g: Grid, lo: nat, i: nat, bins: seq<BinClass>, exts: seq<Extent>)
    requires f.Valid() && g.buckets > 0 && |bins| == |exts|
  {
    forall k :: 0 <= k < |bins| ==> Fits(f, g, lo, i, bins[k], exts[k])
  }

  predicate Separate(bins: seq<BinClass>, exts: seq<Extent>)
    requires |bins| == |exts|
  {
    && (forall k :: 0 <= k < |exts| ==> exts[k].first <= exts[k].last)
    && (forall k, l :: 0 <= k < l < |bins| ==> exts[k].last < exts[l].first && bins[k].bin < bins[l].bin)
  }

  predicate BrokenByGood(bins: seq<BinClass>, exts: seq<Extent>, lo: nat)
    requires |bins| == |exts|
  {
    forall k :: 0 <= k < |bins| ==> (bins[k].broken <==> StartOf(exts, lo, k) < exts[k].first)
  }

  ghost predicate HoldsAll(f: SeriesFrame, lo: nat, i: nat, exts: seq<Extent>)
    requires f.Valid() && i <= |f.ts|
  {
    forall j: nat :: lo <= j < i && NonGood(f, j) ==> InExtents(exts, j)
  }

  // bins classifies the non-good samples of [lo, i): their extents are ordered, hold all of them, and
  // a bin is broken exactly when samples, all good, lie before its first non-good one.
  ghost predicate Classified(f: SeriesFrame, g: Grid, lo: nat, i: nat, bins: seq<BinClass>, exts: seq<Extent>)
    requires f.Valid() && g.buckets > 0
  {
    && lo <= i <= |f.ts| && |bins| == |exts|
    && AllFit(f, g, lo, i, bins, exts) && Separate(bins, exts) && BrokenByGood(bins, exts, lo)
    && HoldsAll(f, lo, i, exts)
  }

  // The sample after the last non-good one before extent k.
  function StartOf(exts: seq<Extent>, lo: nat, k: nat): nat
    requires k <= |exts|
  {
    if k == 0 then lo else exts[k - 1].last + 1
  }

  ghost predicate InExtents(exts: seq<Extent>, j: nat) {
    exists k: nat :: k < |exts| && exts[k].first <= j <= exts[k].last
  }

  lemma InExtentsGrows(exts: seq<Extent>, others: seq<Extent>, j: nat)
    requires InExtents(exts, j) && |exts| <= |others|
    requires forall k :: 0 <= k < |exts| ==> others[k].first <= exts[k].first && exts[k].last <= others[k].last
    ensures InExtents(others, j)
  {
    var k: nat :| k < |exts| && exts[k].first <= j <= exts[k].last;
    assert others[k].first <= j <= others[k].last;
  }

  lemma SkipGood(f: SeriesFrame, g: Grid, lo: nat, i: nat, bins: seq<BinClass>, exts: seq<Extent>)
    requires f.Valid() && g.buckets > 0 && i < |f.ts|
    requires Classified(f, g, lo, i, bins, exts) && !NonGood(f, i)
    ensures Classified(f, g, lo, i + 1, bins, exts)
  {
    hide InExtents, Classes;
  }

  lemma Worsened(f: SeriesFrame, g: Grid, e: BinClass, x: Extent, i: nat)
    requires f.Valid() && g.buckets > 0 && x.last < i < |f.ts| && Classes(f, g, e, x) && NonGood(f, i)
    requires forall j :: x.last < j < i ==> !NonGood(f, j) && BinAt(f, g, j) == e.bin
    requires BinAt(f, g, i) == e.bin
    ensures Classes(f, g,
                    if Rank(f.quality[i]) > Rank(e.quality) then e.(quality := f.quality[i]) else e, x.(last := i))
  {
    hide BinAt;
    var j: nat :| x.first <= j <= x.last && f.quality[j] == e.quality;
    if Rank(f.quality[i]) > Rank(e.quality) {
      WorstIs(f, x.(last := i), i, f.quality[i]);
    } else {
      WorstIs(f, x.(last := i), j, e.quality);
    }
    forall k | x.first <= k <= i
      ensures Rank(f.quality[k]) <= Rank(f.quality[i]) || Rank(f.quality[k]) <= Rank(e.quality)
    {
      assert k > x.last && k < i ==> !NonGood(f, k);
    }
  }

  ghost predicate Witnessed(f: SeriesFrame, x: Extent, q: Quality)
    requires f.Valid() && x.last < |f.ts|
  {
    exists i: nat :: x.first <= i <= x.last && f.quality[i] == q
  }

  lemma WorstIs(f: SeriesFrame, x: Extent, i: nat, q: Quality)
    requires f.Valid() && x.first <= i <= x.last < |f.ts| && f.quality[i] == q
    ensures Witnessed(f, x, q)
  {
  }

  function AddSample(f: SeriesFrame, g: Grid, i: nat, bins: seq<BinClass>, goodSince: bool): seq<BinClass>
    requires f.Valid() && g.buckets > 0 && i < |f.ts|
  {
    var n := |bins|;
    if n > 0 && bins[n - 1].bin == BinAt(f, g, i) then
      if Rank(f.quality[i]) > Rank(bins[n - 1].quality) then bins[n - 1 := bins[n - 1].(quality := f.quality[i])]
      else bins
    else bins + [BinClass(BinAt(f, g, i), f.quality[i], goodSince)]
  }

  function AddExtent(f: SeriesFrame, g: Grid, i: nat, bins: seq<BinClass>, exts: seq<Extent>): seq<Extent>
    requires f.Valid() && g.buckets > 0 && i < |f.ts| && |bins| == |exts|
  {
    var n := |bins|;
    if n > 0 && bins[n - 1].bin == BinAt(f, g, i) then exts[n - 1 := exts[n - 1].(last := i)]
    else exts + [Extent(i, i)]
  }

  lemma SameBinBetween(f: SeriesFrame, g: Grid, x: nat, i: nat)
    requires f.Valid() && Proper(g) && InOrder(f.ts) && x <= i < |f.ts| && BinAt(f, g, x) == BinAt(f, g, i)
    ensures forall j :: x <= j <= i ==> BinAt(f, g, j) == BinAt(f, g, i)
  {
    forall j | x <= j <= i ensures BinAt(f, g, j) == BinAt(f, g, i) {
      BinMonotone(f.ts[x], f.ts[j], g);
      BinMonotone(f.ts[j], f.ts[i], g);
    }
    hide BinOf;
  }

  lemma GoodAfterLast(f: SeriesFrame, g: Grid, lo: nat, i: nat, bins: seq<BinClass>, exts: seq<Extent>, j: nat)
    requires f.Valid() && g.buckets > 0 && Classified(f, g, lo, i, bins, exts)
    requires StartOf(exts, lo, |exts|) <= j < i
    ensures !NonGood(f, j)
  {
    AfterAllExtents(bins, exts, lo, j);
    hide AllFit, Separate, BrokenByGood, InExtents;
  }

  lemma AfterAllExtents(bins: seq<BinClass>, exts: seq<Extent>, lo: nat, j: nat)
    requires |bins| == |exts| && Separate(bins, exts) && StartOf(exts, lo, |exts|) <= j
    ensures !InExtents(exts, j) && (exts == [] ==> lo <= j)
  {
    forall k | 0 <= k < |exts| ensures exts[k].last <= exts[|exts| - 1].last {
      if k < |exts| - 1 { assert exts[k].last < exts[|exts| - 1].first; }
    }
  }

  lemma FitsLonger(f: SeriesFrame, g: Grid, lo: nat, i: nat, bins: seq<BinClass>, exts: seq<Extent>,
                   bins': seq<BinClass>, exts': seq<Extent>, n: nat)
    requires f.Valid() && g.buckets > 0 && |bins| == |exts| && |bins'| == |exts'| == n + 1 && n <= |bins|
    requires AllFit(f, g, lo, i, bins, exts) && Fits(f, g, lo, i + 1, bins'[n], exts'[n])
    requires bins'[..n] == bins[..n] && exts'[..n] == exts[..n]
    ensures AllFit(f, g, lo, i + 1, bins', exts')
  {
    hide Classes;
    forall k | 0 <= k < |bins'| ensures Fits(f, g, lo, i + 1, bins'[k], exts'[k]) {
      if k < n {
        assert bins'[k] == bins'[..n][k] == bins[k] && exts'[k] == exts'[..n][k] == exts[k];
        assert Fits(f, g, lo, i, bins[k], exts[k]);
      }
    }
  }

  lemma GrowSeparate(bins: seq<BinClass>, exts: seq<Extent>, lo: nat, n: nat, e: BinClass, i: nat)
    requires |bins| == |exts| == n + 1 && Separate(bins, exts) && BrokenByGood(bins, exts, lo)
    requires e.bin == bins[n].bin && e.broken == bins[n].broken && exts[n].last < i
    ensures Separate(bins[n := e], exts[n := exts[n].(last := i)])
    ensures BrokenByGood(bins[n := e], exts[n := exts[n].(last := i)], lo)
  {
  }

  lemma PushSeparate(bins: seq<BinClass>, exts: seq<Extent>, e: BinClass, i: nat)
    requires |bins| == |exts| && Separate(bins, exts)
    requires bins != [] ==> bins[|bins| - 1].bin < e.bin && exts[|exts| - 1].last < i
    ensures Separate(bins + [e], exts + [Extent(i, i)])
  {
    forall k | 0 <= k < |bins| ensures exts[k].last < i && bins[k].bin < e.bin {
      if k < |bins| - 1 { assert bins[k].bin < bins[|bins| - 1].bin; }
      if k < |bins| - 1 { assert exts[k].last < exts[|bins| - 1].first; }
    }
  }

  lemma PushBroken(bins: seq<BinClass>, exts: seq<Extent>, lo: nat, e: BinClass, i: nat)
    requires |bins| == |exts| && BrokenByGood(bins, exts, lo)
    requires e.broken <==> StartOf(exts, lo, |exts|) < i
    ensures BrokenByGood(bins + [e], exts + [Extent(i, i)], lo)
  {
    var bins', exts' := bins + [e], exts + [Extent(i, i)];
    forall k | 0 <= k < |bins'| ensures bins'[k].broken <==> StartOf(exts', lo, k) < exts'[k].first {
      assert StartOf(exts', lo, k) == StartOf(exts, lo, k);
    }
  }

  lemma HoldsOneMore(f: SeriesFrame, lo: nat, i: nat, exts: seq<Extent>, exts': seq<Extent>)
    requires f.Valid() && i < |f.ts| && HoldsAll(f, lo, i, exts) && |exts| <= |exts'|
    requires forall k :: 0 <= k < |exts| ==> exts'[k].first <= exts[k].first && exts[k].last <= exts'[k].last
    requires InExtents(exts', i)
    ensures HoldsAll(f, lo, i + 1, exts')
  {
    hide InExtents;
    forall j: nat | lo <= j < i + 1 && NonGood(f, j) ensures InExtents(exts', j) {
      if j < i { InExtentsGrows(exts, exts', j); }
    }
  }

  lemma GrowLast(f: SeriesFrame, g: Grid, lo: nat, i: nat, bins: seq<BinClass>, exts: seq<Extent>, goodSince: bool)
    requires f.Valid() && Proper(g) && InOrder(f.ts) && i < |f.ts| && NonGood(f, i)
    requires Classified(f, g, lo, i, bins, exts) && bins != [] && bins[|bins| - 1].bin == BinAt(f, g, i)
    ensures Classified(f, g, lo, i + 1, AddSample(f, g, i, bins, goodSince), AddExtent(f, g, i, bins, exts))
  {
    hide HoldsAll, BrokenByGood, InExtents, InOrder, BinOf;
    var n := |bins| - 1;
    var e, x := bins[n], exts[n];
    var bins', exts' := AddSample(f, g, i, bins, goodSince), AddExtent(f, g, i, bins, exts);
    assert Fits(f, g, lo, i, e, x);
    assert BinAt(f, g, x.last) == e.bin;
    SameBinBetween(f, g, x.last, i);
    forall j | x.last < j < i ensures !NonGood(f, j) { GoodAfterLast(f, g, lo, i, bins, exts, j); }
    Worsened(f, g, e, x, i);
    hide AllFit, Separate, Classes, NonGood;
    assert bins' == bins[n := bins'[n]];
    FitsLonger(f, g, lo, i, bins, exts, bins', exts', n);
    GrowSeparate(bins, exts, lo, n, bins'[n], i);
    LastHolds(exts', i);
    HoldsOneMore(f, lo, i, exts, exts');
  }

  lemma LastHolds(exts: seq<Extent>, j: nat)
    requires exts != [] && exts[|exts| - 1].first <= j <= exts[|exts| - 1].last
    ensures InExtents(exts, j)
  {
  }

  lemma PushNew(f: SeriesFrame, g: Grid, lo: nat, i: nat, bins: seq<BinClass>, exts: seq<Extent>, goodSince: bool)
    requires f.Valid() && Proper(g) && InOrder(f.ts) && i < |f.ts| && NonGood(f, i)
    requires Classified(f, g, lo, i, bins, exts) && (bins == [] || bins[|bins| - 1].bin != BinAt(f, g, i))
    requires goodSince <==> StartOf(exts, lo, |exts|) < i
    ensures Classified(f, g, lo, i + 1, AddSample(f, g, i, bins, goodSince), AddExtent(f, g, i, bins, exts))
  {
    hide HoldsAll, BrokenByGood, Separate, InExtents, InOrder, BinOf;
    var n := |bins|;
    var bins', exts' := AddSample(f, g, i, bins, goodSince), AddExtent(f, g, i, bins, exts);
    assert Fits(f, g, lo, i + 1, bins'[n], exts'[n]) by { assert f.quality[i] == bins'[n].quality; }
    if n > 0 {
      assert Fits(f, g, lo, i, bins[n - 1], exts[n - 1]);
      assert exts[n - 1].last < i && BinAt(f, g, exts[n - 1].last) == bins[n - 1].bin;
      BinsInOrder(f, g, exts[n - 1].last, i);
    }
    hide AllFit, Classes, NonGood;
    FitsLonger(f, g, lo, i, bins, exts, bins', exts', n);
    PushSeparate(bins, exts, bins'[n], i);
    PushBroken(bins, exts, lo, bins'[n], i);
    LastHolds(exts', i);
    HoldsOneMore(f, lo, i, exts, exts');
  }

  lemma NoneYet(f: SeriesFrame, g: Grid, lo: nat)
    requires f.Valid() && g.buckets > 0 && lo <= |f.ts|
    ensures Classified(f, g, lo, lo, [], [])
  {
  }

  lemma ClassifiedParts(f: SeriesFrame, g: Grid, lo: nat, i: nat, bins: seq<BinClass>, exts: seq<Extent>)
    requires f.Valid() && g.buckets > 0 && Classified(f, g, lo, i, bins, exts)
    ensures |bins| == |exts| && StartOf(exts, lo, |exts|) <= i
  {
    hide Separate, BrokenByGood, HoldsAll, AllFit, Fits;
    if exts != [] { FitAt(f, g, lo, i, bins, exts, |bins| - 1); }
  }

  lemma FitAt(f: SeriesFrame, g: Grid, lo: nat, i: nat, bins: seq<BinClass>, exts: seq<Extent>, k: nat)
    requires f.Valid() && g.buckets > 0 && k < |bins| == |exts| && AllFit(f, g, lo, i, bins, exts)
    ensures Classes(f, g, bins[k], exts[k]) && lo <= exts[k].first <= exts[k].last < i
  {
    hide Classes;
    assert Fits(f, g, lo, i, bins[k], exts[k]);
  }

  lemma AddSampleKeeps(f: SeriesFrame, g: Grid, lo: nat, i: nat, bins: seq<BinClass>,
                       exts: seq<Extent>, goodSince: bool)
    requires f.Valid() && Proper(g) && InOrder(f.ts) && i < |f.ts| && NonGood(f, i)
    requires Classified(f, g, lo, i, bins, exts) && |bins| == |exts|
    requires goodSince <==> StartOf(exts, lo, |exts|) < i
    ensures Classified(f, g, lo, i + 1, AddSample(f, g, i, bins, goodSince), AddExtent(f, g, i, bins, exts))
    ensures |AddExtent(f, g, i, bins, exts)| > 0
    ensures StartOf(AddExtent(f, g, i, bins, exts), lo, |AddExtent(f, g, i, bins, exts)|) == i + 1
  {
    hide Classified, InOrder, BinOf, AddSample;
    if bins != [] && bins[|bins| - 1].bin == BinAt(f, g, i) {
      GrowLast(f, g, lo, i, bins, exts, goodSince);
    } else {
      PushNew(f, g, lo, i, bins, exts, goodSince);
    }
  }

  // bins are the classified bins of the samples [lo, hi).
  ghost predicate AreClasses(f: SeriesFrame, g: Grid, lo: nat, hi: nat, bins: seq<BinClass>)
    requires f.Valid() && g.buckets > 0
  {
    exists exts :: Classified(f, g, lo, hi, bins, exts)
  }

  method ClassifyBins(f: SeriesFrame, g: Grid, lo: nat, hi: nat) returns (bins: seq<BinClass>, ghost exts: seq<Extent>)
    requires f.Valid() && InOrder(f.ts) && Proper(g) && lo <= hi <= |f.ts|
    ensures Classified(f, g, lo, hi, bins, exts) && AreClasses(f, g, lo, hi, bins)
  {
    hide Classified, InOrder, BinOf, Rank, StartOf, AddExtent;
    bins, exts := [], [];
    var goodSince := false;
    NoneYet(f, g, lo);
    ClassifiedParts(f, g, lo, lo, [], []);
    StartOfNone(lo);
    for i := lo to hi
      invariant Classified(f, g, lo, i, bins, exts) && |bins| == |exts|
      invariant goodSince <==> StartOf(exts, lo, |exts|) < i
    {
      var q := f.quality[i];
      if q == Good {
        ClassifiedParts(f, g, lo, i, bins, exts);
        SkipGood(f, g, lo, i, bins, exts);
        goodSince := true;
      } else {
        var b := BinOf(f.ts[i], g);
        AddSampleKeeps(f, g, lo, i, bins, exts, goodSince);
        ghost var next := AddSample(f, g, i, bins, goodSince);
        exts := AddExtent(f, g, i, bins, exts);
        if bins != [] && bins[|bins| - 1].bin == b {
          if Rank(q) > Rank(bins[|bins| - 1].quality) {
            bins := bins[|bins| - 1 := bins[|bins| - 1].(quality := q)];
          }
        } else {
          bins := bins + [BinClass(b, q, goodSince)];
        }
        assert bins == next;
        ClassifiedParts(f, g, lo, i + 1, bins, exts);
        goodSince := false;
      }
    }
  }

  lemma StartOfNone(lo: nat)
    ensures StartOf([], lo, 0) == lo
  {
  }

  // ---- Runs ------------------------------------------------------------------------------------

  function BinEnd(b: nat, g: Grid): int
    requires g.buckets > 0
  {
    if b + 1 == g.buckets then g.to else BinStart(b + 1, g)
  }

  // The run covers the entries [a, z) of bins: one class, and unbroken inside.
  predicate RunOf(g: Grid, bins: seq<BinClass>, run: QualityRun, a: nat, z: nat)
    requires g.buckets > 0
  {
    && a < z <= |bins|
    && (forall k :: a <= k < z ==> bins[k].quality == run.quality)
    && (forall k :: a < k < z ==> !bins[k].broken)
    && run.start == BinStart(bins[a].bin, g) && run.end == BinEnd(bins[z - 1].bin, g)
  }

  // Where run r ends, when the runs begin at the entries `cuts` of the first n.
  function CutAfter(cuts: seq<nat>, n: nat, r: nat): nat {
    if r + 1 < |cuts| then cuts[r + 1] else n
  }

  // The runs cover the first n entries one after another, each as far as it can.
  ghost predicate Covers(g: Grid, bins: seq<BinClass>, n: nat, runs: seq<QualityRun>, cuts: seq<nat>)
    requires g.buckets > 0
  {
    && n <= |bins| && |runs| == |cuts| && (n > 0 <==> runs != [])
    && (n > 0 ==> cuts[0] == 0)
    && (forall r :: 0 <= r < |runs| ==> RunOf(g, bins, runs[r], cuts[r], CutAfter(cuts, n, r)))
    && (forall r :: 0 < r < |runs| ==> Splits(bins, runs, cuts, r))
  }

  predicate Splits(bins: seq<BinClass>, runs: seq<QualityRun>, cuts: seq<nat>, r: nat)
    requires 0 < r < |runs| == |cuts|
  {
    cuts[r] < |bins| && (bins[cuts[r]].broken || bins[cuts[r]].quality != runs[r - 1].quality)
  }

  lemma LongerRun(g: Grid, bins: seq<BinClass>, run: QualityRun, a: nat, n: nat)
    requires g.buckets > 0 && RunOf(g, bins, run, a, n) && n < |bins|
    requires run.quality == bins[n].quality && !bins[n].broken
    ensures RunOf(g, bins, run.(end := BinEnd(bins[n].bin, g)), a, n + 1)
  {
    hide BinEnd, BinStart;
  }

  lemma ExtendRun(g: Grid, bins: seq<BinClass>, n: nat, runs: seq<QualityRun>, cuts: seq<nat>)
    requires g.buckets > 0 && Covers(g, bins, n, runs, cuts) && runs != [] && n < |bins|
    requires runs[|runs| - 1].quality == bins[n].quality && !bins[n].broken
    ensures Covers(g, bins, n + 1, runs[|runs| - 1 := runs[|runs| - 1].(end := BinEnd(bins[n].bin, g))], cuts)
  {
    hide BinEnd, BinStart, Splits, RunOf;
    var m := |runs| - 1;
    var runs' := runs[m := runs[m].(end := BinEnd(bins[n].bin, g))];
    forall r | 0 <= r < |runs| ensures RunOf(g, bins, runs'[r], cuts[r], CutAfter(cuts, n + 1, r)) {
      assert RunOf(g, bins, runs[r], cuts[r], CutAfter(cuts, n, r));
      if r == m { LongerRun(g, bins, runs[r], cuts[r], n); }
    }
    forall r | 0 < r < |runs| ensures Splits(bins, runs', cuts, r) { SameSplit(bins, runs, runs', cuts, r); }
  }

  lemma SameSplit(bins: seq<BinClass>, runs: seq<QualityRun>, runs': seq<QualityRun>, cuts: seq<nat>, r: nat)
    requires 0 < r < |runs| == |cuts| && |runs'| == |runs| && Splits(bins, runs, cuts, r)
    requires runs'[r - 1].quality == runs[r - 1].quality
    ensures Splits(bins, runs', cuts, r)
  {
  }

  lemma OneBinRun(g: Grid, bins: seq<BinClass>, n: nat, run: QualityRun)
    requires g.buckets > 0 && n < |bins|
    requires run == QualityRun(BinStart(bins[n].bin, g), BinEnd(bins[n].bin, g), bins[n].quality)
    ensures RunOf(g, bins, run, n, n + 1)
  {
    hide BinEnd, BinStart;
  }

  lemma PushRun(g: Grid, bins: seq<BinClass>, n: nat, runs: seq<QualityRun>, cuts: seq<nat>, run: QualityRun)
    requires g.buckets > 0 && Covers(g, bins, n, runs, cuts) && n < |bins|
    requires runs != [] ==> runs[|runs| - 1].quality != bins[n].quality || bins[n].broken
    requires run == QualityRun(BinStart(bins[n].bin, g), BinEnd(bins[n].bin, g), bins[n].quality)
    ensures Covers(g, bins, n + 1, runs + [run], cuts + [n])
  {
    hide BinEnd, BinStart, RunOf, Splits;
    OneBinRun(g, bins, n, run);
    var runs', cuts' := runs + [run], cuts + [n];
    forall r | 0 <= r < |runs'| ensures RunOf(g, bins, runs'[r], cuts'[r], CutAfter(cuts', n + 1, r)) {
      if r < |runs| {
        assert RunOf(g, bins, runs[r], cuts[r], CutAfter(cuts, n, r));
        assert CutAfter(cuts', n + 1, r) == CutAfter(cuts, n, r);
      }
    }
    forall r | 0 < r < |runs'| ensures Splits(bins, runs', cuts', r) {
      if r < |runs| { assert Splits(bins, runs, cuts, r); }
      PushSplit(bins, runs, cuts, n, run, r);
    }
  }

  lemma PushSplit(bins: seq<BinClass>, runs: seq<QualityRun>, cuts: seq<nat>, n: nat, run: QualityRun, r: nat)
    requires |runs| == |cuts| && n < |bins| && 0 < r <= |runs|
    requires r < |runs| ==> Splits(bins, runs, cuts, r)
    requires runs[|runs| - 1].quality != bins[n].quality || bins[n].broken
    ensures Splits(bins, runs + [run], cuts + [n], r)
  {
  }

  ghost predicate AreMerged(g: Grid, bins: seq<BinClass>, runs: seq<QualityRun>)
    requires g.buckets > 0
  {
    exists cuts :: Covers(g, bins, |bins|, runs, cuts)
  }

  method MergeBins(g: Grid, bins: seq<BinClass>) returns (runs: seq<QualityRun>, ghost cuts: seq<nat>)
    requires g.buckets > 0
    ensures Covers(g, bins, |bins|, runs, cuts) && AreMerged(g, bins, runs)
  {
    hide BinStart, RunOf, Splits;
    runs, cuts := [], [];
    for n := 0 to |bins|
      invariant Covers(g, bins, n, runs, cuts)
    {
      var e := bins[n];
      var end := if e.bin + 1 == g.buckets then g.to else BinStart(e.bin + 1, g);
      if runs != [] && runs[|runs| - 1].quality == e.quality && !e.broken {
        ExtendRun(g, bins, n, runs, cuts);
        runs := runs[|runs| - 1 := runs[|runs| - 1].(end := end)];
      } else {
        PushRun(g, bins, n, runs, cuts, QualityRun(BinStart(e.bin, g), end, e.quality));
        runs := runs + [QualityRun(BinStart(e.bin, g), end, e.quality)];
        cuts := cuts + [n];
      }
    }
  }

  // The runs of a sorted frame, with the classified bins they come from.
  ghost predicate IsRug(f: SeriesFrame, g: Grid, runs: seq<QualityRun>, bins: seq<BinClass>, exts: seq<Extent>,
                        cuts: seq<nat>)
    requires f.Valid() && Proper(g)
  {
    var (lo, hi) := WindowRange(f.ts, g);
    Classified(f, g, lo, hi, bins, exts) && Covers(g, bins, |bins|, runs, cuts)
  }

  ghost predicate AreRuns(f: SeriesFrame, g: Grid, runs: seq<QualityRun>)
    requires f.Valid() && Proper(g)
  {
    exists bins, exts, cuts :: IsRug(f, g, runs, bins, exts, cuts)
  }

  method QualityRuns(f: SeriesFrame, g: Grid)
    returns (runs: seq<QualityRun>, ghost bins: seq<BinClass>, ghost exts: seq<Extent>, ghost cuts: seq<nat>)
    requires f.Valid() && InOrder(f.ts)
    ensures if Proper(g) then IsRug(f, g, runs, bins, exts, cuts) else runs == []
    ensures if Proper(g) then AreRuns(f, g, runs) else runs == []
  {
    hide Classified, Covers, Below, InOrder;
    var (lo, hi) := WindowRange(f.ts, g);
    runs, bins, exts, cuts := [], [], [], [];
    if lo == hi || g.buckets == 0 || g.to <= g.from {
      if Proper(g) {
        NoneYet(f, g, lo);
        NoRuns(g);
      }
      return;
    }
    var classes;
    classes, exts := ClassifyBins(f, g, lo, hi);
    runs, cuts := MergeBins(g, classes);
    bins := classes;
  }

  lemma NoRuns(g: Grid)
    requires g.buckets > 0
    ensures Covers(g, [], 0, [], [])
  {
  }
}
