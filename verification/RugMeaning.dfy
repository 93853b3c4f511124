// What the runs of a quality rug are, said of the samples themselves (downsample.rs, `quality_runs`).
module RugMeaning {
  import opened Frame
  import opened Bins
  import opened Rug
  import opened RugLaws

  // ---- Samples and bins --------------------------------------------------------------------

  // A sample of the window that is not good.
  predicate Seen(f: SeriesFrame, g: Grid, i: nat) {
    i < |f.ts| && i < |f.quality| && g.from <= f.ts[i] < g.to && f.quality[i] != Good
  }

  // A sample of bin b has class q.
  ghost predicate Has(f: SeriesFrame, g: Grid, b: int, q: Quality)
    requires g.from < g.to
  {
    exists i: nat :: Seen(f, g, i) && BinNo(f, g, i) == b && f.quality[i] == q
  }

  // The class of bin b: bad if a sample is bad, else estimated if one is, else uncertain.
  ghost predicate IsClass(f: SeriesFrame, g: Grid, b: int, q: Quality)
    requires g.from < g.to
  {
    && (q == Bad <==> Has(f, g, b, Bad))
    && (q == Estimated <==> !Has(f, g, b, Bad) && Has(f, g, b, Estimated))
    && (q == Uncertain <==> !Has(f, g, b, Bad) && !Has(f, g, b, Estimated))
  }

  // ---- Runs ------------------------------------------------------------------------------

  // The first and the last sample of a run.
  datatype Ends = Ends(first: nat, last: nat)

  // Where bin b starts, and where it ends.
  function Edge(b: int, g: Grid): int
    requires g.buckets > 0
  {
    if b == g.buckets then g.to else g.from + (g.to - g.from) * b / g.buckets
  }

  // The run spans the bins of its samples, each of its class, and no good sample lies between two bins.
  ghost predicate RunIs(f: SeriesFrame, g: Grid, run: QualityRun, x: Ends)
    requires Proper(g)
  {
    && x.first <= x.last && Seen(f, g, x.first) && Seen(f, g, x.last)
    && run.start == Edge(BinNo(f, g, x.first), g) && run.end == Edge(BinNo(f, g, x.last) + 1, g)
    && (forall i: nat :: x.first <= i <= x.last && Seen(f, g, i) ==> IsClass(f, g, BinNo(f, g, i), run.quality))
    && (forall i: nat :: x.first < i < x.last && f.quality[i] == Good ==> InsideBin(f, g, x, i))
  }

  // Sample i lies between two samples of one bin.
  ghost predicate InsideBin(f: SeriesFrame, g: Grid, x: Ends, i: nat)
    requires Proper(g)
  {
    exists j: nat, k: nat :: j < i < k && Within(f, g, x, j, k)
  }

  predicate Within(f: SeriesFrame, g: Grid, x: Ends, j: nat, k: nat)
    requires Proper(g)
  {
    && x.first <= j && k <= x.last && Seen(f, g, j) && Seen(f, g, k) && BinNo(f, g, j) == BinNo(f, g, k)
  }

  // A run begins in a later bin than the one before ended, and with another class or after a good sample.
  ghost predicate Parted(f: SeriesFrame, g: Grid, p: QualityRun, x: Ends, q: QualityRun, y: Ends)
    requires Proper(g)
  {
    && x.last < y.first < |f.ts| && y.first <= |f.quality|
    && BinNo(f, g, x.last) < BinNo(f, g, y.first)
    && (p.quality != q.quality || exists j: nat :: x.last < j < y.first && f.quality[j] == Good)
  }

  ghost predicate InSpans(ends: seq<Ends>, i: nat) {
    exists r :: 0 <= r < |ends| && ends[r].first <= i <= ends[r].last
  }

  // The runs, one after another, hold all samples of the window that are not good.
  ghost predicate Shows(f: SeriesFrame, g: Grid, runs: seq<QualityRun>, ends: seq<Ends>)
    requires Proper(g)
  {
    && |ends| == |runs|
    && (forall r :: 0 <= r < |runs| ==> RunIs(f, g, runs[r], ends[r]))
    && (forall r, s :: 0 <= r < |runs| && s == r + 1 && s < |runs| ==> Parted(f, g, runs[r], ends[r], runs[s], ends[s]))
    && (forall i: nat :: Seen(f, g, i) ==> InSpans(ends, i))
  }

  // ---- The code's runs in these terms --------------------------------------------------------------

  lemma SeenIff(f: SeriesFrame, g: Grid, i: nat)
    requires f.Valid() && Proper(g) && i < |f.ts|
    ensures Seen(f, g, i) <==> Inside(f.ts[i], g) && NonGood(f, i)
  {
  }

  // Entry k holds exactly the seen samples of its bin, and its class is theirs.
  lemma EntryClass(f: SeriesFrame, g: Grid, bins: seq<BinClass>, exts: seq<Extent>, k: nat)
    requires f.Valid() && Proper(g) && InOrder(f.ts) && k < |bins| == |exts| && Separate(bins, exts)
    requires Classified(f, g, WindowRange(f.ts, g).0, WindowRange(f.ts, g).1, bins, exts)
    ensures IsClass(f, g, bins[k].bin, bins[k].quality)
  {
    hide Classified, WindowRange, InOrder, BinOf, BinNo, Separate, Rank;
    EntryInGrid(f, g, bins, exts, k);
    var e, x := bins[k], exts[k];
    var w: nat :| x.first <= w <= x.last && f.quality[w] == e.quality;
    ExtentSeen(f, g, bins, exts, k, w);
    forall q | Has(f, g, e.bin, q) ensures Rank(q) <= Rank(e.quality) {
      var i: nat :| Seen(f, g, i) && BinNo(f, g, i) == e.bin && f.quality[i] == q;
      SeenInEntry(f, g, bins, exts, k, i);
    }
    assert Has(f, g, e.bin, e.quality);
    RankOrder(e.quality);
    assert e.quality != Good;
  }

  // The order of classes, from Good to Bad.
  lemma RankOrder(q: Quality)
    ensures Rank(Bad) <= Rank(q) ==> q == Bad
    ensures Rank(Estimated) <= Rank(q) ==> q == Bad || q == Estimated
  {
  }

  lemma ExtentSeen(f: SeriesFrame, g: Grid, bins: seq<BinClass>, exts: seq<Extent>, k: nat, i: nat)
    requires f.Valid() && Proper(g) && InOrder(f.ts) && k < |bins| == |exts|
    requires Classified(f, g, WindowRange(f.ts, g).0, WindowRange(f.ts, g).1, bins, exts)
    requires exts[k].first <= i <= exts[k].last
    ensures i < |f.ts| && Inside(f.ts[i], g) && BinNo(f, g, i) == bins[k].bin
    ensures f.quality[i] != Good ==> Seen(f, g, i)
  {
    hide BinOf, BinNo, Separate, BrokenByGood, HoldsAll, AllFit, Below;
    var (lo, hi) := WindowRange(f.ts, g);
    FitAt(f, g, lo, hi, bins, exts, k);
    BinNoIs(f, g, i);
  }

  lemma SeenInEntry(f: SeriesFrame, g: Grid, bins: seq<BinClass>, exts: seq<Extent>, k: nat, i: nat)
    requires f.Valid() && Proper(g) && InOrder(f.ts) && k < |bins| == |exts| && Separate(bins, exts)
    requires Classified(f, g, WindowRange(f.ts, g).0, WindowRange(f.ts, g).1, bins, exts)
    requires Seen(f, g, i) && BinNo(f, g, i) == bins[k].bin
    ensures exts[k].first <= i <= exts[k].last && Rank(f.quality[i]) <= Rank(bins[k].quality)
  {
    hide Classified, WindowRange, InOrder, BinOf, BinNo, Separate, Rank;
    SeenIff(f, g, i);
    var l := EntryOf(f, g, bins, exts, i);
    BinNoIs(f, g, i);
    if l < k { BinsApart(bins, exts, l, k); }
    if k < l { BinsApart(bins, exts, k, l); }
  }

  // Extents that follow one another without a gap hold all samples between.
  lemma {:induction false} HolderOf(exts: seq<Extent>, p: nat, q: nat, i: nat) returns (k: nat)
    requires p < q <= |exts| && exts[p].first <= i <= exts[q - 1].last
    requires forall l :: p < l < q ==> exts[l].first == exts[l - 1].last + 1
    ensures p <= k < q && exts[k].first <= i <= exts[k].last
  {
    if exts[q - 1].first <= i {
      k := q - 1;
    } else {
      assert exts[q - 1].first == exts[q - 2].last + 1;
      k := HolderOf(exts, p, q - 1, i);
    }
  }

  ghost function EndsOf(exts: seq<Extent>, cuts: seq<nat>, r: nat): Ends
    requires r < |cuts| && cuts[r] < CutAfter(cuts, |exts|, r) <= |exts|
  {
    Ends(exts[cuts[r]].first, exts[CutAfter(cuts, |exts|, r) - 1].last)
  }

  // The parts of a rug a run is made of.
  lemma RunParts(f: SeriesFrame, g: Grid, runs: seq<QualityRun>, bins: seq<BinClass>, exts: seq<Extent>, cuts: seq<nat>,
                 r: nat)
    requires f.Valid() && Proper(g) && InOrder(f.ts) && IsRug(f, g, runs, bins, exts, cuts) && r < |runs|
    ensures |cuts| == |runs| && |exts| == |bins| && cuts[r] < CutAfter(cuts, |exts|, r) <= |exts|
    ensures forall k :: cuts[r] <= k < CutAfter(cuts, |exts|, r) ==> bins[k].quality == runs[r].quality
    ensures forall k :: cuts[r] < k < CutAfter(cuts, |exts|, r) ==> exts[k].first == exts[k - 1].last + 1
    ensures runs[r].start == BinStart(bins[cuts[r]].bin, g)
    ensures runs[r].end == BinEnd(bins[CutAfter(cuts, |exts|, r) - 1].bin, g)
  {
    hide IsRug, Covers, Classified, WindowRange, Separate, BinStart, BinEnd, InOrder;
    RugParts(f, g, runs, bins, exts, cuts);
    RunAt(g, bins, |bins|, runs, cuts, r);
    forall k | cuts[r] < k < CutAfter(cuts, |exts|, r) ensures exts[k].first == exts[k - 1].last + 1 {
      NoGoodInside(f, g, runs, bins, exts, cuts, r, k);
    }
  }

  lemma RunShows(f: SeriesFrame, g: Grid, runs: seq<QualityRun>, bins: seq<BinClass>, exts: seq<Extent>, cuts: seq<nat>,
                 r: nat)
    requires f.Valid() && Proper(g) && InOrder(f.ts) && IsRug(f, g, runs, bins, exts, cuts) && r < |runs|
    ensures |cuts| == |runs| && |exts| == |bins| && cuts[r] < CutAfter(cuts, |exts|, r) <= |exts|
    ensures RunIs(f, g, runs[r], EndsOf(exts, cuts, r))
  {
    hide IsRug, Covers, Classified, WindowRange, Separate, BinStart, BinEnd, InOrder, BinNo, IsClass, Seen, Edge,
         InsideBin, CutAfter;
    RugParts(f, g, runs, bins, exts, cuts);
    RunParts(f, g, runs, bins, exts, cuts, r);
    var p, q, x := cuts[r], CutAfter(cuts, |exts|, r), EndsOf(exts, cuts, r);
    EntryEnds(f, g, bins, exts, p);
    EntryEnds(f, g, bins, exts, q - 1);
    EdgeIs(bins[p].bin, g);
    EdgeIs(bins[q - 1].bin, g);
    FirstBeforeLast(bins, exts, p, q - 1);
    forall i: nat | x.first <= i <= x.last && Seen(f, g, i) ensures IsClass(f, g, BinNo(f, g, i), runs[r].quality) {
      var k := HolderOf(exts, p, q, i);
      ExtentSeen(f, g, bins, exts, k, i);
      EntryClass(f, g, bins, exts, k);
    }
    forall i: nat | x.first < i < x.last && f.quality[i] == Good ensures InsideBin(f, g, x, i) {
      var k := HolderOf(exts, p, q, i);
      FirstBeforeLast(bins, exts, p, k);
      FirstBeforeLast(bins, exts, k, q - 1);
      GoodInside(f, g, bins, exts, k, x, i);
    }
  }

  lemma EntryEnds(f: SeriesFrame, g: Grid, bins: seq<BinClass>, exts: seq<Extent>, k: nat)
    requires f.Valid() && Proper(g) && InOrder(f.ts) && k < |bins| == |exts| && Separate(bins, exts)
    requires Classified(f, g, WindowRange(f.ts, g).0, WindowRange(f.ts, g).1, bins, exts)
    ensures exts[k].first <= exts[k].last < |f.ts| && Seen(f, g, exts[k].first) && Seen(f, g, exts[k].last)
    ensures BinNo(f, g, exts[k].first) == BinNo(f, g, exts[k].last) == bins[k].bin < g.buckets
  {
    hide Classified, WindowRange, InOrder, BinOf, BinNo, Seen;
    EntryInGrid(f, g, bins, exts, k);
    ExtentSeen(f, g, bins, exts, k, exts[k].first);
    ExtentSeen(f, g, bins, exts, k, exts[k].last);
  }

  lemma GoodInside(f: SeriesFrame, g: Grid, bins: seq<BinClass>, exts: seq<Extent>, k: nat, x: Ends, i: nat)
    requires f.Valid() && Proper(g) && InOrder(f.ts) && k < |bins| == |exts| && Separate(bins, exts)
    requires Classified(f, g, WindowRange(f.ts, g).0, WindowRange(f.ts, g).1, bins, exts)
    requires exts[k].first <= i <= exts[k].last && x.first <= exts[k].first && exts[k].last <= x.last
    requires i < |f.ts| && f.quality[i] == Good
    ensures InsideBin(f, g, x, i)
  {
    hide Classified, WindowRange, InOrder, BinNo, Separate;
    EntryEnds(f, g, bins, exts, k);
    assert exts[k].first < i < exts[k].last && Within(f, g, x, exts[k].first, exts[k].last);
  }

  lemma FirstBeforeLast(bins: seq<BinClass>, exts: seq<Extent>, p: nat, q: nat)
    requires |bins| == |exts| && Separate(bins, exts) && p <= q < |exts|
    ensures exts[p].first <= exts[q].first && exts[p].last <= exts[q].last && exts[p].first <= exts[q].last
  {
    assert p < q ==> exts[p].last < exts[q].first;
  }

  lemma EdgeIs(b: nat, g: Grid)
    requires Proper(g) && b < g.buckets
    ensures BinStart(b, g) == Edge(b, g) && BinEnd(b, g) == Edge(b + 1, g)
  {
  }

  lemma RunsParted(f: SeriesFrame, g: Grid, runs: seq<QualityRun>, bins: seq<BinClass>, exts: seq<Extent>,
                   cuts: seq<nat>, r: nat)
    requires f.Valid() && Proper(g) && InOrder(f.ts) && IsRug(f, g, runs, bins, exts, cuts) && r + 1 < |runs|
    ensures |cuts| == |runs| && |exts| == |bins|
    ensures cuts[r] < CutAfter(cuts, |exts|, r) <= |exts| && cuts[r + 1] < CutAfter(cuts, |exts|, r + 1) <= |exts|
    ensures Parted(f, g, runs[r], EndsOf(exts, cuts, r), runs[r + 1], EndsOf(exts, cuts, r + 1))
  {
    hide IsRug, Covers, Classified, WindowRange, InOrder, BinNo, Seen;
    RugParts(f, g, runs, bins, exts, cuts);
    RunParts(f, g, runs, bins, exts, cuts, r);
    RunParts(f, g, runs, bins, exts, cuts, r + 1);
    var k := cuts[r + 1];
    assert CutAfter(cuts, |exts|, r) == k;
    EntryEnds(f, g, bins, exts, k - 1);
    EntryEnds(f, g, bins, exts, k);
    assert exts[k - 1].last < exts[k].first && bins[k - 1].bin < bins[k].bin;
    if runs[r].quality == runs[r + 1].quality {
      var j := GoodBetween(f, g, runs, bins, exts, cuts, r + 1);
      assert f.quality[j] == Good;
    }
  }

  // The runs of a rug are those of the samples.
  lemma RunsShow(f: SeriesFrame, g: Grid, runs: seq<QualityRun>, bins: seq<BinClass>, exts: seq<Extent>, cuts: seq<nat>)
    returns (ends: seq<Ends>)
    requires f.Valid() && Proper(g) && InOrder(f.ts) && IsRug(f, g, runs, bins, exts, cuts)
    ensures Shows(f, g, runs, ends)
  {
    hide IsRug, Covers, Classified, Separate, RunIs, Parted, InOrder, CutAfter, Seen;
    RugParts(f, g, runs, bins, exts, cuts);
    forall r: nat | r < |runs|
      ensures |cuts| == |runs| && cuts[r] < CutAfter(cuts, |exts|, r) <= |exts|
      ensures RunIs(f, g, runs[r], EndsOf(exts, cuts, r))
    {
      RunShows(f, g, runs, bins, exts, cuts, r);
    }
    ends := seq(|runs|, r requires 0 <= r < |runs| => EndsOf(exts, cuts, r));
    forall r: nat | r + 1 < |runs| ensures Parted(f, g, runs[r], ends[r], runs[r + 1], ends[r + 1]) {
      RunsParted(f, g, runs, bins, exts, cuts, r);
    }
    forall i: nat | Seen(f, g, i) ensures InSpans(ends, i) {
      SeenInSpan(f, g, runs, bins, exts, cuts, ends, i);
    }
  }

  lemma SeenInSpan(f: SeriesFrame, g: Grid, runs: seq<QualityRun>, bins: seq<BinClass>, exts: seq<Extent>,
                   cuts: seq<nat>, ends: seq<Ends>, i: nat)
    requires f.Valid() && Proper(g) && InOrder(f.ts) && IsRug(f, g, runs, bins, exts, cuts) && Seen(f, g, i)
    requires |ends| == |runs| == |cuts|
    requires forall r :: 0 <= r < |runs| ==>
               cuts[r] < CutAfter(cuts, |exts|, r) <= |exts| && ends[r] == EndsOf(exts, cuts, r)
    ensures InSpans(ends, i)
  {
    hide IsRug, Covers, Classified, WindowRange, Separate, InOrder, CutAfter;
    RugParts(f, g, runs, bins, exts, cuts);
    SeenIff(f, g, i);
    var r := SampleInOneRun(f, g, runs, bins, exts, cuts, i);
    assert Owns(exts, cuts, r, i);
    var k: nat :| cuts[r] <= k < CutAfter(cuts, |exts|, r) && k < |exts| && exts[k].first <= i <= exts[k].last;
    FirstBeforeLast(bins, exts, cuts[r], k);
    FirstBeforeLast(bins, exts, k, CutAfter(cuts, |exts|, r) - 1);
    assert ends[r].first <= i <= ends[r].last;
  }
}
