// What a quality rug promises (quality_runs of core/tabayyun-core/src/downsample.rs): every non-good
// sample lies in one run at least as bad, runs are ordered, and a run hides no good sample between
// its bins.
module RugLaws {
  import opened Arithmetic
  import opened Frame
  import opened Int64
  import opened Bins
  import opened Rug

  // Run r covers the extent of non-good samples that holds sample j.
  ghost predicate Owns(exts: seq<Extent>, cuts: seq<nat>, r: nat, j: nat)
    requires r < |cuts|
  {
    exists k: nat :: cuts[r] <= k < CutAfter(cuts, |exts|, r) && k < |exts| && exts[k].first <= j <= exts[k].last
  }

  lemma RunAt(g: Grid, bins: seq<BinClass>, n: nat, runs: seq<QualityRun>, cuts: seq<nat>, r: nat)
    requires g.buckets > 0 && Covers(g, bins, n, runs, cuts) && r < |runs|
    ensures |cuts| == |runs| && RunOf(g, bins, runs[r], cuts[r], CutAfter(cuts, n, r))
    ensures cuts[r] < CutAfter(cuts, n, r) <= |bins|
  {
    hide Splits, BinStart, BinEnd;
  }

  lemma {:induction false} CutsInOrder(g: Grid, bins: seq<BinClass>, n: nat, runs: seq<QualityRun>, cuts: seq<nat>,
                                       r: nat, s: nat)
    requires g.buckets > 0 && Covers(g, bins, n, runs, cuts) && r < s < |runs| && |cuts| == |runs|
    ensures CutAfter(cuts, n, r) <= cuts[s]
  {
    hide Covers, RunOf;
    if s > r + 1 {
      CutsInOrder(g, bins, n, runs, cuts, r, s - 1);
      RunAt(g, bins, n, runs, cuts, s - 1);
    }
  }

  lemma {:induction false} RunOfEntry(g: Grid, bins: seq<BinClass>, n: nat, runs: seq<QualityRun>, cuts: seq<nat>,
                                      k: nat, s: nat) returns (r: nat)
    requires g.buckets > 0 && Covers(g, bins, n, runs, cuts) && s < |runs| && |cuts| == |runs|
    requires k < CutAfter(cuts, n, s)
    ensures r <= s && cuts[r] <= k < CutAfter(cuts, n, r)
  {
    if cuts[s] <= k {
      r := s;
    } else {
      assert s > 0 by { FirstCut(g, bins, n, runs, cuts); }
      hide Covers;
      r := RunOfEntry(g, bins, n, runs, cuts, k, s - 1);
    }
  }

  lemma FirstCut(g: Grid, bins: seq<BinClass>, n: nat, runs: seq<QualityRun>, cuts: seq<nat>)
    requires g.buckets > 0 && Covers(g, bins, n, runs, cuts) && runs != []
    ensures |cuts| == |runs| && cuts[0] == 0
  {
    hide RunOf, Splits;
  }

  lemma EntryOf(f: SeriesFrame, g: Grid, bins: seq<BinClass>, exts: seq<Extent>, j: nat) returns (k: nat)
    requires f.Valid() && Proper(g) && InOrder(f.ts) && j < |f.ts| && Inside(f.ts[j], g) && NonGood(f, j)
    requires Classified(f, g, WindowRange(f.ts, g).0, WindowRange(f.ts, g).1, bins, exts)
    ensures |bins| == |exts| && k < |exts| && exts[k].first <= j <= exts[k].last && Classes(f, g, bins[k], exts[k])
  {
    var (lo, hi) := WindowRange(f.ts, g);
    assert lo <= j < hi;
    hide InOrder, Below, Separate, BrokenByGood, Classes, AllFit, WindowRange;
    assert InExtents(exts, j);
    k :| k < |exts| && exts[k].first <= j <= exts[k].last;
    FitAt(f, g, lo, hi, bins, exts, k);
  }

  lemma OneExtent(bins: seq<BinClass>, exts: seq<Extent>, k: nat, l: nat, j: nat)
    requires |bins| == |exts| && Separate(bins, exts) && k < |exts| && l < |exts|
    requires exts[k].first <= j <= exts[k].last && exts[l].first <= j <= exts[l].last
    ensures k == l
  {
  }

  lemma RugParts(f: SeriesFrame, g: Grid, runs: seq<QualityRun>, bins: seq<BinClass>, exts: seq<Extent>, cuts: seq<nat>)
    requires f.Valid() && Proper(g) && IsRug(f, g, runs, bins, exts, cuts)
    ensures Covers(g, bins, |bins|, runs, cuts) && |cuts| == |runs|
    ensures Classified(f, g, WindowRange(f.ts, g).0, WindowRange(f.ts, g).1, bins, exts)
    ensures |exts| == |bins| && Separate(bins, exts)
  {
    hide RunOf, Splits, AllFit, Separate, BrokenByGood, HoldsAll, WindowRange;
  }

  // A non-good sample of the window is owned by exactly one run; that run is at least as bad.
  lemma SampleInOneRun(f: SeriesFrame, g: Grid, runs: seq<QualityRun>, bins: seq<BinClass>, exts: seq<Extent>,
                       cuts: seq<nat>, j: nat) returns (r: nat)
    requires f.Valid() && Proper(g) && InOrder(f.ts) && IsRug(f, g, runs, bins, exts, cuts)
    requires j < |f.ts| && Inside(f.ts[j], g) && NonGood(f, j)
    ensures |cuts| == |runs| && r < |runs| && Rank(f.quality[j]) <= Rank(runs[r].quality)
    ensures forall s :: 0 <= s < |runs| ==> (Owns(exts, cuts, s, j) <==> s == r)
    ensures runs[r].start <= f.ts[j] <= runs[r].end
    ensures (g.to - g.from) % g.buckets == 0 ==> f.ts[j] < runs[r].end
  {
    hide IsRug, Covers, RunOf, Classified, Classes, InOrder, WindowRange, Separate;
    RugParts(f, g, runs, bins, exts, cuts);
    var k := EntryOf(f, g, bins, exts, j);
    var n := |bins|;
    assert runs != [] by { SomeRun(g, bins, n, runs, cuts); }
    r := RunOfEntry(g, bins, n, runs, cuts, k, |runs| - 1);
    RunAt(g, bins, n, runs, cuts, r);
    assert Owns(exts, cuts, r, j);
    forall s | 0 <= s < |runs| ensures Owns(exts, cuts, s, j) <==> s == r {
      if Owns(exts, cuts, s, j) {
        var l: nat :| cuts[s] <= l < CutAfter(cuts, |exts|, s) && l < |exts| && exts[l].first <= j <= exts[l].last;
        OneExtent(bins, exts, k, l, j);
        if s < r { CutsInOrder(g, bins, n, runs, cuts, s, r); }
        if r < s { CutsInOrder(g, bins, n, runs, cuts, r, s); }
      }
    }
    EntryInGrid(f, g, bins, exts, k);
    EntryInGrid(f, g, bins, exts, CutAfter(cuts, n, r) - 1);
    RunHoldsEntry(f, g, bins, exts, runs[r], cuts[r], CutAfter(cuts, n, r), k, j);
  }

  lemma EntryInGrid(f: SeriesFrame, g: Grid, bins: seq<BinClass>, exts: seq<Extent>, k: nat)
    requires f.Valid() && Proper(g) && k < |bins| == |exts|
    requires Classified(f, g, WindowRange(f.ts, g).0, WindowRange(f.ts, g).1, bins, exts)
    ensures Classes(f, g, bins[k], exts[k]) && bins[k].bin < g.buckets && exts[k].last < |f.ts|
  {
    hide WindowRange, BinOf, Separate, BrokenByGood, HoldsAll, AllFit;
    FitAt(f, g, WindowRange(f.ts, g).0, WindowRange(f.ts, g).1, bins, exts, k);
    assert BinAt(f, g, exts[k].first) == bins[k].bin;
  }

  lemma SomeRun(g: Grid, bins: seq<BinClass>, n: nat, runs: seq<QualityRun>, cuts: seq<nat>)
    requires g.buckets > 0 && Covers(g, bins, n, runs, cuts) && n > 0
    ensures runs != [] && |cuts| == |runs| && CutAfter(cuts, n, |runs| - 1) == n
  {
    hide RunOf, Splits;
  }

  lemma EndOfBin(t: int, g: Grid)
    requires Proper(g) && Inside(t, g)
    ensures BinStart(BinOf(t, g), g) <= t <= BinEnd(BinOf(t, g), g)
    ensures (g.to - g.from) % g.buckets == 0 ==> t < BinEnd(BinOf(t, g), g)
  {
    BinBracket(t, g);
    if (g.to - g.from) % g.buckets == 0 { DividesSpan(g, BinOf(t, g) + 1); }
    hide BinOf, BinStart, ExactEdge;
  }

  lemma BinEndMonotone(b: nat, c: nat, g: Grid)
    requires Proper(g) && b <= c < g.buckets
    ensures BinEnd(b, g) <= BinEnd(c, g) && BinStart(b, g) <= BinEnd(b, g)
    ensures b < c ==> BinEnd(b, g) <= BinStart(c, g)
  {
    BinStartMonotone(b, c, g);
    if b < c { BinStartMonotone(b + 1, c, g); }
    if c + 1 < g.buckets { BinStartMonotone(b + 1, c + 1, g); }
    BinStartMonotone(b, b + 1, g);
    BinStartInItsBin(b, g);
    if b + 1 < g.buckets { BinStartInItsBin(b + 1, g); }
    hide BinStart, BinOf, ExactEdge;
  }

  lemma RunHoldsEntry(f: SeriesFrame, g: Grid, bins: seq<BinClass>, exts: seq<Extent>, run: QualityRun, a: nat, z: nat,
                      k: nat, j: nat)
    requires f.Valid() && Proper(g) && |bins| == |exts| && Separate(bins, exts) && RunOf(g, bins, run, a, z)
    requires a <= k < z && Classes(f, g, bins[k], exts[k]) && exts[k].first <= j <= exts[k].last < |f.ts|
    requires Inside(f.ts[j], g) && bins[z - 1].bin < g.buckets
    ensures Rank(f.quality[j]) <= Rank(run.quality)
    ensures run.start <= f.ts[j]
    ensures f.ts[j] <= run.end
    ensures (g.to - g.from) % g.buckets == 0 ==> f.ts[j] < run.end
  {
    assert BinAt(f, g, j) == bins[k].bin && bins[k].quality == run.quality;
    EndOfBin(f.ts[j], g);
    BinsApart(bins, exts, a, k);
    BinsApart(bins, exts, k, z - 1);
    hide Classes, Separate, BinOf, BinStart, BinEnd, RunOf;
    BinStartMonotone(bins[a].bin, bins[k].bin, g);
    BinEndMonotone(bins[k].bin, bins[z - 1].bin, g);
    RunEnds(g, bins, run, a, z);
  }

  lemma RunEnds(g: Grid, bins: seq<BinClass>, run: QualityRun, a: nat, z: nat)
    requires g.buckets > 0 && RunOf(g, bins, run, a, z)
    ensures run.start == BinStart(bins[a].bin, g) && run.end == BinEnd(bins[z - 1].bin, g)
  {
    hide BinStart, BinEnd;
  }

  lemma BinsApart(bins: seq<BinClass>, exts: seq<Extent>, k: nat, l: nat)
    requires |bins| == |exts| && Separate(bins, exts) && k <= l < |bins|
    ensures bins[k].bin <= bins[l].bin && (k < l ==> bins[k].bin < bins[l].bin)
  {
    assert k < l ==> bins[k].bin < bins[l].bin;
  }

  // Runs are ordered and do not overlap; each starts at a bin's start and ends no earlier.
  lemma RunsInOrder(f: SeriesFrame, g: Grid, runs: seq<QualityRun>, bins: seq<BinClass>, exts: seq<Extent>,
                    cuts: seq<nat>, r: nat, s: nat)
    requires f.Valid() && Proper(g) && IsRug(f, g, runs, bins, exts, cuts) && r < s < |runs|
    ensures runs[r].start <= runs[r].end <= runs[s].start
    ensures runs[s].start <= runs[s].end <= g.to && g.from <= runs[r].start
  {
    hide IsRug, Covers, Classified, Classes, WindowRange, Separate, RunOf, BinStart, BinEnd;
    RugParts(f, g, runs, bins, exts, cuts);
    var n := |bins|;
    RunAt(g, bins, n, runs, cuts, r);
    RunAt(g, bins, n, runs, cuts, s);
    CutsInOrder(g, bins, n, runs, cuts, r, s);
    var a, z, b, y := cuts[r], CutAfter(cuts, n, r) - 1, cuts[s], CutAfter(cuts, n, s) - 1;
    RunEnds(g, bins, runs[r], cuts[r], CutAfter(cuts, n, r));
    RunEnds(g, bins, runs[s], cuts[s], CutAfter(cuts, n, s));
    EntryInGrid(f, g, bins, exts, z);
    EntryInGrid(f, g, bins, exts, y);
    BinsApart(bins, exts, a, z);
    BinsApart(bins, exts, z, b);
    BinsApart(bins, exts, b, y);
    BinEndMonotone(bins[a].bin, bins[z].bin, g);
    BinEndMonotone(bins[z].bin, bins[b].bin, g);
    BinEndMonotone(bins[b].bin, bins[y].bin, g);
    BinEndMonotone(bins[y].bin, g.buckets - 1, g);
    BinStartMonotone(0, bins[a].bin, g);
    WindowEdges(g);
  }

  lemma WindowEdges(g: Grid)
    requires Proper(g)
    ensures BinStart(0, g) == g.from && BinEnd(g.buckets - 1, g) == g.to
  {
  }

  // The class of a run is the class of a sample in each of its bins, and no sample of the bin is worse.
  lemma ClassWitnessed(f: SeriesFrame, g: Grid, runs: seq<QualityRun>, bins: seq<BinClass>, exts: seq<Extent>,
                       cuts: seq<nat>, r: nat, k: nat) returns (j: nat)
    requires f.Valid() && Proper(g) && InOrder(f.ts) && IsRug(f, g, runs, bins, exts, cuts)
    requires |cuts| == |runs| && r < |runs| && cuts[r] <= k < CutAfter(cuts, |bins|, r)
    ensures k < |exts| == |bins| && exts[k].first <= j <= exts[k].last < |f.ts|
    ensures BinAt(f, g, j) == bins[k].bin && f.quality[j] == runs[r].quality
    ensures forall i :: exts[k].first <= i <= exts[k].last ==> Rank(f.quality[i]) <= Rank(runs[r].quality)
  {
    hide IsRug, Covers, Classified, WindowRange, Separate, BinOf, BinStart, BinEnd;
    RugParts(f, g, runs, bins, exts, cuts);
    RunAt(g, bins, |bins|, runs, cuts, r);
    EntryInGrid(f, g, bins, exts, k);
    j :| exts[k].first <= j <= exts[k].last && f.quality[j] == bins[k].quality;
  }

  // Inside a run nothing at all lies between the last non-good sample of a bin and the first of the
  // next one; between two runs of one class a good sample does.
  lemma NoGoodInside(f: SeriesFrame, g: Grid, runs: seq<QualityRun>, bins: seq<BinClass>, exts: seq<Extent>,
                     cuts: seq<nat>, r: nat, k: nat)
    requires f.Valid() && Proper(g) && InOrder(f.ts) && IsRug(f, g, runs, bins, exts, cuts)
    requires |cuts| == |runs| && r < |runs| && cuts[r] < k < CutAfter(cuts, |bins|, r)
    ensures |exts| == |bins| && k < |bins| && exts[k].first == exts[k - 1].last + 1
  {
    hide Classes, WindowRange, BinOf, BinStart, BinEnd, AllFit, HoldsAll, Splits;
    RunAt(g, bins, |bins|, runs, cuts, r);
    assert exts[k - 1].last < exts[k].first;
    assert bins[k].broken <==> StartOf(exts, WindowRange(f.ts, g).0, k) < exts[k].first;
  }

  lemma GoodBetween(f: SeriesFrame, g: Grid, runs: seq<QualityRun>, bins: seq<BinClass>, exts: seq<Extent>,
                    cuts: seq<nat>, r: nat) returns (j: nat)
    requires f.Valid() && Proper(g) && InOrder(f.ts) && IsRug(f, g, runs, bins, exts, cuts)
    requires 0 < r < |runs| == |cuts| && runs[r].quality == runs[r - 1].quality
    ensures 0 < cuts[r] < |bins| == |exts| && exts[cuts[r] - 1].last < j < exts[cuts[r]].first
    ensures j < |f.ts| && !NonGood(f, j)
  {
    RugParts(f, g, runs, bins, exts, cuts);
    var k := BrokenCut(g, bins, runs, cuts, r);
    hide IsRug, Covers, Classes, WindowRange, Splits, RunOf;
    var lo, hi := WindowRange(f.ts, g).0, WindowRange(f.ts, g).1;
    j := exts[k - 1].last + 1;
    assert bins[k].broken <==> StartOf(exts, lo, k) < exts[k].first;
    FitAt(f, g, lo, hi, bins, exts, k);
    FitAt(f, g, lo, hi, bins, exts, k - 1);
    BetweenExtents(bins, exts, k, j);
  }

  lemma BrokenCut(g: Grid, bins: seq<BinClass>, runs: seq<QualityRun>, cuts: seq<nat>, r: nat) returns (k: nat)
    requires g.buckets > 0 && Covers(g, bins, |bins|, runs, cuts)
    requires 0 < r < |runs| == |cuts| && runs[r].quality == runs[r - 1].quality
    ensures k == cuts[r] && 0 < k < |bins| && bins[k].broken
  {
    k := cuts[r];
    assert Splits(bins, runs, cuts, r);
    RunAt(g, bins, |bins|, runs, cuts, r);
    RunAt(g, bins, |bins|, runs, cuts, r - 1);
    hide Covers, BinStart, BinEnd;
  }

  lemma BetweenExtents(bins: seq<BinClass>, exts: seq<Extent>, k: nat, j: nat)
    requires |bins| == |exts| && Separate(bins, exts) && 0 < k < |exts| && exts[k - 1].last < j < exts[k].first
    ensures !InExtents(exts, j)
  {
    forall l: nat | l < |exts| ensures !(exts[l].first <= j <= exts[l].last) {
      if l < k - 1 { assert exts[l].last < exts[k - 1].first; }
      if l > k { assert exts[k].last < exts[l].first; }
    }
  }

  // ---- Half-open runs ---------------------------------------------------------------------------

  // Every owned sample lies strictly before the end of its run.
  ghost predicate EndsAfterSamples(f: SeriesFrame, g: Grid, runs: seq<QualityRun>, exts: seq<Extent>, cuts: seq<nat>)
    requires f.Valid() && |cuts| == |runs|
  {
    forall j: nat, r: nat ::
      (j < |f.ts| && Inside(f.ts[j], g) && NonGood(f, j) && r < |runs| && Owns(exts, cuts, r, j)) ==>
        f.ts[j] < runs[r].end
  }

  ghost predicate RunsHoldSamples(g: Grid, f: SeriesFrame, runs: seq<QualityRun>, bins: seq<BinClass>,
                                  exts: seq<Extent>, cuts: seq<nat>)
    requires Proper(g)
  {
    f.Valid() && InOrder(f.ts) && IsRug(f, g, runs, bins, exts, cuts) ==>
      |cuts| == |runs| && EndsAfterSamples(f, g, runs, exts, cuts)
  }

  // The runs of every sorted frame are half-open windows that hold their samples.
  ghost predicate HalfOpen(g: Grid)
    requires Proper(g)
  {
    forall f, runs, bins, exts, cuts :: RunsHoldSamples(g, f, runs, bins, exts, cuts)
  }

  // A frame of one bad sample at the start of bin 1, when that edge is not exact: the sample is in bin 0
  // and its run ends exactly there.
  lemma SampleAtRunEnd(g: Grid)
    returns (f: SeriesFrame, runs: seq<QualityRun>, bins: seq<BinClass>, exts: seq<Extent>, cuts: seq<nat>)
    requires Proper(g) && InRange(g.from) && InRange(g.to) && (g.to - g.from) % g.buckets != 0
    ensures f.Valid() && InOrder(f.ts) && |f.ts| == 1 && Inside(f.ts[0], g) && f.quality == [Bad]
    ensures IsRug(f, g, runs, bins, exts, cuts) && |runs| == |cuts| == 1 && Owns(exts, cuts, 0, 0)
    ensures f.ts[0] == runs[0].end
  {
    InexactEdge(g);
    BinStartInItsBin(1, g);
    var t := BinStart(1, g);
    f := SeriesFrame("", [t], [NaN], [Bad], None);
    bins, exts, cuts := [BinClass(0, Bad, false)], [Extent(0, 0)], [0];
    runs := [QualityRun(BinStart(0, g), t, Bad)];
    OneSample(f, g, bins, exts);
    hide BinOf, BinStart, WindowRange, Below, Classified, ExactEdge;
    assert RunOf(g, bins, runs[0], 0, 1);
  }

  lemma OneSample(f: SeriesFrame, g: Grid, bins: seq<BinClass>, exts: seq<Extent>)
    requires f.Valid() && Proper(g) && |f.ts| == 1 && Inside(f.ts[0], g) && f.quality == [Bad]
    requires BinAt(f, g, 0) == 0 && bins == [BinClass(0, Bad, false)] && exts == [Extent(0, 0)]
    ensures WindowRange(f.ts, g) == (0, 1) && Classified(f, g, 0, 1, bins, exts)
  {
    hide BinOf;
    assert f.ts[..0] == [];
    InWindow(f.ts, g);
    hide Below, WindowRange;
    assert Witnessed(f, exts[0], Bad) by { assert f.quality[0] == Bad; }
    assert InExtents(exts, 0) by { assert exts[0].first <= 0 <= exts[0].last; }
  }

  lemma InWindow(ts: seq<int>, g: Grid)
    requires |ts| == 1 && Inside(ts[0], g)
    ensures WindowRange(ts, g) == (0, 1)
  {
  }

  lemma InexactEdge(g: Grid)
    requires Proper(g) && (g.to - g.from) % g.buckets != 0
    ensures g.buckets > 1 && !ExactEdge(1, g)
  {
    var n, s := g.buckets, g.to - g.from;
    if ExactEdge(1, g) { ExactModulo(s, Scaled(s, 1, n), n); }
  }

  lemma ExactModulo(s: int, q: int, n: int)
    requires n > 0 && q * n == s * 1
    ensures s % n == 0
  {
    assert (q * n) % n == 0 by { MultipleModulo(q, n); }
  }

  // The runs of all frames are half-open in the sense documented exactly when `buckets` divides the span.
  lemma HalfOpenIffDivides(g: Grid)
    requires Proper(g) && InRange(g.from) && InRange(g.to)
    ensures HalfOpen(g) <==> (g.to - g.from) % g.buckets == 0
  {
    if (g.to - g.from) % g.buckets == 0 {
      forall f, runs, bins, exts, cuts ensures RunsHoldSamples(g, f, runs, bins, exts, cuts) {
        if f.Valid() && InOrder(f.ts) && IsRug(f, g, runs, bins, exts, cuts) {
          SamplesBeforeEnd(f, g, runs, bins, exts, cuts);
        }
      }
    } else {
      var f, runs, bins, exts, cuts := SampleAtRunEnd(g);
      hide IsRug, Owns, InOrder;
      assert NonGood(f, 0);
      assert !EndsAfterSamples(f, g, runs, exts, cuts);
      assert !RunsHoldSamples(g, f, runs, bins, exts, cuts);
    }
  }

  lemma SamplesBeforeEnd(f: SeriesFrame, g: Grid, runs: seq<QualityRun>, bins: seq<BinClass>, exts: seq<Extent>,
                         cuts: seq<nat>)
    requires f.Valid() && Proper(g) && InOrder(f.ts) && IsRug(f, g, runs, bins, exts, cuts)
    requires (g.to - g.from) % g.buckets == 0
    ensures |cuts| == |runs| && EndsAfterSamples(f, g, runs, exts, cuts)
  {
    RugParts(f, g, runs, bins, exts, cuts);
    hide IsRug, InOrder, Owns, Classified, Covers, Separate;
    forall j: nat, r: nat | j < |f.ts| && Inside(f.ts[j], g) && NonGood(f, j) && r < |runs| && Owns(exts, cuts, r, j)
      ensures f.ts[j] < runs[r].end
    {
      var s := SampleInOneRun(f, g, runs, bins, exts, cuts, j);
    }
  }
}
