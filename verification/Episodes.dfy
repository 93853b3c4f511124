// Episodes of flagged bins on an alignment grid (episodes of core/tabayyun-core/src/cross.rs): maximal
// runs of neighbouring flagged bins, without the short ones, merged across short gaps.
module Episodes {
  import opened Int64
  import Score

  type Window = Score.Window

  // The bins [s, e).
  datatype Run = Run(s: nat, e: nat)

  datatype Episode = Episode(window: Window, bins: seq<nat>)

  // ---- Runs -------------------------------------------------------------------------------

  // Bins i and i + 1 are flagged and one grid step apart.
  predicate Joined(ts: seq<int>, flagged: seq<bool>, grid: int, i: int)
    requires |ts| == |flagged|
  {
    0 <= i && i + 1 < |ts| && flagged[i] && flagged[i + 1] && SatSub(ts[i + 1], ts[i]) == grid
  }

  // A maximal run of neighbouring flagged bins.
  ghost predicate MaximalRun(ts: seq<int>, flagged: seq<bool>, grid: int, r: Run)
    requires |ts| == |flagged|
  {
    && r.s < r.e <= |ts|
    && flagged[r.s]
    && (forall i :: r.s <= i < r.e - 1 ==> Joined(ts, flagged, grid, i))
    && !Joined(ts, flagged, grid, r.s - 1) && !Joined(ts, flagged, grid, r.e - 1)
  }

  ghost predicate InRun(runs: seq<Run>, i: int) {
    exists k: nat :: k < |runs| && runs[k].s <= i < runs[k].e
  }

  predicate Ordered(runs: seq<Run>) {
    forall k, l :: 0 <= k < l < |runs| ==> runs[k].e <= runs[l].s
  }

  // All maximal runs among the first n bins, in order.
  ghost predicate AllRuns(ts: seq<int>, flagged: seq<bool>, grid: int, n: nat, runs: seq<Run>)
    requires |ts| == |flagged|
  {
    && n <= |ts| && Ordered(runs)
    && (forall k :: 0 <= k < |runs| ==> MaximalRun(ts, flagged, grid, runs[k]) && runs[k].e <= n)
    && (forall i :: 0 <= i < n && flagged[i] ==> InRun(runs, i))
  }

  lemma RunsGrow(ts: seq<int>, flagged: seq<bool>, grid: int, n: nat, runs: seq<Run>, r: Run)
    requires |ts| == |flagged| && AllRuns(ts, flagged, grid, n, runs)
    requires MaximalRun(ts, flagged, grid, r) && r.s == n
    ensures AllRuns(ts, flagged, grid, r.e, runs + [r])
  {
    hide MaximalRun, Joined;
    var more := runs + [r];
    assert r.s < r.e <= |ts| by { RunBounds(ts, flagged, grid, r); }
    forall i | 0 <= i < r.e && flagged[i] ensures InRun(more, i) {
      if i < n {
        var k: nat :| k < |runs| && runs[k].s <= i < runs[k].e;
        assert more[k] == runs[k];
      } else {
        assert more[|runs|] == r;
      }
    }
  }

  lemma RunBounds(ts: seq<int>, flagged: seq<bool>, grid: int, r: Run)
    requires |ts| == |flagged| && MaximalRun(ts, flagged, grid, r)
    ensures r.s < r.e <= |ts|
  {
  }

  method FlaggedRuns(ts: seq<int>, flagged: seq<bool>, grid: int) returns (runs: seq<Run>)
    requires |ts| == |flagged|
    ensures AllRuns(ts, flagged, grid, |ts|, runs)
  {
    hide AllRuns;
    runs := [];
    var i := 0;
    NoRuns(ts, flagged, grid);
    while i < |ts|
      invariant i <= |ts| && AllRuns(ts, flagged, grid, i, runs)
      invariant !Joined(ts, flagged, grid, i - 1)
    {
      if !flagged[i] {
        SkipBin(ts, flagged, grid, i, runs);
        i := i + 1;
        continue;
      }
      var s := i;
      while i + 1 < |ts| && flagged[i + 1] && SatSub(ts[i + 1], ts[i]) == grid
        invariant s <= i < |ts| && flagged[i]
        invariant forall j :: s <= j < i ==> Joined(ts, flagged, grid, j)
      {
        i := i + 1;
      }
      RunsGrow(ts, flagged, grid, s, runs, Run(s, i + 1));
      runs := runs + [Run(s, i + 1)];
      i := i + 1;
    }
  }

  lemma NoRuns(ts: seq<int>, flagged: seq<bool>, grid: int)
    requires |ts| == |flagged|
    ensures AllRuns(ts, flagged, grid, 0, [])
  {
  }

  lemma SkipBin(ts: seq<int>, flagged: seq<bool>, grid: int, i: nat, runs: seq<Run>)
    requires |ts| == |flagged| && i < |ts| && AllRuns(ts, flagged, grid, i, runs) && !flagged[i]
    ensures AllRuns(ts, flagged, grid, i + 1, runs)
  {
    hide MaximalRun, InRun;
  }

  // ---- Dropping and merging ---------------------------------------------------------------------

  function Span(ts: seq<int>, grid: int, r: Run): Window
    requires r.s < r.e <= |ts|
  {
    Score.Window(ts[r.s], SatAdd(ts[r.e - 1], grid))
  }

  predicate Fit(ts: seq<int>, runs: seq<Run>) {
    forall k :: 0 <= k < |runs| ==> runs[k].s < runs[k].e <= |ts|
  }

  predicate Lasts(ts: seq<int>, grid: int, minimum: int, r: Run)
    requires r.s < r.e <= |ts|
  {
    Span(ts, grid, r).Duration() >= minimum
  }

  function LongRuns(ts: seq<int>, grid: int, minimum: int, runs: seq<Run>): (kept: seq<Run>)
    requires Fit(ts, runs)
    ensures Fit(ts, kept)
  {
    if runs == [] then []
    else
      var kept := LongRuns(ts, grid, minimum, runs[..|runs| - 1]);
      if Lasts(ts, grid, minimum, runs[|runs| - 1]) then kept + [runs[|runs| - 1]] else kept
  }

  function Flatten(groups: seq<seq<Run>>): seq<Run> {
    if groups == [] then [] else Flatten(groups[..|groups| - 1]) + groups[|groups| - 1]
  }

  function Interval(r: Run): (s: seq<nat>)
    requires r.s < r.e
    ensures |s| == r.e - r.s && forall k :: 0 <= k < |s| ==> s[k] == r.s + k
  {
    seq(r.e - r.s, k requires 0 <= k < r.e - r.s => r.s + k)
  }

  function BinsOf(ts: seq<int>, runs: seq<Run>): seq<nat>
    requires Fit(ts, runs)
  {
    if runs == [] then [] else BinsOf(ts, runs[..|runs| - 1]) + Interval(runs[|runs| - 1])
  }

  function Gap(ts: seq<int>, grid: int, a: Run, b: Run): int
    requires a.s < a.e <= |ts| && b.s < b.e <= |ts|
  {
    SatSub(Span(ts, grid, b).start, Span(ts, grid, a).end)
  }

  // The episode is the runs of the group, which short gaps separate.
  ghost predicate EpisodeOf(ts: seq<int>, grid: int, minimum: int, ep: Episode, group: seq<Run>) {
    && group != [] && Fit(ts, group)
    && ep.window.start == Span(ts, grid, group[0]).start
    && ep.window.end == Span(ts, grid, group[|group| - 1]).end
    && ep.bins == BinsOf(ts, group)
    && forall k, l :: 0 <= k && k + 1 == l < |group| ==> Gap(ts, grid, group[k], group[l]) < minimum
  }

  predicate FarApart(ts: seq<int>, grid: int, minimum: int, a: seq<Run>, b: seq<Run>) {
    a != [] && b != [] && Fit(ts, a) && Fit(ts, b) && Gap(ts, grid, a[|a| - 1], b[0]) >= minimum
  }

  ghost predicate Grouped(ts: seq<int>, grid: int, minimum: int, kept: seq<Run>, eps: seq<Episode>,
                          groups: seq<seq<Run>>) {
    && |eps| == |groups| && Flatten(groups) == kept
    && (forall r :: 0 <= r < |eps| ==> EpisodeOf(ts, grid, minimum, eps[r], groups[r]))
    && (forall r, s :: 0 <= r && r + 1 == s < |eps| ==> FarApart(ts, grid, minimum, groups[r], groups[s]))
  }

  lemma ExtendEpisode(ts: seq<int>, grid: int, minimum: int, ep: Episode, group: seq<Run>, r: Run)
    requires EpisodeOf(ts, grid, minimum, ep, group) && r.s < r.e <= |ts|
    requires Gap(ts, grid, group[|group| - 1], r) < minimum
    ensures EpisodeOf(ts, grid, minimum,
                      Episode(Score.Window(ep.window.start, Span(ts, grid, r).end), ep.bins + Interval(r)),
                      group + [r])
  {
    hide Gap, Span, Interval;
    assert (group + [r])[..|group|] == group;
  }

  lemma ExtendLast(ts: seq<int>, grid: int, minimum: int, kept: seq<Run>, eps: seq<Episode>, groups: seq<seq<Run>>,
                   r: Run, ep: Episode)
    requires Grouped(ts, grid, minimum, kept, eps, groups) && eps != []
    requires EpisodeOf(ts, grid, minimum, ep, groups[|groups| - 1] + [r])
    ensures Grouped(ts, grid, minimum, kept + [r], eps[|eps| - 1 := ep],
                    groups[|groups| - 1 := groups[|groups| - 1] + [r]])
  {
    hide EpisodeOf;
    var n := |groups| - 1;
    var groups' := groups[n := groups[n] + [r]];
    assert groups'[..n] == groups[..n];
    assert Flatten(groups') == Flatten(groups[..n]) + (groups[n] + [r]);
    forall a, b | 0 <= a && a + 1 == b < |eps| ensures FarApart(ts, grid, minimum, groups'[a], groups'[b]) {
      assert FarApart(ts, grid, minimum, groups[a], groups[b]);
      if b == n { FitMore(ts, grid, minimum, ep, groups[n] + [r]); }
    }
  }

  lemma FitMore(ts: seq<int>, grid: int, minimum: int, ep: Episode, group: seq<Run>)
    requires EpisodeOf(ts, grid, minimum, ep, group)
    ensures group != [] && Fit(ts, group)
  {
  }

  lemma PushEpisode(ts: seq<int>, grid: int, minimum: int, kept: seq<Run>, eps: seq<Episode>, groups: seq<seq<Run>>,
                    r: Run, ep: Episode)
    requires Grouped(ts, grid, minimum, kept, eps, groups) && EpisodeOf(ts, grid, minimum, ep, [r])
    requires eps != [] ==> FarApart(ts, grid, minimum, groups[|groups| - 1], [r])
    ensures Grouped(ts, grid, minimum, kept + [r], eps + [ep], groups + [[r]])
  {
    hide EpisodeOf, FarApart;
    assert (groups + [[r]])[..|groups|] == groups;
  }

  lemma OneRun(ts: seq<int>, grid: int, minimum: int, r: Run)
    requires r.s < r.e <= |ts|
    ensures EpisodeOf(ts, grid, minimum, Episode(Span(ts, grid, r), Interval(r)), [r])
  {
    hide Span, Interval;
    assert [r][..0] == [];
    assert BinsOf(ts, [r]) == [] + Interval(r);
  }

  ghost predicate AreGroups(ts: seq<int>, grid: int, minimum: int, kept: seq<Run>, eps: seq<Episode>) {
    exists groups :: Grouped(ts, grid, minimum, kept, eps, groups)
  }

  method MergeRuns(ts: seq<int>, grid: int, minimum: int, runs: seq<Run>)
    returns (eps: seq<Episode>, ghost groups: seq<seq<Run>>)
    requires Fit(ts, runs)
    ensures Grouped(ts, grid, minimum, LongRuns(ts, grid, minimum, runs), eps, groups)
    ensures AreGroups(ts, grid, minimum, LongRuns(ts, grid, minimum, runs), eps)
  {
    hide Grouped;
    eps, groups := [], [];
    Nothing(ts, grid, minimum);
    for k := 0 to |runs|
      invariant Grouped(ts, grid, minimum, LongRuns(ts, grid, minimum, runs[..k]), eps, groups)
    {
      var run := runs[k];
      assert runs[..k + 1][..k] == runs[..k];
      ghost var kept := LongRuns(ts, grid, minimum, runs[..k]);
      if Span(ts, grid, run).Duration() < minimum { continue; }
      var w := Span(ts, grid, run);
      LastGroup(ts, grid, minimum, kept, eps, groups);
      if eps != [] && SatSub(w.start, eps[|eps| - 1].window.end) < minimum {
        var ep := eps[|eps| - 1];
        var grown := Episode(Score.Window(ep.window.start, w.end), ep.bins + Interval(run));
        ExtendEpisode(ts, grid, minimum, ep, groups[|groups| - 1], run);
        ExtendLast(ts, grid, minimum, kept, eps, groups, run, grown);
        eps := eps[|eps| - 1 := grown];
        groups := groups[|groups| - 1 := groups[|groups| - 1] + [run]];
      } else {
        OneRun(ts, grid, minimum, run);
        PushEpisode(ts, grid, minimum, kept, eps, groups, run, Episode(w, Interval(run)));
        eps := eps + [Episode(w, Interval(run))];
        groups := groups + [[run]];
      }
    }
    assert runs[..|runs|] == runs;
  }

  lemma LastGroup(ts: seq<int>, grid: int, minimum: int, kept: seq<Run>, eps: seq<Episode>, groups: seq<seq<Run>>)
    requires Grouped(ts, grid, minimum, kept, eps, groups)
    ensures |eps| == |groups|
    ensures eps != [] ==> EpisodeOf(ts, grid, minimum, eps[|eps| - 1], groups[|eps| - 1])
  {
    hide EpisodeOf;
  }

  lemma Nothing(ts: seq<int>, grid: int, minimum: int)
    ensures Grouped(ts, grid, minimum, [], [], [])
  {
  }

  // The episodes, with the maximal runs they come from and how those group.
  ghost predicate IsEpisodes(ts: seq<int>, flagged: seq<bool>, grid: int, minimum: int, eps: seq<Episode>,
                             runs: seq<Run>, groups: seq<seq<Run>>)
    requires |ts| == |flagged|
  {
    && AllRuns(ts, flagged, grid, |ts|, runs) && Fit(ts, runs)
    && Grouped(ts, grid, minimum, LongRuns(ts, grid, minimum, runs), eps, groups)
  }

  ghost predicate AreEpisodes(ts: seq<int>, flagged: seq<bool>, grid: int, minimum: int, eps: seq<Episode>)
    requires |ts| == |flagged|
  {
    exists runs, groups :: IsEpisodes(ts, flagged, grid, minimum, eps, runs, groups)
  }

  method FindEpisodes(ts: seq<int>, flagged: seq<bool>, grid: int, minimum: int)
    returns (eps: seq<Episode>, ghost runs: seq<Run>, ghost groups: seq<seq<Run>>)
    requires |ts| == |flagged|
    ensures IsEpisodes(ts, flagged, grid, minimum, eps, runs, groups)
    ensures AreEpisodes(ts, flagged, grid, minimum, eps)
  {
    var found := FlaggedRuns(ts, flagged, grid);
    assert Fit(ts, found);
    eps, groups := MergeRuns(ts, grid, minimum, found);
    runs := found;
    assert IsEpisodes(ts, flagged, grid, minimum, eps, runs, groups);
  }

  // ---- What episodes promise ----------------------------------------------------------------

  // Bin starts are at least one grid step apart, as on an alignment grid.
  predicate OnGrid(ts: seq<int>, grid: int) {
    && 0 < grid <= MAX
    && (forall i :: 0 <= i < |ts| ==> InRange(ts[i]))
    && forall i, j :: 0 <= i < j < |ts| ==> ts[i] + grid <= ts[j]
  }

  ghost predicate InLongRun(ts: seq<int>, flagged: seq<bool>, grid: int, minimum: int, i: int)
    requires |ts| == |flagged|
  {
    exists r :: MaximalRun(ts, flagged, grid, r) && r.s <= i < r.e && Lasts(ts, grid, minimum, r)
  }

  // Maximal runs never share a bin.
  lemma MaximalRunsApart(ts: seq<int>, flagged: seq<bool>, grid: int, q: Run, r: Run, i: int)
    requires |ts| == |flagged| && MaximalRun(ts, flagged, grid, q) && MaximalRun(ts, flagged, grid, r)
    requires q.s <= i < q.e && r.s <= i < r.e
    ensures q == r
  {
    hide Joined;
    assert !Joined(ts, flagged, grid, q.s - 1) && !Joined(ts, flagged, grid, r.s - 1);
    assert !Joined(ts, flagged, grid, q.e - 1) && !Joined(ts, flagged, grid, r.e - 1);
  }

  lemma {:induction false} BinsInGroup(ts: seq<int>, runs: seq<Run>, i: nat)
    requires Fit(ts, runs)
    ensures i in BinsOf(ts, runs) <==> InRun(runs, i)
  {
    if runs != [] {
      var n := |runs| - 1;
      BinsInGroup(ts, runs[..n], i);
      var last := Interval(runs[n]);
      assert runs[n].s <= i < runs[n].e ==> last[i - runs[n].s] == i;
      InRunSplit(runs, i);
    }
  }

  lemma InRunSplit(runs: seq<Run>, i: int)
    requires runs != []
    ensures InRun(runs, i) <==> InRun(runs[..|runs| - 1], i) || runs[|runs| - 1].s <= i < runs[|runs| - 1].e
  {
    var n := |runs| - 1;
    if InRun(runs[..n], i) {
      var k: nat :| k < n && runs[..n][k].s <= i < runs[..n][k].e;
      assert runs[k].s <= i < runs[k].e;
    }
    if InRun(runs, i) {
      var k: nat :| k < |runs| && runs[k].s <= i < runs[k].e;
      assert k < n ==> runs[..n][k] == runs[k];
    }
  }

  lemma InRunOfSome(runs: seq<Run>, i: int) returns (r: Run)
    requires InRun(runs, i)
    ensures r in runs && r.s <= i < r.e
  {
    var k: nat :| k < |runs| && runs[k].s <= i < runs[k].e;
    r := runs[k];
  }

  lemma InRunOf(runs: seq<Run>, r: Run, i: int)
    requires r in runs && r.s <= i < r.e
    ensures InRun(runs, i)
  {
    var k: nat :| k < |runs| && runs[k] == r;
    assert runs[k].s <= i < runs[k].e;
  }

  lemma {:induction false} InFlatten(groups: seq<seq<Run>>, r: Run)
    ensures r in Flatten(groups) <==> exists a :: 0 <= a < |groups| && r in groups[a]
  {
    if groups != [] {
      var n := |groups| - 1;
      InFlatten(groups[..n], r);
      if r in Flatten(groups[..n]) {
        var a :| 0 <= a < n && r in groups[..n][a];
        assert r in groups[a];
      }
      if exists a :: 0 <= a < |groups| && r in groups[a] {
        var a :| 0 <= a < |groups| && r in groups[a];
        if a < n { assert r in groups[..n][a]; }
      }
    }
  }

  lemma {:induction false} LongRunsAre(ts: seq<int>, grid: int, minimum: int, runs: seq<Run>)
    requires Fit(ts, runs)
    ensures forall r :: r in LongRuns(ts, grid, minimum, runs) <==> r in runs && Lasts(ts, grid, minimum, r)
  {
    hide Lasts;
    if runs != [] {
      var n := |runs| - 1;
      assert runs == runs[..n] + [runs[n]];
      LongRunsAre(ts, grid, minimum, runs[..n]);
    }
  }

  lemma {:induction false} LongRunsInOrder(ts: seq<int>, grid: int, minimum: int, runs: seq<Run>)
    requires Fit(ts, runs) && Ordered(runs)
    ensures Ordered(LongRuns(ts, grid, minimum, runs))
  {
    hide Lasts;
    if runs != [] {
      var n := |runs| - 1;
      assert runs == runs[..n] + [runs[n]];
      LongRunsInOrder(ts, grid, minimum, runs[..n]);
      LongRunsAre(ts, grid, minimum, runs[..n]);
      EndsBefore(LongRuns(ts, grid, minimum, runs[..n]), runs);
    }
  }

  lemma EndsBefore(kept: seq<Run>, runs: seq<Run>)
    requires Ordered(runs) && runs != [] && Ordered(kept) && forall r :: r in kept ==> r in runs[..|runs| - 1]
    ensures Ordered(kept + [runs[|runs| - 1]])
  {
    forall k | 0 <= k < |kept| ensures kept[k].e <= runs[|runs| - 1].s {
      var r := kept[k];
      assert r in kept && r in runs[..|runs| - 1];
      var l :| 0 <= l < |runs| - 1 && runs[l] == r;
    }
  }

  // Every run of an earlier group ends before every run of a later one.
  lemma {:induction false} GroupsApart(groups: seq<seq<Run>>, a: nat, b: nat, p: Run, q: Run)
    requires Ordered(Flatten(groups)) && a < b < |groups| && p in groups[a] && q in groups[b]
    ensures p.e <= q.s
  {
    var n := |groups| - 1;
    var front := Flatten(groups[..n]);
    if b < n {
      assert Ordered(front) by { OrderedPart(front, groups[n]); }
      GroupsApart(groups[..n], a, b, p, q);
    } else {
      assert groups[..n][a] == groups[a];
      InFlatten(groups[..n], p);
      var k :| 0 <= k < |front| && front[k] == p;
      var l :| 0 <= l < |groups[n]| && groups[n][l] == q;
      var all := Flatten(groups);
      assert all[k] == p && all[|front| + l] == q;
    }
  }

  lemma OrderedPart(a: seq<Run>, b: seq<Run>)
    requires Ordered(a + b)
    ensures Ordered(a) && Ordered(b)
  {
    var c := a + b;
    forall k, l | 0 <= k < l < |a| ensures a[k].e <= a[l].s { assert c[k] == a[k] && c[l] == a[l]; }
    forall k, l | 0 <= k < l < |b| ensures b[k].e <= b[l].s { assert c[|a| + k] == b[k] && c[|a| + l] == b[l]; }
  }

  lemma {:induction false} GroupOrdered(groups: seq<seq<Run>>, a: nat)
    requires Ordered(Flatten(groups)) && a < |groups|
    ensures Ordered(groups[a])
  {
    var n := |groups| - 1;
    OrderedPart(Flatten(groups[..n]), groups[n]);
    if a < n { GroupOrdered(groups[..n], a); }
  }

  lemma EpisodeParts(ts: seq<int>, flagged: seq<bool>, grid: int, minimum: int, eps: seq<Episode>, runs: seq<Run>,
                     groups: seq<seq<Run>>)
    requires |ts| == |flagged| && IsEpisodes(ts, flagged, grid, minimum, eps, runs, groups)
    ensures |eps| == |groups| && Fit(ts, Flatten(groups)) && Ordered(Flatten(groups))
    ensures forall r :: 0 <= r < |eps| ==> EpisodeOf(ts, grid, minimum, eps[r], groups[r])
    ensures forall r :: r in Flatten(groups) <==> r in runs && Lasts(ts, grid, minimum, r)
  {
    LongRunsAre(ts, grid, minimum, runs);
    LongRunsInOrder(ts, grid, minimum, runs);
    hide EpisodeOf, Lasts, MaximalRun, InRun;
  }

  lemma EpisodeBins(ts: seq<int>, flagged: seq<bool>, grid: int, minimum: int, eps: seq<Episode>, runs: seq<Run>,
                    groups: seq<seq<Run>>, a: nat, i: nat)
    requires |ts| == |flagged| && IsEpisodes(ts, flagged, grid, minimum, eps, runs, groups) && a < |eps|
    ensures |eps| == |groups| && (i in eps[a].bins <==> InRun(groups[a], i))
  {
    hide Lasts, Ordered, IsEpisodes, InRun;
    EpisodeParts(ts, flagged, grid, minimum, eps, runs, groups);
    assert EpisodeOf(ts, grid, minimum, eps[a], groups[a]);
    BinsInGroup(ts, groups[a], i);
  }

  lemma EpisodeBinIsLong(ts: seq<int>, flagged: seq<bool>, grid: int, minimum: int, eps: seq<Episode>, runs: seq<Run>,
                         groups: seq<seq<Run>>, a: nat, i: nat)
    requires |ts| == |flagged| && IsEpisodes(ts, flagged, grid, minimum, eps, runs, groups)
    requires a < |eps| && i in eps[a].bins
    ensures InLongRun(ts, flagged, grid, minimum, i)
  {
    hide Lasts, Ordered, IsEpisodes, InRun, MaximalRun, EpisodeOf, Fit;
    EpisodeParts(ts, flagged, grid, minimum, eps, runs, groups);
    EpisodeBins(ts, flagged, grid, minimum, eps, runs, groups, a, i);
    var r := InRunOfSome(groups[a], i);
    InFlatten(groups, r);
    RunIsMaximal(ts, flagged, grid, minimum, eps, runs, groups, r);
  }

  lemma EpisodesShareNoBin(ts: seq<int>, flagged: seq<bool>, grid: int, minimum: int, eps: seq<Episode>, runs: seq<Run>,
                           groups: seq<seq<Run>>, a: nat, b: nat, i: nat)
    requires |ts| == |flagged| && IsEpisodes(ts, flagged, grid, minimum, eps, runs, groups)
    requires a < b < |eps| && i in eps[a].bins
    ensures i !in eps[b].bins
  {
    hide Lasts, Ordered, IsEpisodes, InRun, EpisodeOf, Fit;
    EpisodeParts(ts, flagged, grid, minimum, eps, runs, groups);
    EpisodeBins(ts, flagged, grid, minimum, eps, runs, groups, a, i);
    EpisodeBins(ts, flagged, grid, minimum, eps, runs, groups, b, i);
    if i in eps[b].bins {
      var p := InRunOfSome(groups[a], i);
      var q := InRunOfSome(groups[b], i);
      GroupsApart(groups, a, b, p, q);
    }
  }

  // The bins of all episodes are exactly the bins of maximal flagged runs that last long enough, and
  // no bin is in two episodes.
  lemma BinInOneEpisode(ts: seq<int>, flagged: seq<bool>, grid: int, minimum: int, eps: seq<Episode>, runs: seq<Run>,
                        groups: seq<seq<Run>>, i: nat)
    requires |ts| == |flagged| && IsEpisodes(ts, flagged, grid, minimum, eps, runs, groups)
    ensures (exists a :: 0 <= a < |eps| && i in eps[a].bins) <==> InLongRun(ts, flagged, grid, minimum, i)
    ensures forall a, b :: 0 <= a < b < |eps| && i in eps[a].bins ==> i !in eps[b].bins
  {
    hide IsEpisodes, InLongRun, InRun;
    if InLongRun(ts, flagged, grid, minimum, i) {
      var a := EpisodeOfBin(ts, flagged, grid, minimum, eps, runs, groups, i);
      EpisodeBins(ts, flagged, grid, minimum, eps, runs, groups, a, i);
    }
    forall a | 0 <= a < |eps| && i in eps[a].bins ensures InLongRun(ts, flagged, grid, minimum, i) {
      EpisodeBinIsLong(ts, flagged, grid, minimum, eps, runs, groups, a, i);
    }
    forall a, b | 0 <= a < b < |eps| && i in eps[a].bins ensures i !in eps[b].bins {
      EpisodesShareNoBin(ts, flagged, grid, minimum, eps, runs, groups, a, b, i);
    }
  }

  lemma RunIsMaximal(ts: seq<int>, flagged: seq<bool>, grid: int, minimum: int, eps: seq<Episode>, runs: seq<Run>,
                     groups: seq<seq<Run>>, r: Run)
    requires |ts| == |flagged| && IsEpisodes(ts, flagged, grid, minimum, eps, runs, groups) && r in runs
    ensures MaximalRun(ts, flagged, grid, r)
  {
    hide MaximalRun, Grouped, InRun;
  }

  lemma EpisodeOfBin(ts: seq<int>, flagged: seq<bool>, grid: int, minimum: int, eps: seq<Episode>, runs: seq<Run>,
                     groups: seq<seq<Run>>, i: nat) returns (a: nat)
    requires |ts| == |flagged| && IsEpisodes(ts, flagged, grid, minimum, eps, runs, groups)
    requires InLongRun(ts, flagged, grid, minimum, i)
    ensures a < |groups| == |eps| && InRun(groups[a], i)
  {
    EpisodeParts(ts, flagged, grid, minimum, eps, runs, groups);
    hide Lasts, Ordered, EpisodeOf, Grouped;
    var r :| MaximalRun(ts, flagged, grid, r) && r.s <= i < r.e && Lasts(ts, grid, minimum, r);
    FlaggedInRun(ts, flagged, grid, r, i);
    assert InRun(runs, i);
    var q := InRunOfSome(runs, i);
    assert MaximalRun(ts, flagged, grid, q);
    MaximalRunsApart(ts, flagged, grid, q, r, i);
    InFlatten(groups, r);
    a :| 0 <= a < |groups| && r in groups[a];
    InRunOf(groups[a], r, i);
  }

  lemma FlaggedInRun(ts: seq<int>, flagged: seq<bool>, grid: int, r: Run, i: nat)
    requires |ts| == |flagged| && MaximalRun(ts, flagged, grid, r) && r.s <= i < r.e
    ensures flagged[i]
  {
    if i > r.s { assert Joined(ts, flagged, grid, i - 1); }
  }

  lemma {:induction false} EndsOfBins(ts: seq<int>, runs: seq<Run>)
    requires Fit(ts, runs) && runs != []
    ensures var bins := BinsOf(ts, runs);
            bins != [] && bins[0] == runs[0].s && bins[|bins| - 1] == runs[|runs| - 1].e - 1
  {
    var n := |runs| - 1;
    if n > 0 { EndsOfBins(ts, runs[..n]); }
  }

  lemma GridOrder(ts: seq<int>, grid: int, i: nat, j: nat)
    requires OnGrid(ts, grid) && i <= j < |ts|
    ensures ts[i] <= ts[j] && SatAdd(ts[i], grid) <= SatAdd(ts[j], grid)
    ensures i < j ==> SatAdd(ts[i], grid) <= ts[j]
    ensures ts[i] <= SatAdd(ts[i], grid)
  {
  }

  lemma LongerLasts(a: Window, b: Window, minimum: int)
    requires a.start == b.start && a.end <= b.end && a.Duration() >= minimum
    ensures b.Duration() >= minimum
  {
  }

  lemma RunsOfGroup(ts: seq<int>, flagged: seq<bool>, grid: int, minimum: int, eps: seq<Episode>, runs: seq<Run>,
                    groups: seq<seq<Run>>, a: nat)
    requires |ts| == |flagged| && IsEpisodes(ts, flagged, grid, minimum, eps, runs, groups) && a < |eps|
    ensures |eps| == |groups| && EpisodeOf(ts, grid, minimum, eps[a], groups[a]) && Ordered(groups[a])
    ensures groups[a] != [] && Fit(ts, groups[a]) && Lasts(ts, grid, minimum, groups[a][0])
  {
    EpisodeParts(ts, flagged, grid, minimum, eps, runs, groups);
    hide IsEpisodes, Lasts, Ordered;
    GroupOrdered(groups, a);
    InFlatten(groups, groups[a][0]);
  }

  // Where the episode of a group begins and ends.
  lemma Edges(ts: seq<int>, grid: int, minimum: int, ep: Episode, group: seq<Run>)
    requires EpisodeOf(ts, grid, minimum, ep, group) && Ordered(group)
    ensures var p, q := group[0], group[|group| - 1];
            && p.s < p.e <= q.e <= |ts| && p.s <= q.s < q.e
            && ep.window.start == ts[p.s] && ep.window.end == SatAdd(ts[q.e - 1], grid)
            && ep.bins != [] && ep.bins[0] == p.s && ep.bins[|ep.bins| - 1] == q.e - 1
  {
    EndsOfBins(ts, group);
    hide BinsOf, Gap, SatAdd;
    assert |group| > 1 ==> group[0].e <= group[|group| - 1].s;
  }

  lemma RunLasts(ts: seq<int>, grid: int, minimum: int, r: Run, w: Window)
    requires r.s < r.e <= |ts| && Lasts(ts, grid, minimum, r)
    requires w.start == ts[r.s] && w.end >= SatAdd(ts[r.e - 1], grid)
    ensures w.Duration() >= minimum
  {
    LongerLasts(Span(ts, grid, r), w, minimum);
  }

  // An episode's window spans its first to its last bin and lasts at least the minimum.
  lemma EpisodeLasts(ts: seq<int>, flagged: seq<bool>, grid: int, minimum: int, eps: seq<Episode>, runs: seq<Run>,
                     groups: seq<seq<Run>>, a: nat)
    requires |ts| == |flagged| && IsEpisodes(ts, flagged, grid, minimum, eps, runs, groups) && a < |eps|
    requires OnGrid(ts, grid)
    ensures var bins, w := eps[a].bins, eps[a].window;
            && bins != [] && bins[0] <= bins[|bins| - 1] < |ts|
            && w.start == ts[bins[0]] && w.end == SatAdd(ts[bins[|bins| - 1]], grid)
            && w.start <= w.end && w.Duration() >= minimum
  {
    hide IsEpisodes, OnGrid, EpisodeOf, Lasts, Ordered, Fit, SatAdd;
    RunsOfGroup(ts, flagged, grid, minimum, eps, runs, groups, a);
    var group := groups[a];
    Edges(ts, grid, minimum, eps[a], group);
    var p, q := group[0], group[|group| - 1];
    GridOrder(ts, grid, p.e - 1, q.e - 1);
    GridOrder(ts, grid, p.s, q.e - 1);
    GridOrder(ts, grid, q.e - 1, q.e - 1);
    RunLasts(ts, grid, minimum, p, eps[a].window);
  }

  lemma SubMonotone(a: int, b: int, c: int)
    requires a <= b
    ensures SatSub(a, c) <= SatSub(b, c)
  {
  }

  // Episodes are ordered and at least the minimum apart.
  lemma {:induction false} EpisodesApart(ts: seq<int>, flagged: seq<bool>, grid: int, minimum: int, eps: seq<Episode>,
                                         runs: seq<Run>, groups: seq<seq<Run>>, a: nat, b: nat)
    requires |ts| == |flagged| && IsEpisodes(ts, flagged, grid, minimum, eps, runs, groups) && a < b < |eps|
    requires OnGrid(ts, grid)
    ensures eps[a].window.end <= eps[b].window.start
    ensures SatSub(eps[b].window.start, eps[a].window.end) >= minimum
  {
    hide IsEpisodes, OnGrid, EpisodeOf, Lasts, Ordered, Fit, SatAdd, SatSub;
    EpisodeParts(ts, flagged, grid, minimum, eps, runs, groups);
    RunsOfGroup(ts, flagged, grid, minimum, eps, runs, groups, a);
    RunsOfGroup(ts, flagged, grid, minimum, eps, runs, groups, b);
    Edges(ts, grid, minimum, eps[a], groups[a]);
    Edges(ts, grid, minimum, eps[b], groups[b]);
    var p, q := groups[a][|groups[a]| - 1], groups[b][0];
    GroupsApart(groups, a, b, p, q);
    GridOrder(ts, grid, p.e - 1, q.s);
    if a == b - 1 {
      Neighbours(ts, flagged, grid, minimum, eps, runs, groups, b);
    } else {
      EpisodesApart(ts, flagged, grid, minimum, eps, runs, groups, a, b - 1);
      RunsOfGroup(ts, flagged, grid, minimum, eps, runs, groups, b - 1);
      Edges(ts, grid, minimum, eps[b - 1], groups[b - 1]);
      GroupsApart(groups, b - 1, b, groups[b - 1][0], q);
      GridOrder(ts, grid, groups[b - 1][0].s, q.s);
      SubMonotone(eps[b - 1].window.start, eps[b].window.start, eps[a].window.end);
    }
  }

  lemma Neighbours(ts: seq<int>, flagged: seq<bool>, grid: int, minimum: int, eps: seq<Episode>, runs: seq<Run>,
                   groups: seq<seq<Run>>, b: nat)
    requires |ts| == |flagged| && IsEpisodes(ts, flagged, grid, minimum, eps, runs, groups) && 0 < b < |eps|
    ensures SatSub(eps[b].window.start, eps[b - 1].window.end) >= minimum
  {
    hide AllRuns, Flatten, LongRuns, SatSub, SatAdd, BinsOf;
    assert FarApart(ts, grid, minimum, groups[b - 1], groups[b]);
    assert EpisodeOf(ts, grid, minimum, eps[b], groups[b]);
    assert EpisodeOf(ts, grid, minimum, eps[b - 1], groups[b - 1]);
  }
}
