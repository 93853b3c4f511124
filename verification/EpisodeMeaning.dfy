// What episodes are, said of the bins' own timestamps (cross.rs, `episodes`).
module EpisodeMeaning {
  import opened Int64
  import opened Episodes

  // ---- Bins ------------------------------------------------------------------------------

  // Bin i and the next one are flagged and one grid step apart; no step of 64 bits is longer than
  // i64::MAX.
  predicate Follows(ts: seq<int>, flagged: seq<bool>, grid: int, i: nat)
    requires |ts| == |flagged|
  {
    && i + 1 < |ts| && flagged[i] && flagged[i + 1]
    && (ts[i + 1] - ts[i] == grid || (grid == MAX && ts[i + 1] - ts[i] > MAX))
  }

  // Where bin i ends, at most at i64::MAX.
  function EndAt(ts: seq<int>, grid: int, i: nat): int
    requires i < |ts|
  {
    if ts[i] + grid > MAX then MAX else ts[i] + grid
  }

  // The flagged bins [s, e) follow one another, and no bin before or after continues them.
  ghost predicate IsRun(ts: seq<int>, flagged: seq<bool>, grid: int, s: nat, e: nat)
    requires |ts| == |flagged|
  {
    && s < e <= |ts| && flagged[s]
    && (forall i: nat :: s <= i < e - 1 ==> Follows(ts, flagged, grid, i))
    && (s > 0 ==> !Follows(ts, flagged, grid, s - 1)) && !Follows(ts, flagged, grid, e - 1)
  }

  // Bin i lies in a run that lasts the minimum.
  ghost predicate Wanted(ts: seq<int>, flagged: seq<bool>, grid: int, minimum: int, i: nat)
    requires |ts| == |flagged|
  {
    exists s: nat, e: nat ::
      s <= i < e && IsRun(ts, flagged, grid, s, e) && EndAt(ts, grid, e - 1) - ts[s] >= minimum
  }

  // Bins b and c belong together: c follows b, or starts less than the minimum after b ends.
  predicate Near(ts: seq<int>, flagged: seq<bool>, grid: int, minimum: int, b: nat, c: nat)
    requires |ts| == |flagged|
  {
    && b < c < |ts|
    && ((c == b + 1 && Follows(ts, flagged, grid, b)) || ts[c] - EndAt(ts, grid, b) < minimum)
  }

  predicate Chained(ts: seq<int>, flagged: seq<bool>, grid: int, minimum: int, bins: seq<nat>)
    requires |ts| == |flagged|
  {
    forall k, l :: 0 <= k < |bins| && l == k + 1 && l < |bins| ==> Near(ts, flagged, grid, minimum, bins[k], bins[l])
  }

  // ---- Episodes --------------------------------------------------------------------------

  // The episode's bins, from first to last, belong together, and its window spans them.
  predicate IsEpisode(ts: seq<int>, flagged: seq<bool>, grid: int, minimum: int, ep: Episode)
    requires |ts| == |flagged|
  {
    && ep.bins != [] && ep.bins[0] < |ts| && ep.bins[|ep.bins| - 1] < |ts|
    && ep.window.start == ts[ep.bins[0]] && ep.window.end == EndAt(ts, grid, ep.bins[|ep.bins| - 1])
    && Chained(ts, flagged, grid, minimum, ep.bins)
  }

  // Every bin of a long run lies in an episode and no other bin does; episodes are in order and at
  // least the minimum apart.
  ghost predicate Shows(ts: seq<int>, flagged: seq<bool>, grid: int, minimum: int, eps: seq<Episode>)
    requires |ts| == |flagged|
  {
    && (forall a :: 0 <= a < |eps| ==> IsEpisode(ts, flagged, grid, minimum, eps[a]))
    && (forall i: nat :: Wanted(ts, flagged, grid, minimum, i) <==> InSome(eps, i))
    && (forall a, b :: 0 <= a < b < |eps| ==>
          eps[b].window.start - eps[a].window.end >= (if minimum > 0 then minimum else 0))
  }

  ghost predicate InSome(eps: seq<Episode>, i: nat) {
    exists a :: 0 <= a < |eps| && i in eps[a].bins
  }

  // ---- The code's runs in these terms -------------------------------------------------------------

  lemma JoinedIs(ts: seq<int>, flagged: seq<bool>, grid: int, i: nat)
    requires |ts| == |flagged| && OnGrid(ts, grid)
    ensures Joined(ts, flagged, grid, i) <==> Follows(ts, flagged, grid, i)
  {
  }

  lemma EndIs(ts: seq<int>, grid: int, i: nat)
    requires OnGrid(ts, grid) && i < |ts|
    ensures SatAdd(ts[i], grid) == EndAt(ts, grid, i)
  {
  }

  lemma RunIs(ts: seq<int>, flagged: seq<bool>, grid: int, s: nat, e: nat)
    requires |ts| == |flagged| && OnGrid(ts, grid)
    ensures MaximalRun(ts, flagged, grid, Run(s, e)) <==> IsRun(ts, flagged, grid, s, e)
  {
    hide Joined, Follows, OnGrid;
    forall i: nat ensures Joined(ts, flagged, grid, i) <==> Follows(ts, flagged, grid, i) {
      JoinedIs(ts, flagged, grid, i);
    }
    NothingBefore(ts, flagged, grid);
  }

  lemma NothingBefore(ts: seq<int>, flagged: seq<bool>, grid: int)
    requires |ts| == |flagged|
    ensures !Joined(ts, flagged, grid, -1)
  {
  }

  lemma LastsIs(ts: seq<int>, grid: int, minimum: int, s: nat, e: nat)
    requires OnGrid(ts, grid) && InRange(minimum) && s < e <= |ts|
    ensures Lasts(ts, grid, minimum, Run(s, e)) <==> EndAt(ts, grid, e - 1) - ts[s] >= minimum
  {
    GridOrder(ts, grid, s, e - 1);
    EndIs(ts, grid, e - 1);
    assert ts[s] <= EndAt(ts, grid, e - 1);
    assert minimum <= 0 ==> Lasts(ts, grid, minimum, Run(s, e));
  }

  lemma GapIs(ts: seq<int>, grid: int, minimum: int, b: nat, c: nat)
    requires OnGrid(ts, grid) && InRange(minimum) && b < c < |ts|
    ensures SatSub(ts[c], SatAdd(ts[b], grid)) < minimum <==> ts[c] - EndAt(ts, grid, b) < minimum
  {
    GridOrder(ts, grid, b, c);
    EndIs(ts, grid, b);
  }

  lemma WantedIff(ts: seq<int>, flagged: seq<bool>, grid: int, minimum: int, i: nat)
    requires |ts| == |flagged| && OnGrid(ts, grid) && InRange(minimum)
    ensures InLongRun(ts, flagged, grid, minimum, i) <==> Wanted(ts, flagged, grid, minimum, i)
  {
    hide Joined, Follows, OnGrid, Lasts, EndAt;
    if InLongRun(ts, flagged, grid, minimum, i) {
      var r :| MaximalRun(ts, flagged, grid, r) && r.s <= i < r.e && Lasts(ts, grid, minimum, r);
      RunIs(ts, flagged, grid, r.s, r.e);
      assert r == Run(r.s, r.e);
      LastsIs(ts, grid, minimum, r.s, r.e);
      assert IsRun(ts, flagged, grid, r.s, r.e);
    }
    if Wanted(ts, flagged, grid, minimum, i) {
      var s: nat, e: nat :|
        s <= i < e && IsRun(ts, flagged, grid, s, e) && EndAt(ts, grid, e - 1) - ts[s] >= minimum;
      RunIs(ts, flagged, grid, s, e);
      LastsIs(ts, grid, minimum, s, e);
      assert MaximalRun(ts, flagged, grid, Run(s, e));
    }
  }

  // ---- The bins of a group --------------------------------------------------------------------

  lemma ChainedMore(ts: seq<int>, flagged: seq<bool>, grid: int, minimum: int, bins: seq<nat>, more: seq<nat>)
    requires |ts| == |flagged| && Chained(ts, flagged, grid, minimum, bins) && Chained(ts, flagged, grid, minimum, more)
    requires bins != [] && more != [] ==> Near(ts, flagged, grid, minimum, bins[|bins| - 1], more[0])
    ensures Chained(ts, flagged, grid, minimum, bins + more)
  {
    hide Near;
  }

  lemma RunChained(ts: seq<int>, flagged: seq<bool>, grid: int, minimum: int, r: Run)
    requires |ts| == |flagged| && OnGrid(ts, grid) && MaximalRun(ts, flagged, grid, r)
    ensures r.s < r.e <= |ts| && Chained(ts, flagged, grid, minimum, Interval(r))
  {
    hide OnGrid, Follows, Joined;
    var bins := Interval(r);
    forall k, l | 0 <= k < |bins| && l == k + 1 && l < |bins|
      ensures Near(ts, flagged, grid, minimum, bins[k], bins[l])
    {
      JoinedIs(ts, flagged, grid, bins[k]);
    }
  }

  lemma {:induction false} GroupChained(ts: seq<int>, flagged: seq<bool>, grid: int, minimum: int, group: seq<Run>)
    requires |ts| == |flagged| && OnGrid(ts, grid) && InRange(minimum) && Fit(ts, group) && Ordered(group)
    requires forall r :: r in group ==> MaximalRun(ts, flagged, grid, r)
    requires forall k, l :: 0 <= k && k + 1 == l < |group| ==> Gap(ts, grid, group[k], group[l]) < minimum
    ensures Chained(ts, flagged, grid, minimum, BinsOf(ts, group))
  {
    hide OnGrid, MaximalRun, Chained, Near, Gap, Interval;
    if group == [] {
      NothingChained(ts, flagged, grid, minimum);
    } else {
      var n := |group| - 1;
      var before, r := group[..n], group[n];
      assert group == before + [r] && r in group;
      GroupChained(ts, flagged, grid, minimum, before);
      RunChained(ts, flagged, grid, minimum, r);
      if n > 0 {
        EndsOfBins(ts, before);
        assert Interval(r)[0] == r.s by { IntervalStart(r); }
        RunsNear(ts, flagged, grid, minimum, group[n - 1], r);
      } else {
        NoBins(ts);
      }
      ChainedMore(ts, flagged, grid, minimum, BinsOf(ts, before), Interval(r));
    }
  }

  lemma NothingChained(ts: seq<int>, flagged: seq<bool>, grid: int, minimum: int)
    requires |ts| == |flagged|
    ensures Chained(ts, flagged, grid, minimum, [])
  {
  }

  lemma NoBins(ts: seq<int>)
    ensures BinsOf(ts, []) == []
  {
  }

  lemma IntervalStart(r: Run)
    requires r.s < r.e
    ensures |Interval(r)| > 0 && Interval(r)[0] == r.s
  {
  }

  lemma RunsNear(ts: seq<int>, flagged: seq<bool>, grid: int, minimum: int, q: Run, r: Run)
    requires |ts| == |flagged| && OnGrid(ts, grid) && InRange(minimum)
    requires q.s < q.e <= r.s < r.e <= |ts| && Gap(ts, grid, q, r) < minimum
    ensures Near(ts, flagged, grid, minimum, q.e - 1, r.s)
  {
    GapIs(ts, grid, minimum, q.e - 1, r.s);
    hide OnGrid, EndAt, SatAdd, SatSub;
  }

  // ---- Episodes --------------------------------------------------------------------------------

  lemma EpisodeIs(ts: seq<int>, flagged: seq<bool>, grid: int, minimum: int, eps: seq<Episode>, runs: seq<Run>,
                  groups: seq<seq<Run>>, a: nat)
    requires |ts| == |flagged| && OnGrid(ts, grid) && InRange(minimum)
    requires IsEpisodes(ts, flagged, grid, minimum, eps, runs, groups) && a < |eps|
    ensures IsEpisode(ts, flagged, grid, minimum, eps[a])
  {
    hide IsEpisodes, OnGrid, Lasts, Ordered, MaximalRun, BinsOf, Gap, SatAdd, EndAt, Chained, Flatten;
    RunsOfGroup(ts, flagged, grid, minimum, eps, runs, groups, a);
    Edges(ts, grid, minimum, eps[a], groups[a]);
    EpisodeParts(ts, flagged, grid, minimum, eps, runs, groups);
    forall r | r in groups[a] ensures MaximalRun(ts, flagged, grid, r) {
      InFlatten(groups, r);
      RunIsMaximal(ts, flagged, grid, minimum, eps, runs, groups, r);
    }
    GroupChained(ts, flagged, grid, minimum, groups[a]);
    EndIs(ts, grid, eps[a].bins[|eps[a].bins| - 1]);
  }

  lemma ApartIs(start: int, end: int, minimum: int)
    requires InRange(start) && InRange(end) && InRange(minimum) && end <= start && SatSub(start, end) >= minimum
    ensures start - end >= (if minimum > 0 then minimum else 0)
  {
  }

  lemma WindowInRange(ts: seq<int>, flagged: seq<bool>, grid: int, minimum: int, ep: Episode)
    requires |ts| == |flagged| && OnGrid(ts, grid) && IsEpisode(ts, flagged, grid, minimum, ep)
    ensures InRange(ep.window.start) && InRange(ep.window.end)
  {
    hide Chained;
  }

  // The episodes of an alignment grid are those of its bins.
  lemma EpisodesShow(ts: seq<int>, flagged: seq<bool>, grid: int, minimum: int, eps: seq<Episode>, runs: seq<Run>,
                     groups: seq<seq<Run>>)
    requires |ts| == |flagged| && OnGrid(ts, grid) && InRange(minimum)
    requires IsEpisodes(ts, flagged, grid, minimum, eps, runs, groups)
    ensures Shows(ts, flagged, grid, minimum, eps)
  {
    hide IsEpisodes, OnGrid, IsEpisode, Wanted, InLongRun, SatSub;
    forall a: nat | a < |eps| ensures IsEpisode(ts, flagged, grid, minimum, eps[a]) {
      EpisodeIs(ts, flagged, grid, minimum, eps, runs, groups, a);
    }
    forall i: nat ensures Wanted(ts, flagged, grid, minimum, i) <==> InSome(eps, i) {
      WantedIff(ts, flagged, grid, minimum, i);
      BinInOneEpisode(ts, flagged, grid, minimum, eps, runs, groups, i);
    }
    forall a: nat, b: nat | a < b < |eps|
      ensures eps[b].window.start - eps[a].window.end >= (if minimum > 0 then minimum else 0)
    {
      EpisodesApart(ts, flagged, grid, minimum, eps, runs, groups, a, b);
      WindowInRange(ts, flagged, grid, minimum, eps[a]);
      WindowInRange(ts, flagged, grid, minimum, eps[b]);
      ApartIs(eps[b].window.start, eps[a].window.end, minimum);
    }
  }
}
