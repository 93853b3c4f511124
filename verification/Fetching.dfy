// Filling the gaps (connectors/plan.py with services/coverage.py and the planning and recording steps
// of services/fetches.py): the planned calls fetch each missing instant once, and recording them up to
// the settled end leaves exactly what is too young or failed.
module Fetching {
  import opened Int64
  import opened Timeconv
  import opened Coverage
  import opened Plan

  // ---- Planned calls against disjoint gaps ---------------------------------------------------------

  predicate DistinctPoints(gaps: seq<PointGaps>) {
    forall i, j :: 0 <= i < j < |gaps| ==> gaps[i].point != gaps[j].point
  }

  lemma {:induction false} ApartHoldOnce(ranges: seq<Range>, t: int)
    requires Apart(ranges)
    ensures HoldCount(ranges, t) == if InSome(ranges, t) then 1 else 0
  {
    if ranges == [] {
    } else {
      var n := |ranges| - 1;
      ApartHoldOnce(ranges[..n], t);
      assert ranges == ranges[..n] + [ranges[n]];
      InSomeMore(ranges[..n], ranges[n], t);
      if InSome(ranges[..n], t) {
        var k: nat :| k < n && Holds(ranges[..n][k], t);
        assert ranges[k].hi < ranges[n].lo;
      }
    }
  }

  lemma {:induction false} NoGapsOf(gaps: seq<PointGaps>, p: Point, t: int)
    requires forall k :: 0 <= k < |gaps| ==> gaps[k].point != p
    ensures GapCount(gaps, p, t) == 0
  {
    if gaps != [] { NoGapsOf(gaps[..|gaps| - 1], p, t); }
  }

  lemma {:induction false} GapsOf(gaps: seq<PointGaps>, i: nat, t: int)
    requires DistinctPoints(gaps) && i < |gaps|
    ensures GapCount(gaps, gaps[i].point, t) == HoldCount(gaps[i].ranges, t)
  {
    var n := |gaps| - 1;
    if i == n { NoGapsOf(gaps[..n], gaps[n].point, t); } else { GapsOf(gaps[..n], i, t); }
  }

  // Planning disjoint gaps: each missing instant of a point is in exactly one call that names it, and
  // no call names a point outside its gaps.
  lemma MissingFetchedOnce(gaps: seq<PointGaps>, calls: seq<Call>, i: nat, t: int)
    requires DistinctPoints(gaps) && i < |gaps| && Apart(gaps[i].ranges)
    requires CallCount(calls, gaps[i].point, t) == GapCount(gaps, gaps[i].point, t)
    ensures CallCount(calls, gaps[i].point, t) == if InSome(gaps[i].ranges, t) then 1 else 0
  {
    GapsOf(gaps, i, t);
    ApartHoldOnce(gaps[i].ranges, t);
  }

  lemma {:induction false} SomeCallNames(calls: seq<Call>, p: Point, t: int) returns (k: nat)
    requires CallCount(calls, p, t) > 0
    ensures k < |calls| && NamedBy(calls[k], p, t) > 0
  {
    var n := |calls| - 1;
    if NamedBy(calls[n], p, t) > 0 { k := n; } else { k := SomeCallNames(calls[..n], p, t); }
  }

  lemma {:induction false} CountsCalls(calls: seq<Call>, p: Point, t: int, k: nat, l: nat)
    requires k < |calls| && NamedBy(calls[k], p, t) > 0
    ensures CallCount(calls, p, t) > 0
    ensures k < l < |calls| && NamedBy(calls[l], p, t) > 0 ==> CallCount(calls, p, t) > 1
  {
    var n := |calls| - 1;
    if k < n { CountsCalls(calls[..n], p, t, k, l); }
  }

  // ---- Recording --------------------------------------------------------------------------------

  const SECOND_NS := 1_000_000_000

  const LAYER := "raw"

  // How a call ended: the clock in microseconds, the series the connector reported as failed, and the
  // rows written so far.
  datatype Outcome = Outcome(clock: int, failed: set<nat>, rows: map<nat, nat>)

  // now - settle, the instant before which data counts as settled.
  function Settled(o: Outcome, settle: int): int {
    ToNs(o.clock) - settle * SECOND_NS
  }

  // Where a span counts as covered: its end, but never past now - settle.
  function SettledEnd(end: int, o: Outcome, settle: int): int {
    Min(end, Settled(o, settle))
  }

  lemma SettledAligned(o: Outcome, settle: int)
    ensures Aligned(Settled(o, settle))
  {
    assert settle * SECOND_NS == ToNs(settle * 1_000_000);
    WholeIsAligned(o.clock - settle * 1_000_000);
  }

  // Instant t is older than the settle time, in seconds, when the call ended.
  predicate IsOld(o: Outcome, settle: int, t: int) {
    t < o.clock * 1000 - settle * 1_000_000_000
  }

  lemma OldIsSettled(o: Outcome, settle: int, t: int)
    ensures IsOld(o, settle, t) <==> t < Settled(o, settle)
  {
  }

  predicate SeriesIn(points: seq<Point>, series: nat) {
    exists p :: p in points && p.series == series
  }

  // Call c records that instant t of the series is cached: its span up to the settle time, when that
  // leaves anything, for the points that did not fail.
  ghost predicate Records(c: Call, o: Outcome, settle: int, series: nat, t: int) {
    var limit := o.clock * 1000 - settle * 1_000_000_000;
    var end := if limit < c.end then limit else c.end;
    c.start < end && Holds(Widened(c.start, end), t) && SeriesIn(c.points, series) && series !in o.failed
  }

  lemma SettledEndIs(end: int, o: Outcome, settle: int)
    ensures var limit := o.clock * 1000 - settle * 1_000_000_000;
            SettledEnd(end, o, settle) == if limit < end then limit else end
  {
  }

  ghost predicate Recorded(calls: seq<Call>, outcomes: seq<Outcome>, settle: int, series: nat, t: int)
    requires |calls| == |outcomes|
  {
    exists k: nat :: k < |calls| && Records(calls[k], outcomes[k], settle, series, t)
  }

  lemma RecordedMore(calls: seq<Call>, outcomes: seq<Outcome>, settle: int, n: nat, series: nat, t: int)
    requires |calls| == |outcomes| && n < |calls|
    ensures Recorded(calls[..n + 1], outcomes[..n + 1], settle, series, t) <==>
              || Recorded(calls[..n], outcomes[..n], settle, series, t)
              || Records(calls[n], outcomes[n], settle, series, t)
  {
    hide Records;
    var cs, ts := calls[..n + 1], outcomes[..n + 1];
    if Recorded(calls[..n], outcomes[..n], settle, series, t) {
      var k: nat :| k < n && Records(calls[..n][k], outcomes[..n][k], settle, series, t);
      assert Records(cs[k], ts[k], settle, series, t);
    }
    if Records(calls[n], outcomes[n], settle, series, t) { assert Records(cs[n], ts[n], settle, series, t); }
    if Recorded(cs, ts, settle, series, t) {
      var k: nat :| k < n + 1 && Records(cs[k], ts[k], settle, series, t);
      if k < n { assert Records(calls[..n][k], outcomes[..n][k], settle, series, t); }
    }
  }

  // The points of one call, without those that failed.
  method RecordCall(table: CoverageTable, c: Call, o: Outcome, settle: int)
    requires table.Valid()
    modifies table
    ensures table.Valid()
    ensures forall s, l, t :: Cached(table.rows, s, l, t) <==>
              Cached(old(table.rows), s, l, t) || (l == "raw" && Records(c, o, settle, s, t))
  {
    hide Cached, Holds, Widened, SettledEnd;
    var end := SettledEnd(c.end, o, settle);
    SettledEndIs(c.end, o, settle);
    if end > c.start {
      for i := 0 to |c.points|
        invariant table.Valid()
        invariant forall s, l, t :: Cached(table.rows, s, l, t) <==>
                    Cached(old(table.rows), s, l, t)
                    || (l == LAYER && Holds(Widened(c.start, end), t) && SeriesIn(c.points[..i], s) && s !in o.failed)
      {
        var p := c.points[i];
        OneMorePoint(c.points, i);
        if p.series in o.failed { continue; }
        table.Record(p.series, LAYER, c.start, end, if p.series in o.rows then o.rows[p.series] else 0, o.clock);
      }
      assert c.points[..|c.points|] == c.points;
    }
  }

  lemma OneMorePoint(points: seq<Point>, i: nat)
    requires i < |points|
    ensures forall s :: SeriesIn(points[..i + 1], s) <==> SeriesIn(points[..i], s) || s == points[i].series
  {
    assert points[..i + 1] == points[..i] + [points[i]];
  }

  // Every call of a plan, recorded as it ends.
  method RecordCalls(table: CoverageTable, calls: seq<Call>, outcomes: seq<Outcome>, settle: int)
    requires table.Valid() && |calls| == |outcomes|
    modifies table
    ensures table.Valid()
    ensures forall s, l, t :: Cached(table.rows, s, l, t) <==>
              Cached(old(table.rows), s, l, t) || (l == "raw" && Recorded(calls, outcomes, settle, s, t))
  {
    hide Cached, Records, Recorded;
    forall s, t ensures !Recorded(calls[..0], outcomes[..0], settle, s, t) { NothingRecorded(settle, s, t); }
    for n := 0 to |calls|
      invariant table.Valid()
      invariant forall s, l, t :: Cached(table.rows, s, l, t) <==>
                  Cached(old(table.rows), s, l, t)
                  || (l == "raw" && Recorded(calls[..n], outcomes[..n], settle, s, t))
    {
      RecordCall(table, calls[n], outcomes[n], settle);
      forall s, t
        ensures Recorded(calls[..n + 1], outcomes[..n + 1], settle, s, t) <==>
                  Recorded(calls[..n], outcomes[..n], settle, s, t) || Records(calls[n], outcomes[n], settle, s, t)
      {
        RecordedMore(calls, outcomes, settle, n, s, t);
      }
    }
    assert calls[..|calls|] == calls && outcomes[..|outcomes|] == outcomes;
  }

  lemma NothingRecorded(settle: int, series: nat, t: int)
    ensures !Recorded([], [], settle, series, t)
  {
  }

  // ---- What is left ---------------------------------------------------------------------------------

  // The plan of gaps in which point i is the only one of its series.
  ghost predicate Planned(gaps: seq<PointGaps>, calls: seq<Call>, i: nat) {
    && DistinctPoints(gaps) && i < |gaps| && Apart(gaps[i].ranges)
    && (forall k :: 0 <= k < |gaps| && gaps[k].point.series == gaps[i].point.series ==> k == i)
    && forall p, t :: CallCount(calls, p, t) == GapCount(gaps, p, t)
  }

  // The calls name point i at t, if at all, in one call; it is the only one to name its series there.
  lemma NamedOnce(gaps: seq<PointGaps>, calls: seq<Call>, i: nat, t: int)
    requires Planned(gaps, calls, i)
    ensures CallCount(calls, gaps[i].point, t) == if InSome(gaps[i].ranges, t) then 1 else 0
    ensures forall q, k :: 0 <= k < |calls| && NamedBy(calls[k], q, t) > 0 && q.series == gaps[i].point.series ==>
              q == gaps[i].point
  {
    MissingFetchedOnce(gaps, calls, i, t);
    forall q, k | 0 <= k < |calls| && NamedBy(calls[k], q, t) > 0 && q.series == gaps[i].point.series
      ensures q == gaps[i].point
    {
      CountsCalls(calls, q, t, k, 0);
      if forall j :: 0 <= j < |gaps| ==> gaps[j].point != q { NoGapsOf(gaps, q, t); }
    }
  }

  lemma Names(c: Call, p: Point, t: int)
    ensures NamedBy(c, p, t) > 0 <==> Holds(Range(c.start, c.end), t) && p in c.points
  {
    assert p in c.points <==> p in multiset(c.points);
  }

  // A settled instant of a call is recorded, and no instant at or after now - settle ever is.
  lemma RecordsSettled(c: Call, o: Outcome, settle: int, series: nat, t: int)
    ensures (Holds(Range(c.start, c.end), t) && IsOld(o, settle, t) && SeriesIn(c.points, series)
             && series !in o.failed) ==> Records(c, o, settle, series, t)
    ensures Records(c, o, settle, series, t) ==>
              IsOld(o, settle, t) && SeriesIn(c.points, series) && series !in o.failed
  {
    var end := SettledEnd(c.end, o, settle);
    SettledEndIs(c.end, o, settle);
    OldIsSettled(o, settle, t);
    WidenedIs(c.start, end);
    RoundingBracket(c.start);
    RoundingBracket(end);
    SettledAligned(o, settle);
    CeilingAtMost(end, Settled(o, settle));
    hide Floor, Ceiling, ToNs, Aligned, Settled, Widened;
  }

  // A missing instant that every call finds settled is recorded.
  lemma SettledIsRecorded(gaps: seq<PointGaps>, calls: seq<Call>, outcomes: seq<Outcome>, settle: int, i: nat, t: int)
    requires Planned(gaps, calls, i) && |outcomes| == |calls| && InSome(gaps[i].ranges, t)
    requires forall k :: 0 <= k < |calls| ==>
               IsOld(outcomes[k], settle, t) && gaps[i].point.series !in outcomes[k].failed
    ensures Recorded(calls, outcomes, settle, gaps[i].point.series, t)
  {
    NamedOnce(gaps, calls, i, t);
    hide Planned, CallCount, InSome, Records, NamedBy, Settled;
    var k := SomeCallNames(calls, gaps[i].point, t);
    Names(calls[k], gaps[i].point, t);
    RecordsSettled(calls[k], outcomes[k], settle, gaps[i].point.series, t);
  }

  // An instant that no call finds settled stays unrecorded.
  lemma YoungIsUnrecorded(calls: seq<Call>, outcomes: seq<Outcome>, settle: int, series: nat, t: int)
    requires |outcomes| == |calls|
    requires forall k :: 0 <= k < |calls| ==> !IsOld(outcomes[k], settle, t) || series in outcomes[k].failed
    ensures !Recorded(calls, outcomes, settle, series, t)
  {
    hide Records, Settled;
    forall k: nat | k < |calls| ensures !Records(calls[k], outcomes[k], settle, series, t) {
      RecordsSettled(calls[k], outcomes[k], settle, series, t);
    }
  }

  // ---- Which call decides -----------------------------------------------------------------------

  predicate AlignedRange(r: Range) {
    Aligned(r.lo) && Aligned(r.hi)
  }

  lemma {:induction false} CutAligned(lo: int, end: int, maxSpan: int)
    requires maxSpan >= 1 && Aligned(lo) && Aligned(end) && Aligned(maxSpan)
    ensures forall s :: s in Cut(lo, end, maxSpan) ==> AlignedRange(s)
    decreases end - lo
  {
    hide Aligned;
    if lo < end {
      AlignedSum(lo, maxSpan);
      CutAligned(Min(end, lo + maxSpan), end, maxSpan);
    }
  }

  ghost predicate AlignedGaps(gaps: seq<PointGaps>) {
    forall g: PointGaps, r: Range :: g in gaps && r in g.ranges ==> AlignedRange(r)
  }

  ghost predicate FromGaps(gaps: seq<PointGaps>, maxSpan: int, calls: seq<Call>) {
    maxSpan >= 1 && forall c :: c in calls ==> OfGap(gaps, maxSpan, Over(c))
  }

  // The calls of aligned gaps are aligned.
  lemma CallAligned(gaps: seq<PointGaps>, maxSpan: int, calls: seq<Call>, c: Call)
    requires AlignedGaps(gaps) && Aligned(maxSpan) && FromGaps(gaps, maxSpan, calls) && c in calls
    ensures Aligned(c.start) && Aligned(c.end)
  {
    hide Cut, Aligned;
    assert OfGap(gaps, maxSpan, Over(c));
    var g: PointGaps, r: Range :| g in gaps && r in g.ranges && Over(c) in Cut(r.lo, r.hi, maxSpan);
    assert AlignedRange(r);
    CutAligned(r.lo, r.hi, maxSpan);
    assert AlignedRange(Over(c));
  }

  lemma RecordsExactly(c: Call, o: Outcome, settle: int, series: nat, t: int)
    requires Aligned(c.start) && Aligned(c.end)
    ensures Records(c, o, settle, series, t) <==>
              Holds(Range(c.start, c.end), t) && t < Settled(o, settle) && SeriesIn(c.points, series)
              && series !in o.failed
  {
    SettledAligned(o, settle);
    var end := SettledEnd(c.end, o, settle);
    AlignedIsExact(c.start);
    AlignedIsExact(end);
    hide Floor, Ceiling, ToNs, Aligned, Settled;
  }

  lemma AlignedIsExact(ns: int)
    requires Aligned(ns)
    ensures ToNs(Floor(ns)) == ns && ToNs(Ceiling(ns)) == ns
  {
    RoundingBracket(ns);
  }

  lemma RecordedInGap(gaps: seq<PointGaps>, maxSpan: int, calls: seq<Call>, outcomes: seq<Outcome>, settle: int, i: nat,
                      t: int, l: nat)
    requires Planned(gaps, calls, i) && |outcomes| == |calls|
    requires AlignedGaps(gaps) && Aligned(maxSpan) && FromGaps(gaps, maxSpan, calls)
    requires l < |calls| && Records(calls[l], outcomes[l], settle, gaps[i].point.series, t)
    ensures InSome(gaps[i].ranges, t) && NamedBy(calls[l], gaps[i].point, t) > 0
    ensures t < Settled(outcomes[l], settle) && gaps[i].point.series !in outcomes[l].failed
  {
    NamedOnce(gaps, calls, i, t);
    CallAligned(gaps, maxSpan, calls, calls[l]);
    hide Planned, CallCount, InSome, Records, Aligned, NamedBy, AlignedGaps, FromGaps, Settled;
    var p := gaps[i].point;
    RecordsExactly(calls[l], outcomes[l], settle, p.series, t);
    var q :| q in calls[l].points && q.series == p.series;
    Names(calls[l], q, t);
    CountsCalls(calls, p, t, l, l);
  }

  // Of the gaps of a point, recording leaves exactly what its call found too young, the instants at or
  // after now - settle when it ended, and what it reported as failed.
  lemma YoungIsLeft(gaps: seq<PointGaps>, maxSpan: int, calls: seq<Call>, outcomes: seq<Outcome>, settle: int, i: nat,
                    t: int)
    returns (k: nat)
    requires Planned(gaps, calls, i) && |outcomes| == |calls|
    requires AlignedGaps(gaps) && Aligned(maxSpan) && FromGaps(gaps, maxSpan, calls)
    requires InSome(gaps[i].ranges, t)
    ensures k < |calls| && NamedBy(calls[k], gaps[i].point, t) > 0
    ensures Recorded(calls, outcomes, settle, gaps[i].point.series, t) <==>
              IsOld(outcomes[k], settle, t) && gaps[i].point.series !in outcomes[k].failed
  {
    NamedOnce(gaps, calls, i, t);
    var p := gaps[i].point;
    hide Planned, CallCount, InSome, Records, Aligned, NamedBy, AlignedGaps, FromGaps, Settled;
    k := SomeCallNames(calls, p, t);
    Names(calls[k], p, t);
    RecordsSettled(calls[k], outcomes[k], settle, p.series, t);
    if Recorded(calls, outcomes, settle, p.series, t) {
      var l: nat :| l < |calls| && Records(calls[l], outcomes[l], settle, p.series, t);
      RecordedInGap(gaps, maxSpan, calls, outcomes, settle, i, t, l);
      CountsCalls(calls, p, t, l, k);
      CountsCalls(calls, p, t, k, l);
    }
  }

  // Nothing outside the gaps is recorded.
  lemma OnlyGapsRecorded(gaps: seq<PointGaps>, maxSpan: int, calls: seq<Call>, outcomes: seq<Outcome>, settle: int,
                         i: nat, t: int)
    requires Planned(gaps, calls, i) && |outcomes| == |calls|
    requires AlignedGaps(gaps) && Aligned(maxSpan) && FromGaps(gaps, maxSpan, calls)
    requires Recorded(calls, outcomes, settle, gaps[i].point.series, t)
    ensures InSome(gaps[i].ranges, t)
  {
    hide Records, InSome, CallCount, DistinctPoints, AlignedGaps, FromGaps, Aligned;
    var l: nat :| l < |calls| && Records(calls[l], outcomes[l], settle, gaps[i].point.series, t);
    RecordedInGap(gaps, maxSpan, calls, outcomes, settle, i, t, l);
  }

  // ---- One fetch -----------------------------------------------------------------------------------

  // Instant t of the window [start, end), in microseconds, is not cached.
  ghost predicate Missing(rows: seq<CoverageRow>, start: int, end: int, series: nat, t: int) {
    start * 1000 <= t < end * 1000 && !Cached(rows, series, "raw", t)
  }

  // What a fetch asks for a point: the missing instants of the window, or all of it.
  ghost predicate Asks(rows: seq<CoverageRow>, start: int, end: int, force: bool, g: PointGaps) {
    && Apart(g.ranges) && (forall r :: r in g.ranges ==> AlignedRange(r))
    && if force then g.ranges == [Range(ToNs(start), ToNs(end))]
       else forall t :: InSome(g.ranges, t) <==> Missing(rows, start, end, g.point.series, t)
  }

  predicate DistinctSeries(points: seq<Point>) {
    forall i, j :: 0 <= i < j < |points| ==> points[i].series != points[j].series
  }

  // gaps holds the points among the first n that ask for something, the k-th one being points[idx[k]].
  ghost predicate GapsOfPoints(rows: seq<CoverageRow>, points: seq<Point>, n: nat, start: int, end: int, force: bool,
                               gaps: seq<PointGaps>, idx: seq<nat>)
  {
    && n <= |points| && |idx| == |gaps|
    && (forall k :: 0 <= k < |idx| ==>
             idx[k] < n && gaps[k].point == points[idx[k]] && Asks(rows, start, end, force, gaps[k]))
    && (forall k, l :: 0 <= k < l < |idx| ==> idx[k] < idx[l])
    && (forall i: nat :: i < n ==> i in idx || AllCached(rows, start, end, points[i].series))
  }

  ghost predicate AllCached(rows: seq<CoverageRow>, start: int, end: int, series: nat) {
    forall t :: !Missing(rows, start, end, series, t)
  }

  lemma OneMoreGap(rows: seq<CoverageRow>, points: seq<Point>, n: nat, start: int, end: int, force: bool,
                   gaps: seq<PointGaps>, idx: seq<nat>, g: PointGaps)
    requires n < |points| && GapsOfPoints(rows, points, n, start, end, force, gaps, idx)
    requires g.point == points[n] && Asks(rows, start, end, force, g)
    ensures GapsOfPoints(rows, points, n + 1, start, end, force, gaps + [g], idx + [n])
  {
    hide Asks, AllCached;
    var more := idx + [n];
    forall i: nat | i < n + 1 ensures i in more || AllCached(rows, start, end, points[i].series) {
      if i == n { assert more[|idx|] == i; } else if i in idx { assert i in more; }
    }
  }

  lemma NoMoreGap(rows: seq<CoverageRow>, points: seq<Point>, n: nat, start: int, end: int, force: bool,
                  gaps: seq<PointGaps>, idx: seq<nat>)
    requires n < |points| && GapsOfPoints(rows, points, n, start, end, force, gaps, idx)
    requires AllCached(rows, start, end, points[n].series)
    ensures GapsOfPoints(rows, points, n + 1, start, end, force, gaps, idx)
  {
    hide Asks, AllCached;
  }

  // Per point the parts of the window that the table lacks, or all of it.
  method CollectGaps(table: CoverageTable, points: seq<Point>, start: int, end: int, force: bool)
    returns (gaps: seq<PointGaps>, ghost idx: seq<nat>)
    ensures GapsOfPoints(table.rows, points, |points|, start, end, force, gaps, idx)
    ensures !force ==> forall g :: g in gaps ==> g.ranges != [] && g.ranges[0].lo < g.ranges[0].hi
  {
    hide GapsOfPoints, Asks, Missing, AllCached;
    gaps, idx := [], [];
    NoGaps(table.rows, points, start, end, force);
    for n := 0 to |points|
      invariant GapsOfPoints(table.rows, points, n, start, end, force, gaps, idx)
      invariant !force ==> forall g :: g in gaps ==> g.ranges != [] && g.ranges[0].lo < g.ranges[0].hi
    {
      if force {
        var g := PointGaps(points[n], [Range(ToNs(start), ToNs(end))]);
        AsksAll(table.rows, start, end, g);
        OneMoreGap(table.rows, points, n, start, end, force, gaps, idx, g);
        gaps, idx := gaps + [g], idx + [n];
        continue;
      }
      var covered := table.CoveredRanges(points[n].series, LAYER);
      var missing := MissingRanges(covered, ToNs(start), ToNs(end));
      AsksMissing(table.rows, start, end, covered, PointGaps(points[n], missing));
      if missing != [] {
        OneMoreGap(table.rows, points, n, start, end, force, gaps, idx, PointGaps(points[n], missing));
        gaps, idx := gaps + [PointGaps(points[n], missing)], idx + [n];
      } else {
        NothingAsked(table.rows, start, end, PointGaps(points[n], missing));
        NoMoreGap(table.rows, points, n, start, end, force, gaps, idx);
      }
    }
  }

  lemma NoGaps(rows: seq<CoverageRow>, points: seq<Point>, start: int, end: int, force: bool)
    ensures GapsOfPoints(rows, points, 0, start, end, force, [], [])
  {
  }

  lemma AsksAll(rows: seq<CoverageRow>, start: int, end: int, g: PointGaps)
    requires g.ranges == [Range(ToNs(start), ToNs(end))]
    ensures Asks(rows, start, end, true, g)
  {
    WholeIsAligned(start);
    WholeIsAligned(end);
  }

  lemma AsksMissing(rows: seq<CoverageRow>, start: int, end: int, covered: seq<Range>, g: PointGaps)
    requires IsMissing(covered, ToNs(start), ToNs(end), g.ranges)
    requires forall t :: InSome(covered, t) <==> Cached(rows, g.point.series, LAYER, t)
    requires forall r :: r in covered ==> AlignedRange(r)
    ensures Asks(rows, start, end, false, g)
  {
    WholeIsAligned(start);
    WholeIsAligned(end);
    MissingApart(covered, ToNs(start), ToNs(end), g.ranges);
    hide Aligned, IsMissing, Cached, InSome;
    forall r | r in g.ranges ensures AlignedRange(r) {
      var i: nat :| i < |g.ranges| && g.ranges[i] == r;
      GapsAligned(covered, ToNs(start), ToNs(end), g.ranges, i);
    }
    forall t ensures InSome(g.ranges, t) <==> Missing(rows, start, end, g.point.series, t) {
      MissingAt(covered, ToNs(start), ToNs(end), g.ranges, t);
    }
  }

  lemma NothingAsked(rows: seq<CoverageRow>, start: int, end: int, g: PointGaps)
    requires Asks(rows, start, end, false, g) && g.ranges == []
    ensures AllCached(rows, start, end, g.point.series)
  {
    forall t ensures !Missing(rows, start, end, g.point.series, t) { assert !InSome(g.ranges, t); }
  }

  lemma GapIsPlanned(rows: seq<CoverageRow>, points: seq<Point>, start: int, end: int, force: bool,
                     gaps: seq<PointGaps>, idx: seq<nat>, calls: seq<Call>, k: nat)
    requires DistinctSeries(points) && GapsOfPoints(rows, points, |points|, start, end, force, gaps, idx)
    requires (forall p, t :: CallCount(calls, p, t) == GapCount(gaps, p, t)) && k < |gaps|
    ensures Planned(gaps, calls, k)
  {
    assert Asks(rows, start, end, force, gaps[k]);
    forall i, j | 0 <= i < j < |gaps| ensures gaps[i].point.series != gaps[j].point.series {
      assert points[idx[i]].series != points[idx[j]].series;
    }
    hide Asks, AllCached, CallCount, GapCount;
  }

  // A missing instant is in a gap of its point.
  lemma MissingIsAsked(rows: seq<CoverageRow>, points: seq<Point>, start: int, end: int, force: bool,
                       gaps: seq<PointGaps>, idx: seq<nat>, i: nat, t: int) returns (k: nat)
    requires GapsOfPoints(rows, points, |points|, start, end, force, gaps, idx)
    requires i < |points| && Missing(rows, start, end, points[i].series, t)
    ensures k < |gaps| && gaps[k].point == points[i] && InSome(gaps[k].ranges, t)
  {
    assert !AllCached(rows, start, end, points[i].series);
    k :| 0 <= k < |idx| && idx[k] == i;
    assert Asks(rows, start, end, force, gaps[k]);
    if force { InSomeMember(gaps[k].ranges, Range(ToNs(start), ToNs(end)), t); }
  }

  // Every call ended with t settled and the series not failed.
  predicate AllSettle(outcomes: seq<Outcome>, settle: int, series: nat, t: int) {
    forall k :: 0 <= k < |outcomes| ==> IsOld(outcomes[k], settle, t) && series !in outcomes[k].failed
  }

  predicate NoneSettles(outcomes: seq<Outcome>, settle: int, series: nat, t: int) {
    forall k :: 0 <= k < |outcomes| ==> !IsOld(outcomes[k], settle, t) || series in outcomes[k].failed
  }

  // What one fetch leaves of the missing instants of the points.
  ghost predicate Leaves(before: seq<CoverageRow>, after: seq<CoverageRow>, points: seq<Point>, start: int, end: int,
                         outcomes: seq<Outcome>, settle: int, i: nat, t: int)
    requires i < |points|
  {
    var s := points[i].series;
    && (Missing(after, start, end, s, t) ==> Missing(before, start, end, s, t))
    && (Missing(before, start, end, s, t) && AllSettle(outcomes, settle, s, t) ==> !Missing(after, start, end, s, t))
    && (Missing(before, start, end, s, t) && NoneSettles(outcomes, settle, s, t) ==> Missing(after, start, end, s, t))
  }

  lemma FetchLeaves(before: seq<CoverageRow>, after: seq<CoverageRow>, points: seq<Point>, start: int, end: int,
                    force: bool, gaps: seq<PointGaps>, idx: seq<nat>, calls: seq<Call>, outcomes: seq<Outcome>,
                    settle: int, i: nat, t: int)
    requires DistinctSeries(points) && GapsOfPoints(before, points, |points|, start, end, force, gaps, idx)
    requires (forall p, u :: CallCount(calls, p, u) == GapCount(gaps, p, u)) && |outcomes| == |calls|
    requires i < |points|
    requires Cached(after, points[i].series, "raw", t) <==>
               Cached(before, points[i].series, "raw", t) || Recorded(calls, outcomes, settle, points[i].series, t)
    ensures Leaves(before, after, points, start, end, outcomes, settle, i, t)
  {
    hide GapsOfPoints, DistinctSeries, Cached, Recorded, InSome, Planned, Settled, CallCount, GapCount;
    var s := points[i].series;
    if Missing(before, start, end, s, t) && AllSettle(outcomes, settle, s, t) {
      var k := MissingIsAsked(before, points, start, end, force, gaps, idx, i, t);
      GapIsPlanned(before, points, start, end, force, gaps, idx, calls, k);
      SettledIsRecorded(gaps, calls, outcomes, settle, k, t);
    }
    if Missing(before, start, end, s, t) && NoneSettles(outcomes, settle, s, t) {
      YoungIsUnrecorded(calls, outcomes, settle, s, t);
    }
  }

  // The gaps of the points that still miss something.
  ghost predicate AreGaps(rows: seq<CoverageRow>, points: seq<Point>, start: int, end: int, gaps: seq<PointGaps>) {
    exists idx :: GapsOfPoints(rows, points, |points|, start, end, false, gaps, idx)
  }

  // Gather the gaps, plan their calls, record each call as it ended, and ask for the gaps again. Nothing
  // is left when every call ended with the whole window settled and no point failed.
  method Fetch(table: CoverageTable, points: seq<Point>, start: int, end: int, force: bool, limits: Limits,
               ending: nat -> Outcome, settle: int)
    returns (calls: seq<Call>, outcomes: seq<Outcome>, left: seq<PointGaps>)
    requires table.Valid() && limits.Valid() && DistinctSeries(points)
    modifies table
    ensures table.Valid() && |outcomes| == |calls| && forall k :: 0 <= k < |calls| ==> outcomes[k] == ending(k)
    ensures forall i, t :: 0 <= i < |points| ==>
              Leaves(old(table.rows), table.rows, points, start, end, outcomes, settle, i, t)
    ensures AreGaps(table.rows, points, start, end, left)
    ensures (forall k :: 0 <= k < |outcomes| ==>
               IsOld(outcomes[k], settle, end * 1000 - 1) && outcomes[k].failed == {}) ==> left == []
  {
    hide GapsOfPoints, DistinctSeries, Cached, Recorded, CallCount, GapCount, Leaves, Settled;
    ghost var before := table.rows;
    var gaps, idx := CollectGaps(table, points, start, end, force);
    calls := PlanCalls(gaps, limits);
    outcomes := seq(|calls|, k requires 0 <= k < |calls| => ending(k));
    RecordCalls(table, calls, outcomes, settle);
    forall i, t | 0 <= i < |points|
      ensures Leaves(before, table.rows, points, start, end, outcomes, settle, i, t)
    {
      FetchLeaves(before, table.rows, points, start, end, force, gaps, idx, calls, outcomes, settle, i, t);
    }
    ghost var at;
    left, at := CollectGaps(table, points, start, end, false);
    if forall k :: 0 <= k < |outcomes| ==> IsOld(outcomes[k], settle, end * 1000 - 1) && outcomes[k].failed == {} {
      NothingLeft(before, table.rows, points, start, end, outcomes, settle, left, at);
    }
  }

  // A point with a gap misses some instant.
  lemma GapMisses(rows: seq<CoverageRow>, points: seq<Point>, start: int, end: int, left: seq<PointGaps>, at: seq<nat>)
    returns (i: nat, t: int)
    requires GapsOfPoints(rows, points, |points|, start, end, false, left, at) && left != [] && left[0].ranges != []
    requires left[0].ranges[0].lo < left[0].ranges[0].hi
    ensures i < |points| && Missing(rows, start, end, points[i].series, t)
  {
    i, t := at[0], left[0].ranges[0].lo;
    assert Asks(rows, start, end, false, left[0]);
    InSomeMember(left[0].ranges, left[0].ranges[0], t);
  }

  lemma NothingLeft(before: seq<CoverageRow>, after: seq<CoverageRow>, points: seq<Point>, start: int, end: int,
                    outcomes: seq<Outcome>, settle: int, left: seq<PointGaps>, at: seq<nat>)
    requires GapsOfPoints(after, points, |points|, start, end, false, left, at)
    requires forall k :: 0 <= k < |left| ==> left[k].ranges != [] && left[k].ranges[0].lo < left[k].ranges[0].hi
    requires forall i, t :: 0 <= i < |points| ==> Leaves(before, after, points, start, end, outcomes, settle, i, t)
    requires forall k :: 0 <= k < |outcomes| ==>
               IsOld(outcomes[k], settle, end * 1000 - 1) && outcomes[k].failed == {}
    ensures left == []
  {
    hide GapsOfPoints, Settled, Leaves, AllSettle;
    if left != [] {
      var i, t := GapMisses(after, points, start, end, left, at);
      assert t < ToNs(end);
      WindowSettles(outcomes, settle, end, points[i].series, t);
      SettledIsGone(before, after, points, start, end, outcomes, settle, i, t);
    }
  }

  lemma WindowSettles(outcomes: seq<Outcome>, settle: int, end: int, series: nat, t: int)
    requires t < ToNs(end)
    requires forall k :: 0 <= k < |outcomes| ==>
               IsOld(outcomes[k], settle, end * 1000 - 1) && outcomes[k].failed == {}
    ensures AllSettle(outcomes, settle, series, t)
  {
  }

  lemma SettledIsGone(before: seq<CoverageRow>, after: seq<CoverageRow>, points: seq<Point>, start: int, end: int,
                      outcomes: seq<Outcome>, settle: int, i: nat, t: int)
    requires i < |points| && Leaves(before, after, points, start, end, outcomes, settle, i, t)
    requires AllSettle(outcomes, settle, points[i].series, t)
    ensures !Missing(after, start, end, points[i].series, t)
  {
  }
}
