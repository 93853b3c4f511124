// Laws of scoring: more findings never raise a score, only the set of findings matters, and an
// impact is bounded by its findings' own impacts.
module ScoreLaws {
  import opened Arithmetic
  import opened Int64
  import opened Sweep
  import opened Score

  // Every finding of a is one of b.
  ghost predicate Within(a: seq<Finding>, b: seq<Finding>) {
    forall f :: f in a ==> f in b
  }

  ghost predicate NonNegative(fs: seq<Finding>) {
    forall f :: f in fs ==> f.impact >= 0.0
  }

  // ---- What the spans and points of a dimension are, as sets ------------------------------------

  lemma {:induction false} SpansAre(fs: seq<Finding>, series: string, d: Dimension, w: Window, c: Interval)
    ensures c in Spans(fs, series, d, w) <==> exists f :: f in fs && AsSpan(f, series, d, w) && c == SpanInterval(f, w)
  {
    hide AsSpan, SpanInterval;
    if fs != [] {
      var before, last := fs[..|fs| - 1], fs[|fs| - 1];
      SpansAre(before, series, d, w, c);
      assert fs == before + [last];
    }
  }

  // A point finding with the bounds k.
  ghost predicate PointAt(f: Finding, series: string, d: Dimension, w: Window, k: (int, int)) {
    AsPoint(f, series, d, w) && Bounds(f, w) == k
  }

  // x is the largest impact of the points with those bounds.
  ghost predicate IsLargest(fs: seq<Finding>, series: string, d: Dimension, w: Window, k: (int, int), x: real) {
    && (exists f :: f in fs && PointAt(f, series, d, w, k) && f.impact == x)
    && forall f :: f in fs && PointAt(f, series, d, w, k) ==> f.impact <= x
  }

  // Slot k exists when some point has those bounds, and then holds their largest impact.
  ghost predicate SlotIs(m: map<(int, int), real>, fs: seq<Finding>, series: string, d: Dimension, w: Window,
                         k: (int, int))
  {
    && (k in m <==> exists f :: f in fs && PointAt(f, series, d, w, k))
    && (k in m ==> IsLargest(fs, series, d, w, k, m[k]))
  }

  lemma {:induction false} PointsAre(fs: seq<Finding>, series: string, d: Dimension, w: Window, k: (int, int))
    requires NonNegative(fs)
    ensures SlotIs(Points(fs, series, d, w), fs, series, d, w, k)
  {
    hide AsPoint, Bounds, Raised, IsLargest, PointAt, SlotIs;
    if fs == [] {
      NoSlot(series, d, w, k);
    } else {
      var before, last := fs[..|fs| - 1], fs[|fs| - 1];
      assert fs == before + [last] && last in fs;
      PointsAre(before, series, d, w, k);
      SlotStep(Points(before, series, d, w), before, last, series, d, w, k);
    }
  }

  lemma NoSlot(series: string, d: Dimension, w: Window, k: (int, int))
    ensures SlotIs(map[], [], series, d, w, k)
  {
  }

  lemma SlotStep(m: map<(int, int), real>, before: seq<Finding>, last: Finding,
                 series: string, d: Dimension, w: Window, k: (int, int))
    requires last.impact >= 0.0 && SlotIs(m, before, series, d, w, k)
    ensures SlotIs(if AsPoint(last, series, d, w) then Raised(m, Bounds(last, w), last.impact) else m,
                   before + [last], series, d, w, k)
  {
    hide AsPoint, Bounds, SlotIs;
    if PointAt(last, series, d, w, k) {
      SlotRaised(m, before, last, series, d, w, k);
    } else {
      SlotKept(m, if AsPoint(last, series, d, w) then Raised(m, Bounds(last, w), last.impact) else m,
               before, last, series, d, w, k);
    }
  }

  lemma SlotKept(m: map<(int, int), real>, n: map<(int, int), real>, before: seq<Finding>, last: Finding,
                 series: string, d: Dimension, w: Window, k: (int, int))
    requires SlotIs(m, before, series, d, w, k) && !PointAt(last, series, d, w, k)
    requires (k in n <==> k in m) && (k in m ==> n[k] == m[k])
    ensures SlotIs(n, before + [last], series, d, w, k)
  {
    hide PointAt;
    forall f | f in before + [last] && PointAt(f, series, d, w, k) ensures f in before {
    }
  }

  lemma SlotRaised(m: map<(int, int), real>, before: seq<Finding>, last: Finding,
                   series: string, d: Dimension, w: Window, k: (int, int))
    requires last.impact >= 0.0 && SlotIs(m, before, series, d, w, k) && PointAt(last, series, d, w, k)
    ensures SlotIs(Raised(m, k, last.impact), before + [last], series, d, w, k)
  {
    hide PointAt;
    var fs, n := before + [last], Raised(m, k, last.impact);
    assert last in fs && forall f :: f in before ==> f in fs;
    forall f | f in fs && PointAt(f, series, d, w, k) ensures f.impact <= n[k] {
      if f in before { assert k in m && f.impact <= m[k]; }
    }
  }

  // ---- Monotonicity ----------------------------------------------------------------------

  lemma {:induction false} ClippedAre(intervals: seq<Interval>, start: int, end: int, c: Interval)
    ensures c in Clipped(intervals, start, end) <==> exists i :: i in intervals && c == Clip(i, start, end) && Counts(c)
  {
    hide Clip, Counts;
    if intervals != [] {
      ClippedAre(intervals[1..], start, end, c);
      assert intervals == [intervals[0]] + intervals[1..];
    }
  }

  lemma MoreIntervalsMoreMax(a: seq<Interval>, b: seq<Interval>, x: int)
    requires forall c :: c in a ==> c in b
    ensures MaxKeyAt(a, x) <= MaxKeyAt(b, x)
  {
    hide Key, MaxKeyAt;
    MaxKeyAtIsMax(a, x);
    MaxKeyAtIsMax(b, x);
  }

  lemma {:induction false} MoreIntervalsMoreArea(a: seq<Interval>, b: seq<Interval>, lo: int, hi: int)
    requires forall c :: c in a ==> c in b
    ensures Area(a, lo, hi) <= Area(b, lo, hi)
    decreases hi - lo
  {
    if lo < hi {
      MoreIntervalsMoreArea(a, b, lo, hi - 1);
      MoreIntervalsMoreMax(a, b, hi - 1);
    }
  }

  lemma MoreIntervalsMoreCoverage(a: seq<Interval>, b: seq<Interval>, start: int, end: int)
    requires forall i :: i in a ==> i in b
    ensures Coverage(a, start, end) <= Coverage(b, start, end)
  {
    hide Area, Clipped;
    forall c | c in Clipped(a, start, end) ensures c in Clipped(b, start, end) {
      ClippedAre(a, start, end, c);
      ClippedAre(b, start, end, c);
    }
    MoreIntervalsMoreArea(Clipped(a, start, end), Clipped(b, start, end), start, end);
    var p, q := Area(Clipped(a, start, end), start, end) as real, Area(Clipped(b, start, end), start, end) as real;
    var s := Max(end - start, 1) as real;
    QuotientOrder(p, q, MILLION);
    QuotientOrder(p / MILLION, q / MILLION, s);
  }

  lemma {:induction false} MoreValuesMoreSum(a: map<(int, int), real>, b: map<(int, int), real>)
    requires forall k :: k in a ==> k in b && a[k] <= b[k]
    requires forall k :: k in b ==> b[k] >= 0.0
    ensures 0.0 <= SumValues(b) && SumValues(a) <= SumValues(b)
    decreases |b|
  {
    if b == map[] {
      assert a == map[];
    } else {
      var k :| k in b;
      SumValuesTake(b, k);
      if k in a {
        SumValuesTake(a, k);
        MoreValuesMoreSum(a - {k}, b - {k});
      } else {
        MoreValuesMoreSum(a, b - {k});
      }
    }
  }

  lemma MoreFindingsMorePoints(a: seq<Finding>, b: seq<Finding>, series: string, d: Dimension, w: Window)
    requires Within(a, b) && NonNegative(b)
    ensures SumValues(Points(a, series, d, w)) <= SumValues(Points(b, series, d, w))
  {
    hide AsPoint, Bounds, Points;
    var m, n := Points(a, series, d, w), Points(b, series, d, w);
    forall k | k in m ensures k in n && m[k] <= n[k] {
      PointsAre(a, series, d, w, k);
      PointsAre(b, series, d, w, k);
    }
    forall k | k in n ensures n[k] >= 0.0 {
      PointsAre(b, series, d, w, k);
    }
    MoreValuesMoreSum(m, n);
  }

  lemma MoreFindingsMoreImpact(a: seq<Finding>, b: seq<Finding>, series: string, d: Dimension, w: Window)
    requires Within(a, b) && NonNegative(b)
    ensures Impact(a, series, d, w) <= Impact(b, series, d, w)
  {
    hide Spans, AsSpan, SpanInterval, Points, Coverage;
    forall c | c in Spans(a, series, d, w) ensures c in Spans(b, series, d, w) {
      SpansAre(a, series, d, w, c);
      SpansAre(b, series, d, w, c);
    }
    MoreIntervalsMoreCoverage(Spans(a, series, d, w), Spans(b, series, d, w), w.start, w.end);
    MoreFindingsMorePoints(a, b, series, d, w);
  }

  lemma RoundOrder(x: real, y: real)
    requires x <= y
    ensures Round(x) <= Round(y)
  {
    FloorOrder(x + 0.5, y + 0.5);
    FloorOrder(0.5 - y, 0.5 - x);
  }

  lemma RoundMonotone(x: real, y: real)
    requires x <= y
    ensures Round1(x) <= Round1(y)
  {
    hide Round;
    RoundOrder(x * 10.0, y * 10.0);
    QuotientOrder(Round(x * 10.0) as real, Round(y * 10.0) as real, 10.0);
  }

  lemma MoreImpactLessScore(x: real, y: real)
    requires x <= y
    ensures DimensionScore(y) <= DimensionScore(x)
  {
    hide Round1;
    RoundMonotone(100.0 * (1.0 - Clamp01(y)), 100.0 * (1.0 - Clamp01(x)));
  }

  lemma {:induction false} LessScoresLessSum(weights: map<Dimension, real>, m: map<Dimension, real>,
                                             n: map<Dimension, real>, ds: seq<Dimension>)
    requires forall d :: d in weights ==> weights[d] >= 0.0
    requires forall d :: d in ds ==> d in m && d in n && m[d] <= n[d]
    ensures WeightedScores(weights, m, ds) <= WeightedScores(weights, n, ds)
  {
    hide Times;
    if ds != [] {
      var d := ds[|ds| - 1];
      assert d in ds;
      LessScoresLessSum(weights, m, n, ds[..|ds| - 1]);
      ProductLe(WeightOf(weights, d), m[d], n[d]);
    }
  }

  lemma ProductLe(w: real, x: real, y: real)
    requires w >= 0.0 && x <= y
    ensures Times(w, x) <= Times(w, y)
  {
  }

  // More findings never raise a dimension's score or the overall score.
  lemma MoreFindingsNeverRaiseScores(weights: map<Dimension, real>, a: seq<Finding>,
                                     b: seq<Finding>, series: string, w: Window)
    requires Within(a, b) && NonNegative(b) && forall d :: d in weights ==> weights[d] >= 0.0
    ensures forall d :: d in ALL ==> Scores(b, series, w)[d] <= Scores(a, series, w)[d]
    ensures ScoreOf(weights, b, series, w).overall <= ScoreOf(weights, a, series, w).overall
  {
    hide Impact, DimensionScore, Round1, WeightedScores, WeightSum;
    var m, n := Scores(a, series, w), Scores(b, series, w);
    forall d | d in ALL ensures n[d] <= m[d] {
      MoreFindingsMoreImpact(a, b, series, d, w);
      MoreImpactLessScore(Impact(a, series, d, w), Impact(b, series, d, w));
    }
    LessScoresLessSum(weights, n, m, ALL);
    var den := WeightSum(weights, ALL);
    if den > 0.0 {
      QuotientOrder(WeightedScores(weights, n, ALL), WeightedScores(weights, m, ALL), den);
      RoundMonotone(WeightedScores(weights, n, ALL) / den, WeightedScores(weights, m, ALL) / den);
    }
  }

  // Only the set of findings matters: permuting them or repeating one changes no score.
  lemma SameFindingsSameScores(weights: map<Dimension, real>, a: seq<Finding>,
                               b: seq<Finding>, series: string, w: Window)
    requires Within(a, b) && Within(b, a) && NonNegative(a)
    ensures Scores(a, series, w) == Scores(b, series, w)
    ensures ScoreOf(weights, a, series, w).overall == ScoreOf(weights, b, series, w).overall
  {
    hide Impact, DimensionScore, Overall;
    forall d | d in ALL ensures Impact(a, series, d, w) == Impact(b, series, d, w) {
      MoreFindingsMoreImpact(a, b, series, d, w);
      MoreFindingsMoreImpact(b, a, series, d, w);
    }
    assert Scores(a, series, w) == Scores(b, series, w);
  }

  // ---- Bounds on an impact --------------------------------------------------------------------

  // The impacts of the scored findings of a dimension, added up.
  ghost function ImpactSum(fs: seq<Finding>, series: string, d: Dimension, w: Window): real {
    if fs == [] then 0.0
    else
      var f := fs[|fs| - 1];
      ImpactSum(fs[..|fs| - 1], series, d, w) + (if Scored(f, series, d, w) then f.impact else 0.0)
  }

  // Weight times the length inside [a, b), added up over the intervals.
  ghost function MassIn(cs: seq<Interval>, a: int, b: int): real {
    if cs == [] then 0.0 else cs[0].w * LengthIn(cs[0], a, b) as real + MassIn(cs[1..], a, b)
  }

  function LengthIn(c: Interval, a: int, b: int): int {
    Max(0, Min(c.e, b) - Max(c.s, a))
  }

  lemma LengthInGrows(c: Interval, a: int, b: int)
    requires a < b
    ensures LengthIn(c, a, b) == LengthIn(c, a, b - 1) + (if CoversAt(c, b - 1) then 1 else 0)
  {
  }

  // The weights covering instant x, added up.
  ghost function WeightAt(cs: seq<Interval>, x: int): real {
    if cs == [] then 0.0 else (if CoversAt(cs[0], x) then cs[0].w else 0.0) + WeightAt(cs[1..], x)
  }

  lemma {:induction false} MassInGrows(cs: seq<Interval>, a: int, b: int)
    requires a < b
    ensures MassIn(cs, a, b) == MassIn(cs, a, b - 1) + WeightAt(cs, b - 1)
  {
    hide LengthIn, CoversAt;
    if cs != [] {
      MassInGrows(cs[1..], a, b);
      LengthInGrows(cs[0], a, b);
      OneMoreInstant(cs[0].w, LengthIn(cs[0], a, b - 1), CoversAt(cs[0], b - 1));
    }
  }

  lemma OneMoreInstant(w: real, n: int, covered: bool)
    ensures w * (n + (if covered then 1 else 0)) as real == w * n as real + (if covered then w else 0.0)
  {
    var l := n as real;
    if covered {
      assert (n + 1) as real == l + 1.0;
      assert w * (l + 1.0) == w * l + w;
    }
  }

  lemma {:induction false} NoMass(cs: seq<Interval>, a: int, b: int)
    requires a >= b
    ensures MassIn(cs, a, b) == 0.0
  {
    if cs != [] { NoMass(cs[1..], a, b); }
  }

  lemma {:induction false} MaxAtMostSum(cs: seq<Interval>, x: int)
    requires forall c :: c in cs ==> c.w >= 0.0
    ensures MaxWeightAt(cs, x) <= WeightAt(cs, x)
    ensures |cs| <= 1 ==> MaxWeightAt(cs, x) == WeightAt(cs, x)
  {
    if cs != [] {
      assert cs == [cs[0]] + cs[1..] && cs[0] in cs;
      MaxAtMostSum(cs[1..], x);
    }
  }

  // The integral of the maximum is at most the sum of the integrals, and equal for one interval.
  lemma {:induction false} AreaAtMostMass(cs: seq<Interval>, a: int, b: int)
    requires forall c :: c in cs ==> c.w >= 0.0
    ensures WeightArea(cs, a, b) <= MassIn(cs, a, b)
    ensures |cs| <= 1 ==> WeightArea(cs, a, b) == MassIn(cs, a, b)
    decreases b - a
  {
    hide MaxWeightAt, WeightAt;
    if a < b {
      AreaAtMostMass(cs, a, b - 1);
      MassInGrows(cs, a, b);
      MaxAtMostSum(cs, b - 1);
    } else {
      NoMass(cs, a, b);
    }
  }

  lemma {:induction false} MassConcat(p: seq<Interval>, q: seq<Interval>, a: int, b: int)
    ensures MassIn(p + q, a, b) == MassIn(p, a, b) + MassIn(q, a, b)
  {
    if p == [] {
      assert p + q == q;
    } else {
      MassConcat(p[1..], q, a, b);
      assert (p + q)[0] == p[0] && (p + q)[1..] == p[1..] + q;
    }
  }

  // An interval inside the window whose mass is the impact spread over the whole window.
  ghost predicate Carries(c: Interval, impact: real, w: Window) {
    && w.start <= c.s < c.e <= w.end
    && Times(c.w, (c.e - c.s) as real) == Times(impact, (w.end - w.start) as real)
    && (c.w <= 0.0 ==> Times(c.w, (c.e - c.s) as real) == 0.0)
  }

  // One span finding has its impact times the window's span as mass.
  lemma SpanMass(f: Finding, series: string, d: Dimension, w: Window)
    requires w.Valid() && w.start < w.end && ValidFinding(f) && AsSpan(f, series, d, w)
    ensures MassIn(Clipped([SpanInterval(f, w)], w.start, w.end), w.start, w.end)
         == f.impact * (w.end - w.start) as real
    ensures |Clipped([SpanInterval(f, w)], w.start, w.end)| <= 1
  {
    hide SpanInterval, IsPoint, Scored, MassIn, Clipped;
    SpanCarriesImpact(f, series, d, w);
    SingleMass(SpanInterval(f, w), w.start, w.end);
  }

  lemma SpanCarriesImpact(f: Finding, series: string, d: Dimension, w: Window)
    requires w.Valid() && w.start < w.end && ValidFinding(f) && Scored(f, series, d, w) && Proper(f, w)
    ensures Carries(SpanInterval(f, w), f.impact, w)
  {
    hide Scored, Bounds, Density, Times;
    BoundsAreProper(f, series, d, w);
    DensityMass(f, w, Bounds(f, w).0, Bounds(f, w).1);
  }

  lemma DensityMass(f: Finding, w: Window, s: int, e: int)
    requires w.Valid() && Proper(f, w) && f.impact >= 0.0 && (s, e) == Bounds(f, w) && w.start <= s < e <= w.end
    ensures Times(Density(f, w), (e - s) as real) == Times(f.impact, (w.end - w.start) as real)
    ensures Density(f, w) <= 0.0 ==> Times(Density(f, w), (e - s) as real) == 0.0
  {
    hide Bounds;
    assert SatSub(e, s) == e - s && w.Span() == w.end - w.start;
    QuotientTimes(f.impact, (w.end - w.start) as real, (e - s) as real);
  }

  lemma QuotientTimes(impact: real, span: real, len: real)
    requires impact >= 0.0 && span > 0.0 && len > 0.0
    ensures Times(impact * span / len, len) == Times(impact, span)
    ensures impact * span / len <= 0.0 ==> Times(impact * span / len, len) == 0.0
  {
    var x := impact * span;
    assert x / len * len == x;
    QuotientOrder(0.0, x, len);
    ZeroShare(len);
  }

  lemma SingleMass(c: Interval, start: int, end: int)
    requires start <= c.s < c.e <= end && (c.w <= 0.0 ==> Times(c.w, (c.e - c.s) as real) == 0.0)
    ensures MassIn(Clipped([c], start, end), start, end) == Times(c.w, (c.e - c.s) as real)
    ensures |Clipped([c], start, end)| <= 1
  {
    assert [c][1..] == [];
    assert Clip(c, start, end) == c;
    if c.w > 0.0 {
      assert Clipped([c], start, end) == [c];
      assert LengthIn(c, start, end) == c.e - c.s;
    } else {
      assert Clipped([c], start, end) == [];
    }
  }

  // The scored findings split into spans and points.
  ghost function SpanImpacts(fs: seq<Finding>, series: string, d: Dimension, w: Window): real {
    if fs == [] then 0.0
    else
      var f := fs[|fs| - 1];
      SpanImpacts(fs[..|fs| - 1], series, d, w) + (if AsSpan(f, series, d, w) then f.impact else 0.0)
  }

  ghost function PointImpacts(fs: seq<Finding>, series: string, d: Dimension, w: Window): real {
    if fs == [] then 0.0
    else
      var f := fs[|fs| - 1];
      PointImpacts(fs[..|fs| - 1], series, d, w) + (if AsPoint(f, series, d, w) then f.impact else 0.0)
  }

  lemma {:induction false} ImpactsSplit(fs: seq<Finding>, series: string, d: Dimension, w: Window)
    requires w.Valid() && forall f :: f in fs ==> ValidFinding(f)
    ensures ImpactSum(fs, series, d, w) == SpanImpacts(fs, series, d, w) + PointImpacts(fs, series, d, w)
  {
    hide IsPoint;
    if fs != [] {
      ImpactsSplit(fs[..|fs| - 1], series, d, w);
      var f := fs[|fs| - 1];
      assert f in fs;
      if Scored(f, series, d, w) { BoundsAreProper(f, series, d, w); }
    }
  }

  lemma {:induction false} SpansMass(fs: seq<Finding>, series: string, d: Dimension, w: Window)
    requires w.Valid() && w.start < w.end && forall f :: f in fs ==> ValidFinding(f)
    ensures MassIn(Clipped(Spans(fs, series, d, w), w.start, w.end), w.start, w.end)
         == SpanImpacts(fs, series, d, w) * (w.end - w.start) as real
  {
    hide AsSpan, SpanInterval, MassIn, Clipped, SpanImpacts, Spans;
    if fs != [] {
      var before, f := fs[..|fs| - 1], fs[|fs| - 1];
      assert f in fs;
      SpansMass(before, series, d, w);
      SpansMassStep(before, f, series, d, w);
      assert before + [f] == fs;
      DistributeReal(SpanImpacts(before, series, d, w),
                     if AsSpan(f, series, d, w) then f.impact else 0.0, (w.end - w.start) as real);
      assert SpanImpacts(fs, series, d, w)
           == SpanImpacts(before, series, d, w) + (if AsSpan(f, series, d, w) then f.impact else 0.0) by {
        LastImpact(fs, series, d, w);
      }
    } else {
      NoSpans(w);
      assert Spans([], series, d, w) == [] && SpanImpacts([], series, d, w) == 0.0 by { NoSpanFindings(series, d, w); }
    }
  }

  lemma LastImpact(fs: seq<Finding>, series: string, d: Dimension, w: Window)
    requires fs != []
    ensures SpanImpacts(fs, series, d, w)
         == SpanImpacts(fs[..|fs| - 1], series, d, w)
          + (if AsSpan(fs[|fs| - 1], series, d, w) then fs[|fs| - 1].impact else 0.0)
  {
  }

  lemma NoSpanFindings(series: string, d: Dimension, w: Window)
    ensures Spans([], series, d, w) == [] && SpanImpacts([], series, d, w) == 0.0
  {
  }

  lemma SpansMassStep(before: seq<Finding>, f: Finding, series: string, d: Dimension, w: Window)
    requires w.Valid() && w.start < w.end && ValidFinding(f)
    ensures MassIn(Clipped(Spans(before + [f], series, d, w), w.start, w.end), w.start, w.end)
         == MassIn(Clipped(Spans(before, series, d, w), w.start, w.end), w.start, w.end)
          + (if AsSpan(f, series, d, w) then f.impact else 0.0) * (w.end - w.start) as real
  {
    hide IsPoint, Scored, SpanInterval, MassIn, Clipped;
    assert (before + [f])[..|before|] == before;
    if AsSpan(f, series, d, w) {
      var spans, c := Spans(before, series, d, w), SpanInterval(f, w);
      assert Spans(before + [f], series, d, w) == spans + [c];
      SpanMass(f, series, d, w);
      ClippedConcat(spans, [c], w.start, w.end);
      MassConcat(Clipped(spans, w.start, w.end), Clipped([c], w.start, w.end), w.start, w.end);
    } else {
      assert 0.0 * (w.end - w.start) as real == 0.0;
    }
  }

  lemma NoSpans(w: Window)
    ensures MassIn(Clipped([], w.start, w.end), w.start, w.end) == 0.0
  {
  }

  lemma {:induction false} PointsAtMostImpacts(fs: seq<Finding>, series: string, d: Dimension, w: Window)
    requires NonNegative(fs)
    ensures SumValues(Points(fs, series, d, w)) <= PointImpacts(fs, series, d, w)
  {
    hide AsPoint, Bounds, SumValues;
    if fs != [] {
      var before, f := fs[..|fs| - 1], fs[|fs| - 1];
      assert f in fs;
      PointsAtMostImpacts(before, series, d, w);
      if AsPoint(f, series, d, w) {
        var m, k := Points(before, series, d, w), Bounds(f, w);
        PointsAre(before, series, d, w, k);
        if k in m { SlotNotNegative(before, series, d, w, k, m[k]); }
        RaisedSum(m, k, f.impact);
      }
    } else {
      assert SumValues(map[]) == 0.0 by { NoValues(); }
    }
  }

  lemma NoValues()
    ensures SumValues(map[]) == 0.0
  {
  }

  lemma SlotNotNegative(fs: seq<Finding>, series: string, d: Dimension, w: Window, k: (int, int), x: real)
    requires NonNegative(fs) && IsLargest(fs, series, d, w, k, x)
    ensures x >= 0.0
  {
  }

  lemma RaisedSum(m: map<(int, int), real>, k: (int, int), x: real)
    requires x >= 0.0 && (k in m ==> m[k] >= 0.0)
    ensures SumValues(Raised(m, k, x)) <= SumValues(m) + x
  {
    var n := Raised(m, k, x);
    SumValuesTake(n, k);
    assert n - {k} == m - {k};
    if k in m {
      SumValuesTake(m, k);
    } else {
      assert m - {k} == m;
    }
  }

  // A dimension's impact is at most the sum of its findings' own impacts, up to the quantisation.
  lemma ImpactAtMostSum(fs: seq<Finding>, series: string, d: Dimension, w: Window)
    requires w.Valid() && forall f :: f in fs ==> ValidFinding(f)
    ensures Impact(fs, series, d, w) <= ImpactSum(fs, series, d, w) + 0.0000005
  {
    hide Spans, Points, SumValues, MassIn, WeightArea, Clipped, Area, Coverage;
    ImpactsSplit(fs, series, d, w);
    PointsAtMostImpacts(fs, series, d, w);
    SpansNotNegative(fs, series, d, w);
    assert Coverage(Spans(fs, series, d, w), w.start, w.end) <= SpanImpacts(fs, series, d, w) + 0.0000005 by {
      SpanCoverageAtMost(fs, series, d, w);
    }
  }

  lemma {:induction false} SpansNotNegative(fs: seq<Finding>, series: string, d: Dimension, w: Window)
    requires forall f :: f in fs ==> ValidFinding(f)
    ensures SpanImpacts(fs, series, d, w) >= 0.0 && PointImpacts(fs, series, d, w) >= 0.0
  {
    hide AsSpan, AsPoint;
    if fs != [] {
      SpansNotNegative(fs[..|fs| - 1], series, d, w);
      assert fs[|fs| - 1] in fs;
    }
  }

  lemma SpanCoverageAtMost(fs: seq<Finding>, series: string, d: Dimension, w: Window)
    requires w.Valid() && forall f :: f in fs ==> ValidFinding(f)
    ensures Coverage(Spans(fs, series, d, w), w.start, w.end) <= SpanImpacts(fs, series, d, w) + 0.0000005
  {
    hide Spans, SpanImpacts, Coverage, ExactCoverage;
    CoverageIsClose(Spans(fs, series, d, w), w.start, w.end);
    ExactAtMost(fs, series, d, w);
  }

  lemma ExactAtMost(fs: seq<Finding>, series: string, d: Dimension, w: Window)
    requires w.Valid() && forall f :: f in fs ==> ValidFinding(f)
    ensures ExactCoverage(Spans(fs, series, d, w), w.start, w.end) <= SpanImpacts(fs, series, d, w)
  {
    hide Spans, MassIn, WeightArea, Clipped, SpanImpacts;
    var cs := Clipped(Spans(fs, series, d, w), w.start, w.end);
    SpansNotNegative(fs, series, d, w);
    if w.start < w.end {
      SpansMass(fs, series, d, w);
      AreaAtMostMass(cs, w.start, w.end);
      Share(WeightArea(cs, w.start, w.end), SpanImpacts(fs, series, d, w), (w.end - w.start) as real);
    } else {
      NoWindowNoArea(cs, w.start, w.end);
      ZeroShare(Max(w.end - w.start, 1) as real);
    }
  }

  lemma Share(x: real, y: real, span: real)
    requires span > 0.0 && y >= 0.0 && x <= y * span
    ensures Clamp01(x / span) <= y
  {
    QuotientOrder(x, y * span, span);
    assert y * span / span == y;
  }

  lemma ZeroShare(span: real)
    requires span > 0.0
    ensures 0.0 / span == 0.0
  {
  }

  // One span finding alone contributes its own impact, up to the quantisation.
  lemma OneSpanContributesItsImpact(f: Finding, series: string, d: Dimension, w: Window)
    requires w.Valid() && w.start < w.end && ValidFinding(f) && f.impact <= 1.0 && AsSpan(f, series, d, w)
    ensures -0.0000005 <= Impact([f], series, d, w) - f.impact <= 0.0000005
  {
    hide MassIn, WeightArea, Clipped, IsPoint, Scored, SpanInterval, Coverage, SumValues, ExactCoverage;
    OneFinding(f, series, d, w);
    NoValues();
    OneSpanExact(f, series, d, w);
    CoverageIsClose([SpanInterval(f, w)], w.start, w.end);
  }

  lemma OneSpanExact(f: Finding, series: string, d: Dimension, w: Window)
    requires w.Valid() && w.start < w.end && ValidFinding(f) && f.impact <= 1.0 && AsSpan(f, series, d, w)
    ensures ExactCoverage([SpanInterval(f, w)], w.start, w.end) == f.impact
  {
    hide MassIn, WeightArea, Clipped, IsPoint, Scored, SpanInterval, ExactCoverage;
    var c := SpanInterval(f, w);
    SpanMass(f, series, d, w);
    AreaAtMostMass(Clipped([c], w.start, w.end), w.start, w.end);
    ExactIs([c], w.start, w.end, f.impact);
  }

  lemma ExactIs(intervals: seq<Interval>, start: int, end: int, x: real)
    requires start < end && 0.0 <= x <= 1.0
    requires WeightArea(Clipped(intervals, start, end), start, end) == x * (end - start) as real
    ensures ExactCoverage(intervals, start, end) == x
  {
    hide WeightArea, Clipped;
    assert Max(end - start, 1) == end - start;
    WholeShare(WeightArea(Clipped(intervals, start, end), start, end), x, (end - start) as real);
  }

  lemma WholeShare(area: real, x: real, span: real)
    requires span > 0.0 && 0.0 <= x <= 1.0 && area == x * span
    ensures Clamp01(area / span) == x
  {
    assert area / span == x;
  }

  lemma OneFinding(f: Finding, series: string, d: Dimension, w: Window)
    requires AsSpan(f, series, d, w)
    ensures Spans([f], series, d, w) == [SpanInterval(f, w)] && Points([f], series, d, w) == map[]
  {
    assert [f][..0] == [];
  }
}
