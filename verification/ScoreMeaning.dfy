// What an impact is, said of the findings themselves (score.rs, `score_window`): the share of the window
// under the largest density of the wide findings, and the largest impact of the narrow ones per window.
module ScoreMeaning {
  import opened Arithmetic
  import opened Int64
  import opened Sweep
  import opened Score
  import opened ScoreLaws

  // ---- One finding -------------------------------------------------------------------------

  predicate Meets(f: Finding, series: string, d: Dimension, w: Window) {
    f.series == series && f.dimension == d && w.start < f.end && f.start < w.end
  }

  // The part of the finding inside the window, at least one nanosecond long.
  function From(f: Finding, w: Window): int {
    if f.start < w.start then w.start else f.start
  }

  function Until(f: Finding, w: Window): int {
    var e := if w.end < f.end then w.end else f.end;
    if e <= From(f, w) then From(f, w) + 1 else e
  }

  function Length(w: Window): int {
    if w.start < w.end then w.end - w.start else 1
  }

  // The density that spreads the finding's impact over its part of the window.
  function Height(f: Finding, w: Window): real
    requires From(f, w) < Until(f, w)
  {
    f.impact * Length(w) as real / (Until(f, w) - From(f, w)) as real
  }

  // Too narrow to carry its impact: the density exceeds 0.1, 0.3, 0.6 or 1 by severity.
  predicate Narrow(f: Finding, w: Window)
    requires From(f, w) < Until(f, w)
  {
    Height(f, w) > match f.severity
                   case Low => 0.1
                   case Medium => 0.3
                   case High => 0.6
                   case Critical => 1.0
  }

  lemma HasPart(f: Finding, w: Window)
    ensures From(f, w) < Until(f, w)
  {
  }

  // ---- All findings ----------------------------------------------------------------------------

  // The largest density of the wide findings over instant x.
  ghost function TopAt(fs: seq<Finding>, series: string, d: Dimension, w: Window, x: int): real {
    if fs == [] then 0.0
    else
      var f, rest := fs[|fs| - 1], TopAt(fs[..|fs| - 1], series, d, w, x);
      HasPart(f, w);
      if Meets(f, series, d, w) && !Narrow(f, w) && From(f, w) <= x < Until(f, w) && Height(f, w) > rest
      then Height(f, w) else rest
  }

  // Its sum over the instants of [a, b).
  ghost function TopArea(fs: seq<Finding>, series: string, d: Dimension, w: Window, a: int, b: int): real
    decreases b - a
  {
    if a >= b then 0.0 else TopArea(fs, series, d, w, a, b - 1) + TopAt(fs, series, d, w, b - 1)
  }

  // The largest impact of the narrow findings whose part of the window is [s, e).
  ghost function Best(fs: seq<Finding>, series: string, d: Dimension, w: Window, s: int, e: int): real {
    if fs == [] then 0.0
    else
      var f, rest := fs[|fs| - 1], Best(fs[..|fs| - 1], series, d, w, s, e);
      HasPart(f, w);
      if Meets(f, series, d, w) && Narrow(f, w) && From(f, w) == s && Until(f, w) == e && f.impact > rest
      then f.impact else rest
  }

  // The largest impacts of the narrow findings, added up over their parts of the window.
  ghost function NarrowTotal(fs: seq<Finding>, series: string, d: Dimension, w: Window): real {
    if fs == [] then 0.0
    else
      var f, before := fs[|fs| - 1], fs[..|fs| - 1];
      var best := Best(before, series, d, w, From(f, w), Until(f, w));
      HasPart(f, w);
      NarrowTotal(before, series, d, w)
      + (if Meets(f, series, d, w) && Narrow(f, w) && f.impact > best then f.impact - best else 0.0)
  }

  // ---- The code's bounds, density and classes ----------------------------------------------------

  lemma PartIs(f: Finding, series: string, d: Dimension, w: Window)
    requires w.Valid() && ValidFinding(f)
    ensures Scored(f, series, d, w) <==> Meets(f, series, d, w)
    ensures Scored(f, series, d, w) ==>
              Bounds(f, w) == (From(f, w), Until(f, w)) && SatSub(Until(f, w), From(f, w)) == Until(f, w) - From(f, w)
  {
  }

  lemma HeightIs(f: Finding, series: string, d: Dimension, w: Window)
    requires w.Valid() && ValidFinding(f) && Scored(f, series, d, w)
    ensures From(f, w) < Until(f, w) && Proper(f, w)
    ensures Density(f, w) == Height(f, w) && (IsPoint(f, w) <==> Narrow(f, w))
  {
    hide Scored, Bounds, From, Until;
    PartIs(f, series, d, w);
    HasPart(f, w);
    assert w.Span() == Length(w);
  }

  // The two classes, and what the code keeps of each.
  lemma ClassIs(f: Finding, series: string, d: Dimension, w: Window)
    requires w.Valid() && ValidFinding(f)
    ensures From(f, w) < Until(f, w)
    ensures AsSpan(f, series, d, w) <==> Meets(f, series, d, w) && !Narrow(f, w)
    ensures AsPoint(f, series, d, w) <==> Meets(f, series, d, w) && Narrow(f, w)
    ensures AsSpan(f, series, d, w) ==> SpanInterval(f, w) == Interval(From(f, w), Until(f, w), Height(f, w))
    ensures AsPoint(f, series, d, w) ==> Bounds(f, w) == (From(f, w), Until(f, w))
  {
    hide Scored, Bounds, From, Until, Density, Height, IsPoint, Narrow, Meets, Proper;
    HasPart(f, w);
    PartIs(f, series, d, w);
    if Scored(f, series, d, w) { HeightIs(f, series, d, w); }
  }

  // ---- Spans --------------------------------------------------------------------------------

  lemma {:induction false} TopIs(fs: seq<Finding>, series: string, d: Dimension, w: Window, x: int)
    requires w.Valid() && w.start <= x < w.end && forall f :: f in fs ==> ValidFinding(f)
    ensures MaxWeightAt(Clipped(Spans(fs, series, d, w), w.start, w.end), x) == TopAt(fs, series, d, w, x)
  {
    hide Scored, IsPoint, SpanInterval, Clipped, MaxWeightAt, ValidFinding, Narrow, Meets, From, Until, Height;
    if fs == [] {
      NoTop(w, x);
    } else {
      var f, before := fs[|fs| - 1], fs[..|fs| - 1];
      assert f in fs;
      TopIs(before, series, d, w, x);
      ClassIs(f, series, d, w);
      if AsSpan(f, series, d, w) {
        var c, spans := SpanInterval(f, w), Spans(before, series, d, w);
        ClippedConcat(spans, [c], w.start, w.end);
        TopOfTwo(Clipped(spans, w.start, w.end), Clipped([c], w.start, w.end), x);
        TopOfOne(c, w.start, w.end, x);
        TopNotNegative(before, series, d, w, x);
      }
    }
  }

  lemma {:induction false} TopNotNegative(fs: seq<Finding>, series: string, d: Dimension, w: Window, x: int)
    ensures TopAt(fs, series, d, w, x) >= 0.0
  {
    hide Narrow, Meets, From, Until, Height;
    if fs != [] { TopNotNegative(fs[..|fs| - 1], series, d, w, x); }
  }

  lemma NoTop(w: Window, x: int)
    ensures MaxWeightAt(Clipped([], w.start, w.end), x) == 0.0
  {
  }

  lemma {:induction false} AreaIs(fs: seq<Finding>, series: string, d: Dimension, w: Window, b: int)
    requires w.Valid() && b <= w.end && forall f :: f in fs ==> ValidFinding(f)
    ensures WeightArea(Clipped(Spans(fs, series, d, w), w.start, w.end), w.start, b)
         == TopArea(fs, series, d, w, w.start, b)
    decreases b - w.start
  {
    hide Clipped, Spans, MaxWeightAt, TopAt, ValidFinding;
    if w.start < b {
      AreaIs(fs, series, d, w, b - 1);
      TopIs(fs, series, d, w, b - 1);
    }
  }

  // ---- Points ---------------------------------------------------------------------------------

  // The slot of a window, 0 when there is none.
  ghost function Slot(m: map<(int, int), real>, k: (int, int)): real {
    if k in m then m[k] else 0.0
  }

  lemma RaisedSlot(m: map<(int, int), real>, k: (int, int), x: real, j: (int, int))
    requires x > 0.0
    ensures Slot(Raised(m, k, x), j) == if j == k && x > Slot(m, j) then x else Slot(m, j)
  {
  }

  lemma RaisedTotal(m: map<(int, int), real>, k: (int, int), x: real)
    requires x > 0.0
    ensures SumValues(Raised(m, k, x)) == SumValues(m) + (if x > Slot(m, k) then x - Slot(m, k) else 0.0)
  {
    var n := Raised(m, k, x);
    hide SumValues;
    SumValuesTake(n, k);
    assert n - {k} == m - {k};
    if k in m {
      SumValuesTake(m, k);
    } else {
      assert m - {k} == m;
    }
  }

  // A narrow finding has an impact.
  lemma NarrowImpact(f: Finding, w: Window)
    requires From(f, w) < Until(f, w) && Narrow(f, w)
    ensures f.impact > 0.0
  {
    var n := (Until(f, w) - From(f, w)) as real;
    var h, l := Height(f, w), Length(w) as real;
    hide From, Until, Narrow, Length;
    assert h * n == f.impact * l;
    Positive(h, n, f.impact, l);
  }

  lemma Positive(h: real, n: real, x: real, l: real)
    requires h > 0.0 && n > 0.0 && l > 0.0 && h * n == x * l
    ensures x > 0.0
  {
    assert h * n > 0.0;
    NoProduct(x, l);
  }

  lemma NoProduct(x: real, l: real)
    requires l > 0.0
    ensures x <= 0.0 ==> x * l <= 0.0
  {
  }

  lemma {:induction false} BestIs(fs: seq<Finding>, series: string, d: Dimension, w: Window, s: int, e: int)
    requires w.Valid() && forall f :: f in fs ==> ValidFinding(f)
    ensures Slot(Points(fs, series, d, w), (s, e)) == Best(fs, series, d, w, s, e)
  {
    hide AsPoint, Bounds, Raised, Slot, ValidFinding, Narrow, Meets, From, Until, Height;
    if fs == [] {
      NoSlots((s, e));
    } else {
      var f, before := fs[|fs| - 1], fs[..|fs| - 1];
      assert f in fs;
      BestIs(before, series, d, w, s, e);
      ClassIs(f, series, d, w);
      if AsPoint(f, series, d, w) {
        NarrowImpact(f, w);
        RaisedSlot(Points(before, series, d, w), Bounds(f, w), f.impact, (s, e));
      }
    }
  }

  lemma NoSlots(k: (int, int))
    ensures Slot(map[], k) == 0.0
  {
  }

  lemma {:induction false} PointsTotal(fs: seq<Finding>, series: string, d: Dimension, w: Window)
    requires w.Valid() && forall f :: f in fs ==> ValidFinding(f)
    ensures SumValues(Points(fs, series, d, w)) == NarrowTotal(fs, series, d, w)
  {
    hide AsPoint, Bounds, Raised, Slot, ValidFinding, Narrow, Meets, From, Until, Height, SumValues, Best;
    if fs == [] {
      NoValues();
    } else {
      var f, before := fs[|fs| - 1], fs[..|fs| - 1];
      assert f in fs;
      PointsTotal(before, series, d, w);
      ClassIs(f, series, d, w);
      if AsPoint(f, series, d, w) {
        NarrowImpact(f, w);
        BestIs(before, series, d, w, From(f, w), Until(f, w));
        RaisedTotal(Points(before, series, d, w), Bounds(f, w), f.impact);
      }
    }
  }

  // ---- Impacts and scores --------------------------------------------------------------------

  // The share of the window under the wide findings plus the narrow ones.
  ghost function Damage(fs: seq<Finding>, series: string, d: Dimension, w: Window): real {
    TopArea(fs, series, d, w, w.start, w.end) / Length(w) as real + NarrowTotal(fs, series, d, w)
  }

  lemma {:induction false} AreaNotNegative(fs: seq<Finding>, series: string, d: Dimension, w: Window, a: int, b: int)
    ensures TopArea(fs, series, d, w, a, b) >= 0.0
    decreases b - a
  {
    hide TopAt;
    if a < b {
      AreaNotNegative(fs, series, d, w, a, b - 1);
      TopNotNegative(fs, series, d, w, b - 1);
    }
  }

  lemma {:induction false} NarrowNotNegative(fs: seq<Finding>, series: string, d: Dimension, w: Window)
    ensures NarrowTotal(fs, series, d, w) >= 0.0
  {
    hide Narrow, Meets, From, Until, Height, Best;
    if fs != [] {
      HasPart(fs[|fs| - 1], w);
      NarrowNotNegative(fs[..|fs| - 1], series, d, w);
    }
  }

  // An impact is the damage, up to 1 and to the quantisation of densities.
  lemma ImpactMeans(fs: seq<Finding>, series: string, d: Dimension, w: Window)
    requires w.Valid() && forall f :: f in fs ==> ValidFinding(f)
    ensures var x, v := Impact(fs, series, d, w), Damage(fs, series, d, w);
            && 0.0 <= x <= 1.0 && v >= 0.0
            && -0.0000005 <= x - (if v > 1.0 then 1.0 else v) <= 0.0000005
  {
    hide Spans, Points, SumValues, Coverage, TopArea, WeightArea, Clipped, NarrowTotal, ValidFinding;
    var spans, area := Spans(fs, series, d, w), TopArea(fs, series, d, w, w.start, w.end);
    PointsTotal(fs, series, d, w);
    NarrowNotNegative(fs, series, d, w);
    AreaNotNegative(fs, series, d, w, w.start, w.end);
    QuotientOrder(0.0, area, Length(w) as real);
    CoverageIsClose(spans, w.start, w.end);
    ExactIsShare(fs, series, d, w);
  }

  lemma ExactIsShare(fs: seq<Finding>, series: string, d: Dimension, w: Window)
    requires w.Valid() && forall f :: f in fs ==> ValidFinding(f)
    ensures ExactCoverage(Spans(fs, series, d, w), w.start, w.end)
         == Clamp01(TopArea(fs, series, d, w, w.start, w.end) / Length(w) as real)
  {
    hide Spans, TopAt, MaxWeightAt, Clipped, ValidFinding;
    assert Max(w.end - w.start, 1) == Length(w);
    if w.start < w.end {
      AreaIs(fs, series, d, w, w.end);
    } else {
      NoWindowNoArea(Clipped(Spans(fs, series, d, w), w.start, w.end), w.start, w.end);
    }
  }

  lemma ScoreIsClose(x: real, v: real)
    requires 0.0 <= x <= 1.0 && v >= 0.0 && -0.0000005 <= x - (if v > 1.0 then 1.0 else v) <= 0.0000005
    ensures -0.05005 <= DimensionScore(x) - 100.0 * (1.0 - (if v > 1.0 then 1.0 else v)) <= 0.05005
  {
    hide DimensionScore, Nearest;
    ScoreRounds(x);
    var k: int :| RoundsTo(k, DimensionScore(x), Left(x));
    NearestIsClose(k, Left(x) * 10.0);
  }

  lemma NearestIsClose(k: int, u: real)
    requires Nearest(k, u)
    ensures -0.5 <= k as real - u <= 0.5
  {
  }

  // Every dimension scores what the damage leaves of 100, to the nearest tenth.
  lemma ScoresMean(weights: map<Dimension, real>, fs: seq<Finding>, series: string, w: Window)
    requires w.Valid() && forall f :: f in fs ==> ValidFinding(f)
    ensures var r := ScoreOf(weights, fs, series, w);
            forall d: Dimension ::
              var v := Damage(fs, series, d, w);
              && d in r.dimensions
              && -0.05005 <= r.dimensions[d] - 100.0 * (1.0 - (if v > 1.0 then 1.0 else v)) <= 0.05005
  {
    hide Impact, Damage, DimensionScore, Overall, OfSeries, ALL, ValidFinding;
    forall d: Dimension
      ensures d in Scores(fs, series, w)
      ensures var v := Damage(fs, series, d, w);
              -0.05005 <= DimensionScore(Impact(fs, series, d, w)) - 100.0 * (1.0 - (if v > 1.0 then 1.0 else v))
                       <= 0.05005
    {
      AllDimensions(d);
      ImpactMeans(fs, series, d, w);
      ScoreIsClose(Impact(fs, series, d, w), Damage(fs, series, d, w));
    }
  }

  lemma {:induction false} NothingMeets(fs: seq<Finding>, series: string, d: Dimension, w: Window)
    requires w.Valid() && forall f :: f in fs ==> ValidFinding(f) && !Meets(f, series, d, w)
    ensures Spans(fs, series, d, w) == [] && Points(fs, series, d, w) == map[]
  {
    hide Scored, IsPoint, SpanInterval, ValidFinding, Meets;
    if fs != [] {
      assert fs[|fs| - 1] in fs;
      NothingMeets(fs[..|fs| - 1], series, d, w);
      ClassIs(fs[|fs| - 1], series, d, w);
    }
  }

  // A dimension that no finding meets scores exactly 100.
  lemma UnmetScores100(weights: map<Dimension, real>, fs: seq<Finding>, series: string, d: Dimension, w: Window)
    requires w.Valid() && forall f :: f in fs ==> ValidFinding(f) && !Meets(f, series, d, w)
    ensures d in ScoreOf(weights, fs, series, w).dimensions && ScoreOf(weights, fs, series, w).dimensions[d] == 100.0
  {
    hide Coverage, SumValues, Overall, OfSeries, ALL, Spans, Points;
    AllDimensions(d);
    NothingMeets(fs, series, d, w);
    NoValues();
    NoCoverage(w);
    assert Impact(fs, series, d, w) == 0.0;
    assert Round(1000.0) == 1000;
  }

  lemma NoCoverage(w: Window)
    ensures Coverage([], w.start, w.end) == 0.0
  {
    hide Clipped, Area;
    assert EventsOf([]) == [];
    NoEventsNoArea([], w.start, w.end);
    NoneClipped(w.start, w.end);
  }

  lemma {:induction false} NoArea(fs: seq<Finding>, series: string, d: Dimension, w: Window, a: int, b: int)
    requires forall x :: a <= x < b ==> TopAt(fs, series, d, w, x) == 0.0
    ensures TopArea(fs, series, d, w, a, b) == 0.0
    decreases b - a
  {
    hide TopAt;
    if a < b { NoArea(fs, series, d, w, a, b - 1); }
  }

  lemma {:induction false} FlatArea(fs: seq<Finding>, series: string, d: Dimension, w: Window, a: int, b: int, h: real)
    requires a <= b && forall x :: a <= x < b ==> TopAt(fs, series, d, w, x) == h
    ensures TopArea(fs, series, d, w, a, b) == h * (b - a) as real
    decreases b - a
  {
    hide TopAt;
    if a < b {
      FlatArea(fs, series, d, w, a, b - 1, h);
      var n := (b - 1 - a) as real;
      assert (b - a) as real == n + 1.0;
      assert h * (n + 1.0) == h * n + h;
    }
  }

  lemma {:induction false} AreaJoins(fs: seq<Finding>, series: string, d: Dimension, w: Window, a: int, m: int, b: int)
    requires a <= m <= b
    ensures TopArea(fs, series, d, w, a, b) == TopArea(fs, series, d, w, a, m) + TopArea(fs, series, d, w, m, b)
    decreases b - m
  {
    hide TopAt;
    if m < b { AreaJoins(fs, series, d, w, a, m, b - 1); }
  }

  lemma OneTop(f: Finding, series: string, d: Dimension, w: Window, x: int)
    requires From(f, w) < Until(f, w) && Meets(f, series, d, w)
    ensures Narrow(f, w) ==> TopAt([f], series, d, w, x) == 0.0
    ensures !Narrow(f, w) && Height(f, w) >= 0.0 ==>
              TopAt([f], series, d, w, x) == if From(f, w) <= x < Until(f, w) then Height(f, w) else 0.0
  {
    hide Narrow, Meets, From, Until, Height;
    assert [f][..0] == [];
  }

  lemma OneNarrow(f: Finding, series: string, d: Dimension, w: Window)
    requires From(f, w) < Until(f, w) && Meets(f, series, d, w) && f.impact >= 0.0
    ensures NarrowTotal([f], series, d, w) == if Narrow(f, w) then f.impact else 0.0
  {
    hide Narrow, Meets, From, Until, Height;
    assert [f][..0] == [];
  }

  // A single finding damages by its own impact, wide or narrow.
  lemma OneDamage(f: Finding, series: string, d: Dimension, w: Window)
    requires w.Valid() && w.start < w.end && ValidFinding(f) && Meets(f, series, d, w)
    ensures Damage([f], series, d, w) == f.impact
  {
    hide Narrow, TopAt, TopArea, NarrowTotal;
    HasPart(f, w);
    OneNarrow(f, series, d, w);
    if Narrow(f, w) {
      forall x ensures TopAt([f], series, d, w, x) == 0.0 { OneTop(f, series, d, w, x); }
      NoArea([f], series, d, w, w.start, w.end);
    } else {
      OneWide(f, series, d, w);
    }
  }

  lemma OneWide(f: Finding, series: string, d: Dimension, w: Window)
    requires w.Valid() && w.start < w.end && ValidFinding(f) && Meets(f, series, d, w)
    requires From(f, w) < Until(f, w) && !Narrow(f, w)
    ensures TopArea([f], series, d, w, w.start, w.end) / Length(w) as real == f.impact
  {
    hide Narrow, TopArea, Height, SpreadsTo, Times;
    var s, e := From(f, w), Until(f, w);
    WideArea(f, series, d, w, s, e);
    HeightOf(f, w);
    Spread(TopArea([f], series, d, w, w.start, w.end), Height(f, w), f.impact, Length(w) as real, (e - s) as real);
  }

  // h is the impact x over the length l, spread over n.
  ghost predicate SpreadsTo(h: real, x: real, l: real, n: real) {
    l > 0.0 && n > 0.0 && h == x * l / n
  }

  lemma HeightOf(f: Finding, w: Window)
    requires From(f, w) < Until(f, w)
    ensures Length(w) > 0
    ensures SpreadsTo(Height(f, w), f.impact, Length(w) as real, (Until(f, w) - From(f, w)) as real)
    ensures f.impact >= 0.0 ==> Height(f, w) >= 0.0
  {
    hide From, Until;
    if f.impact >= 0.0 { HeightNotNegative(f.impact, Length(w) as real, (Until(f, w) - From(f, w)) as real); }
  }

  lemma HeightNotNegative(x: real, l: real, n: real)
    requires x >= 0.0 && l > 0.0 && n > 0.0
    ensures x * l / n >= 0.0
  {
    assert x * l >= 0.0;
    QuotientOrder(0.0, x * l, n);
  }

  lemma WideArea(f: Finding, series: string, d: Dimension, w: Window, s: int, e: int)
    requires w.Valid() && w.start < w.end && ValidFinding(f) && Meets(f, series, d, w)
    requires s == From(f, w) < Until(f, w) == e && !Narrow(f, w)
    ensures TopArea([f], series, d, w, w.start, w.end) == Times(Height(f, w), (e - s) as real)
  {
    hide Narrow, TopAt, TopArea, Height;
    assert w.start <= s < e <= w.end;
    HeightOf(f, w);
    forall x ensures TopAt([f], series, d, w, x) == if s <= x < e then Height(f, w) else 0.0 {
      OneTop(f, series, d, w, x);
    }
    hide From, Until;
    NoArea([f], series, d, w, w.start, s);
    FlatArea([f], series, d, w, s, e, Height(f, w));
    NoArea([f], series, d, w, e, w.end);
    AreaJoins([f], series, d, w, w.start, s, w.end);
    AreaJoins([f], series, d, w, s, e, w.end);
  }

  lemma Spread(area: real, h: real, x: real, l: real, n: real)
    requires SpreadsTo(h, x, l, n) && area == Times(h, n)
    ensures area / l == x
  {
    assert h * n == x * l;
    assert x * l / l == x;
  }

  // The score of one finding of impact x that meets the window lies within 0.05005 of 100 (1 - x), and
  // the other dimensions score 100.
  lemma OneFindingScores(weights: map<Dimension, real>, f: Finding, w: Window)
    requires w.Valid() && w.start < w.end && ValidFinding(f) && f.impact <= 1.0
    requires w.start < f.end && f.start < w.end
    ensures var r := ScoreOf(weights, [f], f.series, w);
            forall d: Dimension ::
              && d in r.dimensions
              && (d != f.dimension ==> r.dimensions[d] == 100.0)
              && (d == f.dimension ==> -0.05005 <= r.dimensions[d] - 100.0 * (1.0 - f.impact) <= 0.05005)
  {
    hide ScoreOf, Damage, ValidFinding;
    ScoresMean(weights, [f], f.series, w);
    OneDamage(f, f.series, f.dimension, w);
    forall d: Dimension | d != f.dimension
      ensures d in ScoreOf(weights, [f], f.series, w).dimensions
      ensures ScoreOf(weights, [f], f.series, w).dimensions[d] == 100.0
    {
      UnmetScores100(weights, [f], f.series, d, w);
    }
  }
}
