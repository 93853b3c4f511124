// Scoring of a series' findings over a window (`Scorer::score_window` and `Scorer::finish` of
// core/tabayyun-core/src/score.rs) and the laws scores obey.
module Score {
  import opened Arithmetic
  import opened Int64
  import opened Sweep

  datatype Dimension =
    | Completeness | Timeliness | Validity | Accuracy | Consistency | Plausibility | Integrity

  const ALL: seq<Dimension> :=
    [Completeness, Timeliness, Validity, Accuracy, Consistency, Plausibility, Integrity]

  datatype Severity = Low | Medium | High | Critical {
    function Weight(): real {
      match this
      case Critical => 1.0
      case High => 0.6
      case Medium => 0.3
      case Low => 0.1
    }
  }

  datatype Finding = Finding(series: string, dimension: Dimension, severity: Severity,
                             start: int, end: int, impact: real)

  datatype Window = Window(start: int, end: int) {
    function Duration(): (d: int)
      ensures d >= 0
    {
      Max(SatSub(end, start), 0)
    }

    function Span(): (d: int)
      ensures d >= 1
    {
      Max(Duration(), 1)
    }

    predicate Valid() {
      InRange(start) && InRange(end) && end - start <= MAX
    }
  }

  datatype ScoreReport = ScoreReport(overall: real, dimensions: map<Dimension, real>, findings: nat)

  // ---- One finding's part ----------------------------------------------------------------

  // A finding of the series and dimension that meets the window.
  predicate Scored(f: Finding, series: string, d: Dimension, w: Window) {
    f.series == series && f.dimension == d && !(f.end <= w.start || f.start >= w.end)
  }

  // Its clipped bounds; never empty.
  function Bounds(f: Finding, w: Window): (int, int) {
    var s := Max(f.start, w.start);
    (s, Max(Min(f.end, w.end), SatAdd(s, 1)))
  }

  predicate ValidFinding(f: Finding) {
    InRange(f.start) && InRange(f.end) && f.impact >= 0.0
  }

  lemma BoundsAreProper(f: Finding, series: string, d: Dimension, w: Window)
    requires InRange(f.start) && InRange(f.end) && InRange(w.start) && InRange(w.end) && Scored(f, series, d, w)
    ensures var (s, e) := Bounds(f, w);
            s < e && InRange(s) && InRange(e)
    ensures w.start < w.end ==> var (s, e) := Bounds(f, w); w.start <= s < e <= w.end
  {
  }

  // The density that spreads the impact evenly over the clipped finding.
  function Density(f: Finding, w: Window): real
    requires SatSub(Bounds(f, w).1, Bounds(f, w).0) != 0
  {
    f.impact * w.Span() as real / SatSub(Bounds(f, w).1, Bounds(f, w).0) as real
  }

  predicate Proper(f: Finding, w: Window) {
    SatSub(Bounds(f, w).1, Bounds(f, w).0) > 0
  }

  // Too narrow to carry its impact at the severity weight.
  predicate IsPoint(f: Finding, w: Window)
    requires Proper(f, w)
  {
    Density(f, w) > f.severity.Weight()
  }

  predicate AsSpan(f: Finding, series: string, d: Dimension, w: Window) {
    Scored(f, series, d, w) && Proper(f, w) && !IsPoint(f, w)
  }

  predicate AsPoint(f: Finding, series: string, d: Dimension, w: Window) {
    Scored(f, series, d, w) && Proper(f, w) && IsPoint(f, w)
  }

  function SpanInterval(f: Finding, w: Window): Interval
    requires Proper(f, w)
  {
    Interval(Bounds(f, w).0, Bounds(f, w).1, Density(f, w))
  }

  // ---- A dimension's impact ----------------------------------------------------------------

  // The span findings as intervals, in the order of the findings.
  function Spans(fs: seq<Finding>, series: string, d: Dimension, w: Window): seq<Interval> {
    if fs == [] then []
    else
      var f, before := fs[|fs| - 1], Spans(fs[..|fs| - 1], series, d, w);
      if AsSpan(f, series, d, w) then before + [SpanInterval(f, w)] else before
  }

  // The largest impact per point window.
  function Points(fs: seq<Finding>, series: string, d: Dimension, w: Window): map<(int, int), real> {
    if fs == [] then map[]
    else
      var f, before := fs[|fs| - 1], Points(fs[..|fs| - 1], series, d, w);
      if AsPoint(f, series, d, w) then Raised(before, Bounds(f, w), f.impact) else before
  }

  // The slot of a point window, raised to an impact; new slots start at 0.
  function Raised(points: map<(int, int), real>, k: (int, int), impact: real): map<(int, int), real> {
    var slot := if k in points then points[k] else 0.0;
    points[k := if impact > slot then impact else slot]
  }

  ghost function SumValues(m: map<(int, int), real>): real {
    if m == map[] then 0.0
    else
      var k :| k in m;
      m[k] + SumValues(m - {k})
  }

  ghost function Impact(fs: seq<Finding>, series: string, d: Dimension, w: Window): real {
    Clamp01(Coverage(Spans(fs, series, d, w), w.start, w.end) + SumValues(Points(fs, series, d, w)))
  }

  // The same with the coverage as the sweep computes it, whatever the length of the window.
  ghost function SweptImpact(fs: seq<Finding>, series: string, d: Dimension, w: Window): real {
    Clamp01(SweptCoverage(Spans(fs, series, d, w), w.start, w.end) + SumValues(Points(fs, series, d, w)))
  }

  // ---- Scores ------------------------------------------------------------------------------

  // Rounded to a whole number, halves away from zero.
  function Round(x: real): int {
    if x >= 0.0 then (x + 0.5).Floor else -(0.5 - x).Floor
  }

  // Rounded to one decimal.
  function Round1(x: real): real {
    Round(x * 10.0) as real / 10.0
  }

  function DimensionScore(impact: real): real {
    Round1(100.0 * (1.0 - Clamp01(impact)))
  }

  function DimensionSet(ds: seq<Dimension>): set<Dimension> {
    set d | d in ds
  }

  function WeightOf(weights: map<Dimension, real>, d: Dimension): real {
    if d in weights then weights[d] else 1.0
  }

  function WeightSum(weights: map<Dimension, real>, ds: seq<Dimension>): real {
    if ds == [] then 0.0 else WeightSum(weights, ds[..|ds| - 1]) + WeightOf(weights, ds[|ds| - 1])
  }

  function Times(w: real, x: real): real {
    w * x
  }

  function WeightedScores(weights: map<Dimension, real>, scores: map<Dimension, real>, ds: seq<Dimension>): real
    requires forall d :: d in ds ==> d in scores
  {
    if ds == [] then 0.0
    else
      assert ds[|ds| - 1] in ds;
      WeightedScores(weights, scores, ds[..|ds| - 1]) + Times(WeightOf(weights, ds[|ds| - 1]), scores[ds[|ds| - 1]])
  }

  function Overall(weights: map<Dimension, real>, scores: map<Dimension, real>): real
    requires forall d :: d in ALL ==> d in scores
  {
    if WeightSum(weights, ALL) > 0.0
    then Round1(WeightedScores(weights, scores, ALL) / WeightSum(weights, ALL)) else 100.0
  }

  ghost function Scores(fs: seq<Finding>, series: string, w: Window): (m: map<Dimension, real>)
    ensures forall d :: d in ALL ==> d in m
  {
    map d | d in ALL :: DimensionScore(Impact(fs, series, d, w))
  }

  ghost function ScoreOf(weights: map<Dimension, real>, fs: seq<Finding>, series: string, w: Window): ScoreReport {
    var scores := Scores(fs, series, w);
    ScoreReport(Overall(weights, scores), scores, OfSeries(fs, series))
  }

  ghost function SweptScores(fs: seq<Finding>, series: string, w: Window): (m: map<Dimension, real>)
    ensures forall d :: d in ALL ==> d in m
  {
    map d | d in ALL :: DimensionScore(SweptImpact(fs, series, d, w))
  }

  ghost function SweptScoreOf(weights: map<Dimension, real>, fs: seq<Finding>, series: string, w: Window): ScoreReport {
    var scores := SweptScores(fs, series, w);
    ScoreReport(Overall(weights, scores), scores, OfSeries(fs, series))
  }

  // In windows no longer than i64::MAX the sweep gives the impacts and scores their meaning.
  lemma ShortWindowScores(weights: map<Dimension, real>, fs: seq<Finding>, series: string, w: Window)
    requires w.Valid()
    ensures forall d :: SweptImpact(fs, series, d, w) == Impact(fs, series, d, w)
    ensures SweptScoreOf(weights, fs, series, w) == ScoreOf(weights, fs, series, w)
  {
    hide SweptCoverage, Coverage, Spans, Points, SumValues, DimensionScore, Overall;
    forall d ensures SweptImpact(fs, series, d, w) == Impact(fs, series, d, w) {
      ShortWindowsExact(Spans(fs, series, d, w), w.start, w.end);
    }
    hide SweptImpact, Impact;
    assert SweptScores(fs, series, w) == Scores(fs, series, w);
  }

  function OfSeries(fs: seq<Finding>, series: string): nat {
    if fs == [] then 0
    else OfSeries(fs[..|fs| - 1], series) + (if fs[|fs| - 1].series == series then 1 else 0)
  }

  // ---- What a report says ------------------------------------------------------------------

  // y is v rounded to a tenth, halves away from zero.
  ghost predicate Rounded(y: real, v: real) {
    exists k: int :: RoundsTo(k, y, v)
  }

  predicate RoundsTo(k: int, y: real, v: real) {
    y * 10.0 == k as real && Nearest(k, v * 10.0)
  }

  predicate Nearest(k: int, u: real) {
    if u >= 0.0 then k as real - 0.5 <= u < k as real + 0.5 else k as real - 0.5 < u <= k as real + 0.5
  }

  // What is left of 100 after an impact, which counts from 0 to 1.
  function Left(impact: real): real {
    if impact < 0.0 then 100.0 else if impact > 1.0 then 0.0 else 100.0 * (1.0 - impact)
  }

  // The weight of a dimension and what it adds to the weighted sum; without a weight it counts once.
  function Share(weights: map<Dimension, real>, d: Dimension): real {
    if d in weights then weights[d] else 1.0
  }

  function Part(weights: map<Dimension, real>, scores: map<Dimension, real>, d: Dimension): real
    requires d in scores
  {
    if d in weights then weights[d] * scores[d] else scores[d]
  }

  // The overall score is the rounded weighted mean of the seven, 100 without weight.
  ghost predicate IsOverall(weights: map<Dimension, real>, scores: map<Dimension, real>, overall: real)
    requires forall d: Dimension :: d in scores
  {
    var den := Share(weights, Completeness) + Share(weights, Timeliness) + Share(weights, Validity)
               + Share(weights, Accuracy) + Share(weights, Consistency) + Share(weights, Plausibility)
               + Share(weights, Integrity);
    var num := Part(weights, scores, Completeness) + Part(weights, scores, Timeliness) + Part(weights, scores, Validity)
               + Part(weights, scores, Accuracy) + Part(weights, scores, Consistency)
               + Part(weights, scores, Plausibility) + Part(weights, scores, Integrity);
    if den > 0.0 then Rounded(overall, num / den) else overall == 100.0
  }

  // The report has a score for each dimension, the overall score, and the number of findings.
  ghost predicate IsReport(r: ScoreReport, weights: map<Dimension, real>, series: string, fs: seq<Finding>,
                           impact: map<Dimension, real>)
  {
    && (forall d: Dimension :: d in r.dimensions && d in impact && Rounded(r.dimensions[d], Left(impact[d])))
    && IsOverall(weights, r.dimensions, r.overall)
    && r.findings == |set i | 0 <= i < |fs| && fs[i].series == series|
  }

  lemma RoundIsNearest(x: real)
    ensures Nearest(Round(x), x)
  {
  }

  lemma Round1Rounds(v: real)
    ensures Rounded(Round1(v), v)
  {
    hide Round, Nearest;
    RoundIsNearest(v * 10.0);
    assert RoundsTo(Round(v * 10.0), Round1(v), v);
  }

  lemma ScoreRounds(impact: real)
    ensures Rounded(DimensionScore(impact), Left(impact))
  {
    hide Round1, Rounded;
    Round1Rounds(100.0 * (1.0 - Clamp01(impact)));
  }

  lemma AllDimensions(d: Dimension)
    ensures d in ALL
  {
    assert ALL[0] == Completeness && ALL[1] == Timeliness && ALL[2] == Validity && ALL[3] == Accuracy;
    assert ALL[4] == Consistency && ALL[5] == Plausibility && ALL[6] == Integrity;
  }

  lemma Seven(weights: map<Dimension, real>, scores: map<Dimension, real>)
    requires forall d: Dimension :: d in scores
    ensures WeightSum(weights, ALL)
         == Share(weights, Completeness) + Share(weights, Timeliness) + Share(weights, Validity)
          + Share(weights, Accuracy) + Share(weights, Consistency) + Share(weights, Plausibility)
          + Share(weights, Integrity)
    ensures WeightedScores(weights, scores, ALL)
         == Part(weights, scores, Completeness) + Part(weights, scores, Timeliness) + Part(weights, scores, Validity)
          + Part(weights, scores, Accuracy) + Part(weights, scores, Consistency) + Part(weights, scores, Plausibility)
          + Part(weights, scores, Integrity)
  {
    hide Part, Share, WeightSum, WeightedScores;
    assert ALL[..0] == [] && ALL[..7] == ALL;
    NoDimensions(weights);
    Upto(weights, scores, 0);
    Upto(weights, scores, 1);
    Upto(weights, scores, 2);
    Upto(weights, scores, 3);
    Upto(weights, scores, 4);
    Upto(weights, scores, 5);
    Upto(weights, scores, 6);
    NoScores(weights, scores);
  }

  lemma NoScores(weights: map<Dimension, real>, scores: map<Dimension, real>)
    ensures WeightedScores(weights, scores, []) == 0.0
  {
  }

  lemma Upto(weights: map<Dimension, real>, scores: map<Dimension, real>, k: nat)
    requires (forall d: Dimension :: d in scores) && k < |ALL|
    ensures WeightSum(weights, ALL[..k + 1]) == WeightSum(weights, ALL[..k]) + Share(weights, ALL[k])
    ensures WeightedScores(weights, scores, ALL[..k + 1])
         == WeightedScores(weights, scores, ALL[..k]) + Part(weights, scores, ALL[k])
  {
    assert ALL[..k + 1][..k] == ALL[..k] && ALL[..k + 1][k] == ALL[k];
  }

  lemma OverallRounds(weights: map<Dimension, real>, scores: map<Dimension, real>)
    requires forall d: Dimension :: d in scores
    ensures IsOverall(weights, scores, Overall(weights, scores))
  {
    hide Part, Share, WeightSum, WeightedScores, Rounded, Round1;
    Seven(weights, scores);
    if WeightSum(weights, ALL) > 0.0 {
      Round1Rounds(WeightedScores(weights, scores, ALL) / WeightSum(weights, ALL));
    }
  }

  lemma {:induction false} CountIs(fs: seq<Finding>, series: string)
    ensures OfSeries(fs, series) == |set i | 0 <= i < |fs| && fs[i].series == series|
  {
    if fs != [] {
      var n := |fs| - 1;
      CountIs(fs[..n], series);
      var a, b := set i | 0 <= i < n && fs[..n][i].series == series, set i | 0 <= i < |fs| && fs[i].series == series;
      assert b == if fs[n].series == series then a + {n} else a by { OneMoreIndex(fs, series); }
    }
  }

  lemma OneMoreIndex(fs: seq<Finding>, series: string)
    requires fs != []
    ensures var n := |fs| - 1;
            (set i | 0 <= i < |fs| && fs[i].series == series)
            == (set i | 0 <= i < n && fs[..n][i].series == series) + (if fs[n].series == series then {n} else {})
  {
  }

  lemma ReportIs(r: ScoreReport, weights: map<Dimension, real>, series: string, fs: seq<Finding>,
                 impact: map<Dimension, real>)
    requires forall d :: d in ALL ==> d in impact
    requires r.dimensions.Keys == DimensionSet(ALL)
    requires forall d :: d in ALL ==> r.dimensions[d] == DimensionScore(impact[d])
    requires r.overall == Overall(weights, r.dimensions) && r.findings == OfSeries(fs, series)
    ensures IsReport(r, weights, series, fs, impact)
  {
    hide DimensionScore, Overall, Rounded, IsOverall, OfSeries, Left;
    forall d: Dimension ensures d in r.dimensions && d in impact && Rounded(r.dimensions[d], Left(impact[d])) {
      AllDimensions(d);
      ScoreRounds(impact[d]);
    }
    OverallRounds(weights, r.dimensions);
    CountIs(fs, series);
  }

  // ---- score_window and finish --------------------------------------------------------------------

  // The report of a window, whatever its length.
  method ScoreWindow(weights: map<Dimension, real>, series: string, fs: seq<Finding>, w: Window)
    returns (r: ScoreReport)
    requires InRange(w.start) && InRange(w.end)
    requires forall f :: f in fs ==> InRange(f.start) && InRange(f.end)
    ensures r == SweptScoreOf(weights, fs, series, w)
    ensures w.Valid() ==> r == ScoreOf(weights, fs, series, w)
    ensures IsReport(r, weights, series, fs, map d: Dimension :: SweptImpact(fs, series, d, w))
  {
    hide SweptImpact, AsSpan, AsPoint, ScoreOf, IsReport;
    var impact: map<Dimension, real> := map[];
    for i := 0 to |ALL|
      invariant forall d :: d in ALL[..i] ==> d in impact && impact[d] == SweptImpact(fs, series, d, w)
    {
      var x := DimensionImpact(series, fs, ALL[i], w);
      impact := impact[ALL[i] := x];
    }
    assert ALL[..|ALL|] == ALL;
    r := Finish(weights, series, fs, impact);
    SameScores(r.dimensions, impact, fs, series, w);
    SameReport(r, weights, series, fs, impact, map d: Dimension :: SweptImpact(fs, series, d, w));
    if w.Valid() { ShortWindowScores(weights, fs, series, w); }
  }

  lemma SameReport(r: ScoreReport, weights: map<Dimension, real>, series: string, fs: seq<Finding>,
                   a: map<Dimension, real>, b: map<Dimension, real>)
    requires IsReport(r, weights, series, fs, a) && forall d :: d in ALL ==> d in a && d in b && a[d] == b[d]
    ensures IsReport(r, weights, series, fs, b)
  {
    hide Rounded, IsOverall, Left, ALL;
    forall d: Dimension ensures d in b && a[d] == b[d] { AllDimensions(d); }
  }

  lemma SameScores(scores: map<Dimension, real>, impact: map<Dimension, real>, fs: seq<Finding>,
                   series: string, w: Window)
    requires forall d :: d in ALL ==> d in impact && impact[d] == SweptImpact(fs, series, d, w)
    requires scores.Keys == DimensionSet(ALL) && forall d :: d in ALL ==> scores[d] == DimensionScore(impact[d])
    ensures scores == SweptScores(fs, series, w)
  {
    hide SweptImpact, DimensionScore;
  }

  // One dimension: spread the span findings, keep the points additively.
  method DimensionImpact(series: string, fs: seq<Finding>, d: Dimension, w: Window) returns (x: real)
    requires InRange(w.start) && InRange(w.end)
    requires forall f :: f in fs ==> InRange(f.start) && InRange(f.end)
    ensures x == SweptImpact(fs, series, d, w)
    ensures w.Valid() ==> x == Impact(fs, series, d, w)
  {
    hide SweptCoverage, Coverage, Clamp01, SumValues, Spans, Points, Bounds, Raised;
    NoFindings(series, d, w);
    var spans: seq<Interval> := [];
    var points: map<(int, int), real> := map[];
    assert fs[..0] == [];
    for i := 0 to |fs|
      invariant spans == Spans(fs[..i], series, d, w) && points == Points(fs[..i], series, d, w)
    {
      var f := fs[i];
      assert f in fs;
      OneMoreFinding(fs, i, series, d, w);
      if f.series == series && f.dimension == d && !(f.end <= w.start || f.start >= w.end) {
        BoundsAreProper(f, series, d, w);
        assert Proper(f, w);
        hide Density;
        var (s, e) := Bounds(f, w);
        var density := Density(f, w);
        if density > f.severity.Weight() {
          assert AsPoint(f, series, d, w) && !AsSpan(f, series, d, w);
          points := Raised(points, (s, e), f.impact);
        } else {
          assert AsSpan(f, series, d, w) && !AsPoint(f, series, d, w);
          assert SpanInterval(f, w) == Interval(s, e, density);
          spans := spans + [Interval(s, e, density)];
        }
      }
    }
    assert fs[..|fs|] == fs;
    var merged := MergedCoverage(spans, w.start, w.end);
    var additive := TotalOf(points);
    x := Clamp01(merged + additive);
    if w.Valid() { ShortWindowsExact(spans, w.start, w.end); }
  }

  lemma NoFindings(series: string, d: Dimension, w: Window)
    ensures Spans([], series, d, w) == [] && Points([], series, d, w) == map[]
  {
  }

  lemma OneMoreFinding(fs: seq<Finding>, i: nat, series: string, d: Dimension, w: Window)
    requires i < |fs|
    ensures Spans(fs[..i + 1], series, d, w)
         == if AsSpan(fs[i], series, d, w) then Spans(fs[..i], series, d, w) + [SpanInterval(fs[i], w)]
            else Spans(fs[..i], series, d, w)
    ensures Points(fs[..i + 1], series, d, w)
         == if AsPoint(fs[i], series, d, w) then Raised(Points(fs[..i], series, d, w), Bounds(fs[i], w), fs[i].impact)
            else Points(fs[..i], series, d, w)
  {
    assert fs[..i + 1][..i] == fs[..i] && fs[..i + 1][i] == fs[i];
  }

  method TotalOf(points: map<(int, int), real>) returns (total: real)
    ensures total == SumValues(points)
  {
    var left := points;
    total := 0.0;
    while left != map[]
      invariant total + SumValues(left) == SumValues(points)
      decreases |left|
    {
      var k :| k in left;
      SumValuesTake(left, k);
      total := total + left[k];
      left := left - {k};
    }
  }

  lemma {:induction false} SumValuesTake(m: map<(int, int), real>, k: (int, int))
    requires k in m
    ensures SumValues(m) == m[k] + SumValues(m - {k})
    decreases |m|
  {
    var j :| j in m && SumValues(m) == m[j] + SumValues(m - {j});
    if j != k {
      SumValuesTake(m - {j}, k);
      SumValuesTake(m - {k}, j);
      assert m - {j} - {k} == m - {k} - {j};
    }
  }

  method Finish(weights: map<Dimension, real>, series: string, fs: seq<Finding>, impact: map<Dimension, real>)
    returns (r: ScoreReport)
    requires forall d :: d in ALL ==> d in impact
    ensures r.dimensions.Keys == DimensionSet(ALL)
    ensures forall d :: d in ALL ==> r.dimensions[d] == DimensionScore(impact[d])
    ensures r.overall == Overall(weights, r.dimensions) && r.findings == OfSeries(fs, series)
    ensures IsReport(r, weights, series, fs, impact)
  {
    hide IsReport;
    hide DimensionScore, Round1, WeightOf, WeightSum, WeightedScores, Times;
    var scores: map<Dimension, real> := map[];
    var num, den := 0.0, 0.0;
    NoDimensions(weights);
    for i := 0 to |ALL|
      invariant scores.Keys == DimensionSet(ALL[..i])
      invariant forall d :: d in ALL[..i] ==> scores[d] == DimensionScore(impact[d])
      invariant den == WeightSum(weights, ALL[..i])
      invariant num == WeightedScores(weights, scores, ALL[..i])
    {
      var d := ALL[i];
      var s := DimensionScore(impact[d]);
      OneMoreDimension(weights, scores, i, s);
      scores := scores[d := s];
      num, den := num + Times(WeightOf(weights, d), s), den + WeightOf(weights, d);
    }
    assert ALL[..|ALL|] == ALL;
    var n := CountSeries(series, fs);
    r := ScoreReport(if den > 0.0 then Round1(num / den) else 100.0, scores, n);
    ReportIs(r, weights, series, fs, impact);
  }

  method CountSeries(series: string, fs: seq<Finding>) returns (n: nat)
    ensures n == OfSeries(fs, series)
  {
    n := 0;
    for i := 0 to |fs|
      invariant n == OfSeries(fs[..i], series)
    {
      assert fs[..i + 1][..i] == fs[..i];
      if fs[i].series == series { n := n + 1; }
    }
    assert fs[..|fs|] == fs;
  }

  lemma NoDimensions(weights: map<Dimension, real>)
    ensures WeightSum(weights, ALL[..0]) == 0.0 && WeightedScores(weights, map[], ALL[..0]) == 0.0
  {
  }

  lemma OneMoreDimension(weights: map<Dimension, real>, scores: map<Dimension, real>, i: nat, s: real)
    requires i < |ALL| && scores.Keys == DimensionSet(ALL[..i])
    ensures var scores' := scores[ALL[i] := s];
            && scores'.Keys == DimensionSet(ALL[..i + 1])
            && (forall d :: d in ALL[..i] ==> d != ALL[i])
            && WeightSum(weights, ALL[..i + 1]) == WeightSum(weights, ALL[..i]) + WeightOf(weights, ALL[i])
            && WeightedScores(weights, scores', ALL[..i + 1])
               == WeightedScores(weights, scores, ALL[..i]) + Times(WeightOf(weights, ALL[i]), s)
  {
    assert ALL[..i + 1] == ALL[..i] + [ALL[i]];
    AddDimension(weights, scores, ALL[..i], ALL[i], s);
  }

  lemma AddDimension(weights: map<Dimension, real>, scores: map<Dimension, real>, ds: seq<Dimension>, d: Dimension,
                     s: real)
    requires scores.Keys == DimensionSet(ds) && d !in ds
    ensures var scores' := scores[d := s];
            && scores'.Keys == DimensionSet(ds + [d])
            && WeightSum(weights, ds + [d]) == WeightSum(weights, ds) + WeightOf(weights, d)
            && WeightedScores(weights, scores', ds + [d])
               == WeightedScores(weights, scores, ds) + Times(WeightOf(weights, d), s)
  {
    hide Times, WeightOf;
    assert (ds + [d])[..|ds|] == ds;
    WeightedScoresKeep(weights, scores, scores[d := s], ds);
  }

  lemma {:induction false} WeightedScoresKeep(weights: map<Dimension, real>, a: map<Dimension, real>,
                                              b: map<Dimension, real>, ds: seq<Dimension>)
    requires forall d :: d in ds ==> d in a && d in b && a[d] == b[d]
    ensures WeightedScores(weights, a, ds) == WeightedScores(weights, b, ds)
  {
    hide Times;
    if ds != [] {
      assert ds[|ds| - 1] in ds;
      WeightedScoresKeep(weights, a, b, ds[..|ds| - 1]);
    }
  }
}
