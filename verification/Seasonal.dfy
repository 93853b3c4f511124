// Classical decomposition (core/tabayyun-core/src/seasonal.rs) over exact reals: the centred moving
// average by prefix sums, the detrended series, and Hyndman's seasonal strength.
module Seasonal {
  import opened Arithmetic
  import opened Frame

  // ---- Sums over windows: the reference for the prefix sums ------------------------------------

  function Num(v: Value): real {
    if v.Fin? then v.x else 0.0
  }

  function One(v: Value): real {
    if v.Fin? then 1.0 else 0.0
  }

  // Sum of the finite values of [a, b).
  ghost function FiniteSum(values: seq<Value>, a: nat, b: nat): real
    requires a <= b <= |values|
  {
    if a == b then 0.0 else FiniteSum(values, a, b - 1) + Num(values[b - 1])
  }

  // How many values of [a, b) are finite.
  ghost function FiniteCount(values: seq<Value>, a: nat, b: nat): real
    requires a <= b <= |values|
  {
    if a == b then 0.0 else FiniteCount(values, a, b - 1) + One(values[b - 1])
  }

  lemma {:induction false} WindowFromPrefixes(values: seq<Value>, a: nat, b: nat)
    requires a <= b <= |values|
    ensures FiniteSum(values, a, b) == FiniteSum(values, 0, b) - FiniteSum(values, 0, a)
    ensures FiniteCount(values, a, b) == FiniteCount(values, 0, b) - FiniteCount(values, 0, a)
  {
    if a < b { WindowFromPrefixes(values, a, b - 1); }
  }

  // Weighted sum and weight of the window of `period` centred at i: an even period takes half of
  // both end points, so that it stays centred.
  ghost function WindowSum(values: seq<Value>, period: nat, i: nat): real
    requires period / 2 <= i < |values| - period / 2
  {
    var h := period / 2;
    if period % 2 == 1 then FiniteSum(values, i - h, i + h + 1)
    else if h == 0 then 0.0
    else FiniteSum(values, i - h + 1, i + h) + 0.5 * Num(values[i - h]) + 0.5 * Num(values[i + h])
  }

  ghost function WindowWeight(values: seq<Value>, period: nat, i: nat): real
    requires period / 2 <= i < |values| - period / 2
  {
    var h := period / 2;
    if period % 2 == 1 then FiniteCount(values, i - h, i + h + 1)
    else if h == 0 then 0.0
    else FiniteCount(values, i - h + 1, i + h) + 0.5 * One(values[i - h]) + 0.5 * One(values[i + h])
  }

  predicate Interior(n: nat, period: nat, i: int) {
    0 < period <= n && period / 2 <= i < n - period / 2
  }

  // The centred moving average: defined where the window fits and half of its weight is finite.
  ghost function CentredAverage(values: seq<Value>, period: nat, i: nat): Value
    requires i < |values|
  {
    if !Interior(|values|, period, i) then NaN
    else
      var w := WindowWeight(values, period, i);
      if w >= period as real / 2.0 then Fin(WindowSum(values, period, i) / w) else NaN
  }

  method MovingAverage(values: seq<Value>, period: nat) returns (out: seq<Value>)
    ensures |out| == |values|
    ensures forall i :: 0 <= i < |out| ==> out[i] == CentredAverage(values, period, i)
    ensures AreAverages(values, period, out)
  {
    hide CentredAverage, AreAverages, FiniteSum, FiniteCount, Num, One;
    var n := |values|;
    var slots := new Value[n](_ => NaN);
    if period == 0 || n < period {
      forall i | 0 <= i < n ensures CentredAverage(values, period, i) == NaN { OutsideIsNaN(values, period, i); }
      AveragesAreWeighted(values, period, slots[..]);
      return slots[..];
    }
    var ps, pc := PrefixSums(values);
    var h := period / 2;
    for i := 0 to n
      invariant forall j :: 0 <= j < i ==> slots[j] == CentredAverage(values, period, j)
      invariant forall j :: i <= j < n ==> slots[j] == NaN
    {
      if h <= i < n - h {
        var s, w := WindowTotals(values, period, i, ps, pc);
        if w >= period as real / 2.0 {
          slots[i] := Fin(s / w);
        }
      } else {
        OutsideIsNaN(values, period, i);
      }
    }
    out := slots[..];
    AveragesAreWeighted(values, period, out);
  }

  // Weighted sum and weight of the window centred at i, as differences of prefix sums.
  method WindowTotals(values: seq<Value>, period: nat, i: nat, ps: seq<real>, pc: seq<real>) returns (s: real, w: real)
    requires Interior(|values|, period, i) && |ps| == |pc| == |values| + 1
    requires forall j :: 0 <= j <= |values| ==> ps[j] == FiniteSum(values, 0, j) && pc[j] == FiniteCount(values, 0, j)
    ensures w >= period as real / 2.0 ==> w != 0.0
    ensures CentredAverage(values, period, i) == if w >= period as real / 2.0 then Fin(s / w) else NaN
  {
    hide CentredAverage, FiniteSum, FiniteCount, Num, One;
    var h := period / 2;
    var a, b := if period % 2 == 1 then i - h else i - h + 1, if period % 2 == 1 then i + h + 1 else i + h;
    s, w := ps[b] - ps[a], pc[b] - pc[a];
    if period % 2 == 0 {
      s, w := s + 0.5 * Num(values[i - h]), w + 0.5 * One(values[i - h]);
      s, w := s + 0.5 * Num(values[i + h]), w + 0.5 * One(values[i + h]);
    }
    WindowAt(values, period, i, a, b, s, w);
  }

  // Prefix sums of the finite values and of their count.
  method PrefixSums(values: seq<Value>) returns (ps: seq<real>, pc: seq<real>)
    ensures |ps| == |pc| == |values| + 1
    ensures forall j :: 0 <= j <= |values| ==> ps[j] == FiniteSum(values, 0, j) && pc[j] == FiniteCount(values, 0, j)
  {
    hide FiniteSum, FiniteCount, Num, One;
    var n := |values|;
    var s, c := new real[n + 1](_ => 0.0), new real[n + 1](_ => 0.0);
    NoSum(values);
    for i := 0 to n
      invariant forall j :: 0 <= j <= i ==> s[j] == FiniteSum(values, 0, j)
      invariant forall j :: 0 <= j <= i ==> c[j] == FiniteCount(values, 0, j)
    {
      s[i + 1] := s[i] + Num(values[i]);
      c[i + 1] := c[i] + One(values[i]);
      NextSum(values, i);
    }
    ps, pc := s[..], c[..];
  }

  lemma NoSum(values: seq<Value>)
    ensures FiniteSum(values, 0, 0) == 0.0 && FiniteCount(values, 0, 0) == 0.0
  {
  }

  lemma NextSum(values: seq<Value>, i: nat)
    requires i < |values|
    ensures FiniteSum(values, 0, i + 1) == FiniteSum(values, 0, i) + Num(values[i])
    ensures FiniteCount(values, 0, i + 1) == FiniteCount(values, 0, i) + One(values[i])
  {
  }

  lemma OutsideIsNaN(values: seq<Value>, period: nat, i: nat)
    requires i < |values| && !Interior(|values|, period, i)
    ensures CentredAverage(values, period, i) == NaN
  {
  }

  // Differences of prefix sums give the centred window.
  lemma WindowAt(values: seq<Value>, period: nat, i: nat, a: nat, b: nat, s: real, w: real)
    requires Interior(|values|, period, i)
    requires var h := period / 2;
             && a == (if period % 2 == 1 then i - h else i - h + 1)
             && b == (if period % 2 == 1 then i + h + 1 else i + h)
             && s == FiniteSum(values, 0, b) - FiniteSum(values, 0, a)
                   + (if period % 2 == 0 then 0.5 * Num(values[i - h]) + 0.5 * Num(values[i + h]) else 0.0)
             && w == FiniteCount(values, 0, b) - FiniteCount(values, 0, a)
                   + (if period % 2 == 0 then 0.5 * One(values[i - h]) + 0.5 * One(values[i + h]) else 0.0)
    ensures w >= period as real / 2.0 ==> w != 0.0
    ensures CentredAverage(values, period, i) == if w >= period as real / 2.0 then Fin(s / w) else NaN
  {
    hide FiniteSum, FiniteCount, Num, One;
    WindowFromPrefixes(values, a, b);
    assert s == WindowSum(values, period, i);
    assert w == WindowWeight(values, period, i);
  }

  // ---- The average as a weighted mean ----------------------------------------------------------

  // The weight of the value k steps from the centre: 1 inside the window, half of it at both ends of an
  // even period.
  function Weight(period: nat, k: int): real {
    var far := if k < 0 then -k else k;
    if 2 * far < period then 1.0 else if 2 * far == period then 0.5 else 0.0
  }

  // Weighted sum and weight of the finite values of [a, b), for a window centred at i.
  ghost function Weighted(values: seq<Value>, period: nat, i: nat, a: nat, b: nat): real
    requires a <= b <= |values|
  {
    if a == b then 0.0
    else
      Weighted(values, period, i, a, b - 1)
      + (if values[b - 1].Fin? then Weight(period, b - 1 - i) * values[b - 1].x else 0.0)
  }

  ghost function WeightIn(values: seq<Value>, period: nat, i: nat, a: nat, b: nat): real
    requires a <= b <= |values|
  {
    if a == b then 0.0
    else WeightIn(values, period, i, a, b - 1) + (if values[b - 1].Fin? then Weight(period, b - 1 - i) else 0.0)
  }

  // v is the centred moving average of index i: the weighted mean of the finite values, where the
  // whole window lies in the series and at least half of its weight, the period, is finite.
  ghost predicate IsAverage(values: seq<Value>, period: nat, i: nat, v: Value)
    requires i < |values|
  {
    var w := WeightIn(values, period, i, 0, |values|);
    if 0 < period <= |values| && period / 2 <= i < |values| - period / 2 && 2.0 * w >= period as real then
      v.Fin? && v.x * w == Weighted(values, period, i, 0, |values|)
    else
      v == NaN
  }

  ghost predicate AreAverages(values: seq<Value>, period: nat, trend: seq<Value>) {
    |trend| == |values| && forall i :: 0 <= i < |values| ==> IsAverage(values, period, i, trend[i])
  }

  // Outside the window nothing has weight.
  lemma {:induction false} NoWeight(values: seq<Value>, period: nat, i: nat, a: nat, b: nat)
    requires a <= b <= |values| && (b <= i - period / 2 || i + period / 2 < a)
    ensures Weighted(values, period, i, a, b) == 0.0 && WeightIn(values, period, i, a, b) == 0.0
  {
    if a < b { NoWeight(values, period, i, a, b - 1); }
  }

  // Inside it every value has weight 1.
  lemma {:induction false} FullWeight(values: seq<Value>, period: nat, i: nat, a: nat, b: nat)
    requires a <= b <= |values| && 2 * (i - a) < period && 2 * (b - 1 - i) < period
    ensures Weighted(values, period, i, a, b) == FiniteSum(values, a, b)
    ensures WeightIn(values, period, i, a, b) == FiniteCount(values, a, b)
  {
    if a < b { FullWeight(values, period, i, a, b - 1); }
  }

  lemma {:induction false} WeightedSplit(values: seq<Value>, period: nat, i: nat, a: nat, m: nat, b: nat)
    requires a <= m <= b <= |values|
    ensures Weighted(values, period, i, a, b) == Weighted(values, period, i, a, m) + Weighted(values, period, i, m, b)
    ensures WeightIn(values, period, i, a, b) == WeightIn(values, period, i, a, m) + WeightIn(values, period, i, m, b)
  {
    hide Weight;
    if m < b { WeightedSplit(values, period, i, a, m, b - 1); }
  }

  lemma HalfWeight(values: seq<Value>, period: nat, i: nat, j: nat)
    requires j < |values| && (2 * (j - i) == period || 2 * (i - j) == period)
    ensures Weighted(values, period, i, j, j + 1) == 0.5 * Num(values[j])
    ensures WeightIn(values, period, i, j, j + 1) == 0.5 * One(values[j])
  {
    assert Weighted(values, period, i, j, j) == 0.0 && WeightIn(values, period, i, j, j) == 0.0;
  }

  lemma WindowIsWeighted(values: seq<Value>, period: nat, i: nat)
    requires 0 < period && period / 2 <= i < |values| - period / 2
    ensures Weighted(values, period, i, 0, |values|) == WindowSum(values, period, i)
    ensures WeightIn(values, period, i, 0, |values|) == WindowWeight(values, period, i)
  {
    hide Weighted, WeightIn, FiniteSum, FiniteCount, Num, One;
    var n, a, b := |values|, i - period / 2, i + period / 2 + 1;
    WeightedSplit(values, period, i, 0, a, n);
    WeightedSplit(values, period, i, a, b, n);
    NoWeight(values, period, i, 0, a);
    NoWeight(values, period, i, b, n);
    if period % 2 == 1 {
      FullWeight(values, period, i, a, b);
    } else {
      WeightedSplit(values, period, i, a, a + 1, b);
      WeightedSplit(values, period, i, a + 1, b - 1, b);
      HalfWeight(values, period, i, a);
      HalfWeight(values, period, i, b - 1);
      FullWeight(values, period, i, a + 1, b - 1);
    }
  }

  lemma AverageIsWeighted(values: seq<Value>, period: nat, i: nat)
    requires i < |values|
    ensures IsAverage(values, period, i, CentredAverage(values, period, i))
  {
    hide Weighted, WeightIn, WindowSum, WindowWeight;
    if Interior(|values|, period, i) {
      WindowIsWeighted(values, period, i);
      var w := WindowWeight(values, period, i);
      if w >= period as real / 2.0 { QuotientTimesBack(WindowSum(values, period, i), w); }
    }
  }

  lemma AveragesAreWeighted(values: seq<Value>, period: nat, out: seq<Value>)
    requires |out| == |values| && forall i :: 0 <= i < |out| ==> out[i] == CentredAverage(values, period, i)
    ensures AreAverages(values, period, out)
  {
    hide IsAverage, CentredAverage;
    forall i | 0 <= i < |values| ensures IsAverage(values, period, i, CentredAverage(values, period, i)) {
      AverageIsWeighted(values, period, i);
    }
  }

  lemma QuotientTimesBack(x: real, w: real)
    requires w != 0.0
    ensures x / w * w == x
  {
  }

  // ---- Detrending -----------------------------------------------------------------------

  // f64 subtraction: not finite unless both sides are.
  function Minus(v: Value, t: Value): Value {
    if v.Fin? && t.Fin? then Fin(v.x - t.x)
    else if v.Inf? && t.Fin? then v
    else if v.Fin? && t.Inf? then Inf(!t.positive)
    else if v.Inf? && t.Inf? && v.positive != t.positive then v
    else NaN
  }

  ghost function Detrended(values: seq<Value>, period: nat): (d: seq<Value>)
    ensures |d| == |values|
  {
    seq(|values|, i requires 0 <= i < |values| => Minus(values[i], CentredAverage(values, period, i)))
  }

  // d is the series without its trend: finite values lose the average, an infinity stays one, and
  // nothing is left where there is no value or no average.
  ghost predicate IsDetrended(values: seq<Value>, trend: seq<Value>, d: seq<Value>) {
    && |d| == |trend| == |values|
    && forall i :: 0 <= i < |d| ==>
         if values[i] == NaN || !trend[i].Fin? then d[i] == NaN
         else if values[i].Inf? then d[i] == values[i]
         else d[i] == Fin(values[i].x - trend[i].x)
  }

  method Detrend(values: seq<Value>, period: nat) returns (d: seq<Value>)
    ensures d == Detrended(values, period)
    ensures exists trend :: AreAverages(values, period, trend) && IsDetrended(values, trend, d)
  {
    hide CentredAverage;
    var trend := MovingAverage(values, period);
    d := seq(|values|, i requires 0 <= i < |values| => Minus(values[i], trend[i]));
    NeverInfinite(values, period, trend);
    assert IsDetrended(values, trend, d);
  }

  lemma NeverInfinite(values: seq<Value>, period: nat, trend: seq<Value>)
    requires AreAverages(values, period, trend)
    ensures forall i :: 0 <= i < |values| ==> !trend[i].Inf?
  {
    hide Weighted, WeightIn;
  }

  // ---- A straight line plus a pattern -----------------------------------------------------

  // Position of an index within its period.
  function Phase(i: nat, p: nat): (q: nat)
    requires p > 0
    ensures q < p
  {
    i % p
  }

  lemma PhaseOfSmall(i: nat, p: nat)
    requires i < p
    ensures Phase(i, p) == i
  {
  }

  ghost predicate LinePlusPattern(values: seq<Value>, a: real, b: real, pat: seq<real>) {
    pat != [] && forall i :: 0 <= i < |values| ==> values[i] == Fin(a + b * i as real + pat[Phase(i, |pat|)])
  }

  function Sum(xs: seq<real>): real {
    if xs == [] then 0.0 else Sum(xs[..|xs| - 1]) + xs[|xs| - 1]
  }

  function Mean(xs: seq<real>): real
    requires xs != []
  {
    Sum(xs) / |xs| as real
  }

  // Sum of the repeated pattern over the indices [lo, hi).
  ghost function PatternSum(pat: seq<real>, lo: nat, hi: nat): real
    requires pat != [] && lo <= hi
  {
    if lo == hi then 0.0 else PatternSum(pat, lo, hi - 1) + pat[Phase(hi - 1, |pat|)]
  }

  lemma {:induction false} PatternSumSplit(pat: seq<real>, lo: nat, mid: nat, hi: nat)
    requires pat != [] && lo <= mid <= hi
    ensures PatternSum(pat, lo, hi) == PatternSum(pat, lo, mid) + PatternSum(pat, mid, hi)
  {
    hide Phase;
    if mid < hi { PatternSumSplit(pat, lo, mid, hi - 1); }
  }

  lemma {:induction false} FirstPeriod(pat: seq<real>, k: nat)
    requires pat != [] && k <= |pat|
    ensures PatternSum(pat, 0, k) == Sum(pat[..k])
  {
    if k > 0 {
      hide Phase;
      FirstPeriod(pat, k - 1);
      assert pat[..k][..k - 1] == pat[..k - 1];
      PhaseOfSmall(k - 1, |pat|);
    }
  }

  lemma SamePhase(i: nat, p: nat)
    requires p > 0
    ensures Phase(i + p, p) == Phase(i, p)
  {
    var q, r := i / p, i % p;
    assert i + p == (q + 1) * p + r;
    ModuloUnique(i + p, p, q + 1, r);
  }

  // Any |pat| consecutive indices sum the whole pattern.
  lemma {:induction false} WholePeriod(pat: seq<real>, lo: nat)
    requires pat != []
    ensures PatternSum(pat, lo, lo + |pat|) == Sum(pat)
  {
    hide Phase;
    if lo == 0 {
      FirstPeriod(pat, |pat|);
      assert pat[..|pat|] == pat;
    } else {
      WholePeriod(pat, lo - 1);
      SamePhase(lo - 1, |pat|);
      PatternSumSplit(pat, lo - 1, lo, lo + |pat|);
      assert PatternSum(pat, lo - 1, lo) == pat[Phase(lo - 1, |pat|)];
    }
  }

  // Sum of the indices [lo, hi).
  ghost function IndexSum(lo: nat, hi: nat): int
    requires lo <= hi
  {
    if lo == hi then 0 else IndexSum(lo, hi - 1) + (hi - 1)
  }

  lemma {:induction false} IndexSumClosed(lo: nat, hi: nat)
    requires lo <= hi
    ensures 2 * IndexSum(lo, hi) == (hi - lo) * (lo + hi - 1)
  {
    if lo < hi { IndexSumClosed(lo, hi - 1); }
  }

  // A line summed over n indices that add up to k.
  function LineSum(a: real, b: real, n: int, k: int): real {
    a * n as real + b * k as real
  }

  lemma OneMoreTerm(a: real, b: real, n: real, k: real, t: real)
    ensures a * (n + 1.0) == a * n + a
    ensures b * (k + t) == b * k + b * t
  {
  }

  lemma {:induction false} LineWindow(values: seq<Value>, a: real, b: real, pat: seq<real>, lo: nat, hi: nat)
    requires LinePlusPattern(values, a, b, pat) && lo <= hi <= |values|
    ensures FiniteCount(values, lo, hi) == (hi - lo) as real
    ensures FiniteSum(values, lo, hi)
         == LineSum(a, b, hi - lo, IndexSum(lo, hi)) + PatternSum(pat, lo, hi)
  {
    hide Phase;
    if lo < hi {
      LineWindow(values, a, b, pat, lo, hi - 1);
      var n, k, t := (hi - 1 - lo) as real, IndexSum(lo, hi - 1) as real, (hi - 1) as real;
      assert values[hi - 1] == Fin(a + b * t + pat[Phase(hi - 1, |pat|)]);
      OneMoreTerm(a, b, n, k, t);
      hide LinePlusPattern;
    }
  }

  // On the interior the moving average of one period removes the pattern and keeps the line.
  lemma AverageIsTheLine(values: seq<Value>, a: real, b: real, pat: seq<real>, i: nat)
    requires LinePlusPattern(values, a, b, pat) && Interior(|values|, |pat|, i)
    ensures CentredAverage(values, |pat|, i) == Fin(a + b * i as real + Mean(pat))
  {
    hide WindowSum, WindowWeight, Sum, LinePlusPattern;
    var p := |pat|;
    if p % 2 == 1 {
      OddWindow(values, a, b, pat, i);
    } else {
      EvenWindow(values, a, b, pat, i);
    }
    AverageOf(a, b * i as real, Sum(pat), p as real);
    assert p as real >= p as real / 2.0;
  }

  lemma AverageOf(a: real, t: real, s: real, p: real)
    requires p > 0.0
    ensures (a * p + t * p + s) / p == a + t + s / p
  {
    assert (a + t) * p == a * p + t * p;
    assert (a + t + s / p) * p == a * p + t * p + s;
  }

  lemma OddIndexSum(i: nat, h: nat)
    requires h <= i
    ensures IndexSum(i - h, i + h + 1) == (2 * h + 1) * i
    ensures h > 0 ==> IndexSum(i - h + 1, i + h) == (2 * h - 1) * i
  {
    IndexSumClosed(i - h, i + h + 1);
    assert 2 * IndexSum(i - h, i + h + 1) == (2 * h + 1) * (2 * i);
    if h > 0 {
      IndexSumClosed(i - h + 1, i + h);
      assert 2 * IndexSum(i - h + 1, i + h) == (2 * h - 1) * (2 * i);
    }
  }

  lemma OddWindow(values: seq<Value>, a: real, b: real, pat: seq<real>, i: nat)
    requires LinePlusPattern(values, a, b, pat) && Interior(|values|, |pat|, i) && |pat| % 2 == 1
    ensures WindowWeight(values, |pat|, i) == |pat| as real
    ensures WindowSum(values, |pat|, i) == a * |pat| as real + b * i as real * |pat| as real + Sum(pat)
  {
    hide FiniteSum, FiniteCount, PatternSum, IndexSum, Sum, LinePlusPattern;
    var p, h := |pat|, |pat| / 2;
    assert p == 2 * h + 1 && i + h + 1 == (i - h) + p;
    LineWindow(values, a, b, pat, i - h, i + h + 1);
    WholePeriod(pat, i - h);
    OddIndexSum(i, h);
    Reorder(b, i, p);
  }

  lemma Reorder(b: real, i: nat, p: nat)
    ensures b * (p * i) as real == b * i as real * p as real
  {
    assert (p * i) as real == i as real * p as real;
  }

  // The two half-weight ends of an even window share one phase.
  lemma EvenEnds(values: seq<Value>, a: real, b: real, pat: seq<real>, lo: nat, hi: nat)
    requires LinePlusPattern(values, a, b, pat) && hi == lo + |pat| && hi < |values|
    ensures values[lo] == Fin(a + b * lo as real + pat[Phase(lo, |pat|)])
    ensures values[hi] == Fin(a + b * hi as real + pat[Phase(lo, |pat|)])
  {
    SamePhase(lo, |pat|);
    hide Phase;
  }

  lemma EvenWindow(values: seq<Value>, a: real, b: real, pat: seq<real>, i: nat)
    requires LinePlusPattern(values, a, b, pat) && Interior(|values|, |pat|, i) && |pat| % 2 == 0
    ensures WindowWeight(values, |pat|, i) == |pat| as real
    ensures WindowSum(values, |pat|, i) == a * |pat| as real + b * i as real * |pat| as real + Sum(pat)
  {
    hide FiniteSum, FiniteCount, IndexSum, Sum, LinePlusPattern, Phase, LineSum;
    var h := |pat| / 2;
    assert |pat| == 2 * h;
    var lo, hi := i - h, i + h;
    EvenEnds(values, a, b, pat, lo, hi);
    var fs := InnerWindow(values, a, b, pat, lo, hi);
    OddIndexSum(i, h);
    EvenAlgebra(a, b, i, h, pat[Phase(lo, |pat|)], Sum(pat), fs);
  }

  lemma PatternTail(pat: seq<real>, lo: nat, hi: nat)
    requires pat != [] && hi == lo + |pat|
    ensures PatternSum(pat, lo + 1, hi) == Sum(pat) - pat[Phase(lo, |pat|)]
  {
    hide Phase, Sum;
    WholePeriod(pat, lo);
    PatternSumSplit(pat, lo, lo + 1, hi);
    assert PatternSum(pat, lo, lo + 1) == pat[Phase(lo, |pat|)];
  }

  // The full-weight part of an even window.
  lemma InnerWindow(values: seq<Value>, a: real, b: real, pat: seq<real>, lo: nat, hi: nat) returns (fs: real)
    requires LinePlusPattern(values, a, b, pat) && hi == lo + |pat| && hi < |values|
    ensures lo + 1 <= hi
    ensures fs == FiniteSum(values, lo + 1, hi) && FiniteCount(values, lo + 1, hi) == (hi - (lo + 1)) as real
    ensures fs == LineSum(a, b, hi - (lo + 1), IndexSum(lo + 1, hi)) + (Sum(pat) - pat[Phase(lo, |pat|)])
  {
    assert pat != [];
    hide FiniteSum, FiniteCount, IndexSum, Sum, LinePlusPattern, Phase, PatternSum, LineSum;
    fs := FiniteSum(values, lo + 1, hi);
    PatternTail(pat, lo, hi);
    LineWindow(values, a, b, pat, lo + 1, hi);
  }

  lemma EvenAlgebra(a: real, b: real, i: nat, h: nat, x: real, s: real, fs: real)
    requires 0 < h <= i && fs == LineSum(a, b, 2 * h - 1, (2 * h - 1) * i) + (s - x)
    ensures fs + 0.5 * (a + b * (i - h) as real + x) + 0.5 * (a + b * (i + h) as real + x)
         == a * (2 * h) as real + b * i as real * (2 * h) as real + s
  {
    var hh, ii := h as real, i as real;
    assert (2 * h - 1) as real == 2.0 * hh - 1.0 && (i - h) as real == ii - hh && (i + h) as real == ii + hh;
    assert ((2 * h - 1) * i) as real == (2.0 * hh - 1.0) * ii;
    assert b * (ii - hh) == b * ii - b * hh && b * (ii + hh) == b * ii + b * hh;
    assert a * (2.0 * hh - 1.0) == a * (2.0 * hh) - a;
    assert b * ((2.0 * hh - 1.0) * ii) == b * ii * (2.0 * hh) - b * ii;
  }

  // Detrending returns the centred pattern on the interior and nothing elsewhere.
  lemma DetrendIsThePattern(values: seq<Value>, a: real, b: real, pat: seq<real>)
    requires LinePlusPattern(values, a, b, pat)
    ensures forall i :: 0 <= i < |values| ==>
              Detrended(values, |pat|)[i]
              == if Interior(|values|, |pat|, i) then Fin(pat[Phase(i, |pat|)] - Mean(pat)) else NaN
  {
    forall i | 0 <= i < |values|
      ensures Detrended(values, |pat|)[i]
      == if Interior(|values|, |pat|, i) then Fin(pat[Phase(i, |pat|)] - Mean(pat)) else NaN
    {
      DetrendedAt(values, a, b, pat, i);
    }
  }

  lemma DetrendedAt(values: seq<Value>, a: real, b: real, pat: seq<real>, i: nat)
    requires LinePlusPattern(values, a, b, pat) && i < |values|
    ensures Minus(values[i], CentredAverage(values, |pat|, i))
         == if Interior(|values|, |pat|, i) then Fin(pat[Phase(i, |pat|)] - Mean(pat)) else NaN
  {
    hide CentredAverage, Mean;
    if Interior(|values|, |pat|, i) {
      AverageIsTheLine(values, a, b, pat, i);
    } else {
      OutsideIsNaN(values, |pat|, i);
    }
  }
}
