// Hyndman's seasonal strength of core/tabayyun-core/src/seasonal.rs over exact reals: phase means,
// residuals and variances, the law of total variance behind the strength's range, and the
// strength of an exactly periodic series.
module Strength {
  import opened Arithmetic
  import opened Frame
  import opened Seasonal

  // f64::EPSILON, 2^-52.
  const EPSILON: real := 1.0 / 4503599627370496.0

  // ---- Moments of a list ------------------------------------------------------------------

  function SumSq(xs: seq<real>, m: real): real {
    if xs == [] then 0.0
    else SumSq(xs[..|xs| - 1], m) + (xs[|xs| - 1] - m) * (xs[|xs| - 1] - m)
  }

  function Var(xs: seq<real>): real
    requires xs != []
  {
    SumSq(xs, Mean(xs)) / |xs| as real
  }

  function Abs(x: real): real {
    if x < 0.0 then -x else x
  }

  function MaxAbs(xs: seq<real>): (m: real)
    ensures m >= 0.0 && forall i :: 0 <= i < |xs| ==> Abs(xs[i]) <= m
  {
    if xs == [] then 0.0
    else
      var m, a := MaxAbs(xs[..|xs| - 1]), Abs(xs[|xs| - 1]);
      if a > m then a else m
  }

  // Variance at or below this is taken for none.
  function NoVariance(xs: seq<real>): real {
    EPSILON * ((1.0 + MaxAbs(xs)) * (1.0 + MaxAbs(xs)))
  }

  // ---- Phases ----------------------------------------------------------------------------

  // Sum and number of the finite values of phase q among the first n.
  function PhaseSum(d: seq<Value>, p: nat, q: nat, n: nat): real
    requires p > 0 && n <= |d|
  {
    if n == 0 then 0.0 else PhaseSum(d, p, q, n - 1) + (if Phase(n - 1, p) == q then Num(d[n - 1]) else 0.0)
  }

  function PhaseCount(d: seq<Value>, p: nat, q: nat, n: nat): nat
    requires p > 0 && n <= |d|
  {
    if n == 0 then 0 else PhaseCount(d, p, q, n - 1) + (if Phase(n - 1, p) == q && d[n - 1].Fin? then 1 else 0)
  }

  // The finite values among the first n, and the same with a per-phase component s taken off.
  function Finites(d: seq<Value>, n: nat): seq<real>
    requires n <= |d|
  {
    if n == 0 then []
    else if d[n - 1].Fin? then Finites(d, n - 1) + [d[n - 1].x]
    else Finites(d, n - 1)
  }

  function Residuals(d: seq<Value>, s: seq<real>, n: nat): seq<real>
    requires s != [] && n <= |d|
  {
    if n == 0 then []
    else if d[n - 1].Fin? then Residuals(d, s, n - 1) + [d[n - 1].x - s[Phase(n - 1, |s|)]]
    else Residuals(d, s, n - 1)
  }

  predicate EveryPhase(d: seq<Value>, p: nat)
    requires p > 0
  {
    forall q :: 0 <= q < p ==> PhaseCount(d, p, q, |d|) > 0
  }

  function PhaseMeans(d: seq<Value>, p: nat): (g: seq<real>)
    requires p > 0 && EveryPhase(d, p)
    ensures |g| == p
  {
    seq(p, q requires 0 <= q < p => PhaseSum(d, p, q, |d|) / PhaseCount(d, p, q, |d|) as real)
  }

  function Centred(g: seq<real>): (s: seq<real>)
    requires g != []
    ensures |s| == |g|
  {
    seq(|g|, q requires 0 <= q < |g| => g[q] - Mean(g))
  }

  // The strength of detrended values d, before clamping; None with too few values.
  function RawStrength(d: seq<Value>, p: nat): Option<real> {
    if p < 2 || |Finites(d, |d|)| < 2 * p || !EveryPhase(d, p) then None
    else
      var total := Var(Finites(d, |d|));
      if total <= NoVariance(Finites(d, |d|)) then Some(0.0)
      else
        assert total > 0.0;
        ResidualsLength(d, Centred(PhaseMeans(d, p)), |d|);
        Some(1.0 - Var(Residuals(d, Centred(PhaseMeans(d, p)), |d|)) / total)
  }

  lemma {:induction false} ResidualsLength(d: seq<Value>, s: seq<real>, n: nat)
    requires s != [] && n <= |d|
    ensures |Residuals(d, s, n)| == |Finites(d, n)|
  {
    if n > 0 { ResidualsLength(d, s, n - 1); }
  }

  method SeasonalStrength(values: seq<Value>, period: nat) returns (r: Option<real>)
    ensures var raw := RawStrength(Detrended(values, period), period);
            r == if raw.Some? then Some(Clamp01(raw.value)) else None
    ensures r.None? <==> TooFew(Detrended(values, period), period)
    ensures r.Some? ==> IsStrength(Detrended(values, period), period, r.value)
  {
    StrengthIs(Detrended(values, period), period);
    hide TooFew, IsStrength;
    hide Var, NoVariance, EveryPhase, PhaseMeans, Centred, Phase, Detrended;
    if period < 2 {
      return None;
    }
    var d := Detrend(values, period);
    var finite := 0;
    for i := 0 to |d|
      invariant finite == |Finites(d, i)|
    {
      if d[i].Fin? { finite := finite + 1; }
    }
    if finite < 2 * period {
      return None;
    }
    var s, full := PhaseComponent(d, period);
    if !full {
      return None;
    }
    var sr, res := [], [];
    for i := 0 to |d|
      invariant sr == Finites(d, i) && res == Residuals(d, s, i)
    {
      if d[i].Fin? {
        sr, res := sr + [d[i].x], res + [d[i].x - s[Phase(i, period)]];
      }
    }
    var total := Var(sr);
    if total <= NoVariance(sr) {
      return Some(0.0);
    }
    PositiveThreshold(sr);
    ResidualsLength(d, s, |d|);
    r := Some(Clamp01(1.0 - Var(res) / total));
  }

  // The centred mean of every phase; not full when a phase has no value.
  method PhaseComponent(d: seq<Value>, period: nat) returns (s: seq<real>, full: bool)
    requires period > 0
    ensures full == EveryPhase(d, period)
    ensures full ==> s == Centred(PhaseMeans(d, period))
  {
    var sums, counts := new real[period](_ => 0.0), new nat[period](_ => 0);
    for i := 0 to |d|
      invariant forall q :: 0 <= q < period ==> sums[q] == PhaseSum(d, period, q, i)
      invariant forall q :: 0 <= q < period ==> counts[q] == PhaseCount(d, period, q, i)
    {
      if d[i].Fin? {
        sums[Phase(i, period)] := sums[Phase(i, period)] + d[i].x;
        counts[Phase(i, period)] := counts[Phase(i, period)] + 1;
      }
    }
    full := forall q :: 0 <= q < period ==> counts[q] != 0;
    s := [];
    if full {
      var n, c := counts[..], sums[..];
      var means := seq(period, q requires 0 <= q < period && |n| == |c| == period && n[q] != 0 => c[q] / n[q] as real);
      assert means == PhaseMeans(d, period);
      s := Centred(means);
    }
  }

  // ---- The law of total variance ---------------------------------------------------------------

  // (x - g[phase]) * k[phase] of value i, 0 when it is not finite.
  ghost function Deviation(d: seq<Value>, g: seq<real>, k: seq<real>, i: nat): real
    requires |k| == |g| > 0 && i < |d|
  {
    if d[i].Fin? then (d[i].x - g[Phase(i, |g|)]) * k[Phase(i, |g|)] else 0.0
  }

  ghost function Cross(d: seq<Value>, g: seq<real>, k: seq<real>, n: nat): real
    requires |k| == |g| > 0 && n <= |d|
  {
    if n == 0 then 0.0 else Cross(d, g, k, n - 1) + Deviation(d, g, k, n - 1)
  }

  // (g[phase] - m)^2 of value i, 0 when it is not finite; their sum is the variance between phases.
  ghost function Gap(d: seq<Value>, g: seq<real>, m: real, i: nat): (e: real)
    requires g != [] && i < |d|
    ensures e >= 0.0
  {
    var e := g[Phase(i, |g|)] - m;
    assert e * e >= 0.0;
    if d[i].Fin? then e * e else 0.0
  }

  ghost function Between(d: seq<Value>, g: seq<real>, m: real, n: nat): (b: real)
    requires g != [] && n <= |d|
    ensures b >= 0.0
  {
    if n == 0 then 0.0 else Between(d, g, m, n - 1) + Gap(d, g, m, n - 1)
  }

  // The same sum, phase by phase: phase q adds k[q] times its deviation from g[q].
  ghost function PhaseTerms(d: seq<Value>, g: seq<real>, k: seq<real>, n: nat, q: nat): real
    requires |k| == |g| > 0 && n <= |d| && q <= |g|
  {
    if q == 0 then 0.0
    else
      PhaseTerms(d, g, k, n, q - 1)
      + k[q - 1] * (PhaseSum(d, |g|, q - 1, n) - g[q - 1] * PhaseCount(d, |g|, q - 1, n) as real)
  }

  // One more value changes the term of its own phase only.
  lemma {:induction false} PhaseTermsStep(d: seq<Value>, g: seq<real>, k: seq<real>, n: nat, q: nat)
    requires |k| == |g| > 0 && n < |d| && q <= |g|
    ensures PhaseTerms(d, g, k, n + 1, q) - PhaseTerms(d, g, k, n, q)
         == if Phase(n, |g|) < q then Deviation(d, g, k, n) else 0.0
  {
    hide Phase;
    if q > 0 {
      PhaseTermsStep(d, g, k, n, q - 1);
      var s, c := PhaseSum(d, |g|, q - 1, n), PhaseCount(d, |g|, q - 1, n) as real;
      if Phase(n, |g|) == q - 1 && d[n].Fin? {
        TermAlgebra(k[q - 1], s, c, g[q - 1], d[n].x);
      }
    }
  }

  lemma TermAlgebra(k: real, s: real, c: real, g: real, x: real)
    ensures k * (s + x - g * (c + 1.0)) - k * (s - g * c) == (x - g) * k
  {
    assert g * (c + 1.0) == g * c + g;
    assert k * (s + x - g * (c + 1.0)) == k * (s - g * c) + k * (x - g);
  }

  lemma {:induction false} CrossByPhase(d: seq<Value>, g: seq<real>, k: seq<real>, n: nat)
    requires |k| == |g| > 0 && n <= |d|
    ensures Cross(d, g, k, n) == PhaseTerms(d, g, k, n, |g|)
  {
    hide Phase, PhaseTerms, Deviation;
    if n == 0 {
      NoTerms(d, g, k, |g|);
    } else {
      CrossByPhase(d, g, k, n - 1);
      PhaseTermsStep(d, g, k, n - 1, |g|);
    }
  }

  lemma {:induction false} NoTerms(d: seq<Value>, g: seq<real>, k: seq<real>, q: nat)
    requires |k| == |g| > 0 && q <= |g|
    ensures PhaseTerms(d, g, k, 0, q) == 0.0
  {
    if q > 0 { NoTerms(d, g, k, q - 1); }
  }

  lemma {:induction false} MeansCancel(d: seq<Value>, p: nat, k: seq<real>, q: nat)
    requires p > 0 && EveryPhase(d, p) && |k| == p && q <= p
    ensures PhaseTerms(d, PhaseMeans(d, p), k, |d|, q) == 0.0
  {
    if q > 0 {
      MeansCancel(d, p, k, q - 1);
      var s, c := PhaseSum(d, p, q - 1, |d|), PhaseCount(d, p, q - 1, |d|) as real;
      assert PhaseMeans(d, p)[q - 1] * c == s;
    }
  }

  // Deviations from the phase means are orthogonal to everything that depends on the phase only.
  lemma PhaseMeansOrthogonal(d: seq<Value>, p: nat, k: seq<real>)
    requires p > 0 && EveryPhase(d, p) && |k| == p
    ensures Cross(d, PhaseMeans(d, p), k, |d|) == 0.0
  {
    CrossByPhase(d, PhaseMeans(d, p), k, |d|);
    MeansCancel(d, p, k, p);
  }

  lemma {:induction false} SquaresSplit(d: seq<Value>, g: seq<real>, m: real, k: seq<real>, n: nat)
    requires |k| == |g| > 0 && n <= |d| && forall q :: 0 <= q < |g| ==> k[q] == g[q] - m
    ensures SumSq(Finites(d, n), m)
         == SumSq(Residuals(d, g, n), 0.0) + Between(d, g, m, n) + 2.0 * Cross(d, g, k, n)
  {
    hide Phase, Gap, Deviation;
    if n > 0 {
      SquaresSplit(d, g, m, k, n - 1);
      SquareStep(d, g, m, k, n - 1);
    }
  }

  lemma SquareStep(d: seq<Value>, g: seq<real>, m: real, k: seq<real>, i: nat)
    requires |k| == |g| > 0 && i < |d| && forall q :: 0 <= q < |g| ==> k[q] == g[q] - m
    ensures SumSq(Finites(d, i + 1), m) - SumSq(Finites(d, i), m)
         == SumSq(Residuals(d, g, i + 1), 0.0) - SumSq(Residuals(d, g, i), 0.0)
          + Gap(d, g, m, i) + 2.0 * Deviation(d, g, k, i)
  {
    hide Phase, SumSq;
    if d[i].Fin? {
      var x, y := d[i].x, g[Phase(i, |g|)];
      assert k[Phase(i, |g|)] == y - m;
      SumSqMore(Finites(d, i), x, m);
      SumSqMore(Residuals(d, g, i), x - y, 0.0);
      SquareAlgebra(x, y, m);
      assert Gap(d, g, m, i) == (y - m) * (y - m) && Deviation(d, g, k, i) == (x - y) * (y - m);
    }
  }

  lemma SumSqMore(xs: seq<real>, x: real, m: real)
    ensures SumSq(xs + [x], m) == SumSq(xs, m) + (x - m) * (x - m)
  {
    assert (xs + [x])[..|xs|] == xs;
  }

  lemma SumMore(xs: seq<real>, x: real)
    ensures Sum(xs + [x]) == Sum(xs) + x
  {
    assert (xs + [x])[..|xs|] == xs;
  }

  lemma SquareAlgebra(x: real, y: real, m: real)
    ensures (x - m) * (x - m) == (x - y) * (x - y) + (y - m) * (y - m) + 2.0 * ((x - y) * (y - m))
  {
    var a, b := x - y, y - m;
    assert x - m == a + b;
    assert (a + b) * (a + b) == a * a + b * b + 2.0 * (a * b);
  }

  // Residuals around the centred phase means: their sum and squares are those around the phase
  // means themselves, shifted by the centre c.
  lemma {:induction false} ShiftedSum(d: seq<Value>, g: seq<real>, s: seq<real>, c: real, ones: seq<real>, n: nat)
    requires |ones| == |s| == |g| > 0 && n <= |d|
    requires forall q :: 0 <= q < |g| ==> s[q] == g[q] - c && ones[q] == 1.0
    ensures Sum(Residuals(d, s, n)) == Cross(d, g, ones, n) + Shift(c, |Finites(d, n)|)
  {
    hide Phase, Deviation, Finites, Residuals, Sum, Shift;
    if n > 0 {
      ShiftedSum(d, g, s, c, ones, n - 1);
      ShiftedSumStep(d, g, s, c, ones, n - 1);
    } else {
      NoValues(d, s, c);
    }
  }

  // The sum of n shifts by c.
  function Shift(c: real, n: nat): real {
    c * n as real
  }

  lemma NoValues(d: seq<Value>, s: seq<real>, c: real)
    requires s != []
    ensures Finites(d, 0) == [] && Residuals(d, s, 0) == [] && Sum([]) == 0.0 && Shift(c, 0) == 0.0
  {
  }

  lemma ShiftedSumStep(d: seq<Value>, g: seq<real>, s: seq<real>, c: real, ones: seq<real>, i: nat)
    requires |ones| == |s| == |g| > 0 && i < |d|
    requires forall q :: 0 <= q < |g| ==> s[q] == g[q] - c && ones[q] == 1.0
    ensures Sum(Residuals(d, s, i + 1)) - Sum(Residuals(d, s, i))
         == Deviation(d, g, ones, i) + Shift(c, |Finites(d, i + 1)|) - Shift(c, |Finites(d, i)|)
  {
    hide Phase, Sum;
    if d[i].Fin? {
      var x, j, l := d[i].x, Phase(i, |g|), |Finites(d, i)| as real;
      assert s[j] == g[j] - c && ones[j] == 1.0;
      SumMore(Residuals(d, s, i), x - s[j]);
      assert |Finites(d, i + 1)| as real == l + 1.0;
      assert c * (l + 1.0) == c * l + c;
      assert Deviation(d, g, ones, i) == x - g[j];
    }
  }

  lemma {:induction false} ShiftedSquares(d: seq<Value>, g: seq<real>, s: seq<real>, c: real, n: nat)
    requires |s| == |g| > 0 && n <= |d|
    requires forall q :: 0 <= q < |g| ==> s[q] == g[q] - c
    ensures SumSq(Residuals(d, s, n), c) == SumSq(Residuals(d, g, n), 0.0)
  {
    hide Phase, SumSq;
    if n > 0 {
      ShiftedSquares(d, g, s, c, n - 1);
      if d[n - 1].Fin? {
        var x, j := d[n - 1].x, Phase(n - 1, |g|);
        ShiftedSquare(Residuals(d, s, n - 1), Residuals(d, g, n - 1), x, s[j], g[j], c);
      }
    } else {
      NoSquares(d, g, s, c);
    }
  }

  lemma NoSquares(d: seq<Value>, g: seq<real>, s: seq<real>, c: real)
    requires |s| == |g| > 0
    ensures SumSq(Residuals(d, s, 0), c) == SumSq(Residuals(d, g, 0), 0.0)
  {
  }

  lemma ShiftedSquare(rs: seq<real>, rg: seq<real>, x: real, y: real, z: real, c: real)
    requires y == z - c && SumSq(rs, c) == SumSq(rg, 0.0)
    ensures SumSq(rs + [x - y], c) == SumSq(rg + [x - z], 0.0)
  {
    SumSqMore(rs, x - y, c);
    SumSqMore(rg, x - z, 0.0);
    hide SumSq;
    assert x - y - c == x - z && x - z - 0.0 == x - z;
  }

  // The residual variance is the mean square deviation from the phase means.
  lemma ResidualVariance(d: seq<Value>, p: nat)
    requires p > 0 && EveryPhase(d, p) && Finites(d, |d|) != []
    ensures var res := Residuals(d, Centred(PhaseMeans(d, p)), |d|);
            res != [] && Var(res) == SumSq(Residuals(d, PhaseMeans(d, p), |d|), 0.0) / |Finites(d, |d|)| as real
  {
    hide PhaseMeans, Centred, EveryPhase, Finites, Residuals, Cross, SumSq, Sum;
    var g := PhaseMeans(d, p);
    var s, c, ones := Centred(g), Mean(g), seq(p, q => 1.0);
    CentredAt(g);
    ResidualsLength(d, s, |d|);
    ShiftedSum(d, g, s, c, ones, |d|);
    PhaseMeansOrthogonal(d, p, ones);
    ShiftedSquares(d, g, s, c, |d|);
    Quotient(c, |Finites(d, |d|)| as real);
    assert Mean(Residuals(d, s, |d|)) == c;
  }

  // Total variance is residual variance plus the variance between phases.
  lemma TotalVariance(d: seq<Value>, p: nat)
    requires p > 0 && EveryPhase(d, p) && Finites(d, |d|) != []
    ensures var m := Mean(Finites(d, |d|));
            Var(Finites(d, |d|)) == (SumSq(Residuals(d, PhaseMeans(d, p), |d|), 0.0)
                                      + Between(d, PhaseMeans(d, p), m, |d|)) / |Finites(d, |d|)| as real
  {
    hide PhaseMeans, EveryPhase, Finites, Residuals, Cross, SumSq, Sum, Between;
    var g, m := PhaseMeans(d, p), Mean(Finites(d, |d|));
    var k := seq(p, q requires 0 <= q < p => g[q] - m);
    SquaresSplit(d, g, m, k, |d|);
    PhaseMeansOrthogonal(d, p, k);
  }

  // The residual variance never exceeds the total variance.
  lemma LawOfTotalVariance(d: seq<Value>, p: nat)
    requires p > 0 && EveryPhase(d, p) && Finites(d, |d|) != []
    ensures Residuals(d, Centred(PhaseMeans(d, p)), |d|) != []
    ensures 0.0 <= Var(Residuals(d, Centred(PhaseMeans(d, p)), |d|)) <= Var(Finites(d, |d|))
  {
    hide PhaseMeans, Centred, EveryPhase, Finites, Residuals, SumSq, Var, Between;
    var g, m := PhaseMeans(d, p), Mean(Finites(d, |d|));
    ResidualVariance(d, p);
    TotalVariance(d, p);
    SumSqNonNegative(Residuals(d, g, |d|), 0.0);
    var a := SumSq(Residuals(d, g, |d|), 0.0);
    QuotientOrder(a, a + Between(d, g, m, |d|), |Finites(d, |d|)| as real);
  }

  lemma CentredAt(g: seq<real>)
    requires g != []
    ensures forall q :: 0 <= q < |g| ==> Centred(g)[q] == g[q] - Mean(g)
  {
  }

  lemma Quotient(c: real, n: real)
    requires n > 0.0
    ensures (0.0 + c * n) / n == c
  {
  }

  lemma {:induction false} SumSqNonNegative(xs: seq<real>, m: real)
    ensures SumSq(xs, m) >= 0.0
  {
    if xs != [] {
      SumSqNonNegative(xs[..|xs| - 1], m);
      var e := xs[|xs| - 1] - m;
      assert e * e >= 0.0;
    }
  }

  // Whenever a strength is returned it lies in [0, 1] before the clamp, so the clamp never acts.
  lemma ClampNeverActs(d: seq<Value>, p: nat)
    ensures var raw := RawStrength(d, p);
            raw.Some? ==> 0.0 <= raw.value <= 1.0 && Clamp01(raw.value) == raw.value
  {
    hide EveryPhase, Finites, Residuals, PhaseMeans, Centred, NoVariance;
    var raw := RawStrength(d, p);
    if raw.Some? {
      LawOfTotalVariance(d, p);
      var total := Var(Finites(d, |d|));
      if total > NoVariance(Finites(d, |d|)) {
        PositiveThreshold(Finites(d, |d|));
        RatioInUnit(Var(Residuals(d, Centred(PhaseMeans(d, p)), |d|)), total);
      }
    }
  }

  lemma PositiveThreshold(xs: seq<real>)
    ensures NoVariance(xs) > 0.0
  {
    var m := 1.0 + MaxAbs(xs);
    assert m * m >= 1.0;
  }

  lemma RatioInUnit(a: real, b: real)
    requires 0.0 <= a <= b && b > 0.0
    ensures 0.0 <= a / b <= 1.0
  {
  }

  // ---- What a strength is ------------------------------------------------------------------

  // No strength: a period below 2, fewer than two periods of finite values, or a phase without any.
  ghost predicate TooFew(d: seq<Value>, p: nat) {
    || p < 2 || FiniteCount(d, 0, |d|) < 2.0 * p as real
    || exists q :: 0 <= q < p && PhaseEmpty(d, p, q)
  }

  predicate PhaseEmpty(d: seq<Value>, p: nat, q: nat)
    requires p > 0
  {
    forall i :: 0 <= i < |d| && i % p == q ==> !d[i].Fin?
  }

  // Sum of the squared distances of the first n values to m, over the finite ones.
  ghost function Squares(d: seq<Value>, m: real, n: nat): real
    requires n <= |d|
  {
    if n == 0 then 0.0
    else Squares(d, m, n - 1) + (if d[n - 1].Fin? then (d[n - 1].x - m) * (d[n - 1].x - m) else 0.0)
  }

  // The same with the mean of its phase in place of each value.
  ghost function PhaseSquares(d: seq<Value>, g: seq<real>, m: real, n: nat): real
    requires g != [] && n <= |d|
  {
    if n == 0 then 0.0
    else
      PhaseSquares(d, g, m, n - 1)
      + (if d[n - 1].Fin? then (g[(n - 1) % |g|] - m) * (g[(n - 1) % |g|] - m) else 0.0)
  }

  // g holds the mean of every phase, m the mean of all finite values, top the largest magnitude.
  ghost predicate AreMeans(d: seq<Value>, g: seq<real>, m: real, top: real) {
    && g != []
    && (forall q :: 0 <= q < |g| ==> g[q] * PhaseCount(d, |g|, q, |d|) as real == PhaseSum(d, |g|, q, |d|))
    && m * FiniteCount(d, 0, |d|) == FiniteSum(d, 0, |d|)
    && (forall i :: 0 <= i < |d| && d[i].Fin? ==> -top <= d[i].x <= top)
    && (exists i :: 0 <= i < |d| && d[i].Fin? && (d[i].x == top || d[i].x == -top))
  }

  // The variance is at most 2^-52 (1 + top)^2.
  ghost predicate Flat(d: seq<Value>, m: real, top: real) {
    4503599627370496.0 * Squares(d, m, |d|) <= (1.0 + top) * (1.0 + top) * FiniteCount(d, 0, |d|)
  }

  // x is the share of the variance that lies between the phases, or 0 for a series without variance.
  ghost predicate IsStrength(d: seq<Value>, p: nat, x: real) {
    && 0.0 <= x <= 1.0
    && exists g, m, top :: |g| == p && AreMeans(d, g, m, top) && Explains(d, g, m, top, x)
  }

  ghost predicate Explains(d: seq<Value>, g: seq<real>, m: real, top: real, x: real)
    requires g != []
  {
    if Flat(d, m, top) then x == 0.0
    else Squares(d, m, |d|) > 0.0 && x * Squares(d, m, |d|) == PhaseSquares(d, g, m, |d|)
  }

  lemma {:induction false} FinitesAre(d: seq<Value>, m: real, n: nat)
    requires n <= |d|
    ensures |Finites(d, n)| as real == FiniteCount(d, 0, n) && Sum(Finites(d, n)) == FiniteSum(d, 0, n)
    ensures SumSq(Finites(d, n), m) == Squares(d, m, n)
  {
    if n > 0 {
      FinitesAre(d, m, n - 1);
      hide SumSq, Sum;
      if d[n - 1].Fin? {
        SumSqMore(Finites(d, n - 1), d[n - 1].x, m);
        SumMore(Finites(d, n - 1), d[n - 1].x);
      }
    }
  }

  lemma {:induction false} BetweenIs(d: seq<Value>, g: seq<real>, m: real, n: nat)
    requires g != [] && n <= |d|
    ensures Between(d, g, m, n) == PhaseSquares(d, g, m, n)
  {
    if n > 0 { BetweenIs(d, g, m, n - 1); }
  }

  lemma {:induction false} PhaseEmptyIff(d: seq<Value>, p: nat, q: nat, n: nat)
    requires p > 0 && n <= |d|
    ensures PhaseCount(d, p, q, n) == 0 <==> forall i :: 0 <= i < n && i % p == q ==> !d[i].Fin?
  {
    if n > 0 {
      PhaseEmptyIff(d, p, q, n - 1);
      assert Phase(n - 1, p) == (n - 1) % p;
    }
  }

  // Every finite value is listed, and every listed value is one of them.
  lemma {:induction false} Listed(d: seq<Value>, n: nat)
    requires n <= |d|
    ensures forall x :: x in Finites(d, n) <==> exists i :: 0 <= i < n && d[i] == Fin(x)
  {
    if n > 0 {
      Listed(d, n - 1);
      forall x ensures x in Finites(d, n) <==> exists i :: 0 <= i < n && d[i] == Fin(x) {
        if d[n - 1] == Fin(x) { assert 0 <= n - 1 < n && d[n - 1] == Fin(x); }
      }
    }
  }

  lemma {:induction false} MaxAbsAttained(xs: seq<real>)
    requires xs != []
    ensures exists i :: 0 <= i < |xs| && Abs(xs[i]) == MaxAbs(xs)
  {
    var n := |xs| - 1;
    if Abs(xs[n]) >= MaxAbs(xs[..n]) {
      assert Abs(xs[n]) == MaxAbs(xs);
    } else {
      MaxAbsAttained(xs[..n]);
      var i :| 0 <= i < n && Abs(xs[..n][i]) == MaxAbs(xs[..n]);
      assert xs[i] == xs[..n][i];
    }
  }

  lemma LargestMagnitude(d: seq<Value>)
    requires Finites(d, |d|) != []
    ensures var top := MaxAbs(Finites(d, |d|));
            && (forall i :: 0 <= i < |d| && d[i].Fin? ==> -top <= d[i].x <= top)
            && (exists i :: 0 <= i < |d| && d[i].Fin? && (d[i].x == top || d[i].x == -top))
  {
    var xs := Finites(d, |d|);
    Listed(d, |d|);
    MaxAbsAttained(xs);
    var k :| 0 <= k < |xs| && Abs(xs[k]) == MaxAbs(xs);
    assert xs[k] in xs;
    forall i | 0 <= i < |d| && d[i].Fin? ensures Abs(d[i].x) <= MaxAbs(xs) {
      assert d[i] == Fin(d[i].x) && d[i].x in xs;
    }
    hide Finites, MaxAbs;
  }

  lemma MeansAre(d: seq<Value>, p: nat)
    requires p > 0 && EveryPhase(d, p) && Finites(d, |d|) != []
    ensures AreMeans(d, PhaseMeans(d, p), Mean(Finites(d, |d|)), MaxAbs(Finites(d, |d|)))
  {
    hide Finites, PhaseSum, PhaseCount, PhaseMeans, EveryPhase, MaxAbs, Mean, FiniteSum, FiniteCount;
    LargestMagnitude(d);
    MeanIs(d);
    forall q | 0 <= q < p ensures PhaseMeans(d, p)[q] * PhaseCount(d, p, q, |d|) as real == PhaseSum(d, p, q, |d|) {
      PhaseMeanIs(d, p, q);
    }
  }

  lemma MeanIs(d: seq<Value>)
    requires Finites(d, |d|) != []
    ensures Mean(Finites(d, |d|)) * FiniteCount(d, 0, |d|) == FiniteSum(d, 0, |d|)
  {
    hide Finites, FiniteSum, FiniteCount, SumSq, Squares, Sum;
    var xs := Finites(d, |d|);
    FinitesAre(d, 0.0, |d|);
    QuotientTimesBack(Sum(xs), |xs| as real);
  }

  lemma PhaseMeanIs(d: seq<Value>, p: nat, q: nat)
    requires p > 0 && EveryPhase(d, p) && q < p
    ensures PhaseMeans(d, p)[q] * PhaseCount(d, p, q, |d|) as real == PhaseSum(d, p, q, |d|)
  {
    hide PhaseSum, PhaseCount;
    QuotientTimesBack(PhaseSum(d, p, q, |d|), PhaseCount(d, p, q, |d|) as real);
  }

  lemma TooFewIff(d: seq<Value>, p: nat)
    ensures RawStrength(d, p).None? <==> TooFew(d, p)
  {
    hide Var, NoVariance, Finites, PhaseMeans, FiniteCount, PhaseCount, Residuals;
    FinitesAre(d, 0.0, |d|);
    if p > 0 {
      forall q | 0 <= q < p ensures PhaseCount(d, p, q, |d|) > 0 <==> !PhaseEmpty(d, p, q) {
        PhaseEmptyIff(d, p, q, |d|);
      }
    }
  }

  // The threshold and the share in terms of sums of squares: n values, squares s, of which b between phases.
  lemma FlatIff(s: real, n: real, top: real)
    requires n > 0.0
    ensures s / n <= EPSILON * ((1.0 + top) * (1.0 + top))
       <==> 4503599627370496.0 * s <= (1.0 + top) * (1.0 + top) * n
  {
    var t, q := (1.0 + top) * (1.0 + top), s / n;
    assert q * n == s;
    ProductOrderReal(q, EPSILON * t, n);
    assert EPSILON * t * n == EPSILON * (t * n);
  }

  lemma ProductOrderReal(a: real, b: real, n: real)
    requires n > 0.0
    ensures a <= b <==> a * n <= b * n
  {
  }

  lemma ShareIs(a: real, b: real, n: real)
    requires n > 0.0 && a + b > 0.0
    ensures (a + b) / n > 0.0 && (1.0 - a / n / ((a + b) / n)) * (a + b) == b
  {
    var u, v := a / n, (a + b) / n;
    assert u * n == a && v * n == a + b;
    var w := u / v;
    assert w * v == u;
    assert w * (a + b) == w * v * n;
  }

  // The strength returned is the share of the variance that lies between the phases.
  lemma StrengthIs(d: seq<Value>, p: nat)
    ensures RawStrength(d, p).None? <==> TooFew(d, p)
    ensures RawStrength(d, p).Some? ==>
              Clamp01(RawStrength(d, p).value) == RawStrength(d, p).value && IsStrength(d, p, RawStrength(d, p).value)
  {
    hide TooFew, EveryPhase, Finites, Residuals, PhaseMeans, Centred, AreMeans, Explains, Var, NoVariance;
    TooFewIff(d, p);
    if RawStrength(d, p).Some? {
      ClampNeverActs(d, p);
      MeansAre(d, p);
      SharesExplain(d, p);
    }
  }

  lemma SharesExplain(d: seq<Value>, p: nat)
    requires RawStrength(d, p).Some?
    ensures p > 0 && EveryPhase(d, p) && Finites(d, |d|) != []
    ensures var xs := Finites(d, |d|);
            Explains(d, PhaseMeans(d, p), Mean(xs), MaxAbs(xs), RawStrength(d, p).value)
  {
    hide EveryPhase, Finites, PhaseMeans, MaxAbs, SumSq, Mean, FiniteCount, Squares, Between, PhaseSquares,
         Explains, Share, RawStrength, IsShare;
    RawIsShare(d, p);
    var xs, g := Finites(d, |d|), PhaseMeans(d, p);
    var m, n := Mean(xs), |xs| as real;
    FinitesAre(d, m, |d|);
    BetweenIs(d, g, m, |d|);
    ShareArithmetic(SumSq(xs, m), SumSq(Residuals(d, g, |d|), 0.0), Between(d, g, m, |d|), n, MaxAbs(xs),
                    RawStrength(d, p).value);
    ExplainsShare(d, g, m, MaxAbs(xs), RawStrength(d, p).value);
  }

  // x is one less the residual share of the variance s / n, which splits into a and b; 0 at the threshold.
  ghost predicate IsShare(s: real, a: real, b: real, n: real, top: real, x: real) {
    && n > 0.0 && s / n == (a + b) / n
    && (if s / n <= EPSILON * ((1.0 + top) * (1.0 + top)) then x == 0.0
        else s / n > 0.0 && x == 1.0 - a / n / (s / n))
  }

  lemma RawIsShare(d: seq<Value>, p: nat)
    requires RawStrength(d, p).Some?
    ensures p > 0 && EveryPhase(d, p) && Finites(d, |d|) != []
    ensures var xs, g := Finites(d, |d|), PhaseMeans(d, p);
            IsShare(SumSq(xs, Mean(xs)), SumSq(Residuals(d, g, |d|), 0.0), Between(d, g, Mean(xs), |d|), |xs| as real,
                    MaxAbs(xs), RawStrength(d, p).value)
  {
    hide EveryPhase, Finites, Residuals, PhaseMeans, Centred, MaxAbs, SumSq, Mean, Between;
    TotalVariance(d, p);
    ResidualVariance(d, p);
    PositiveThreshold(Finites(d, |d|));
  }

  // Of squares s over n values with magnitudes up to top, b is the share x.
  ghost predicate Share(s: real, b: real, n: real, top: real, x: real) {
    if 4503599627370496.0 * s <= (1.0 + top) * (1.0 + top) * n then x == 0.0 else s > 0.0 && x * s == b
  }

  lemma ExplainsShare(d: seq<Value>, g: seq<real>, m: real, top: real, x: real)
    requires g != [] && Share(Squares(d, m, |d|), PhaseSquares(d, g, m, |d|), FiniteCount(d, 0, |d|), top, x)
    ensures Explains(d, g, m, top, x)
  {
    hide Squares, PhaseSquares, FiniteCount;
  }

  lemma ShareArithmetic(s: real, a: real, b: real, n: real, top: real, x: real)
    requires IsShare(s, a, b, n, top, x)
    ensures Share(s, b, n, top, x)
  {
    SameQuotient(s, a + b, n);
    FlatIff(s, n, top);
    if s <= 0.0 {
      NotPositive(s, n);
    } else {
      ShareIs(a, b, n);
    }
  }

  lemma SameQuotient(x: real, y: real, n: real)
    requires n > 0.0 && x / n == y / n
    ensures x == y
  {
    assert x / n * n == x && y / n * n == y;
  }

  lemma NotPositive(x: real, n: real)
    requires n > 0.0 && x <= 0.0
    ensures x / n <= 0.0
  {
  }

  // ---- Exactly periodic series -----------------------------------------------------------

  // Any p consecutive indices visit every phase.
  lemma {:induction false} PhaseVisited(p: nat, q: nat, lo: nat) returns (i: nat)
    requires q < p
    ensures lo <= i < lo + p && Phase(i, p) == q
    decreases lo
  {
    hide Phase;
    if lo == 0 {
      i := q;
      PhaseOfSmall(q, p);
    } else {
      i := PhaseVisited(p, q, lo - 1);
      if i == lo - 1 {
        SamePhase(i, p);
        i := i + p;
      }
    }
  }

  lemma {:induction false} PhaseSeen(d: seq<Value>, p: nat, i: nat, n: nat)
    requires p > 0 && i < n <= |d| && d[i].Fin?
    ensures PhaseCount(d, p, Phase(i, p), n) > 0
  {
    if i < n - 1 { PhaseSeen(d, p, i, n - 1); }
  }

  // d holds the pattern e on the indices [lo, hi) and nothing finite elsewhere.
  ghost predicate HoldsPattern(d: seq<Value>, e: seq<real>, lo: nat, hi: nat) {
    && e != [] && lo <= hi <= |d|
    && forall i :: 0 <= i < |d| ==> d[i] == if lo <= i < hi then Fin(e[Phase(i, |e|)]) else NaN
  }

  lemma {:induction false} PatternCount(d: seq<Value>, e: seq<real>, lo: nat, hi: nat, n: nat)
    requires HoldsPattern(d, e, lo, hi) && n <= |d|
    ensures |Finites(d, n)| == if n <= lo then 0 else if n <= hi then n - lo else hi - lo
  {
    if n > 0 { PatternCount(d, e, lo, hi, n - 1); }
  }

  lemma {:induction false} PatternPhaseSum(d: seq<Value>, e: seq<real>, lo: nat, hi: nat, q: nat, n: nat)
    requires HoldsPattern(d, e, lo, hi) && n <= |d| && q < |e|
    ensures PhaseSum(d, |e|, q, n) == e[q] * PhaseCount(d, |e|, q, n) as real
  {
    hide Phase;
    if n > 0 {
      PatternPhaseSum(d, e, lo, hi, q, n - 1);
      var c := PhaseCount(d, |e|, q, n - 1) as real;
      assert e[q] * (c + 1.0) == e[q] * c + e[q];
    }
  }

  lemma {:induction false} NoResidual(d: seq<Value>, e: seq<real>, lo: nat, hi: nat, n: nat)
    requires HoldsPattern(d, e, lo, hi) && n <= |d|
    ensures SumSq(Residuals(d, e, n), 0.0) == 0.0
  {
    hide Phase;
    if n > 0 {
      NoResidual(d, e, lo, hi, n - 1);
      if d[n - 1].Fin? {
        SumSqMore(Residuals(d, e, n - 1), d[n - 1].x - e[Phase(n - 1, |e|)], 0.0);
      }
    }
  }

  lemma PatternIsItsPhaseMeans(d: seq<Value>, e: seq<real>, lo: nat, hi: nat)
    requires HoldsPattern(d, e, lo, hi) && lo + |e| <= hi
    ensures EveryPhase(d, |e|) && PhaseMeans(d, |e|) == e
  {
    hide HoldsPattern, PhaseCount, PhaseSum;
    var p := |e|;
    forall q | 0 <= q < p ensures PhaseCount(d, p, q, |d|) > 0 {
      PatternPhaseSeen(d, e, lo, hi, q);
    }
    forall q | 0 <= q < p ensures PhaseMeans(d, p)[q] == e[q] {
      PatternPhaseSum(d, e, lo, hi, q, |d|);
      Quotient(e[q], PhaseCount(d, p, q, |d|) as real);
    }
  }

  lemma PatternPhaseSeen(d: seq<Value>, e: seq<real>, lo: nat, hi: nat, q: nat)
    requires HoldsPattern(d, e, lo, hi) && lo + |e| <= hi && q < |e|
    ensures PhaseCount(d, |e|, q, |d|) > 0
  {
    hide Phase, PhaseCount;
    var i := PhaseVisited(|e|, q, lo);
    assert d[i].Fin?;
    PhaseSeen(d, |e|, i, |d|);
  }

  // A repeated pattern has strength exactly 1, or 0 when its variance is below the threshold.
  lemma PatternStrength(d: seq<Value>, e: seq<real>, lo: nat, hi: nat)
    requires HoldsPattern(d, e, lo, hi) && |e| >= 2 && lo + 2 * |e| <= hi
    ensures var xs := Finites(d, |d|);
            xs != [] && RawStrength(d, |e|) == Some(if Var(xs) <= NoVariance(xs) then 0.0 else 1.0)
  {
    hide HoldsPattern, Finites, Residuals, PhaseMeans, Centred, EveryPhase, Var, NoVariance;
    var xs := Finites(d, |d|);
    assert lo <= hi <= |d| by { PatternBounds(d, e, lo, hi); }
    PatternCount(d, e, lo, hi, |d|);
    PatternIsItsPhaseMeans(d, e, lo, hi);
    ResidualVariance(d, |e|);
    NoResidual(d, e, lo, hi, |d|);
    PositiveThreshold(xs);
  }

  lemma PatternBounds(d: seq<Value>, e: seq<real>, lo: nat, hi: nat)
    requires HoldsPattern(d, e, lo, hi)
    ensures lo <= hi <= |d|
  {
  }

  // A straight line plus any pattern, with at least two periods of detrended values.
  lemma PeriodicSeriesStrength(values: seq<Value>, a: real, b: real, pat: seq<real>)
    requires LinePlusPattern(values, a, b, pat) && |pat| >= 2
    requires |values| - 2 * (|pat| / 2) >= 2 * |pat|
    ensures var d := Detrended(values, |pat|);
            var xs := Finites(d, |d|);
            && |xs| == |values| - 2 * (|pat| / 2)
            && RawStrength(d, |pat|) == Some(if Var(xs) <= NoVariance(xs) then 0.0 else 1.0)
  {
    hide RawStrength, Finites, Detrended, LinePlusPattern, Mean;
    var p := |pat|;
    var d, e := Detrended(values, p), seq(p, q requires 0 <= q < p => pat[q] - Mean(pat));
    var lo, hi := p / 2, |values| - p / 2;
    DetrendIsThePattern(values, a, b, pat);
    forall i | 0 <= i < |d| ensures d[i] == if lo <= i < hi then Fin(e[Phase(i, |e|)]) else NaN {
      assert Phase(i, p) == i % p;
    }
    PatternCount(d, e, lo, hi, |d|);
    PatternStrength(d, e, lo, hi);
  }
}
