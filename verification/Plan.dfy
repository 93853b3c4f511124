// Fetch planning (api/src/tabayyun/connectors/plan.py): the calls that fetch every gap of every point,
// cut to the limits of the connector.
module Plan {
  import opened Int64
  import opened Sorting
  import opened Coverage

  datatype Point = Point(externalId: string, series: nat)

  datatype Limits = Limits(maxPoints: nat, maxSpan: int) {
    predicate Valid() {
      maxPoints >= 1 && maxSpan >= 1
    }
  }

  // One connector call: these points over [start, end).
  datatype Call = Call(start: int, end: int, points: seq<Point>)

  datatype PointGaps = PointGaps(point: Point, ranges: seq<Range>)

  // ---- Cutting a gap -------------------------------------------------------------------------

  function Cut(lo: int, end: int, maxSpan: int): seq<Range>
    requires maxSpan >= 1
    decreases end - lo
  {
    if lo >= end then [] else [Range(lo, Min(end, lo + maxSpan))] + Cut(Min(end, lo + maxSpan), end, maxSpan)
  }

  method Spans(start: int, end: int, maxSpan: int) returns (out: seq<Range>)
    requires maxSpan >= 1
    ensures out == Cut(start, end, maxSpan)
  {
    out := [];
    var lo := start;
    while lo < end
      invariant out + Cut(lo, end, maxSpan) == Cut(start, end, maxSpan)
      decreases end - lo
    {
      var hi := Min(end, lo + maxSpan);
      assert Cut(lo, end, maxSpan) == [Range(lo, hi)] + Cut(hi, end, maxSpan);
      out := out + [Range(lo, hi)];
      lo := hi;
    }
  }

  // ---- Pieces: a span and a point that needs it ---------------------------------------------------

  datatype Piece = Piece(span: Range, point: Point)

  function SpanPieces(p: Point, spans: seq<Range>): (ps: seq<Piece>)
    ensures |ps| == |spans| && forall k :: 0 <= k < |ps| ==> ps[k] == Piece(spans[k], p)
  {
    seq(|spans|, k requires 0 <= k < |spans| => Piece(spans[k], p))
  }

  function RangePieces(p: Point, ranges: seq<Range>, maxSpan: int): seq<Piece>
    requires maxSpan >= 1
  {
    if ranges == [] then []
    else
      var last := ranges[|ranges| - 1];
      RangePieces(p, ranges[..|ranges| - 1], maxSpan) + SpanPieces(p, Cut(last.lo, last.hi, maxSpan))
  }

  function Pieces(gaps: seq<PointGaps>, maxSpan: int): seq<Piece>
    requires maxSpan >= 1
  {
    if gaps == [] then []
    else
      Pieces(gaps[..|gaps| - 1], maxSpan)
      + RangePieces(gaps[|gaps| - 1].point, gaps[|gaps| - 1].ranges, maxSpan)
  }

  // How many pieces fetch instant t of point p.
  ghost function Fetched(pieces: seq<Piece>, p: Point, t: int): nat {
    if pieces == [] then 0
    else
      Fetched(pieces[..|pieces| - 1], p, t)
      + (if pieces[|pieces| - 1].point == p && Holds(pieces[|pieces| - 1].span, t) then 1 else 0)
  }

  // How many of the ranges hold t.
  ghost function HoldCount(ranges: seq<Range>, t: int): nat {
    if ranges == [] then 0
    else HoldCount(ranges[..|ranges| - 1], t) + (if Holds(ranges[|ranges| - 1], t) then 1 else 0)
  }

  // How many of the gaps of point p hold instant t.
  ghost function GapCount(gaps: seq<PointGaps>, p: Point, t: int): nat {
    if gaps == [] then 0
    else
      GapCount(gaps[..|gaps| - 1], p, t)
      + (if gaps[|gaps| - 1].point == p then HoldCount(gaps[|gaps| - 1].ranges, t) else 0)
  }

  // How often the calls name point p at instant t.
  ghost function CallCount(calls: seq<Call>, p: Point, t: int): nat {
    if calls == [] then 0
    else CallCount(calls[..|calls| - 1], p, t) + NamedBy(calls[|calls| - 1], p, t)
  }

  ghost function NamedBy(c: Call, p: Point, t: int): nat {
    if Holds(Range(c.start, c.end), t) then multiset(c.points)[p] else 0
  }

  lemma {:induction false} FetchedConcat(a: seq<Piece>, b: seq<Piece>, p: Point, t: int)
    ensures Fetched(a + b, p, t) == Fetched(a, p, t) + Fetched(b, p, t)
  {
    if b == [] {
      assert a + b == a;
    } else {
      FetchedConcat(a, b[..|b| - 1], p, t);
      assert (a + b)[..|a + b| - 1] == a + b[..|b| - 1];
    }
  }

  lemma {:induction false} HoldConcat(a: seq<Range>, b: seq<Range>, t: int)
    ensures HoldCount(a + b, t) == HoldCount(a, t) + HoldCount(b, t)
  {
    if b == [] {
      assert a + b == a;
    } else {
      HoldConcat(a, b[..|b| - 1], t);
      assert (a + b)[..|a + b| - 1] == a + b[..|b| - 1];
    }
  }

  // The spans of a gap hold each of its instants once, and nothing else; none is longer than allowed.
  lemma {:induction false} CutHoldsOnce(lo: int, end: int, maxSpan: int, t: int)
    requires maxSpan >= 1
    ensures HoldCount(Cut(lo, end, maxSpan), t) == if Holds(Range(lo, end), t) then 1 else 0
    ensures forall r :: r in Cut(lo, end, maxSpan) ==> lo <= r.lo < r.hi <= end && r.hi - r.lo <= maxSpan
    decreases end - lo
  {
    if lo < end {
      var hi := Min(end, lo + maxSpan);
      CutHoldsOnce(hi, end, maxSpan, t);
      HoldConcat([Range(lo, hi)], Cut(hi, end, maxSpan), t);
      assert [Range(lo, hi)][..0] == [];
      assert HoldCount([Range(lo, hi)], t) == if Holds(Range(lo, hi), t) then 1 else 0;
    }
  }

  // The spans follow one another from the start of the gap to its end, and all but the last are as
  // long as allowed.
  lemma {:induction false} CutIsGreedy(lo: int, end: int, maxSpan: int, k: nat)
    requires maxSpan >= 1 && k < |Cut(lo, end, maxSpan)|
    ensures var s := Cut(lo, end, maxSpan);
            && (k == 0 ==> s[k].lo == lo)
            && (if k + 1 < |s| then s[k].hi == s[k + 1].lo && s[k].hi - s[k].lo == maxSpan else s[k].hi == end)
    decreases end - lo
  {
    var hi := Min(end, lo + maxSpan);
    if k > 0 { CutIsGreedy(hi, end, maxSpan, k - 1); }
    if hi < end { assert Cut(hi, end, maxSpan)[0].lo == hi; }
  }

  lemma {:induction false} SpanPiecesFetch(q: Point, spans: seq<Range>, p: Point, t: int)
    ensures Fetched(SpanPieces(q, spans), p, t) == if p == q then HoldCount(spans, t) else 0
  {
    if spans != [] {
      var n := |spans| - 1;
      SpanPiecesFetch(q, spans[..n], p, t);
      assert SpanPieces(q, spans)[..n] == SpanPieces(q, spans[..n]);
    }
  }

  lemma {:induction false} RangePiecesFetch(q: Point, ranges: seq<Range>, maxSpan: int, p: Point, t: int)
    requires maxSpan >= 1
    ensures Fetched(RangePieces(q, ranges, maxSpan), p, t) == if p == q then HoldCount(ranges, t) else 0
  {
    if ranges != [] {
      var n := |ranges| - 1;
      RangePiecesFetch(q, ranges[..n], maxSpan, p, t);
      var spans := Cut(ranges[n].lo, ranges[n].hi, maxSpan);
      FetchedConcat(RangePieces(q, ranges[..n], maxSpan), SpanPieces(q, spans), p, t);
      SpanPiecesFetch(q, spans, p, t);
      CutHoldsOnce(ranges[n].lo, ranges[n].hi, maxSpan, t);
    }
  }

  // Cutting loses and adds nothing.
  lemma {:induction false} PiecesFetchGaps(gaps: seq<PointGaps>, maxSpan: int, p: Point, t: int)
    requires maxSpan >= 1
    ensures Fetched(Pieces(gaps, maxSpan), p, t) == GapCount(gaps, p, t)
  {
    if gaps != [] {
      var n := |gaps| - 1;
      PiecesFetchGaps(gaps[..n], maxSpan, p, t);
      FetchedConcat(Pieces(gaps[..n], maxSpan), RangePieces(gaps[n].point, gaps[n].ranges, maxSpan), p, t);
      RangePiecesFetch(gaps[n].point, gaps[n].ranges, maxSpan, p, t);
    }
  }

  predicate Fits(r: Range, maxSpan: int) {
    r.lo < r.hi && r.hi - r.lo <= maxSpan
  }

  // The span is cut from a range of one of the gaps.
  ghost predicate OfGap(gaps: seq<PointGaps>, maxSpan: int, s: Range)
    requires maxSpan >= 1
  {
    exists g: PointGaps, r: Range :: g in gaps && r in g.ranges && s in Cut(r.lo, r.hi, maxSpan)
  }

  lemma {:induction false} RangePieceOf(q: Point, ranges: seq<Range>, maxSpan: int, piece: Piece) returns (r: Range)
    requires maxSpan >= 1 && piece in RangePieces(q, ranges, maxSpan)
    ensures r in ranges && piece.span in Cut(r.lo, r.hi, maxSpan)
  {
    var n := |ranges| - 1;
    if piece in RangePieces(q, ranges[..n], maxSpan) {
      r := RangePieceOf(q, ranges[..n], maxSpan, piece);
    } else {
      r := ranges[n];
    }
  }

  lemma {:induction false} PieceOfGap(gaps: seq<PointGaps>, maxSpan: int, piece: Piece)
    requires maxSpan >= 1 && piece in Pieces(gaps, maxSpan)
    ensures OfGap(gaps, maxSpan, piece.span)
  {
    var n := |gaps| - 1;
    if piece in Pieces(gaps[..n], maxSpan) {
      PieceOfGap(gaps[..n], maxSpan, piece);
      var g: PointGaps, r: Range :| g in gaps[..n] && r in g.ranges && piece.span in Cut(r.lo, r.hi, maxSpan);
      assert g in gaps;
    } else {
      var r := RangePieceOf(gaps[n].point, gaps[n].ranges, maxSpan, piece);
      assert gaps[n] in gaps;
    }
  }

  lemma {:induction false} RangePiecesFit(q: Point, ranges: seq<Range>, maxSpan: int)
    requires maxSpan >= 1
    ensures forall s :: s in RangePieces(q, ranges, maxSpan) ==> Fits(s.span, maxSpan)
  {
    if ranges != [] {
      var n := |ranges| - 1;
      RangePiecesFit(q, ranges[..n], maxSpan);
      CutHoldsOnce(ranges[n].lo, ranges[n].hi, maxSpan, 0);
      forall s | s in SpanPieces(q, Cut(ranges[n].lo, ranges[n].hi, maxSpan)) ensures Fits(s.span, maxSpan) {
        assert s.span in Cut(ranges[n].lo, ranges[n].hi, maxSpan);
      }
    }
  }

  lemma {:induction false} PiecesFit(gaps: seq<PointGaps>, maxSpan: int)
    requires maxSpan >= 1
    ensures forall s :: s in Pieces(gaps, maxSpan) ==> Fits(s.span, maxSpan)
  {
    if gaps != [] {
      PiecesFit(gaps[..|gaps| - 1], maxSpan);
      RangePiecesFit(gaps[|gaps| - 1].point, gaps[|gaps| - 1].ranges, maxSpan);
    }
  }

  // ---- Grouping by span -----------------------------------------------------------------------

  function PointsAt(pieces: seq<Piece>, span: Range): seq<Point> {
    if pieces == [] then []
    else
      var front := PointsAt(pieces[..|pieces| - 1], span);
      if pieces[|pieces| - 1].span == span then front + [pieces[|pieces| - 1].point] else front
  }

  ghost predicate GroupedBySpan(m: map<Range, seq<Point>>, pieces: seq<Piece>) {
    && (forall s :: s in m ==> m[s] == PointsAt(pieces, s) && m[s] != [])
    && (forall s :: s !in m ==> PointsAt(pieces, s) == [])
    && (forall q :: q in pieces ==> q.span in m)
  }

  function AddPiece(m: map<Range, seq<Point>>, q: Piece): map<Range, seq<Point>> {
    m[q.span := (if q.span in m then m[q.span] else []) + [q.point]]
  }

  lemma AddPieceGroups(m: map<Range, seq<Point>>, pieces: seq<Piece>, q: Piece)
    requires GroupedBySpan(m, pieces)
    ensures GroupedBySpan(AddPiece(m, q), pieces + [q])
  {
    assert (pieces + [q])[..|pieces|] == pieces;
    forall s
      ensures PointsAt(pieces + [q], s)
           == if q.span == s then PointsAt(pieces, s) + [q.point] else PointsAt(pieces, s)
    {
    }
  }

  method GroupBySpan(gaps: seq<PointGaps>, maxSpan: int) returns (bySpan: map<Range, seq<Point>>)
    requires maxSpan >= 1
    ensures GroupedBySpan(bySpan, Pieces(gaps, maxSpan))
  {
    hide GroupedBySpan, AddPiece, Cut, Pieces, RangePieces, SpanPieces;
    bySpan := map[];
    NoPieces();
    NoGapPieces(gaps, maxSpan);
    for i := 0 to |gaps|
      invariant GroupedBySpan(bySpan, Pieces(gaps[..i], maxSpan))
    {
      var p, ranges := gaps[i].point, gaps[i].ranges;
      ghost var before := Pieces(gaps[..i], maxSpan);
      NoRangePieces(before, p, ranges, maxSpan);
      for j := 0 to |ranges|
        invariant GroupedBySpan(bySpan, before + RangePieces(p, ranges[..j], maxSpan))
      {
        ghost var prior := before + RangePieces(p, ranges[..j], maxSpan);
        var spans := Spans(ranges[j].lo, ranges[j].hi, maxSpan);
        NoSpanPieces(prior, p, spans);
        for k := 0 to |spans|
          invariant GroupedBySpan(bySpan, prior + SpanPieces(p, spans[..k]))
        {
          AddPieceGroups(bySpan, prior + SpanPieces(p, spans[..k]), Piece(spans[k], p));
          OneMorePiece(prior, p, spans, k);
          bySpan := AddPiece(bySpan, Piece(spans[k], p));
        }
        assert spans[..|spans|] == spans;
        OneMoreRange(before, p, ranges, j, maxSpan);
      }
      assert ranges[..|ranges|] == ranges;
      OneMoreGap(gaps, i, maxSpan);
    }
    assert gaps[..|gaps|] == gaps;
  }

  lemma NoGapPieces(gaps: seq<PointGaps>, maxSpan: int)
    requires maxSpan >= 1
    ensures Pieces(gaps[..0], maxSpan) == []
  {
  }

  lemma NoRangePieces(before: seq<Piece>, p: Point, ranges: seq<Range>, maxSpan: int)
    requires maxSpan >= 1
    ensures before + RangePieces(p, ranges[..0], maxSpan) == before
  {
  }

  lemma NoSpanPieces(prior: seq<Piece>, p: Point, spans: seq<Range>)
    ensures prior + SpanPieces(p, spans[..0]) == prior
  {
  }

  lemma OneMorePiece(prior: seq<Piece>, p: Point, spans: seq<Range>, k: nat)
    requires k < |spans|
    ensures prior + SpanPieces(p, spans[..k]) + [Piece(spans[k], p)] == prior + SpanPieces(p, spans[..k + 1])
  {
  }

  lemma OneMoreRange(before: seq<Piece>, p: Point, ranges: seq<Range>, j: nat, maxSpan: int)
    requires maxSpan >= 1 && j < |ranges|
    ensures before + RangePieces(p, ranges[..j], maxSpan) + SpanPieces(p, Cut(ranges[j].lo, ranges[j].hi, maxSpan))
         == before + RangePieces(p, ranges[..j + 1], maxSpan)
  {
    hide SpanPieces;
    assert ranges[..j + 1][..j] == ranges[..j];
  }

  lemma OneMoreGap(gaps: seq<PointGaps>, i: nat, maxSpan: int)
    requires maxSpan >= 1 && i < |gaps|
    ensures Pieces(gaps[..i], maxSpan) + RangePieces(gaps[i].point, gaps[i].ranges, maxSpan)
         == Pieces(gaps[..i + 1], maxSpan)
  {
    hide RangePieces;
    assert gaps[..i + 1][..i] == gaps[..i];
  }

  lemma NoPieces()
    ensures GroupedBySpan(map[], [])
  {
  }

  // ---- Calls -----------------------------------------------------------------------------------

  // How many pieces of the given spans fetch instant t of point p.
  ghost function FetchedIn(pieces: seq<Piece>, spans: seq<Range>, p: Point, t: int): nat {
    if pieces == [] then 0
    else
      var q := pieces[|pieces| - 1];
      FetchedIn(pieces[..|pieces| - 1], spans, p, t)
      + (if q.span in spans && q.point == p && Holds(q.span, t) then 1 else 0)
  }

  lemma {:induction false} OneMoreSpan(pieces: seq<Piece>, spans: seq<Range>, s: Range, p: Point, t: int)
    requires s !in spans
    ensures FetchedIn(pieces, spans + [s], p, t) ==
            FetchedIn(pieces, spans, p, t) + (if Holds(s, t) then multiset(PointsAt(pieces, s))[p] else 0)
  {
    if pieces != [] {
      OneMoreSpan(pieces[..|pieces| - 1], spans, s, p, t);
    }
  }

  lemma {:induction false} AllSpans(pieces: seq<Piece>, spans: seq<Range>, p: Point, t: int)
    requires forall q :: q in pieces ==> q.span in spans
    ensures FetchedIn(pieces, spans, p, t) == Fetched(pieces, p, t)
  {
    if pieces != [] { AllSpans(pieces[..|pieces| - 1], spans, p, t); }
  }

  lemma {:induction false} NoSpans(pieces: seq<Piece>, p: Point, t: int)
    ensures FetchedIn(pieces, [], p, t) == 0
  {
    if pieces != [] { NoSpans(pieces[..|pieces| - 1], p, t); }
  }

  predicate PointLe(a: Point, b: Point) {
    StringLe(a.externalId, b.externalId) && (a.externalId == b.externalId ==> a.series <= b.series)
  }

  lemma PointOrder()
    ensures TotalPreorder(PointLe)
  {
    hide StringLe;
    forall a, b ensures PointLe(a, b) || PointLe(b, a) { StringLeTotal(a.externalId, b.externalId); }
    forall a, b, c | PointLe(a, b) && PointLe(b, c) ensures PointLe(a, c) {
      StringLeTransitive(a.externalId, b.externalId, c.externalId);
      StringLeTotal(a.externalId, b.externalId);
    }
  }

  predicate WithinLimits(c: Call, limits: Limits) {
    && c.start < c.end && c.end - c.start <= limits.maxSpan
    && 0 < |c.points| <= limits.maxPoints
  }

  predicate InTimeOrder(calls: seq<Call>) {
    forall i, j :: 0 <= i < j < |calls| ==>
      calls[i].start < calls[j].start || (calls[i].start == calls[j].start && calls[i].end <= calls[j].end)
  }

  lemma CallsMore(calls: seq<Call>, c: Call, p: Point, t: int)
    ensures CallCount(calls + [c], p, t) == CallCount(calls, p, t) + NamedBy(c, p, t)
  {
    assert (calls + [c])[..|calls|] == calls;
  }

  lemma MultisetSplit(a: seq<Point>, b: seq<Point>, p: Point)
    ensures multiset(a + b)[p] == multiset(a)[p] + multiset(b)[p]
  {
  }

  predicate FullButLast(calls: seq<Call>, maxPoints: nat) {
    forall i :: 0 <= i < |calls| - 1 ==> |calls[i].points| == maxPoints
  }

  lemma NoneNamed()
    ensures forall p, t :: CallCount([], p, t) == 0
  {
  }

  lemma SortedSlice(ordered: seq<Point>, i: nat, j: nat)
    requires Sorted(ordered, PointLe) && i <= j <= |ordered|
    ensures Sorted(ordered[i..j], PointLe)
  {
  }

  lemma ChunkFits(span: Range, points: seq<Point>, limits: Limits)
    requires Fits(span, limits.maxSpan) && 0 < |points| <= limits.maxPoints
    ensures WithinLimits(Call(span.lo, span.hi, points), limits)
  {
  }

  // Calls for one span: its points in order, at most maxPoints each.
  method ChunkPoints(span: Range, points: seq<Point>, limits: Limits) returns (calls: seq<Call>)
    requires limits.Valid() && Fits(span, limits.maxSpan)
    ensures forall c :: c in calls ==> WithinLimits(c, limits) && Range(c.start, c.end) == span
    ensures forall p, t :: CallCount(calls, p, t) == if Holds(span, t) then multiset(points)[p] else 0
    ensures forall c :: c in calls ==> Sorted(c.points, PointLe)
    ensures FullButLast(calls, limits.maxPoints)
  {
    hide SortBy, Holds, PointLe, WithinLimits, CallCount, Sorted;
    PointOrder();
    SortBySorts(points, PointLe);
    var ordered := SortBy(points, PointLe);
    calls := [];
    NoneNamed();
    var i := 0;
    while i < |ordered|
      invariant i <= |ordered|
      invariant forall c :: c in calls ==> WithinLimits(c, limits) && Range(c.start, c.end) == span
      invariant forall p, t :: CallCount(calls, p, t) == if Holds(span, t) then multiset(ordered[..i])[p] else 0
      invariant forall c :: c in calls ==> Sorted(c.points, PointLe)
      invariant forall k :: 0 <= k < |calls| ==>
                                |calls[k].points| == limits.maxPoints || (k == |calls| - 1 && i == |ordered|)
    {
      var j := Min(i + limits.maxPoints, |ordered|);
      var c := Call(span.lo, span.hi, ordered[i..j]);
      assert WithinLimits(c, limits) by { ChunkFits(span, ordered[i..j], limits); }
      SortedSlice(ordered, i, j);
      forall p, t ensures CallCount(calls + [c], p, t) == if Holds(span, t) then multiset(ordered[..j])[p] else 0 {
        CallsMore(calls, c, p, t);
        assert ordered[..j] == ordered[..i] + ordered[i..j];
        MultisetSplit(ordered[..i], ordered[i..j], p);
      }
      calls := calls + [c];
      i := j;
    }
    assert ordered[..|ordered|] == ordered;
  }

  method SpanList(m: map<Range, seq<Point>>) returns (spans: seq<Range>)
    ensures forall s :: s in spans <==> s in m
    ensures Distinct(spans)
  {
    hide Distinct;
    spans := [];
    NoneDistinct();
    var left := m.Keys;
    while left != {}
      invariant left <= m.Keys
      invariant forall s :: s in spans <==> s in m.Keys - left
      invariant Distinct(spans)
      decreases |left|
    {
      var s :| s in left;
      OneMoreDistinct(spans, s);
      spans := spans + [s];
      left := left - {s};
    }
  }

  lemma NoneDistinct()
    ensures Distinct([])
  {
  }

  lemma OneMoreDistinct(spans: seq<Range>, s: Range)
    requires Distinct(spans) && s !in spans
    ensures Distinct(spans + [s])
  {
  }

  predicate Distinct(spans: seq<Range>) {
    forall i, j :: 0 <= i < j < |spans| ==> spans[i] != spans[j]
  }

  lemma {:induction false} CallsConcat(a: seq<Call>, b: seq<Call>, p: Point, t: int)
    ensures CallCount(a + b, p, t) == CallCount(a, p, t) + CallCount(b, p, t)
  {
    if b == [] {
      assert a + b == a;
    } else {
      CallsConcat(a, b[..|b| - 1], p, t);
      assert (a + b)[..|a + b| - 1] == a + b[..|b| - 1];
    }
  }

  function Over(c: Call): Range {
    Range(c.start, c.end)
  }

  lemma LaterCalls(a: seq<Call>, b: seq<Call>, spans: seq<Range>, s: Range)
    requires InTimeOrder(a) && (forall c :: c in a ==> Over(c) in spans) && (forall c :: c in b ==> Over(c) == s)
    requires forall r :: r in spans ==> PairLe(r, s)
    ensures InTimeOrder(a + b) && forall c :: c in a + b ==> Over(c) in spans + [s]
  {
    var all := a + b;
    forall i, j | 0 <= i < j < |all| ensures PairLe(Over(all[i]), Over(all[j])) {
      if i < |a| { assert Over(a[i]) in spans; } else { assert Over(b[i - |a|]) == s; }
      if j >= |a| { assert Over(b[j - |a|]) == s; }
    }
  }

  lemma SpansFit(m: map<Range, seq<Point>>, gaps: seq<PointGaps>, maxSpan: int, s: Range)
    requires maxSpan >= 1 && GroupedBySpan(m, Pieces(gaps, maxSpan)) && s in m
    ensures Fits(s, maxSpan) && OfGap(gaps, maxSpan, s)
  {
    hide Pieces, OfGap, Fits;
    var pieces := Pieces(gaps, maxSpan);
    PointsOfPiece(pieces, s);
    var q :| q in pieces && q.span == s;
    PiecesFit(gaps, maxSpan);
    PieceOfGap(gaps, maxSpan, q);
  }

  lemma {:induction false} PointsOfPiece(pieces: seq<Piece>, s: Range)
    requires PointsAt(pieces, s) != []
    ensures exists q :: q in pieces && q.span == s
  {
    var n := |pieces| - 1;
    if pieces[n].span == s {
      assert pieces[n] in pieces;
    } else {
      PointsOfPiece(pieces[..n], s);
    }
  }

  // Points share calls: of the calls for one span only the last may have room left, and each call
  // lists its points in order.
  predicate Packed(calls: seq<Call>, maxPoints: nat) {
    && (forall i, j :: 0 <= i < j < |calls| && Over(calls[i]) == Over(calls[j]) ==> |calls[i].points| == maxPoints)
    && (forall i :: 0 <= i < |calls| ==> Sorted(calls[i].points, PointLe))
  }

  // The points of a call in the order of their external ids, those of one id by series.
  predicate InPointOrder(points: seq<Point>) {
    forall i, j :: 0 <= i < j < |points| ==>
      && StringLe(points[i].externalId, points[j].externalId)
      && (points[i].externalId == points[j].externalId ==> points[i].series <= points[j].series)
  }

  lemma PackedInOrder(calls: seq<Call>, maxPoints: nat)
    requires Packed(calls, maxPoints)
    ensures forall c :: c in calls ==> InPointOrder(c.points)
  {
    forall c | c in calls ensures InPointOrder(c.points) {
      var k :| 0 <= k < |calls| && calls[k] == c;
      forall i, j | 0 <= i < j < |c.points| ensures PointLe(c.points[i], c.points[j]) {}
    }
  }

  lemma PackedMore(a: seq<Call>, b: seq<Call>, spans: seq<Range>, s: Range, maxPoints: nat)
    requires Packed(a, maxPoints) && (forall c :: c in a ==> Over(c) in spans) && s !in spans
    requires (forall c :: c in b ==> Over(c) == s && Sorted(c.points, PointLe))
    requires FullButLast(b, maxPoints)
    ensures Packed(a + b, maxPoints)
  {
    hide PointLe, Sorted, Over;
    var all := a + b;
    forall i, j | 0 <= i < j < |all| && Over(all[i]) == Over(all[j]) ensures |all[i].points| == maxPoints {
      if i < |a| { assert a[i] in a; } else { assert all[i] == b[i - |a|]; }
      if j >= |a| { assert b[j - |a|] in b; }
    }
    forall i | 0 <= i < |all| ensures Sorted(all[i].points, PointLe) {
      if i >= |a| { assert b[i - |a|] in b; }
    }
  }

  // The calls name every point at every instant as often as its gaps hold that instant, within the
  // limits and in time order.
  method PlanCalls(gaps: seq<PointGaps>, limits: Limits) returns (calls: seq<Call>)
    requires limits.Valid()
    ensures forall c :: c in calls ==> WithinLimits(c, limits)
    ensures InTimeOrder(calls) && Packed(calls, limits.maxPoints)
    ensures forall c :: c in calls ==> InPointOrder(c.points)
    ensures forall c :: c in calls ==> OfGap(gaps, limits.maxSpan, Over(c))
    ensures forall p, t :: CallCount(calls, p, t) == GapCount(gaps, p, t)
  {
    hide InPointOrder;
    hide Packed, FullButLast, OfGap, GroupedBySpan, WithinLimits, CallCount, FetchedIn, Holds,
         Fits, InTimeOrder, PairLe, SortBy, Distinct;
    ghost var pieces := Pieces(gaps, limits.maxSpan);
    var bySpan := GroupBySpan(gaps, limits.maxSpan);
    var list := SpanList(bySpan);
    PairOrder();
    SortBySorts(list, PairLe);
    var spans := SortBy(list, PairLe);
    DistinctSpans(list, spans);
    calls := [];
    NoCalls(pieces);
    NoneNamed();
    assert spans[..0] == [];
    for k := 0 to |spans|
      invariant forall c :: c in calls ==> WithinLimits(c, limits)
      invariant InTimeOrder(calls) && Packed(calls, limits.maxPoints)
      invariant forall c :: c in calls ==> Over(c) in spans[..k] && OfGap(gaps, limits.maxSpan, Over(c))
      invariant forall p, t :: CallCount(calls, p, t) == FetchedIn(pieces, spans[..k], p, t)
    {
      var s := spans[k];
      assert s in spans;
      assert spans[..k + 1] == spans[..k] + [s];
      SpansFit(bySpan, gaps, limits.maxSpan, s);
      BeforeSpan(spans, k);
      var more := ChunkPoints(s, bySpan[s], limits);
      GroupAt(bySpan, pieces, s);
      forall p, t ensures CallCount(calls + more, p, t) == FetchedIn(pieces, spans[..k + 1], p, t) {
        CallsConcat(calls, more, p, t);
        OneMoreSpan(pieces, spans[..k], s, p, t);
      }
      LaterCalls(calls, more, spans[..k], s);
      PackedMore(calls, more, spans[..k], s, limits.maxPoints);
      calls := calls + more;
    }
    assert spans[..|spans|] == spans;
    PackedInOrder(calls, limits.maxPoints);
    forall p, t ensures CallCount(calls, p, t) == GapCount(gaps, p, t) {
      PieceSpans(bySpan, pieces, spans);
      AllSpans(pieces, spans, p, t);
      PiecesFetchGaps(gaps, limits.maxSpan, p, t);
    }
  }

  lemma NoCalls(pieces: seq<Piece>)
    ensures InTimeOrder([]) && (forall n :: Packed([], n)) && forall p, t :: FetchedIn(pieces, [], p, t) == 0
  {
    forall p, t ensures FetchedIn(pieces, [], p, t) == 0 { NoSpans(pieces, p, t); }
  }

  lemma DistinctSpans(list: seq<Range>, spans: seq<Range>)
    requires multiset(list) == multiset(spans) && Distinct(list)
    ensures Distinct(spans)
  {
    NoRepeats(list, spans);
  }

  lemma BeforeSpan(spans: seq<Range>, k: nat)
    requires Sorted(spans, PairLe) && Distinct(spans) && k < |spans|
    ensures spans[k] !in spans[..k] && forall r :: r in spans[..k] ==> PairLe(r, spans[k])
  {
  }

  lemma GroupAt(m: map<Range, seq<Point>>, pieces: seq<Piece>, s: Range)
    requires GroupedBySpan(m, pieces) && s in m
    ensures m[s] == PointsAt(pieces, s)
  {
  }

  lemma PieceSpans(m: map<Range, seq<Point>>, pieces: seq<Piece>, spans: seq<Range>)
    requires GroupedBySpan(m, pieces) && forall s :: s in m ==> s in spans
    ensures forall q :: q in pieces ==> q.span in spans
  {
  }
}
