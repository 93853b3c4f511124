// Which time ranges of a series are cached (api/src/tabayyun/services/coverage.py): the gaps that are
// left to fetch, and the table that records what was fetched.
module Coverage {
  import opened Int64
  import opened Sorting
  import opened Timeconv

  // Half-open, in nanoseconds.
  datatype Range = Range(lo: int, hi: int)

  predicate Holds(r: Range, t: int) {
    r.lo <= t < r.hi
  }

  ghost predicate InSome(rs: seq<Range>, t: int) {
    exists k: nat :: k < |rs| && Holds(rs[k], t)
  }

  // ---- missing_ranges ----------------------------------------------------------------------

  // Order of the pairs.
  predicate PairLe(a: Range, b: Range) {
    a.lo < b.lo || (a.lo == b.lo && a.hi <= b.hi)
  }

  predicate Apart(gaps: seq<Range>) {
    forall i, j :: 0 <= i < j < |gaps| ==> gaps[i].hi < gaps[j].lo
  }

  predicate Proper(gaps: seq<Range>, start: int, end: int) {
    forall i :: 0 <= i < |gaps| ==> start <= gaps[i].lo < gaps[i].hi <= end
  }

  // Exactly the uncovered instants of [start, end), as ordered gaps that are not empty and do not touch.
  ghost predicate IsMissing(covered: seq<Range>, start: int, end: int, gaps: seq<Range>) {
    && Apart(gaps) && Proper(gaps, start, end)
    && forall t :: InSome(gaps, t) <==> start <= t < end && !InSome(covered, t)
  }

  function NonEmpty(rs: seq<Range>): (s: seq<Range>)
    ensures forall r :: r in s <==> r in rs && r.hi > r.lo
  {
    if rs == [] then [] else
      var s := NonEmpty(rs[..|rs| - 1]);
      if rs[|rs| - 1].hi > rs[|rs| - 1].lo then s + [rs[|rs| - 1]] else s
  }

  lemma InSomeMember(rs: seq<Range>, r: Range, t: int)
    requires r in rs && Holds(r, t)
    ensures InSome(rs, t)
  {
    var k: nat :| k < |rs| && rs[k] == r;
    assert Holds(rs[k], t);
  }

  lemma SameInstants(rs: seq<Range>, sorted: seq<Range>, t: int)
    requires forall r :: r in sorted <==> r in rs && r.hi > r.lo
    ensures InSome(rs, t) <==> InSome(sorted, t)
  {
    if InSome(rs, t) {
      var k: nat :| k < |rs| && Holds(rs[k], t);
      InSomeMember(sorted, rs[k], t);
    }
    if InSome(sorted, t) {
      var k: nat :| k < |sorted| && Holds(sorted[k], t);
      InSomeMember(rs, sorted[k], t);
    }
  }

  // After the first k of the sorted ranges: what lies before the cursor is decided.
  ghost predicate Decided(s: seq<Range>, k: nat, start: int, cursor: int, gaps: seq<Range>)
    requires k <= |s|
  {
    && start <= cursor && Apart(gaps) && Proper(gaps, start, cursor)
    && (forall i :: 0 <= i < |gaps| ==> gaps[i].hi < cursor)
    && (forall i :: 0 <= i < k ==> s[i].hi <= cursor)
    && forall t :: start <= t < cursor ==> (InSome(gaps, t) <==> !InSome(s, t))
  }

  lemma SortedFrom(s: seq<Range>, k: nat, t: int)
    requires Sorted(s, PairLe) && k < |s| && t < s[k].lo
    requires forall i :: 0 <= i < k ==> s[i].hi <= t
    ensures !InSome(s, t)
  {
    forall i: nat | i < |s| ensures !Holds(s[i], t) {
      if i > k { assert PairLe(s[k], s[i]); }
    }
  }

  lemma InSomeMore(gaps: seq<Range>, g: Range, t: int)
    ensures InSome(gaps + [g], t) <==> InSome(gaps, t) || Holds(g, t)
  {
    var more := gaps + [g];
    if InSome(gaps, t) {
      var k: nat :| k < |gaps| && Holds(gaps[k], t);
      assert Holds(more[k], t);
    }
    if Holds(g, t) { assert Holds(more[|gaps|], t); }
  }

  lemma GapsBefore(gaps: seq<Range>, cursor: int, t: int)
    requires (forall i :: 0 <= i < |gaps| ==> gaps[i].hi < cursor) && cursor <= t
    ensures !InSome(gaps, t)
  {
  }

  // One more range that reaches past the cursor.
  lemma CursorMoves(s: seq<Range>, k: nat, start: int, cursor: int, gaps: seq<Range>)
    requires Sorted(s, PairLe) && k < |s| && Decided(s, k, start, cursor, gaps)
    requires s[k].hi > cursor && s[k].hi > s[k].lo
    ensures Decided(s, k + 1, start, s[k].hi, if s[k].lo > cursor then gaps + [Range(cursor, s[k].lo)] else gaps)
  {
    var r := s[k];
    var more := if r.lo > cursor then gaps + [Range(cursor, r.lo)] else gaps;
    forall t | start <= t < r.hi ensures InSome(more, t) <==> !InSome(s, t) {
      InSomeMore(gaps, Range(cursor, r.lo), t);
      if t >= cursor {
        GapsBefore(gaps, cursor, t);
        if t < r.lo { SortedFrom(s, k, t); } else { InSomeMember(s, r, t); }
      }
    }
    hide InSome, Sorted;
  }

  lemma RangePassed(s: seq<Range>, k: nat, start: int, cursor: int, gaps: seq<Range>)
    requires k < |s| && Decided(s, k, start, cursor, gaps) && s[k].hi <= cursor
    ensures Decided(s, k + 1, start, cursor, gaps)
  {
    hide InSome, Apart, Proper;
  }

  lemma Finished(covered: seq<Range>, s: seq<Range>, k: nat, start: int, cursor: int, end: int, gaps: seq<Range>)
    requires k <= |s| && start < end && Decided(s, k, start, cursor, gaps)
    requires Sorted(s, PairLe) && forall r :: r in s <==> r in covered && r.hi > r.lo
    requires if cursor >= end then Proper(gaps, start, end) else k == |s| || s[k].lo >= end
    ensures IsMissing(covered, start, end, if cursor < end then gaps + [Range(cursor, end)] else gaps)
  {
    var more := if cursor < end then gaps + [Range(cursor, end)] else gaps;
    forall t ensures InSome(more, t) <==> start <= t < end && !InSome(covered, t) {
      SameInstants(covered, s, t);
      InSomeMore(gaps, Range(cursor, end), t);
      ProperInstants(gaps, start, if cursor < end then cursor else end, t);
      if cursor <= t < end {
        if k < |s| { SortedFrom(s, k, t); } else { AllPassed(s, cursor, t); }
      }
    }
    hide InSome, Sorted;
  }

  lemma AllPassed(s: seq<Range>, cursor: int, t: int)
    requires (forall i :: 0 <= i < |s| ==> s[i].hi <= cursor) && cursor <= t
    ensures !InSome(s, t)
  {
  }

  lemma ProperInstants(gaps: seq<Range>, start: int, end: int, t: int)
    requires Proper(gaps, start, end)
    ensures InSome(gaps, t) ==> start <= t < end
  {
  }

  lemma PairOrder()
    ensures TotalPreorder(PairLe)
  {
  }

  method MissingRanges(covered: seq<Range>, start: int, end: int) returns (gaps: seq<Range>)
    ensures IsMissing(covered, start, end, gaps)
  {
    hide Decided, InSome, Insert, SortBy;
    gaps := [];
    if end <= start {
      NothingMissing(covered, start, end);
      return;
    }
    PairOrder();
    SortBySorts(NonEmpty(covered), PairLe);
    var s := SortBy(NonEmpty(covered), PairLe);
    hide Sorted, IsMissing;
    var cursor := start;
    NothingDecided(s, start);
    var k := 0;
    while k < |s|
      invariant k <= |s| && cursor < end && Decided(s, k, start, cursor, gaps)
    {
      var r := s[k];
      if r.hi <= cursor {
        RangePassed(s, k, start, cursor, gaps);
        k := k + 1;
        continue;
      }
      if r.lo >= end { break; }
      assert r in s;
      CursorMoves(s, k, start, cursor, gaps);
      GapFits(s, k, start, cursor, end, gaps);
      if r.lo > cursor { gaps := gaps + [Range(cursor, r.lo)]; }
      cursor := Max(cursor, r.hi);
      if cursor >= end {
        Finished(covered, s, k + 1, start, cursor, end, gaps);
        return;
      }
      k := k + 1;
    }
    Finished(covered, s, k, start, cursor, end, gaps);
    if cursor < end { gaps := gaps + [Range(cursor, end)]; }
  }

  lemma NothingMissing(covered: seq<Range>, start: int, end: int)
    requires end <= start
    ensures IsMissing(covered, start, end, [])
  {
  }

  lemma NothingDecided(s: seq<Range>, start: int)
    ensures Decided(s, 0, start, start, [])
  {
  }

  lemma GapFits(s: seq<Range>, k: nat, start: int, cursor: int, end: int, gaps: seq<Range>)
    requires k < |s| && Decided(s, k, start, cursor, gaps) && cursor < end && s[k].lo < end
    ensures Proper(if s[k].lo > cursor then gaps + [Range(cursor, s[k].lo)] else gaps, start, end)
  {
    hide InSome;
  }

  // The gaps are determined by the covered instants.
  lemma MissingUnique(covered: seq<Range>, start: int, end: int, gaps: seq<Range>, other: seq<Range>)
    requires IsMissing(covered, start, end, gaps) && IsMissing(covered, start, end, other)
    ensures gaps == other
  {
    hide IsMissing;
    forall t ensures InSome(gaps, t) <==> InSome(other, t) {
      MissingAt(covered, start, end, gaps, t);
      MissingAt(covered, start, end, other, t);
    }
    MissingApart(covered, start, end, gaps);
    MissingApart(covered, start, end, other);
    hide InSome;
    SameGaps(gaps, other);
  }

  lemma MissingAt(covered: seq<Range>, start: int, end: int, gaps: seq<Range>, t: int)
    requires IsMissing(covered, start, end, gaps)
    ensures InSome(gaps, t) <==> start <= t < end && !InSome(covered, t)
  {
  }

  lemma MissingApart(covered: seq<Range>, start: int, end: int, gaps: seq<Range>)
    requires IsMissing(covered, start, end, gaps)
    ensures Apart(gaps) && Proper(gaps, start, end)
  {
  }

  lemma {:induction false} SameGaps(a: seq<Range>, b: seq<Range>)
    requires Apart(a) && Apart(b)
    requires forall r :: r in a || r in b ==> r.lo < r.hi
    requires forall t :: InSome(a, t) <==> InSome(b, t)
    ensures a == b
  {
    hide Apart, InSome;
    NoneOf();
    if a == [] {
      if b != [] { InSomeMember(b, b[0], b[0].lo); }
    } else {
      InSomeMember(a, a[0], a[0].lo);
      assert b != [];
      FirstGap(a, b);
      FirstGap(b, a);
      SameRest(a, b);
      ApartRest(a);
      ApartRest(b);
      SameGaps(a[1..], b[1..]);
      assert a == [a[0]] + a[1..] && b == [b[0]] + b[1..];
    }
  }

  lemma ApartRest(ranges: seq<Range>)
    requires Apart(ranges) && ranges != []
    ensures Apart(ranges[1..])
  {
  }

  lemma NoneOf()
    ensures forall t :: !InSome([], t)
  {
  }

  // The first instant and the end of the first gap are where b says they are.
  lemma FirstGap(a: seq<Range>, b: seq<Range>)
    requires Apart(a) && Apart(b) && a != [] && b != []
    requires forall r :: r in a || r in b ==> r.lo < r.hi
    requires forall t :: InSome(a, t) <==> InSome(b, t)
    ensures b[0].lo <= a[0].lo && (a[0].lo == b[0].lo ==> a[0].hi <= b[0].hi)
  {
    InSomeMember(a, a[0], a[0].lo);
    FirstInstant(b, a[0].lo);
    if a[0].lo == b[0].lo && b[0].hi < a[0].hi {
      InSomeMember(a, a[0], b[0].hi);
      EndIsFree(b);
    }
  }

  lemma FirstInstant(b: seq<Range>, t: int)
    requires Apart(b) && b != [] && b[0].lo < b[0].hi && InSome(b, t)
    ensures b[0].lo <= t
  {
    var k: nat :| k < |b| && Holds(b[k], t);
    if k > 0 { assert b[0].hi < b[k].lo; }
  }

  lemma EndIsFree(b: seq<Range>)
    requires Apart(b) && b != []
    ensures !InSome(b, b[0].hi)
  {
  }

  lemma SameRest(a: seq<Range>, b: seq<Range>)
    requires Apart(a) && Apart(b) && a != [] && b != [] && a[0] == b[0]
    requires forall t :: InSome(a, t) <==> InSome(b, t)
    ensures forall t :: InSome(a[1..], t) <==> InSome(b[1..], t)
  {
    forall t ensures InSome(a[1..], t) <==> InSome(b[1..], t) {
      RestInstants(a, t);
      RestInstants(b, t);
    }
  }

  lemma RestInstants(a: seq<Range>, t: int)
    requires Apart(a) && a != []
    ensures InSome(a[1..], t) <==> InSome(a, t) && t > a[0].hi
  {
    if InSome(a[1..], t) {
      var k: nat :| k < |a[1..]| && Holds(a[1..][k], t);
      assert Holds(a[k + 1], t) && a[0].hi < a[k + 1].lo;
    }
    if InSome(a, t) && t > a[0].hi {
      var k: nat :| k < |a| && Holds(a[k], t);
      assert Holds(a[1..][k - 1], t);
    }
  }

  // Gaps begin and end at whole microseconds when the range and the covered ranges do.
  lemma GapsAligned(covered: seq<Range>, start: int, end: int, gaps: seq<Range>, i: nat)
    requires IsMissing(covered, start, end, gaps) && i < |gaps|
    requires Aligned(start) && Aligned(end) && forall r :: r in covered ==> Aligned(r.lo) && Aligned(r.hi)
    ensures Aligned(gaps[i].lo) && Aligned(gaps[i].hi)
  {
    hide Aligned;
    var lo, hi := gaps[i].lo, gaps[i].hi;
    MissingApart(covered, start, end, gaps);
    EdgesFree(gaps, i);
    InSomeMember(gaps, gaps[i], lo);
    InSomeMember(gaps, gaps[i], hi - 1);
    if lo != start {
      assert InSome(covered, lo - 1);
      var k: nat :| k < |covered| && Holds(covered[k], lo - 1);
      EdgeOfCovered(covered, k, lo);
    }
    if hi != end {
      assert InSome(covered, hi);
      var k: nat :| k < |covered| && Holds(covered[k], hi);
      EdgeOfCovered(covered, k, hi - 1);
    }
  }

  lemma EdgesFree(gaps: seq<Range>, i: nat)
    requires Apart(gaps) && i < |gaps| && (forall k :: 0 <= k < |gaps| ==> gaps[k].lo < gaps[k].hi)
    ensures !InSome(gaps, gaps[i].lo - 1) && !InSome(gaps, gaps[i].hi)
  {
    forall k: nat | k < |gaps| ensures !Holds(gaps[k], gaps[i].lo - 1) && !Holds(gaps[k], gaps[i].hi) {
      if k < i { assert gaps[k].hi < gaps[i].lo; }
      if i < k { assert gaps[i].hi < gaps[k].lo; }
    }
  }

  // A covered range does not hold the uncovered instant t.
  lemma EdgeOfCovered(covered: seq<Range>, k: nat, t: int)
    requires k < |covered| && !InSome(covered, t)
    ensures t < covered[k].lo || covered[k].hi <= t
  {
    assert !Holds(covered[k], t);
  }

  // ---- The coverage table --------------------------------------------------------------------

  // Stored bounds are whole microseconds.
  datatype CoverageRow = CoverageRow(series: nat, layer: string, start: int, end: int, count: nat, writtenAt: int)

  function RangeOf(r: CoverageRow): Range {
    Range(ToNs(r.start), ToNs(r.end))
  }

  predicate SameKey(r: CoverageRow, q: CoverageRow) {
    r.series == q.series && r.layer == q.layer && r.start == q.start
  }

  predicate UniqueKeys(rows: seq<CoverageRow>) {
    forall i, j :: 0 <= i < j < |rows| ==> !SameKey(rows[i], rows[j])
  }

  predicate Caches(r: CoverageRow, series: nat, layer: string, t: int) {
    r.series == series && r.layer == layer && r.start * 1000 <= t < r.end * 1000
  }

  // Some row says that instant t of the series is cached.
  ghost predicate Cached(rows: seq<CoverageRow>, series: nat, layer: string, t: int) {
    exists k: nat :: k < |rows| && Caches(rows[k], series, layer, t)
  }

  // What a recorded span caches: it widens to whole microseconds.
  ghost function Widened(start: int, end: int): Range {
    Range(start - start % 1000, if end % 1000 == 0 then end else end - end % 1000 + 1000)
  }

  lemma WidenedIs(start: int, end: int)
    ensures Widened(start, end) == Range(ToNs(Floor(start)), ToNs(Ceiling(end)))
  {
    RoundingBracket(end);
    hide Ceiling;
    assert end == end / 1000 * 1000 + end % 1000;
    assert end % 1000 == 0 ==> Ceiling(end) == end / 1000;
    assert end % 1000 > 0 ==> Ceiling(end) == end / 1000 + 1;
  }

  lemma CachedMore(rows: seq<CoverageRow>, q: CoverageRow, series: nat, layer: string, t: int)
    ensures Cached(rows + [q], series, layer, t) <==> Cached(rows, series, layer, t) || Caches(q, series, layer, t)
  {
    var more := rows + [q];
    if Cached(rows, series, layer, t) {
      var k: nat :| k < |rows| && Caches(rows[k], series, layer, t);
      assert Caches(more[k], series, layer, t);
    }
    if Caches(q, series, layer, t) { assert Caches(more[|rows|], series, layer, t); }
  }

  lemma CachedChanged(rows: seq<CoverageRow>, i: nat, q: CoverageRow, series: nat, layer: string, t: int)
    requires i < |rows|
    requires Caches(q, series, layer, t) <==> Caches(rows[i], series, layer, t) || Adds(rows[i], q, series, layer, t)
    ensures Cached(rows[i := q], series, layer, t) <==>
              Cached(rows, series, layer, t) || Adds(rows[i], q, series, layer, t)
  {
    var more := rows[i := q];
    if Cached(rows, series, layer, t) {
      var k: nat :| k < |rows| && Caches(rows[k], series, layer, t);
      assert Caches(more[k], series, layer, t);
    }
    if Adds(rows[i], q, series, layer, t) { assert Caches(more[i], series, layer, t); }
    if Cached(more, series, layer, t) {
      var k: nat :| k < |rows| && Caches(more[k], series, layer, t);
      if k != i { assert Caches(rows[k], series, layer, t); }
    }
  }

  // Row q caches t although row r did not.
  predicate Adds(r: CoverageRow, q: CoverageRow, series: nat, layer: string, t: int) {
    Caches(q, series, layer, t) && !Caches(r, series, layer, t)
  }

  // Row r is q, widened to the end a row of the same key had before.
  ghost predicate Upserted(before: seq<CoverageRow>, q: CoverageRow, r: CoverageRow) {
    && r.count == q.count && r.writtenAt == q.writtenAt
    && (if exists p :: p in before && SameKey(p, q)
        then exists p :: p in before && SameKey(p, q) && r.end == Max(p.end, q.end)
        else r.end == q.end)
  }

  lemma RowInserted(before: seq<CoverageRow>, q: CoverageRow)
    requires forall j :: 0 <= j < |before| ==> !SameKey(before[j], q)
    ensures forall r :: r in before + [q] && SameKey(r, q) ==> r == q && Upserted(before, q, r)
    ensures q in before + [q]
    ensures forall r :: !SameKey(r, q) ==> (r in before + [q] <==> r in before)
  {
  }

  lemma OneRowPerKey(rows: seq<CoverageRow>, i: nat, k: nat)
    requires UniqueKeys(rows) && i < |rows| && k < |rows| && SameKey(rows[i], rows[k])
    ensures i == k
  {
  }

  lemma RowWidened(before: seq<CoverageRow>, i: nat, q: CoverageRow, w: CoverageRow)
    requires UniqueKeys(before) && i < |before| && SameKey(before[i], q) && SameKey(w, q)
    requires w.count == q.count && w.writtenAt == q.writtenAt && w.end == Max(before[i].end, q.end)
    ensures forall r :: r in before[i := w] && SameKey(r, q) ==> r == w && Upserted(before, q, r)
    ensures w in before[i := w]
    ensures forall r :: !SameKey(r, q) ==> (r in before[i := w] <==> r in before)
  {
    var rows := before[i := w];
    assert rows[i] == w && before[i] in before;
    forall r | r in rows && SameKey(r, q) ensures r == w {
      var k: nat :| k < |rows| && rows[k] == r;
      if k != i { OneRowPerKey(before, i, k); }
    }
    forall r | !SameKey(r, q) ensures r in rows <==> r in before {
      if r in before {
        var k: nat :| k < |before| && before[k] == r;
        assert rows[k] == r;
      }
    }
  }

  class CoverageTable {
    var rows: seq<CoverageRow>

    ghost predicate Valid()
      reads this
    {
      UniqueKeys(rows)
    }

    constructor ()
      ensures Valid() && rows == []
    {
      rows := [];
    }

    // Insert, or widen the row that starts at the same instant.
    method Record(series: nat, layer: string, start: int, end: int, count: nat, now: int)
      requires Valid()
      modifies this
      ensures Valid()
      ensures forall s, l, t :: Cached(rows, s, l, t) <==>
                Cached(old(rows), s, l, t) || (s == series && l == layer && Holds(Widened(start, end), t))
      ensures var q := CoverageRow(series, layer, Floor(start), Ceiling(end), count, now);
              && (forall r :: r in rows && SameKey(r, q) ==> Upserted(old(rows), q, r))
              && (exists r :: r in rows && SameKey(r, q))
              && (forall r :: !SameKey(r, q) ==> (r in rows <==> r in old(rows)))
    {
      hide Cached, Floor, Ceiling, Widened;
      WidenedIs(start, end);
      var q := CoverageRow(series, layer, Floor(start), Ceiling(end), count, now);
      var i := 0;
      while i < |rows| && !SameKey(rows[i], q)
        invariant i <= |rows| && forall j :: 0 <= j < i ==> !SameKey(rows[j], q)
      {
        i := i + 1;
      }
      ghost var before := rows;
      if i == |rows| {
        rows := rows + [q];
        RowInserted(before, q);
        forall s, l, t
          ensures Cached(rows, s, l, t) <==>
                    Cached(before, s, l, t) || (s == series && l == layer && Holds(Widened(start, end), t))
        {
          CachedMore(before, q, s, l, t);
        }
      } else {
        var r := rows[i].(end := Max(rows[i].end, q.end), count := count, writtenAt := now);
        rows := rows[i := r];
        RowWidened(before, i, q, r);
        forall s, l, t
          ensures Cached(rows, s, l, t) <==>
                    Cached(before, s, l, t) || (s == series && l == layer && Holds(Widened(start, end), t))
        {
          WidenedRow(before[i], q, r, s, l, t);
          CachedChanged(before, i, r, s, l, t);
          CachedAt(before, i, s, l, t);
        }
      }
    }

    // All recorded ranges of a series, oldest first.
    method CoveredRanges(series: nat, layer: string) returns (rs: seq<Range>)
      ensures forall t :: InSome(rs, t) <==> Cached(rows, series, layer, t)
      ensures forall i, j :: 0 <= i < j < |rs| ==> rs[i].lo <= rs[j].lo
      ensures forall r :: r in rs ==> Aligned(r.lo) && Aligned(r.hi)
    {
      hide Cached, InSome, Aligned;
      var found := [];
      NothingCached(series, layer);
      for k := 0 to |rows|
        invariant forall t :: InSome(found, t) <==> Cached(rows[..k], series, layer, t)
        invariant forall r :: r in found ==> Aligned(r.lo) && Aligned(r.hi)
      {
        ghost var before := found;
        var r := rows[k];
        assert rows[..k + 1] == rows[..k] + [r];
        WholeIsAligned(r.start);
        WholeIsAligned(r.end);
        if r.series == series && r.layer == layer { found := found + [RangeOf(r)]; }
        forall t ensures InSome(found, t) <==> Cached(rows[..k + 1], series, layer, t) {
          CachedMore(rows[..k], r, series, layer, t);
          InSomeMore(before, RangeOf(r), t);
        }
      }
      assert rows[..|rows|] == rows;
      StartOrder();
      SortBySorts(found, StartLe);
      rs := SortBy(found, StartLe);
      forall t ensures InSome(rs, t) <==> InSome(found, t) { SameMembers(found, rs, t); }
      forall i, j | 0 <= i < j < |rs| ensures rs[i].lo <= rs[j].lo { assert StartLe(rs[i], rs[j]); }
    }
  }

  predicate StartLe(a: Range, b: Range) {
    a.lo <= b.lo
  }

  lemma StartOrder()
    ensures TotalPreorder(StartLe)
  {
  }

  lemma SameMembers(a: seq<Range>, b: seq<Range>, t: int)
    requires forall r :: r in b <==> r in a
    ensures InSome(b, t) <==> InSome(a, t)
  {
    if InSome(a, t) {
      var k: nat :| k < |a| && Holds(a[k], t);
      InSomeMember(b, a[k], t);
    }
    if InSome(b, t) {
      var k: nat :| k < |b| && Holds(b[k], t);
      InSomeMember(a, b[k], t);
    }
  }

  lemma NothingCached(series: nat, layer: string)
    ensures forall t :: !InSome([], t) && !Cached([], series, layer, t)
  {
  }

  lemma CachedAt(rows: seq<CoverageRow>, i: nat, series: nat, layer: string, t: int)
    requires i < |rows|
    ensures Caches(rows[i], series, layer, t) ==> Cached(rows, series, layer, t)
  {
  }

  // Two half-open ranges with one start: the wider one holds what either does.
  lemma WidenedRow(r: CoverageRow, q: CoverageRow, w: CoverageRow, series: nat, layer: string, t: int)
    requires SameKey(r, q) && SameKey(w, r) && w.end == Max(r.end, q.end)
    ensures Caches(w, series, layer, t) <==> Caches(r, series, layer, t) || Caches(q, series, layer, t)
  {
  }
}
