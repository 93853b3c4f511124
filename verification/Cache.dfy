// The Parquet cache's write and read (core/tabayyun-core/src/cache.rs). The object store is a
// growing set of immutable parts; reads fetch them in an arbitrary order.
module Cache {
  import opened Int64
  import opened Sorting
  import opened Frame
  import opened Calendar
  import opened Store
  import A = Answers

  datatype Result<T> = Ok(value: T) | Err(field: string)

  datatype WriteReport = WriteReport(files: nat, rows: nat, start: int, end: int)

  // A fetched row and the stamp of the part it came from.
  datatype Row = Row(writeNs: int, sample: Sample)

  // A path segment must not be empty, hold a slash or name a directory.
  predicate ValidSegment(v: string) {
    v != [] && '/' !in v && '\\' !in v && v != "." && v != ".."
  }

  // ---- Encoding a part ------------------------------------------------------------------

  // Rows [s, e) of a normalised frame.
  function RowsOf(f: SeriesFrame, s: nat, e: nat): seq<StoredRow>
    requires f.Valid() && s <= e <= |f.ts|
  {
    seq(e - s, i requires 0 <= i < e - s => StoredRow(f.id, f.At(s + i)))
  }

  function GroupOf(rows: seq<StoredRow>): RowGroup
    requires rows != []
  {
    var last := |rows| - 1;
    RowGroup(rows, Stats(Some((rows[0].sample.ts, rows[last].sample.ts)), Some((rows[0].id, rows[last].id))))
  }

  // The row groups of one part: at most ROW_GROUP_ROWS rows each, in order.
  function GroupsOf(rows: seq<StoredRow>): seq<RowGroup> {
    if rows == [] then []
    else if |rows| <= ROW_GROUP_ROWS then [GroupOf(rows)]
    else [GroupOf(rows[..ROW_GROUP_ROWS])] + GroupsOf(rows[ROW_GROUP_ROWS..])
  }

  // Rows of one series in time order.
  predicate OneSeries(rows: seq<StoredRow>) {
    forall i, j :: 0 <= i < j < |rows| ==> rows[i].id == rows[j].id && rows[i].sample.ts < rows[j].sample.ts
  }

  ghost predicate InGroups(groups: seq<RowGroup>, r: StoredRow) {
    exists g :: g in groups && r in g.rows
  }

  lemma InFirstGroup(g: RowGroup, groups: seq<RowGroup>, r: StoredRow)
    ensures InGroups([g] + groups, r) <==> r in g.rows || InGroups(groups, r)
  {
    var all := [g] + groups;
    assert all[0] == g && forall h :: h in all <==> h == g || h in groups;
    if InGroups(groups, r) {
      var h :| h in groups && r in h.rows;
      assert h in all;
    }
  }

  lemma GroupBounds(rows: seq<StoredRow>)
    requires OneSeries(rows) && rows != []
    ensures TrueBounds(GroupOf(rows))
  {
    StringLeReflexive(rows[0].id);
  }

  lemma {:induction false} GroupsHoldRows(rows: seq<StoredRow>)
    requires OneSeries(rows)
    ensures forall g :: g in GroupsOf(rows) ==> TrueBounds(g) && |g.rows| <= ROW_GROUP_ROWS
    ensures forall r :: r in rows <==> InGroups(GroupsOf(rows), r)
  {
    hide TrueBounds, GroupOf, InGroups;
    if rows == [] {
      NoGroups();
    } else if |rows| <= ROW_GROUP_ROWS {
      GroupIs(rows);
      assert [GroupOf(rows)] == [GroupOf(rows)] + [];
      NoGroups();
      forall r ensures r in rows <==> InGroups(GroupsOf(rows), r) { InFirstGroup(GroupOf(rows), [], r); }
    } else {
      var first, rest := rows[..ROW_GROUP_ROWS], rows[ROW_GROUP_ROWS..];
      assert rows == first + rest;
      GroupIs(first);
      GroupsHoldRows(rest);
      forall r ensures r in rows <==> InGroups(GroupsOf(rows), r) { InFirstGroup(GroupOf(first), GroupsOf(rest), r); }
    }
  }

  lemma NoGroups()
    ensures forall r :: !InGroups([], r)
  {
  }

  lemma GroupIs(rows: seq<StoredRow>)
    requires OneSeries(rows) && rows != []
    ensures GroupOf(rows).rows == rows && TrueBounds(GroupOf(rows))
  {
    GroupBounds(rows);
  }

  // ---- Splitting a write by month -----------------------------------------------------------

  // Part i of a write holds the frame's rows [cuts[i], cuts[i + 1]), all of its month.
  ghost predicate Split(w: Write, bucket: nat, parts: seq<Part>, cuts: seq<nat>)
  {
    && w.frame.Valid()
    && |cuts| == |parts| + 1 && cuts[0] == 0
    && (forall i, j :: 0 <= i < j < |cuts| ==> cuts[i] < cuts[j] <= |w.frame.ts|)
    && (forall i :: 0 <= i < |parts| ==> IsPart(w, bucket, parts[i], cuts[i], cuts[i + 1]))
  }

  ghost predicate IsPart(w: Write, bucket: nat, p: Part, s: nat, e: nat)
    requires w.frame.Valid()
  {
    && s < e <= |w.frame.ts|
    && p == Part(w.layer, w.source, bucket, YearMonth(w.frame.ts[s]), w.stamp, GroupsOf(RowsOf(w.frame, s, e)))
    && forall k :: s <= k < e ==> YearMonth(w.frame.ts[k]) == p.month
  }

  // A month takes a second part only for a sample at i64::MAX.
  ghost predicate OnePartPerMonth(w: Write, parts: seq<Part>, cuts: seq<nat>)
    requires |cuts| == |parts| + 1
  {
    forall i, j :: 0 <= i < j < |parts| && parts[i].month == parts[j].month ==>
      j == |parts| - 1 && cuts[j] == |w.frame.ts| - 1 && w.frame.ts[cuts[j]] == MAX
  }

  lemma NoParts(w: Write, bucket: nat)
    requires ValidWrite(w)
    ensures Split(w, bucket, [], [0]) && OnePartPerMonth(w, [], [0])
  {
  }

  // The parts cut the whole frame into months.
  ghost predicate SplitsInto(w: Write, bucket: nat, parts: seq<Part>) {
    exists cuts ::
      Split(w, bucket, parts, cuts) && cuts[|parts|] == |w.frame.ts| && OnePartPerMonth(w, parts, cuts)
  }

  // The month loop of `write`.
  method SplitByMonth(w: Write, bucket: nat) returns (parts: seq<Part>, ghost cuts: seq<nat>)
    requires ValidWrite(w)
    ensures Split(w, bucket, parts, cuts) && cuts[|parts|] == |w.frame.ts|
    ensures OnePartPerMonth(w, parts, cuts)
    ensures SplitsInto(w, bucket, parts)
  {
    hide Split, OnePartPerMonth, YearMonth, MonthStartNs, GroupsOf, RowsOf;
    var f := w.frame;
    var n := |f.ts|;
    parts, cuts := [], [0];
    var s := 0;
    NoParts(w, bucket);
    while s < n
      invariant 0 <= s <= n && |cuts| == |parts| + 1
      invariant Split(w, bucket, parts, cuts) && cuts[|parts|] == s
      invariant OnePartPerMonth(w, parts, cuts)
      invariant s < n ==> forall i :: 0 <= i < |parts| ==> MonthDone(parts[i].month, f.ts[s])
    {
      var mo := YearMonth(f.ts[s]);
      var monthEnd := MonthStartNs(mo.y, mo.m + 1);
      var e := s;
      while e < n && f.ts[e] < monthEnd
        invariant s <= e <= n
        invariant forall k :: s <= k < e ==> f.ts[k] < monthEnd
      {
        e := e + 1;
      }
      // The end of April 2262 saturates at i64::MAX, where a sample still belongs to it.
      e := if e > s + 1 then e else s + 1;
      SameMonth(f, s, e);
      var p := Part(w.layer, w.source, bucket, mo, w.stamp, GroupsOf(RowsOf(f, s, e)));
      SplitMore(w, bucket, parts, cuts, p, e);
      OnePartMore(w, bucket, parts, cuts, p, e);
      if e < n { NextMonths(w, parts, p, s, e); }
      parts, cuts := parts + [p], cuts + [e];
      s := e;
    }
  }

  // No further sample of month mo follows, except one at i64::MAX.
  predicate MonthDone(mo: Month, t: int) {
    (mo.Le(YearMonth(t)) && YearMonth(t) != mo) || t == MAX
  }

  predicate MonthCut(f: SeriesFrame, s: nat, e: nat)
    requires f.Valid()
  {
    && s < e <= |f.ts|
    && var end := MonthStartNs(YearMonth(f.ts[s]).y, YearMonth(f.ts[s]).m + 1);
       && (e == s + 1 || forall k :: s <= k < e ==> f.ts[k] < end)
       && (e < |f.ts| ==> f.ts[e] >= end)
  }

  lemma SameMonth(f: SeriesFrame, s: nat, e: nat)
    requires f.Valid() && Increasing(f.ts) && MonthCut(f, s, e)
    ensures forall k :: s <= k < e ==> YearMonth(f.ts[k]) == YearMonth(f.ts[s])
    ensures e < |f.ts| ==> MonthDone(YearMonth(f.ts[s]), f.ts[e])
  {
    hide YearMonth, MonthStartNs;
    forall k | s <= k < e ensures YearMonth(f.ts[k]) == YearMonth(f.ts[s]) {
      if k > s { MonthEndSeparates(f.ts[s], f.ts[k]); }
    }
    if e < |f.ts| {
      MonthEndSeparates(f.ts[s], f.ts[e]);
      YearMonthMonotone(f.ts[s], f.ts[e]);
    }
  }

  lemma SplitMore(w: Write, bucket: nat, parts: seq<Part>, cuts: seq<nat>, p: Part, e: nat)
    requires Split(w, bucket, parts, cuts) && IsPart(w, bucket, p, cuts[|parts|], e)
    ensures Split(w, bucket, parts + [p], cuts + [e])
  {
    hide YearMonth, GroupsOf;
    var parts', cuts' := parts + [p], cuts + [e];
    forall i | 0 <= i < |parts'| ensures IsPart(w, bucket, parts'[i], cuts'[i], cuts'[i + 1]) {
      if i < |parts| { assert IsPart(w, bucket, parts[i], cuts[i], cuts[i + 1]); }
    }
  }

  lemma OnePartMore(w: Write, bucket: nat, parts: seq<Part>, cuts: seq<nat>, p: Part, e: nat)
    requires ValidWrite(w) && Split(w, bucket, parts, cuts) && OnePartPerMonth(w, parts, cuts)
    requires IsPart(w, bucket, p, cuts[|parts|], e)
    requires forall i :: 0 <= i < |parts| ==> MonthDone(parts[i].month, w.frame.ts[cuts[|parts|]])
    ensures OnePartPerMonth(w, parts + [p], cuts + [e])
  {
    hide YearMonth, GroupsOf, RowsOf;
    var s := cuts[|parts|];
    assert forall i, j :: 0 <= i < j < |parts| ==> cuts[j] < s && parts[i].month != parts[j].month;
    forall i | 0 <= i < |parts| && parts[i].month == p.month ensures s == |w.frame.ts| - 1 && w.frame.ts[s] == MAX {
      assert MonthDone(parts[i].month, w.frame.ts[s]);
      NothingAfterMax(w.frame, s);
    }
  }

  lemma NothingAfterMax(f: SeriesFrame, s: nat)
    requires f.Valid() && Increasing(f.ts) && s < |f.ts|
    ensures f.ts[s] == MAX ==> s == |f.ts| - 1
  {
    if s + 1 < |f.ts| { assert f.ts[s] < f.ts[s + 1]; }
  }

  lemma NextMonths(w: Write, parts: seq<Part>, p: Part, s: nat, e: nat)
    requires ValidWrite(w) && s < e < |w.frame.ts|
    requires forall i :: 0 <= i < |parts| ==> MonthDone(parts[i].month, w.frame.ts[s])
    requires MonthDone(p.month, w.frame.ts[e])
    ensures forall i :: 0 <= i < |parts + [p]| ==> MonthDone((parts + [p])[i].month, w.frame.ts[e])
  {
    hide YearMonth;
    assert w.frame.ts[s] < w.frame.ts[e] <= MAX;
    YearMonthMonotone(w.frame.ts[s], w.frame.ts[e]);
    forall i | 0 <= i < |parts| ensures MonthDone(parts[i].month, w.frame.ts[e]) {
      assert MonthDone(parts[i].month, w.frame.ts[s]);
    }
  }

  // ---- A split write is stored in full and in place -------------------------------------------

  lemma PartRowsAre(w: Write, bucket: nat, p: Part, s: nat, e: nat)
    requires ValidWrite(w) && IsPart(w, bucket, p, s, e)
    ensures forall g :: g in p.groups ==> TrueBounds(g)
    ensures forall r :: r in PartRows(p) <==> r in RowsOf(w.frame, s, e)
  {
    hide YearMonth, GroupsOf;
    var rows := RowsOf(w.frame, s, e);
    forall i, j | 0 <= i < j < |rows| ensures rows[i].id == rows[j].id && rows[i].sample.ts < rows[j].sample.ts {
      assert w.frame.ts[s + i] < w.frame.ts[s + j];
      assert rows[i].sample == w.frame.At(s + i) && rows[j].sample == w.frame.At(s + j);
    }
    GroupsHoldRows(rows);
    forall r ensures r in PartRows(p) <==> r in rows {
      if r in rows {
        var g :| g in p.groups && r in g.rows;
        var i :| 0 <= i < |p.groups| && p.groups[i] == g;
        assert r in p.groups[i].rows;
      }
      if r in PartRows(p) {
        var i :| 0 <= i < |p.groups| && r in p.groups[i].rows;
        assert p.groups[i] in p.groups;
      }
    }
  }

  lemma PartIsPlaced(w: Write, p: Part, s: nat, e: nat, bucketOf: string -> nat)
    requires ValidWrite(w) && IsPart(w, bucketOf(w.frame.id), p, s, e)
    ensures WellPlaced(p, bucketOf) && HasSource(p, [w])
    ensures forall k :: s <= k < e ==> StoredAt({p}, w, w.frame.At(k))
  {
    hide YearMonth, GroupsOf, PartRows, TrueBounds;
    PartRowsAre(w, bucketOf(w.frame.id), p, s, e);
    var rows := RowsOf(w.frame, s, e);
    forall r | r in PartRows(p)
      ensures p.bucket == bucketOf(r.id) && p.month == YearMonth(r.sample.ts)
      ensures exists v :: v in [w] && WroteRow(v, p, r)
    {
      var i :| 0 <= i < |rows| && rows[i] == r;
      assert r.sample == w.frame.At(s + i) && w.frame.ts[s + i] == r.sample.ts;
      assert w in [w] && WroteRow(w, p, r);
    }
    forall k | s <= k < e ensures StoredAt({p}, w, w.frame.At(k)) {
      assert rows[k - s] == StoredRow(w.frame.id, w.frame.At(k));
      assert WroteRow(w, p, StoredRow(w.frame.id, w.frame.At(k)));
    }
  }

  lemma CutsCover(cuts: seq<nat>, k: nat) returns (i: nat)
    requires |cuts| > 0 && cuts[0] == 0 && k < cuts[|cuts| - 1]
    ensures i + 1 < |cuts| && cuts[i] <= k < cuts[i + 1]
  {
    i := 0;
    while cuts[i + 1] <= k
      invariant i + 1 < |cuts| && cuts[i] <= k
      decreases |cuts| - i
    {
      i := i + 1;
    }
  }

  function PartSet(parts: seq<Part>): set<Part> {
    set p | p in parts
  }

  lemma SplitIsStored(w: Write, parts: seq<Part>, cuts: seq<nat>, bucketOf: string -> nat)
    requires ValidWrite(w) && Split(w, bucketOf(w.frame.id), parts, cuts) && cuts[|parts|] == |w.frame.ts|
    ensures forall p :: p in parts ==> WellPlaced(p, bucketOf) && HasSource(p, [w])
    ensures Stored(PartSet(parts), w)
  {
    hide YearMonth, GroupsOf, WellPlaced, HasSource, StoredAt;
    forall p | p in parts ensures WellPlaced(p, bucketOf) && HasSource(p, [w]) {
      var i :| 0 <= i < |parts| && parts[i] == p;
      PartIsPlaced(w, p, cuts[i], cuts[i + 1], bucketOf);
    }
    forall k: nat | k < |w.frame.ts| ensures StoredAt(PartSet(parts), w, w.frame.At(k)) {
      var i := CutsCover(cuts, k);
      PartIsPlaced(w, parts[i], cuts[i], cuts[i + 1], bucketOf);
      StoredIn(parts[i], PartSet(parts), w, w.frame.At(k));
    }
  }

  lemma StoredIn(p: Part, store: set<Part>, w: Write, x: Sample)
    requires p in store && StoredAt({p}, w, x)
    ensures StoredAt(store, w, x)
  {
    hide PartRows, WroteRow;
  }

  // ---- Reading ------------------------------------------------------------------------

  // Row x of series id was fetched from one of the parts, inside the range.
  ghost predicate Fetched(parts: set<Part>, id: string, start: int, end: int, x: Row) {
    && InSpan(x.sample.ts, start, end)
    && exists p :: p in parts && p.writeNs == x.writeNs && StoredRow(id, x.sample) in PartRows(p)
  }

  ghost predicate Collected(rows: map<string, seq<Row>>, wanted: set<string>, parts: set<Part>, start: int, end: int) {
    && rows.Keys == wanted
    && forall id, x :: id in wanted ==> (x in rows[id] <==> Fetched(parts, id, start, end, x))
  }

  // out is rows plus the wanted rows among those scanned.
  ghost predicate Adds(out: map<string, seq<Row>>, rows: map<string, seq<Row>>, wanted: set<string>,
                       scanned: set<StoredRow>, writeNs: int, start: int, end: int)
    requires rows.Keys == wanted
  {
    && out.Keys == wanted
    && forall id, x: Row :: id in wanted ==>
         (x in out[id] <==>
           (x in rows[id]
            || (x.writeNs == writeNs && InSpan(x.sample.ts, start, end) && StoredRow(id, x.sample) in scanned)))
  }

  // Append the wanted rows of one part, skipping row groups whose statistics rule them out.
  method DecodePart(p: Part, wanted: set<string>, start: int, end: int, rows: map<string, seq<Row>>)
    returns (out: map<string, seq<Row>>)
    requires rows.Keys == wanted
    requires forall g :: g in p.groups ==> TrueBounds(g)
    ensures Adds(out, rows, wanted, PartRows(p), p.writeNs, start, end)
  {
    hide TrueBounds, StringLe, RowGroupMayMatch, Adds;
    out := rows;
    ghost var scanned: set<StoredRow> := {};
    NothingAdded(rows, wanted, p.writeNs, start, end);
    for g := 0 to |p.groups|
      invariant scanned == set h, r | 0 <= h < g && r in p.groups[h].rows :: r
      invariant Adds(out, rows, wanted, scanned, p.writeNs, start, end)
    {
      var group := p.groups[g];
      if RowGroupMayMatch(group, wanted, start, end) {
        ghost var before := scanned;
        for i := 0 to |group.rows|
          invariant scanned == before + set r | r in group.rows[..i]
          invariant Adds(out, rows, wanted, scanned, p.writeNs, start, end)
        {
          var r := group.rows[i];
          RowAdded(out, rows, wanted, scanned, p.writeNs, start, end, r);
          if InSpan(r.sample.ts, start, end) && r.id in wanted {
            out := out[r.id := out[r.id] + [Row(p.writeNs, r.sample)]];
          }
          assert group.rows[..i + 1] == group.rows[..i] + [r];
          scanned := scanned + {r};
        }
        assert group.rows[..|group.rows|] == group.rows;
      } else {
        GroupSkipped(out, rows, wanted, scanned, p.writeNs, start, end, group);
        scanned := scanned + set r | r in group.rows;
      }
    }
    assert scanned == PartRows(p);
  }

  lemma NothingAdded(rows: map<string, seq<Row>>, wanted: set<string>, writeNs: int, start: int, end: int)
    requires rows.Keys == wanted
    ensures Adds(rows, rows, wanted, {}, writeNs, start, end)
  {
  }

  lemma RowAdded(out: map<string, seq<Row>>, rows: map<string, seq<Row>>, wanted: set<string>,
                 scanned: set<StoredRow>, writeNs: int, start: int, end: int, r: StoredRow)
    requires rows.Keys == wanted && Adds(out, rows, wanted, scanned, writeNs, start, end)
    ensures out.Keys == wanted
    ensures var out' := if InSpan(r.sample.ts, start, end) && r.id in wanted
                        then out[r.id := out[r.id] + [Row(writeNs, r.sample)]] else out;
            Adds(out', rows, wanted, scanned + {r}, writeNs, start, end)
  {
  }

  lemma GroupSkipped(out: map<string, seq<Row>>, rows: map<string, seq<Row>>, wanted: set<string>,
                     scanned: set<StoredRow>, writeNs: int, start: int, end: int, g: RowGroup)
    requires rows.Keys == wanted && Adds(out, rows, wanted, scanned, writeNs, start, end)
    requires TrueBounds(g) && !RowGroupMayMatch(g, wanted, start, end)
    ensures Adds(out, rows, wanted, scanned + (set r | r in g.rows), writeNs, start, end)
  {
    hide TrueBounds, RowGroupMayMatch;
    forall r | r in g.rows ensures r.id !in wanted || !InSpan(r.sample.ts, start, end) {
      if r.id in wanted && InSpan(r.sample.ts, start, end) {
        PruningKeepsWantedRows(g, r, wanted, start, end);
      }
    }
  }

  // ---- Keeping the newest row per timestamp -----------------------------------------------------

  predicate ByTimeThenStamp(a: Row, b: Row) {
    a.sample.ts < b.sample.ts || (a.sample.ts == b.sample.ts && a.writeNs <= b.writeNs)
  }

  // kept has a row of x's timestamp and no smaller stamp.
  ghost predicate Superseded(kept: seq<Row>, x: Row) {
    exists i :: 0 <= i < |kept| && kept[i].sample.ts == x.sample.ts && x.writeNs <= kept[i].writeNs
  }

  predicate IncreasingRows(kept: seq<Row>) {
    forall i, j :: 0 <= i < j < |kept| ==> kept[i].sample.ts < kept[j].sample.ts
  }

  // kept holds one row for every timestamp of rs, in time order, each of the largest stamp.
  ghost predicate KeepsNewest(rs: seq<Row>, kept: seq<Row>) {
    && IncreasingRows(kept)
    && (forall i :: 0 <= i < |kept| ==> kept[i] in rs)
    && forall x :: x in rs ==> Superseded(kept, x)
  }

  method MergeRows(rs: seq<Row>) returns (kept: seq<Row>)
    ensures KeepsNewest(rs, kept)
  {
    hide KeepsNewest, SortBy;
    var sorted := SortBy(rs, (a, b) => ByTimeThenStamp(a, b));
    kept := [];
    NothingKept();
    assert sorted[..0] == [];
    for k := 0 to |sorted|
      invariant KeepsNewest(sorted[..k], kept)
      invariant if k == 0 then kept == [] else kept != [] && kept[|kept| - 1] == sorted[k - 1]
    {
      KeepOne(rs, sorted, k, kept);
      if kept != [] && kept[|kept| - 1].sample.ts == sorted[k].sample.ts {
        kept := kept[|kept| - 1 := sorted[k]];
      } else {
        kept := kept + [sorted[k]];
      }
    }
    assert sorted[..|sorted|] == sorted;
    KeptOfAll(rs, sorted, kept);
  }

  lemma NothingKept()
    ensures KeepsNewest([], [])
  {
  }

  lemma KeptOfAll(rs: seq<Row>, sorted: seq<Row>, kept: seq<Row>)
    requires sorted == SortBy(rs, (a, b) => ByTimeThenStamp(a, b)) && KeepsNewest(sorted, kept)
    ensures KeepsNewest(rs, kept)
  {
    SortBySorts(rs, (a, b) => ByTimeThenStamp(a, b));
  }

  lemma KeepOne(rs: seq<Row>, sorted: seq<Row>, k: nat, kept: seq<Row>)
    requires sorted == SortBy(rs, (a, b) => ByTimeThenStamp(a, b))
    requires k < |sorted| && KeepsNewest(sorted[..k], kept)
    requires if k == 0 then kept == [] else kept != [] && kept[|kept| - 1] == sorted[k - 1]
    ensures var x := sorted[k];
            if kept != [] && kept[|kept| - 1].sample.ts == x.sample.ts
            then KeepsNewest(sorted[..k + 1], kept[|kept| - 1 := x])
            else KeepsNewest(sorted[..k + 1], kept + [x])
  {
    SortBySorts(rs, (a, b) => ByTimeThenStamp(a, b));
    hide SortBy, Sorted;
    var x := sorted[k];
    if k > 0 {
      assert ByTimeThenStamp(sorted[k - 1], x) by { SortedAt(sorted, k); }
      if kept[|kept| - 1].sample.ts == x.sample.ts {
        KeepInstead(sorted, k, kept);
      } else {
        KeepMore(sorted, k, kept);
      }
    } else {
      KeepMore(sorted, k, kept);
    }
  }

  lemma SortedAt(sorted: seq<Row>, k: nat)
    requires 0 < k < |sorted| && Sorted(sorted, (a, b) => ByTimeThenStamp(a, b))
    ensures ByTimeThenStamp(sorted[k - 1], sorted[k])
  {
  }

  lemma KeepInstead(sorted: seq<Row>, k: nat, kept: seq<Row>)
    requires 0 < k < |sorted| && KeepsNewest(sorted[..k], kept) && ByTimeThenStamp(sorted[k - 1], sorted[k])
    requires kept != [] && kept[|kept| - 1] == sorted[k - 1] && sorted[k - 1].sample.ts == sorted[k].sample.ts
    ensures KeepsNewest(sorted[..k + 1], kept[|kept| - 1 := sorted[k]])
  {
    hide IncreasingRows, Superseded, ByTimeThenStamp;
    var x, kept' := sorted[k], kept[|kept| - 1 := sorted[k]];
    assert sorted[..k + 1] == sorted[..k] + [x];
    LaterStamp(sorted[k - 1], x);
    LastSuperseded(kept', x);
    StillIncreasing(kept, x);
    forall y | y in sorted[..k + 1] ensures Superseded(kept', y) {
      if y in sorted[..k] {
        assert Superseded(kept, y);
        StillSuperseded(kept, x, y);
      }
    }
  }

  lemma LaterStamp(a: Row, b: Row)
    requires ByTimeThenStamp(a, b) && a.sample.ts == b.sample.ts
    ensures a.writeNs <= b.writeNs
  {
  }

  lemma LastSuperseded(kept: seq<Row>, x: Row)
    requires kept != [] && kept[|kept| - 1] == x
    ensures Superseded(kept, x)
  {
  }

  lemma StillIncreasing(kept: seq<Row>, x: Row)
    requires IncreasingRows(kept) && kept != [] && kept[|kept| - 1].sample.ts == x.sample.ts
    ensures IncreasingRows(kept[|kept| - 1 := x])
  {
  }

  lemma StillSuperseded(kept: seq<Row>, x: Row, y: Row)
    requires kept != [] && Superseded(kept, y)
    requires kept[|kept| - 1].sample.ts == x.sample.ts && kept[|kept| - 1].writeNs <= x.writeNs
    ensures Superseded(kept[|kept| - 1 := x], y)
  {
    var i :| 0 <= i < |kept| && kept[i].sample.ts == y.sample.ts && y.writeNs <= kept[i].writeNs;
    var kept' := kept[|kept| - 1 := x];
    assert kept'[i].sample.ts == y.sample.ts && y.writeNs <= kept'[i].writeNs;
  }

  lemma KeepMore(sorted: seq<Row>, k: nat, kept: seq<Row>)
    requires k < |sorted| && KeepsNewest(sorted[..k], kept)
    requires kept != [] ==> kept[|kept| - 1].sample.ts < sorted[k].sample.ts
    ensures KeepsNewest(sorted[..k + 1], kept + [sorted[k]])
  {
    hide IncreasingRows, Superseded;
    var x, kept' := sorted[k], kept + [sorted[k]];
    assert sorted[..k + 1] == sorted[..k] + [x];
    OneMoreIncreasing(kept, x);
    LastSuperseded(kept', x);
    forall y | y in sorted[..k + 1] ensures Superseded(kept', y) {
      if y in sorted[..k] { SupersededMore(kept, x, y); }
    }
  }

  lemma OneMoreIncreasing(kept: seq<Row>, x: Row)
    requires IncreasingRows(kept) && (kept != [] ==> kept[|kept| - 1].sample.ts < x.sample.ts)
    ensures IncreasingRows(kept + [x])
  {
  }

  lemma SupersededMore(kept: seq<Row>, x: Row, y: Row)
    requires Superseded(kept, y)
    ensures Superseded(kept + [x], y)
  {
    var i :| 0 <= i < |kept| && kept[i].sample.ts == y.sample.ts && y.writeNs <= kept[i].writeNs;
    assert (kept + [x])[i] == kept[i];
  }

  // ---- What a read returns ----------------------------------------------------------------

  // The frame of a series' kept samples; ingest times only when there are rows and all carry one.
  function FrameOf(id: string, xs: seq<Sample>): SeriesFrame {
    SeriesFrame(id,
                seq(|xs|, i requires 0 <= i < |xs| => xs[i].ts),
                seq(|xs|, i requires 0 <= i < |xs| => xs[i].value),
                seq(|xs|, i requires 0 <= i < |xs| => xs[i].quality),
                if xs != [] && forall i :: 0 <= i < |xs| ==> xs[i].ingest.Some?
                then Some(seq(|xs|, i requires 0 <= i < |xs| => if xs[i].ingest.Some? then xs[i].ingest.value else 0))
                else None)
  }

  predicate IncreasingSamples(xs: seq<Sample>) {
    forall i, j :: 0 <= i < j < |xs| ==> xs[i].ts < xs[j].ts
  }

  // x is the sample some newest write of h stored for its instant.
  ghost predicate IsNewestSample(h: seq<Write>, layer: string, source: string, id: string, x: Sample)
    requires forall w :: w in h ==> ValidWrite(w)
  {
    exists w :: IsNewest(h, w, CellKey(layer, source, id, x.ts)) && ValidWrite(w) && SampleAt(w.frame, x.ts) == x
  }

  ghost predicate HasInstant(xs: seq<Sample>, t: int) {
    exists i :: 0 <= i < |xs| && xs[i].ts == t
  }

  // xs lists, in time order, a newest sample for every written instant of the series in the range.
  ghost predicate NewestSamples(h: seq<Write>, layer: string, source: string, id: string,
                                start: int, end: int, xs: seq<Sample>)
    requires forall w :: w in h ==> ValidWrite(w)
  {
    && IncreasingSamples(xs)
    && (forall i :: 0 <= i < |xs| ==> InSpan(xs[i].ts, start, end) && IsNewestSample(h, layer, source, id, xs[i]))
    && (forall w, t :: w in h && Covers(w, CellKey(layer, source, id, t)) && InSpan(t, start, end)
            ==> HasInstant(xs, t))
  }

  ghost predicate ReadsNewest(h: seq<Write>, layer: string, source: string, id: string,
                              start: int, end: int, f: SeriesFrame)
    requires forall w :: w in h ==> ValidWrite(w)
  {
    exists xs :: f == FrameOf(id, xs) && NewestSamples(h, layer, source, id, start, end, xs)
  }

  ghost predicate IsCell(m: map<CellKey, Cell>, layer: string, source: string, id: string, x: Sample) {
    CellKey(layer, source, id, x.ts) in m && m[CellKey(layer, source, id, x.ts)].sample == x
  }

  // xs lists the cells of m for one series and [start, end), in time order.
  ghost predicate CellsInSpan(m: map<CellKey, Cell>, layer: string, source: string, id: string,
                              start: int, end: int, xs: seq<Sample>)
  {
    && IncreasingSamples(xs)
    && (forall t :: HasInstant(xs, t) <==> InSpan(t, start, end) && CellKey(layer, source, id, t) in m)
    && (forall i :: 0 <= i < |xs| ==> IsCell(m, layer, source, id, xs[i]))
  }

  // f is the time-sorted restriction of m to one series and [start, end).
  ghost predicate IsRestriction(m: map<CellKey, Cell>, layer: string, source: string, id: string,
                                start: int, end: int, f: SeriesFrame)
  {
    exists xs :: f == FrameOf(id, xs) && CellsInSpan(m, layer, source, id, start, end, xs)
  }

  // ---- What a read returns, column by column -----------------------------------------------------

  lemma FrameColumns(id: string, xs: seq<Sample>)
    ensures var f := FrameOf(id, xs);
            && f.id == id && |f.ts| == |f.values| == |f.quality| == |xs|
            && (forall i :: 0 <= i < |xs| ==>
                  f.ts[i] == xs[i].ts && f.values[i] == xs[i].value && f.quality[i] == xs[i].quality)
            && (f.ingest.Some? <==> xs != [] && forall i :: 0 <= i < |xs| ==> xs[i].ingest.Some?)
            && (f.ingest.Some? ==>
                  |f.ingest.value| == |xs| && forall i :: 0 <= i < |xs| ==> xs[i].ingest == Some(f.ingest.value[i]))
  {
  }

  // x is row j of w, a write of h that no newer write of its series and instant supersedes.
  ghost predicate IsSource(h: seq<Write>, layer: string, source: string, id: string, x: Sample, w: Write, j: nat) {
    && w in h && A.OfSeries(w, layer, source, id) && A.NoneNewer(h, layer, source, id, x.ts, w)
    && w.frame.Valid() && j < |w.frame.ts|
    && w.frame.ts[j] == x.ts && w.frame.values[j] == x.value && w.frame.quality[j] == x.quality
    && (if w.frame.ingest.Some? then x.ingest == Some(w.frame.ingest.value[j]) else x.ingest == None)
  }

  lemma NewestHasSource(h: seq<Write>, layer: string, source: string, id: string, x: Sample) returns (w: Write, j: nat)
    requires (forall w :: w in h ==> ValidWrite(w)) && IsNewestSample(h, layer, source, id, x)
    ensures IsSource(h, layer, source, id, x, w, j)
  {
    hide SampleAt;
    var c := CellKey(layer, source, id, x.ts);
    w :| IsNewest(h, w, c) && ValidWrite(w) && SampleAt(w.frame, x.ts) == x;
    j :| j < |w.frame.ts| && w.frame.At(j) == x;
    forall v | v in h && A.OfSeries(v, layer, source, id) && x.ts in v.frame.ts ensures v.stamp <= w.stamp {
      assert Covers(v, c);
    }
  }

  ghost function SourceOf(h: seq<Write>, layer: string, source: string, id: string, x: Sample): (s: (Write, nat))
    requires exists w, j :: IsSource(h, layer, source, id, x, w, j)
    ensures IsSource(h, layer, source, id, x, s.0, s.1)
  {
    var w, j :| IsSource(h, layer, source, id, x, w, j);
    (w, j)
  }

  lemma FrameIsAnswer(h: seq<Write>, layer: string, source: string, id: string, start: int, end: int, xs: seq<Sample>)
    requires (forall w :: w in h ==> ValidWrite(w)) && NewestSamples(h, layer, source, id, start, end, xs)
    ensures A.Answer(h, layer, source, id, start, end, FrameOf(id, xs))
  {
    hide FrameOf, IsNewestSample, IsSource, ValidWrite, A.RowsFrom, A.IngestOf, A.Instants;
    FrameColumns(id, xs);
    var f := FrameOf(id, xs);
    forall i | 0 <= i < |xs| ensures exists w, j :: IsSource(h, layer, source, id, xs[i], w, j) {
      var w, j := NewestHasSource(h, layer, source, id, xs[i]);
    }
    var from := seq(|xs|, i requires 0 <= i < |xs| => SourceOf(h, layer, source, id, xs[i]).0);
    var at := seq(|xs|, i requires 0 <= i < |xs| => SourceOf(h, layer, source, id, xs[i]).1);
    forall i | 0 <= i < |xs| ensures IsSource(h, layer, source, id, xs[i], from[i], at[i]) {}
    SourcesAreRows(h, layer, source, id, xs, from, at);
    FrameInstants(h, layer, source, id, start, end, xs);
    SourcesInRange(h, layer, source, id, xs, from, at);
  }

  lemma SourcesAreRows(h: seq<Write>, layer: string, source: string, id: string, xs: seq<Sample>,
                       from: seq<Write>, at: seq<nat>)
    requires |from| == |at| == |xs|
    requires forall i :: 0 <= i < |xs| ==> IsSource(h, layer, source, id, xs[i], from[i], at[i])
    ensures |FrameOf(id, xs).ts| == |xs|
    ensures A.RowsFrom(h, layer, source, id, FrameOf(id, xs), from, at) && A.IngestOf(FrameOf(id, xs), from, at)
  {
    hide FrameOf, A.NoneNewer, A.OfSeries;
    FrameColumns(id, xs);
  }

  lemma SourcesInRange(h: seq<Write>, layer: string, source: string, id: string, xs: seq<Sample>,
                       from: seq<Write>, at: seq<nat>)
    requires |from| == |at| == |xs|
    requires forall i :: 0 <= i < |xs| ==> IsSource(h, layer, source, id, xs[i], from[i], at[i])
    ensures FrameOf(id, xs).Valid()
  {
    hide FrameOf, A.NoneNewer, A.OfSeries;
    FrameColumns(id, xs);
  }

  lemma FrameInstants(h: seq<Write>, layer: string, source: string, id: string, start: int, end: int, xs: seq<Sample>)
    requires (forall w :: w in h ==> ValidWrite(w)) && NewestSamples(h, layer, source, id, start, end, xs)
    ensures A.Instants(h, layer, source, id, start, end, FrameOf(id, xs))
  {
    hide FrameOf, IsNewestSample, ValidWrite;
    FrameColumns(id, xs);
    var f := FrameOf(id, xs);
    forall w, t | w in h && A.OfSeries(w, layer, source, id) && t in w.frame.ts
      ensures start <= t && (t < end || end == MAX) ==> t in f.ts
    {
      assert Covers(w, CellKey(layer, source, id, t));
      if InSpan(t, start, end) {
        assert HasInstant(xs, t);
        var i :| 0 <= i < |xs| && xs[i].ts == t;
        assert f.ts[i] == t;
      }
    }
  }

  lemma CellsAreAnswer(m: map<CellKey, Cell>, layer: string, source: string, id: string, start: int, end: int,
                       xs: seq<Sample>)
    requires CellsInSpan(m, layer, source, id, start, end, xs) && FrameOf(id, xs).Valid()
    ensures A.MapAnswer(m, layer, source, id, start, end, FrameOf(id, xs))
  {
    hide FrameOf;
    FrameColumns(id, xs);
    var f := FrameOf(id, xs);
    forall t ensures t in f.ts <==> HasInstant(xs, t) {
      if t in f.ts { var i :| 0 <= i < |f.ts| && f.ts[i] == t; assert xs[i].ts == t; }
      if HasInstant(xs, t) { var i :| 0 <= i < |xs| && xs[i].ts == t; assert f.ts[i] == t; }
    }
    forall k | 0 <= k < |xs| ensures IsCell(m, layer, source, id, xs[k]) && f.ts[k] == xs[k].ts {}
  }

  // The first |frames| of the ids read.
  ghost predicate AllRead(h: seq<Write>, layer: string, source: string, ids: seq<string>, start: int, end: int,
                          frames: seq<SeriesFrame>)
    requires forall w :: w in h ==> ValidWrite(w)
  {
    && |frames| <= |ids|
    && forall k :: 0 <= k < |frames| ==> ReadsNewest(h, layer, source, ids[k], start, end, frames[k])
  }

  lemma NothingRead(h: seq<Write>, layer: string, source: string, ids: seq<string>, start: int, end: int)
    requires forall w :: w in h ==> ValidWrite(w)
    ensures AllRead(h, layer, source, ids, start, end, [])
  {
  }

  lemma KeptIsRead(h: seq<Write>, layer: string, source: string, id: string, start: int, end: int, xs: seq<Sample>)
    requires (forall w :: w in h ==> ValidWrite(w)) && NewestSamples(h, layer, source, id, start, end, xs)
    ensures ReadsNewest(h, layer, source, id, start, end, FrameOf(id, xs))
  {
  }

  lemma OneMoreRead(h: seq<Write>, layer: string, source: string, ids: seq<string>, start: int, end: int,
                    frames: seq<SeriesFrame>, f: SeriesFrame)
    requires (forall w :: w in h ==> ValidWrite(w)) && AllRead(h, layer, source, ids, start, end, frames)
    requires |frames| < |ids| && ReadsNewest(h, layer, source, ids[|frames|], start, end, f)
    ensures AllRead(h, layer, source, ids, start, end, frames + [f])
  {
    hide ReadsNewest, ValidWrite;
  }

  lemma ReadsAre(h: seq<Write>, layer: string, source: string, ids: seq<string>, start: int, end: int,
                 frames: seq<SeriesFrame>)
    requires (forall w :: w in h ==> ValidWrite(w)) && AllRead(h, layer, source, ids, start, end, frames)
    ensures forall i :: 0 <= i < |frames| ==> ReadsNewest(h, layer, source, ids[i], start, end, frames[i])
    ensures forall i :: 0 <= i < |frames| ==> A.Answer(h, layer, source, ids[i], start, end, frames[i])
    ensures DistinctStamps(h) ==> forall i :: 0 <= i < |frames| ==>
              && IsRestriction(LastWriteWins(h), layer, source, ids[i], start, end, frames[i])
              && A.MapAnswer(LastWriteWins(h), layer, source, ids[i], start, end, frames[i])
  {
    hide ReadsNewest, ValidWrite, DistinctStamps, LastWriteWins, IsRestriction, A.Answer, A.MapAnswer;
    forall i | 0 <= i < |frames| ensures A.Answer(h, layer, source, ids[i], start, end, frames[i]) {
      ReadIsAnswer(h, layer, source, ids[i], start, end, frames[i]);
    }
    if DistinctStamps(h) {
      forall i | 0 <= i < |frames|
        ensures IsRestriction(LastWriteWins(h), layer, source, ids[i], start, end, frames[i])
        ensures A.MapAnswer(LastWriteWins(h), layer, source, ids[i], start, end, frames[i])
      {
        ReadRefinesLastWriteWins(h, layer, source, ids[i], start, end, frames[i]);
      }
    }
  }

  lemma ReadIsAnswer(h: seq<Write>, layer: string, source: string, id: string, start: int, end: int, f: SeriesFrame)
    requires (forall w :: w in h ==> ValidWrite(w)) && ReadsNewest(h, layer, source, id, start, end, f)
    ensures A.Answer(h, layer, source, id, start, end, f)
  {
    hide NewestSamples, A.Answer, FrameOf;
    var xs: seq<Sample> :| f == FrameOf(id, xs) && NewestSamples(h, layer, source, id, start, end, xs);
    FrameIsAnswer(h, layer, source, id, start, end, xs);
  }

  // With distinct stamps, a read of the newest rows is a read of the last-write-wins map.
  lemma ReadRefinesLastWriteWins(h: seq<Write>, layer: string, source: string, id: string,
                                 start: int, end: int, f: SeriesFrame)
    requires (forall w :: w in h ==> ValidWrite(w)) && DistinctStamps(h)
    requires ReadsNewest(h, layer, source, id, start, end, f)
    ensures IsRestriction(LastWriteWins(h), layer, source, id, start, end, f)
    ensures A.MapAnswer(LastWriteWins(h), layer, source, id, start, end, f)
  {
    hide NewestSamples, CellsInSpan, LastWriteWins, ValidWrite, DistinctStamps, A.MapAnswer, A.Answer, FrameOf;
    var xs: seq<Sample> :| f == FrameOf(id, xs) && NewestSamples(h, layer, source, id, start, end, xs);
    NewestAreCells(h, layer, source, id, start, end, xs);
    FrameIsAnswer(h, layer, source, id, start, end, xs);
    AnswerValid(h, layer, source, id, start, end, f);
    CellsAreAnswer(LastWriteWins(h), layer, source, id, start, end, xs);
  }

  lemma AnswerValid(h: seq<Write>, layer: string, source: string, id: string, start: int, end: int, f: SeriesFrame)
    requires A.Answer(h, layer, source, id, start, end, f)
    ensures f.Valid()
  {
    hide A.Instants, A.RowsFrom, A.IngestOf;
  }

  lemma NewestAreCells(h: seq<Write>, layer: string, source: string, id: string, start: int, end: int, xs: seq<Sample>)
    requires (forall w :: w in h ==> ValidWrite(w)) && DistinctStamps(h)
    requires NewestSamples(h, layer, source, id, start, end, xs)
    ensures CellsInSpan(LastWriteWins(h), layer, source, id, start, end, xs)
  {
    hide LastWriteWins, IsNewestSample, IsCell, Covers, InSpan, IncreasingSamples, ValidWrite, DistinctStamps;
    var m := LastWriteWins(h);
    forall i | 0 <= i < |xs| ensures IsCell(m, layer, source, id, xs[i]) {
      NewestIsCell(h, layer, source, id, xs[i]);
    }
    forall t ensures HasInstant(xs, t) <==> InSpan(t, start, end) && CellKey(layer, source, id, t) in m {
      WrittenKey(h, CellKey(layer, source, id, t));
      if HasInstant(xs, t) {
        var i :| 0 <= i < |xs| && xs[i].ts == t;
        CellIsWritten(m, layer, source, id, xs[i]);
      }
    }
  }

  lemma WrittenKey(h: seq<Write>, c: CellKey)
    requires forall w :: w in h ==> ValidWrite(w)
    ensures c in LastWriteWins(h) <==> exists w :: w in h && Covers(w, c)
  {
    hide LastWriteWins, Covers, ValidWrite, SampleAt;
    LastWriteWinsHoldsNewest(h, c);
  }

  lemma CellIsWritten(m: map<CellKey, Cell>, layer: string, source: string, id: string, x: Sample)
    requires IsCell(m, layer, source, id, x)
    ensures CellKey(layer, source, id, x.ts) in m
  {
  }

  lemma NewestIsCell(h: seq<Write>, layer: string, source: string, id: string, x: Sample)
    requires (forall w :: w in h ==> ValidWrite(w)) && DistinctStamps(h)
    requires IsNewestSample(h, layer, source, id, x)
    ensures IsCell(LastWriteWins(h), layer, source, id, x)
  {
    hide LastWriteWins, SampleAt, DistinctStamps;
    var c := CellKey(layer, source, id, x.ts);
    LastWriteWinsHoldsNewest(h, c);
    var w :| IsNewest(h, w, c) && ValidWrite(w) && SampleAt(w.frame, x.ts) == x;
    var v :| IsNewest(h, v, c) && LastWriteWins(h)[c] == Cell(v.stamp, SampleAt(v.frame, c.ts));
    NewestIsUnique(h, v, w, c);
  }

  // ---- From fetched rows to newest samples ------------------------------------------------------

  function Samples(kept: seq<Row>): seq<Sample> {
    seq(|kept|, i requires 0 <= i < |kept| => kept[i].sample)
  }

  lemma FetchedFromWrite(store: set<Part>, h: seq<Write>, bucketOf: string -> nat, listed: set<Part>,
                         layer: string, source: string, id: string, start: int, end: int, x: Row)
    requires Represents(store, h, bucketOf) && Fetched(listed, id, start, end, x)
    requires forall p :: p in listed ==> p in store && p.layer == layer && p.source == source
    ensures exists w :: w in h && ValidWrite(w) && w.stamp == x.writeNs
                     && Covers(w, CellKey(layer, source, id, x.sample.ts)) && SampleAt(w.frame, x.sample.ts) == x.sample
  {
    hide PartRows, WellPlaced, SampleAt;
    var p :| p in listed && p.writeNs == x.writeNs && StoredRow(id, x.sample) in PartRows(p);
    assert HasSource(p, h);
    var w :| w in h && WroteRow(w, p, StoredRow(id, x.sample));
    SampleAtUnique(w.frame, x.sample);
  }

  // The listed parts: those of one layer and source, in a wanted bucket and a month of the range.
  ghost predicate Listing(store: set<Part>, listed: set<Part>, layer: string, source: string, buckets: set<nat>,
                          start: int, end: int)
  {
    && (forall p :: p in listed ==> p in store && p.layer == layer && p.source == source)
    && forall p, t :: (p in store && p.layer == layer && p.source == source && p.bucket in buckets
                       && InRange(t) && InSpan(t, start, end) && p.month == YearMonth(t)) ==> p in listed
  }

  // Listing only the buckets of the wanted ids and the months of the range loses no row.
  lemma WriteIsFetched(store: set<Part>, h: seq<Write>, bucketOf: string -> nat, listed: set<Part>, buckets: set<nat>,
                       id: string, start: int, end: int, w: Write, t: int)
    requires Represents(store, h, bucketOf) && w in h && ValidWrite(w) && bucketOf(id) in buckets
    requires Listing(store, listed, w.layer, w.source, buckets, start, end)
    requires Covers(w, CellKey(w.layer, w.source, id, t)) && InSpan(t, start, end)
    ensures Fetched(listed, id, start, end, Row(w.stamp, SampleAt(w.frame, t)))
  {
    hide PartRows, YearMonth, InSpan;
    var x := SampleAt(w.frame, t);
    var k: nat :| k < |w.frame.ts| && w.frame.At(k) == x;
    assert w.frame.ts[k] == t && InRange(t);
    assert Stored(store, w) && StoredAt(store, w, w.frame.At(k));
    var p :| p in store && StoredRow(id, x) in PartRows(p) && WroteRow(w, p, StoredRow(id, x));
    assert WellPlaced(p, bucketOf);
    assert p.month == YearMonth(t) && p.bucket == bucketOf(id);
  }

  lemma KeptIsNewest(store: set<Part>, h: seq<Write>, bucketOf: string -> nat, listed: set<Part>, buckets: set<nat>,
                     layer: string, source: string, id: string, start: int, end: int,
                     rs: seq<Row>, kept: seq<Row>, i: nat)
    requires Represents(store, h, bucketOf) && bucketOf(id) in buckets && forall w :: w in h ==> ValidWrite(w)
    requires Listing(store, listed, layer, source, buckets, start, end)
    requires forall x :: x in rs <==> Fetched(listed, id, start, end, x)
    requires KeepsNewest(rs, kept) && i < |kept|
    ensures InSpan(kept[i].sample.ts, start, end) && IsNewestSample(h, layer, source, id, kept[i].sample)
  {
    hide Represents, PartRows, InSpan, SampleAt, Listing;
    var x := kept[i];
    var c := CellKey(layer, source, id, x.sample.ts);
    assert x in rs && Fetched(listed, id, start, end, x);
    assert forall p :: p in listed ==> p in store && p.layer == layer && p.source == source by {
      ListingOfStore(store, listed, layer, source, buckets, start, end);
    }
    FetchedFromWrite(store, h, bucketOf, listed, layer, source, id, start, end, x);
    var w :| w in h && ValidWrite(w) && w.stamp == x.writeNs && Covers(w, c)
                 && SampleAt(w.frame, x.sample.ts) == x.sample;
    forall v | v in h && Covers(v, c) ensures v.stamp <= w.stamp {
      WriteIsFetched(store, h, bucketOf, listed, buckets, id, start, end, v, x.sample.ts);
      NewestOfInstant(rs, kept, i, Row(v.stamp, SampleAt(v.frame, x.sample.ts)));
    }
    assert IsNewest(h, w, c);
  }

  lemma ListingOfStore(store: set<Part>, listed: set<Part>, layer: string, source: string, buckets: set<nat>,
                       start: int, end: int)
    requires Listing(store, listed, layer, source, buckets, start, end)
    ensures forall p :: p in listed ==> p in store && p.layer == layer && p.source == source
  {
  }

  lemma SamplesIncrease(rs: seq<Row>, kept: seq<Row>)
    requires KeepsNewest(rs, kept)
    ensures IncreasingSamples(Samples(kept))
  {
    hide Superseded;
  }

  // The kept rows of the listed parts are newest samples of the history.
  lemma KeptAreNewest(store: set<Part>, h: seq<Write>, bucketOf: string -> nat, listed: set<Part>, buckets: set<nat>,
                      layer: string, source: string, id: string, start: int, end: int,
                      rs: seq<Row>, kept: seq<Row>)
    requires Represents(store, h, bucketOf) && bucketOf(id) in buckets && forall w :: w in h ==> ValidWrite(w)
    requires Listing(store, listed, layer, source, buckets, start, end)
    requires forall x :: x in rs <==> Fetched(listed, id, start, end, x)
    requires KeepsNewest(rs, kept)
    ensures NewestSamples(h, layer, source, id, start, end, Samples(kept))
  {
    SamplesIncrease(rs, kept);
    hide Represents, Fetched, IsNewestSample, InSpan, Listing, IncreasingSamples, KeepsNewest, HasInstant;
    var xs := Samples(kept);
    forall i | 0 <= i < |xs| ensures InSpan(xs[i].ts, start, end) && IsNewestSample(h, layer, source, id, xs[i]) {
      KeptIsNewest(store, h, bucketOf, listed, buckets, layer, source, id, start, end, rs, kept, i);
    }
    forall w, t | w in h && Covers(w, CellKey(layer, source, id, t)) && InSpan(t, start, end)
      ensures HasInstant(xs, t)
    {
      WriteIsFetched(store, h, bucketOf, listed, buckets, id, start, end, w, t);
      KeptHasInstant(rs, kept, Row(w.stamp, SampleAt(w.frame, t)));
    }
  }

  lemma KeptHasInstant(rs: seq<Row>, kept: seq<Row>, x: Row)
    requires KeepsNewest(rs, kept) && x in rs
    ensures HasInstant(Samples(kept), x.sample.ts)
  {
    assert Superseded(kept, x);
    var i :| 0 <= i < |kept| && kept[i].sample.ts == x.sample.ts && x.writeNs <= kept[i].writeNs;
    assert Samples(kept)[i].ts == x.sample.ts;
  }

  lemma ListedMonths(store: set<Part>, listed: set<Part>, layer: string, source: string, buckets: set<nat>,
                     months: seq<Month>, start: int, end: int)
    requires forall mo :: mo in months <==> exists t :: InRange(t) && InSpan(t, start, end) && YearMonth(t) == mo
    requires listed == set p | p in store && p.layer == layer && p.source == source
                               && p.bucket in buckets && p.month in months
    ensures Listing(store, listed, layer, source, buckets, start, end)
  {
    hide YearMonth, InSpan;
  }

  lemma NewestOfInstant(rs: seq<Row>, kept: seq<Row>, i: nat, y: Row)
    requires KeepsNewest(rs, kept) && i < |kept| && y in rs && y.sample.ts == kept[i].sample.ts
    ensures y.writeNs <= kept[i].writeNs
  {
    assert Superseded(kept, y);
    var j :| 0 <= j < |kept| && kept[j].sample.ts == y.sample.ts && y.writeNs <= kept[j].writeNs;
  }

  // Outside a non-empty range there is nothing to read.
  lemma NothingInEmptyRange(h: seq<Write>, layer: string, source: string, id: string, start: int, end: int)
    requires (forall w :: w in h ==> ValidWrite(w)) && !BeforeEnd(start, end)
    ensures ReadsNewest(h, layer, source, id, start, end, FrameOf(id, []))
  {
    var xs: seq<Sample> := [];
    assert FrameOf(id, []) == FrameOf(id, xs) && NewestSamples(h, layer, source, id, start, end, xs);
  }

  // ---- The cache -------------------------------------------------------------------------

  class ParquetCache {
    const bucketOf: string -> nat
    var store: set<Part>
    // Every write so far, in the order they were applied.
    ghost var history: seq<Write>

    ghost predicate Valid()
      reads this
    {
      && (forall w :: w in history ==> ValidWrite(w))
      && Represents(store, history, bucketOf)
    }

    constructor (bucketOf: string -> nat)
      ensures Valid() && store == {} && history == []
      ensures this.bucketOf == bucketOf
    {
      this.bucketOf := bucketOf;
      store, history := {}, [];
    }

    // Write one series under the stamp next_write_ns returned. Nothing stored is ever changed.
    method Write(layer: string, source: string, frame: SeriesFrame, stamp: int)
      returns (r: Result<WriteReport>, ghost g: SeriesFrame, ghost parts: seq<Part>, ghost cuts: seq<nat>)
      requires Valid() && frame.Valid()
      modifies this`store, this`history
      ensures Valid() && Normalizes(frame, g)
      ensures r.Ok? <==> ValidSegment(layer) && ValidSegment(source)
      ensures r.Err? <==> A.BadSegment(layer) || A.BadSegment(source)
      ensures r.Err? ==> r.field == if A.BadSegment(layer) then "layer" else "source_id"
      ensures r.Err? || g.ts == [] ==> store == old(store) && history == old(history)
      ensures r.Ok? && g.ts == [] ==> r.value == WriteReport(0, 0, 0, 0)
      ensures r.Ok? && g.ts != [] ==>
                var w := Stamped(layer, source, stamp, g);
                && history == old(history) + [w] && store == old(store) + PartSet(parts)
                && Split(w, bucketOf(g.id), parts, cuts) && cuts[|parts|] == |g.ts| && OnePartPerMonth(w, parts, cuts)
                && r.value == WriteReport(|parts|, |g.ts|, g.ts[0], SatAdd(g.ts[|g.ts| - 1], 1))
                && forall i :: 0 <= i < |g.ts| ==> InSpan(g.ts[i], r.value.start, r.value.end)
    {
      hide Represents, Split, YearMonth, Stored;
      parts, cuts := [], [0];
      var n, _ := Normalized(frame);
      g := n;
      if !ValidSegment(layer) {
        return Err("layer"), g, parts, cuts;
      }
      if !ValidSegment(source) {
        return Err("source_id"), g, parts, cuts;
      }
      if n.ts == [] {
        return Ok(WriteReport(0, 0, 0, 0)), g, parts, cuts;
      }
      var w := Stamped(layer, source, stamp, n);
      var ps, cs := SplitByMonth(w, bucketOf(n.id));
      parts, cuts := ps, cs;
      SplitIsStored(w, ps, cs, bucketOf);
      RepresentsMore(store, history, bucketOf, PartSet(ps), w);
      store := store + PartSet(ps);
      history := history + [w];
      r := Ok(WriteReport(|ps|, |n.ts|, n.ts[0], SatAdd(n.ts[|n.ts| - 1], 1)));
    }

    // Read series [start, end). Every requested id is answered in request order; each answer is
    // exactly the newest written row per instant, whatever order the parts are fetched in.
    method Read(layer: string, source: string, ids: seq<string>, start: int, end: int)
      returns (r: Result<seq<SeriesFrame>>)
      requires Valid() && InRange(start) && InRange(end)
      ensures r.Ok? <==> ValidSegment(layer) && ValidSegment(source)
      ensures r.Err? <==> A.BadSegment(layer) || A.BadSegment(source)
      ensures r.Err? ==> r.field == if A.BadSegment(layer) then "layer" else "source_id"
      ensures r.Ok? ==> |r.value| == |ids|
      ensures r.Ok? ==> forall i :: 0 <= i < |ids| ==>
                          ReadsNewest(history, layer, source, ids[i], start, end, r.value[i])
      ensures r.Ok? && DistinctStamps(history) ==> forall i :: 0 <= i < |ids| ==>
                          IsRestriction(LastWriteWins(history), layer, source, ids[i], start, end, r.value[i])
      // The same of the columns of each frame.
      ensures r.Ok? ==> forall i :: 0 <= i < |ids| ==>
                          A.Answer(history, layer, source, ids[i], start, end, r.value[i])
      ensures r.Ok? && DistinctStamps(history) ==> forall i :: 0 <= i < |ids| ==>
                          A.MapAnswer(LastWriteWins(history), layer, source, ids[i], start, end, r.value[i])
    {
      hide A.Answer, A.MapAnswer;
      hide Represents, YearMonth, KeepsNewest, LastWriteWins, DistinctStamps, ReadsNewest,
           IsRestriction, InSpan, AllRead;
      if !ValidSegment(layer) {
        return Err("layer");
      }
      if !ValidSegment(source) {
        return Err("source_id");
      }
      var frames: seq<SeriesFrame> := [];
      NothingRead(history, layer, source, ids, start, end);
      if ids == [] || !BeforeEnd(start, end) {
        for i := 0 to |ids|
          invariant |frames| == i
          invariant AllRead(history, layer, source, ids, start, end, frames)
        {
          NothingInEmptyRange(history, layer, source, ids[i], start, end);
          OneMoreRead(history, layer, source, ids, start, end, frames, FrameOf(ids[i], []));
          frames := frames + [FrameOf(ids[i], [])];
        }
      } else {
        var wanted := set id | id in ids;
        var buckets := set id | id in wanted :: bucketOf(id);
        var months := MonthsBetween(start, end);
        // One listing per wanted bucket and month of the range.
        var listed := set p | p in store && p.layer == layer && p.source == source
                            && p.bucket in buckets && p.month in months;
        assert Listing(store, listed, layer, source, buckets, start, end) by {
          ListedMonths(store, listed, layer, source, buckets, months, start, end);
        }
        hide Listing;
        var rows := Fetch(listed, wanted, start, end);
        for i := 0 to |ids|
          invariant |frames| == i
          invariant AllRead(history, layer, source, ids, start, end, frames)
        {
          var kept := MergeRows(rows[ids[i]]);
          KeptAreNewest(store, history, bucketOf, listed, buckets, layer, source, ids[i], start, end,
                        rows[ids[i]], kept);
          KeptIsRead(history, layer, source, ids[i], start, end, Samples(kept));
          OneMoreRead(history, layer, source, ids, start, end, frames, FrameOf(ids[i], Samples(kept)));
          frames := frames + [FrameOf(ids[i], Samples(kept))];
        }
      }
      ReadsAre(history, layer, source, ids, start, end, frames);
      r := Ok(frames);
    }

    // Fetch and decode the listed parts in an arbitrary order.
    method Fetch(listed: set<Part>, wanted: set<string>, start: int, end: int) returns (rows: map<string, seq<Row>>)
      requires Valid() && listed <= store
      ensures Collected(rows, wanted, listed, start, end)
    {
      hide HasSource, Stored, Adds, Collected, TrueBounds;
      rows := map id | id in wanted :: [];
      NothingCollected(rows, wanted, start, end);
      var todo := listed;
      ghost var done: set<Part> := {};
      while todo != {}
        invariant todo <= listed && done == listed - todo
        invariant Collected(rows, wanted, done, start, end)
        decreases todo
      {
        var p :| p in todo;
        assert WellPlaced(p, bucketOf);
        assert rows.Keys == wanted by { CollectedKeys(rows, wanted, done, start, end); }
        var more := DecodePart(p, wanted, start, end, rows);
        CollectedMore(rows, more, wanted, done, p, start, end);
        rows := more;
        todo, done := todo - {p}, done + {p};
      }
      assert done == listed;
    }
  }

  lemma CollectedKeys(rows: map<string, seq<Row>>, wanted: set<string>, parts: set<Part>, start: int, end: int)
    requires Collected(rows, wanted, parts, start, end)
    ensures rows.Keys == wanted
  {
  }

  lemma NothingCollected(rows: map<string, seq<Row>>, wanted: set<string>, start: int, end: int)
    requires rows.Keys == wanted && forall id :: id in wanted ==> rows[id] == []
    ensures Collected(rows, wanted, {}, start, end)
  {
  }

  lemma CollectedMore(rows: map<string, seq<Row>>, more: map<string, seq<Row>>, wanted: set<string>,
                      done: set<Part>, p: Part, start: int, end: int)
    requires Collected(rows, wanted, done, start, end)
    requires Adds(more, rows, wanted, PartRows(p), p.writeNs, start, end)
    ensures Collected(more, wanted, done + {p}, start, end)
  {
    hide PartRows, InSpan;
  }

  // ---- Consequences ---------------------------------------------------------------------

  // Reading everything back after one write returns the normalised frame itself, a sample at
  // i64::MAX included; only an empty frame's ingest column is not remembered.
  lemma WriteThenReadAll(w: Write, f: SeriesFrame)
    requires ValidWrite(w) && w.frame.ts != []
    requires ReadsNewest([w], w.layer, w.source, w.frame.id, MIN, END_OF_TIME, f)
    ensures f == w.frame
  {
    hide IsNewestSample, FrameOf, NewestSamples;
    var g := w.frame;
    var xs: seq<Sample> :| f == FrameOf(g.id, xs) && NewestSamples([w], w.layer, w.source, g.id, MIN, END_OF_TIME, xs);
    FrameTimes(g.id, xs);
    forall t ensures t in f.ts <==> t in g.ts { SameInstant(w, xs, t); }
    assert Increasing(f.ts) by { NewestInOrder([w], w.layer, w.source, g.id, MIN, END_OF_TIME, xs); }
    IncreasingUnique(f.ts, g.ts);
    forall k | 0 <= k < |g.ts| ensures xs[k] == g.At(k) {
      assert f.ts[k] == g.ts[k];
      SampleRead(w, xs, k);
    }
    FrameOfAll(g, xs);
  }

  lemma FrameTimes(id: string, xs: seq<Sample>)
    ensures |FrameOf(id, xs).ts| == |xs| && forall i :: 0 <= i < |xs| ==> FrameOf(id, xs).ts[i] == xs[i].ts
  {
  }

  lemma NewestInOrder(h: seq<Write>, layer: string, source: string, id: string, start: int, end: int, xs: seq<Sample>)
    requires (forall w :: w in h ==> ValidWrite(w)) && NewestSamples(h, layer, source, id, start, end, xs)
    ensures forall i, j :: 0 <= i < j < |xs| ==> xs[i].ts < xs[j].ts
    ensures forall i :: 0 <= i < |xs| ==> IsNewestSample(h, layer, source, id, xs[i])
  {
    hide IsNewestSample, InSpan, HasInstant;
  }

  lemma SameInstant(w: Write, xs: seq<Sample>, t: int)
    requires ValidWrite(w) && NewestSamples([w], w.layer, w.source, w.frame.id, MIN, END_OF_TIME, xs)
    ensures t in FrameOf(w.frame.id, xs).ts <==> t in w.frame.ts
  {
    var f, g := FrameOf(w.frame.id, xs), w.frame;
    FrameTimes(g.id, xs);
    hide IsNewestSample, FrameOf;
    if t in f.ts {
      var i :| 0 <= i < |f.ts| && f.ts[i] == t;
      OnlyWriteRead(w, xs[i]);
    }
    if t in g.ts {
      var k :| 0 <= k < |g.ts| && g.ts[k] == t;
      assert InRange(t) && w in [w] && Covers(w, CellKey(w.layer, w.source, g.id, t));
      assert HasInstant(xs, t);
      var i :| 0 <= i < |xs| && xs[i].ts == t;
      assert f.ts[i] == t;
    }
  }

  lemma SampleRead(w: Write, xs: seq<Sample>, k: nat)
    requires ValidWrite(w) && NewestSamples([w], w.layer, w.source, w.frame.id, MIN, END_OF_TIME, xs)
    requires k < |w.frame.ts| && k < |xs| && xs[k].ts == w.frame.ts[k]
    ensures xs[k] == w.frame.At(k)
  {
    var g := w.frame;
    NewestInOrder([w], w.layer, w.source, g.id, MIN, END_OF_TIME, xs);
    hide NewestSamples, IsNewestSample;
    OnlyWriteRead(w, xs[k]);
    assert HoldsSample(g, g.At(k));
    SampleAtUnique(g, g.At(k));
  }

  lemma FrameOfAll(g: SeriesFrame, xs: seq<Sample>)
    requires g.Valid() && g.ts != [] && |xs| == |g.ts| && forall k :: 0 <= k < |xs| ==> xs[k] == g.At(k)
    ensures FrameOf(g.id, xs) == g
  {
    var f := FrameOf(g.id, xs);
    assert xs[0] == g.At(0);
    assert f.ts == g.ts && f.values == g.values && f.quality == g.quality;
    if g.ingest.Some? {
      assert f.ingest.Some? && f.ingest.value == g.ingest.value;
    }
  }

  lemma OnlyWriteRead(w: Write, x: Sample)
    requires ValidWrite(w) && IsNewestSample([w], w.layer, w.source, w.frame.id, x)
    ensures x.ts in w.frame.ts && SampleAt(w.frame, x.ts) == x
  {
  }

  // A frame read is determined by the map it restricts.
  lemma RestrictionIsUnique(m: map<CellKey, Cell>, layer: string, source: string, id: string,
                            start: int, end: int, f: SeriesFrame, g: SeriesFrame)
    requires IsRestriction(m, layer, source, id, start, end, f) && IsRestriction(m, layer, source, id, start, end, g)
    ensures f == g
  {
    hide FrameOf, InSpan;
    var xs :| f == FrameOf(id, xs) && CellsInSpan(m, layer, source, id, start, end, xs);
    var ys :| g == FrameOf(id, ys) && CellsInSpan(m, layer, source, id, start, end, ys);
    var a, b := Instants(xs), Instants(ys);
    forall t ensures t in a <==> t in b {
      InstantsOf(xs, t);
      InstantsOf(ys, t);
      assert HasInstant(xs, t) <==> HasInstant(ys, t);
    }
    IncreasingUnique(a, b);
    forall i | 0 <= i < |xs| ensures xs[i] == ys[i] {
      assert a[i] == b[i] && IsCell(m, layer, source, id, xs[i]) && IsCell(m, layer, source, id, ys[i]);
    }
    assert xs == ys;
  }

  ghost function Instants(xs: seq<Sample>): seq<int> {
    seq(|xs|, i requires 0 <= i < |xs| => xs[i].ts)
  }

  lemma InstantsOf(xs: seq<Sample>, t: int)
    ensures t in Instants(xs) <==> HasInstant(xs, t)
  {
    var a := Instants(xs);
    if t in a { var i :| 0 <= i < |a| && a[i] == t; }
    if HasInstant(xs, t) { var i :| 0 <= i < |xs| && xs[i].ts == t; assert a[i] == t; }
  }
}
