// What the Parquet cache stores (core/tabayyun-core/src/cache.rs): immutable parts keyed by layer,
// source, bucket, month and write stamp, their row groups with statistics, and the
// last-write-wins map a store of such parts stands for.
module Store {
  import opened Sorting
  import opened Frame
  import opened Calendar

  const ROW_GROUP_ROWS: nat := 0x10_0000

  datatype StoredRow = StoredRow(id: string, sample: Sample)

  // Column statistics of a row group; None when the file carries none.
  datatype Stats = Stats(ts: Option<(int, int)>, ids: Option<(string, string)>)

  datatype RowGroup = RowGroup(rows: seq<StoredRow>, stats: Stats)

  datatype Part = Part(layer: string, source: string, bucket: nat, month: Month, writeNs: int,
                       groups: seq<RowGroup>)

  // ---- Row groups ---------------------------------------------------------------------

  predicate TrueBounds(g: RowGroup) {
    forall r :: r in g.rows ==>
      && (g.stats.ts.Some? ==> g.stats.ts.value.0 <= r.sample.ts <= g.stats.ts.value.1)
      && (g.stats.ids.Some? ==> StringLe(g.stats.ids.value.0, r.id) && StringLe(r.id, g.stats.ids.value.1))
  }

  // Whether a row group can hold wanted rows, judged by its statistics; missing ones mean "maybe".
  predicate RowGroupMayMatch(g: RowGroup, wanted: set<string>, start: int, end: int) {
    && (g.stats.ts.Some? ==> g.stats.ts.value.1 >= start && BeforeEnd(g.stats.ts.value.0, end))
    && (g.stats.ids.Some? ==>
          exists id :: id in wanted && StringLe(g.stats.ids.value.0, id) && StringLe(id, g.stats.ids.value.1))
  }

  // Pruning is safe: a row group that holds a wanted row is never skipped.
  lemma PruningKeepsWantedRows(g: RowGroup, r: StoredRow, wanted: set<string>, start: int, end: int)
    requires TrueBounds(g) && r in g.rows && r.id in wanted && InSpan(r.sample.ts, start, end)
    ensures RowGroupMayMatch(g, wanted, start, end)
  {
  }

  // The statistics allow a row of this id and time.
  predicate Admits(s: Stats, id: string, t: int) {
    && (s.ts.Some? ==> s.ts.value.0 <= t <= s.ts.value.1)
    && (s.ids.Some? ==> StringLe(s.ids.value.0, id) && StringLe(id, s.ids.value.1))
  }

  // And it is tight: a group is decoded if and only if its statistics allow some wanted row.
  lemma PruningIsTight(g: RowGroup, wanted: set<string>, start: int, end: int)
    requires wanted != {} && BeforeEnd(start, end) && (g.stats.ts.Some? ==> g.stats.ts.value.0 <= g.stats.ts.value.1)
    ensures RowGroupMayMatch(g, wanted, start, end) <==>
              exists id, t :: id in wanted && start <= t && (t < end || end == 0x7fff_ffff_ffff_ffff)
                              && Admits(g.stats, id, t)
  {
    if RowGroupMayMatch(g, wanted, start, end) {
      var id :| id in wanted && (g.stats.ids.Some? ==>
        StringLe(g.stats.ids.value.0, id) && StringLe(id, g.stats.ids.value.1));
      var t := if g.stats.ts.Some? && g.stats.ts.value.0 > start then g.stats.ts.value.0 else start;
      assert Admits(g.stats, id, t);
    }
  }

  ghost function PartRows(p: Part): set<StoredRow> {
    set g, r | 0 <= g < |p.groups| && r in p.groups[g].rows :: r
  }

  // ---- Writes and the last-write-wins map ---------------------------------------------------

  // One write, with the normalised frame it stored.
  datatype Write = Stamped(layer: string, source: string, stamp: int, frame: SeriesFrame)

  datatype CellKey = CellKey(layer: string, source: string, id: string, ts: int)

  datatype Cell = Cell(stamp: int, sample: Sample)

  ghost predicate ValidWrite(w: Write) {
    w.frame.Valid() && Increasing(w.frame.ts)
  }

  predicate Covers(w: Write, c: CellKey) {
    w.layer == c.layer && w.source == c.source && w.frame.id == c.id && c.ts in w.frame.ts
  }

  ghost predicate HoldsSample(f: SeriesFrame, x: Sample)
    requires f.Valid()
  {
    exists k: nat :: k < |f.ts| && f.At(k) == x
  }

  ghost function SampleAt(f: SeriesFrame, t: int): (x: Sample)
    requires f.Valid() && t in f.ts
    ensures x.ts == t && HoldsSample(f, x)
  {
    var k: nat :| k < |f.ts| && f.ts[k] == t;
    f.At(k)
  }

  lemma SampleAtUnique(f: SeriesFrame, x: Sample)
    requires f.Valid() && Increasing(f.ts) && HoldsSample(f, x)
    ensures x.ts in f.ts && SampleAt(f, x.ts) == x
  {
    var k: nat :| k < |f.ts| && f.At(k) == x;
    assert f.ts[k] == x.ts;
    var l: nat :| l < |f.ts| && f.At(l) == SampleAt(f, x.ts);
    assert f.ts[l] == f.At(l).ts;
  }

  ghost function CoveredKeys(w: Write): set<CellKey> {
    set t | t in w.frame.ts :: CellKey(w.layer, w.source, w.frame.id, t)
  }

  // A write replaces exactly the cells it covers that hold an older stamp.
  ghost function Apply(m: map<CellKey, Cell>, w: Write): map<CellKey, Cell>
    requires w.frame.Valid()
  {
    map c | c in m.Keys + CoveredKeys(w) ::
      if c in CoveredKeys(w) && (c in m ==> m[c].stamp < w.stamp)
      then Cell(w.stamp, SampleAt(w.frame, c.ts)) else m[c]
  }

  // The store the cache stands for: every write applied in turn.
  ghost function LastWriteWins(h: seq<Write>): map<CellKey, Cell>
    requires forall w :: w in h ==> ValidWrite(w)
  {
    if h == [] then map[]
    else
      assert ValidWrite(h[|h| - 1]);
      Apply(LastWriteWins(h[..|h| - 1]), h[|h| - 1])
  }

  ghost predicate DistinctStamps(h: seq<Write>) {
    forall i, j :: 0 <= i < j < |h| ==> h[i].stamp != h[j].stamp
  }

  // No write of h that covers c carries a larger stamp than w, which covers it.
  ghost predicate IsNewest(h: seq<Write>, w: Write, c: CellKey) {
    w in h && Covers(w, c) && forall v :: v in h && Covers(v, c) ==> v.stamp <= w.stamp
  }

  lemma {:induction false} LastWriteWinsHoldsNewest(h: seq<Write>, c: CellKey)
    requires forall w :: w in h ==> ValidWrite(w)
    ensures c in LastWriteWins(h) <==> exists w :: w in h && Covers(w, c)
    ensures c in LastWriteWins(h) ==>
              exists w :: IsNewest(h, w, c) && LastWriteWins(h)[c] == Cell(w.stamp, SampleAt(w.frame, c.ts))
  {
    if h != [] {
      var before, last := h[..|h| - 1], h[|h| - 1];
      assert h == before + [last];
      LastWriteWinsHoldsNewest(before, c);
      assert c in CoveredKeys(last) <==> Covers(last, c);
      if c in LastWriteWins(before) {
        var w :| IsNewest(before, w, c) && LastWriteWins(before)[c] == Cell(w.stamp, SampleAt(w.frame, c.ts));
        if Covers(last, c) && w.stamp < last.stamp {
          assert IsNewest(h, last, c);
        } else {
          assert IsNewest(h, w, c);
        }
      } else if Covers(last, c) {
        assert IsNewest(h, last, c);
      }
    }
  }

  lemma NewestIsUnique(h: seq<Write>, v: Write, w: Write, c: CellKey)
    requires DistinctStamps(h) && IsNewest(h, v, c) && IsNewest(h, w, c)
    ensures v == w
  {
    var i :| 0 <= i < |h| && h[i] == v;
    var j :| 0 <= j < |h| && h[j] == w;
    assert v.stamp == w.stamp;
  }

  ghost function WriteCells(w: Write): map<CellKey, Cell>
    requires w.frame.Valid()
  {
    map c | c in CoveredKeys(w) :: Cell(w.stamp, SampleAt(w.frame, c.ts))
  }

  ghost function Overwrite(h: seq<Write>): map<CellKey, Cell>
    requires forall w :: w in h ==> ValidWrite(w)
  {
    if h == [] then map[]
    else
      assert ValidWrite(h[|h| - 1]);
      Overwrite(h[..|h| - 1]) + WriteCells(h[|h| - 1])
  }

  // With stamps in write order, as one process issues them, the later write simply overwrites.
  lemma {:induction false} LaterWriteOverwrites(h: seq<Write>)
    requires forall w :: w in h ==> ValidWrite(w)
    requires forall i, j :: 0 <= i < j < |h| ==> h[i].stamp < h[j].stamp
    ensures LastWriteWins(h) == Overwrite(h)
  {
    hide Apply, WriteCells, SampleAt, ValidWrite;
    if h != [] {
      var before, last := h[..|h| - 1], h[|h| - 1];
      assert last in h;
      LaterWriteOverwrites(before);
      StampsBelow(before, last.stamp);
      ValidFrame(last);
      NewerReplaces(LastWriteWins(before), last);
    }
  }

  lemma ValidFrame(w: Write)
    requires ValidWrite(w)
    ensures w.frame.Valid()
  {
  }

  lemma StampsBelow(h: seq<Write>, stamp: int)
    requires forall w :: w in h ==> ValidWrite(w) && w.stamp < stamp
    ensures forall c :: c in LastWriteWins(h) ==> LastWriteWins(h)[c].stamp < stamp
  {
    hide LastWriteWins, ValidWrite, Covers, SampleAt;
    forall c | c in LastWriteWins(h) ensures LastWriteWins(h)[c].stamp < stamp {
      LastWriteWinsHoldsNewest(h, c);
    }
  }

  lemma NewerReplaces(m: map<CellKey, Cell>, w: Write)
    requires w.frame.Valid() && forall c :: c in m ==> m[c].stamp < w.stamp
    ensures Apply(m, w) == m + WriteCells(w)
  {
    hide SampleAt;
    assert Apply(m, w).Keys == (m + WriteCells(w)).Keys;
  }

  // ---- What a store of parts represents --------------------------------------------------------

  ghost predicate WroteRow(w: Write, p: Part, r: StoredRow) {
    && ValidWrite(w) && w.layer == p.layer && w.source == p.source && w.stamp == p.writeNs
    && r.id == w.frame.id && HoldsSample(w.frame, r.sample)
  }

  // Every row lies in the part of its bucket and month, and its group's statistics bound it.
  ghost predicate WellPlaced(p: Part, bucketOf: string -> nat) {
    && (forall g :: g in p.groups ==> TrueBounds(g))
    && forall r :: r in PartRows(p) ==> p.bucket == bucketOf(r.id) && p.month == YearMonth(r.sample.ts)
  }

  ghost predicate HasSource(p: Part, h: seq<Write>) {
    forall r :: r in PartRows(p) ==> exists w :: w in h && WroteRow(w, p, r)
  }

  ghost predicate Stored(store: set<Part>, w: Write) {
    ValidWrite(w) && forall k: nat :: k < |w.frame.ts| ==> StoredAt(store, w, w.frame.At(k))
  }

  ghost predicate StoredAt(store: set<Part>, w: Write, x: Sample) {
    exists p :: p in store && StoredRow(w.frame.id, x) in PartRows(p) && WroteRow(w, p, StoredRow(w.frame.id, x))
  }

  // The parts hold the rows of the writes of h, all of them and no others, each in its place.
  ghost predicate Represents(store: set<Part>, h: seq<Write>, bucketOf: string -> nat) {
    && (forall p :: p in store ==> WellPlaced(p, bucketOf) && HasSource(p, h))
    && (forall w :: w in h ==> Stored(store, w))
  }

  lemma RepresentsMore(store: set<Part>, h: seq<Write>, bucketOf: string -> nat, parts: set<Part>, w: Write)
    requires Represents(store, h, bucketOf)
    requires forall p :: p in parts ==> WellPlaced(p, bucketOf) && HasSource(p, [w])
    requires Stored(parts, w)
    ensures Represents(store + parts, h + [w], bucketOf)
  {
    hide WellPlaced, WroteRow, PartRows;
    forall p | p in store + parts ensures HasSource(p, h + [w]) {
      forall r | r in PartRows(p) ensures exists v :: v in h + [w] && WroteRow(v, p, r) {
        if p in store {
          var v :| v in h && WroteRow(v, p, r);
          assert v in h + [w];
        } else {
          var v :| v in [w] && WroteRow(v, p, r);
          assert v in h + [w];
        }
      }
    }
    forall v | v in h + [w] ensures Stored(store + parts, v) {
      var some := if v in h then store else parts;
      assert Stored(some, v);
      forall k: nat | k < |v.frame.ts| ensures StoredAt(store + parts, v, v.frame.At(k)) {
        assert StoredAt(some, v, v.frame.At(k));
      }
    }
  }
}
