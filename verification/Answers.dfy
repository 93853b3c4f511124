// What the cache answers, said of the columns of the frames written and read (cache.rs, `write` and
// `read`): where every row of an answer comes from, and when it carries ingest times.
module Answers {
  import opened Int64
  import opened Frame
  import opened Store

  // What cannot be a segment of a path: nothing, a directory, or text with a separator.
  predicate BadSegment(v: string) {
    v == "" || v == "." || v == ".." || exists c :: c in v && (c == '/' || c == '\\')
  }

  predicate OfSeries(w: Write, layer: string, source: string, id: string) {
    w.layer == layer && w.source == source && w.frame.id == id
  }

  // Row k of f is row j of the write w.
  predicate SameRow(f: SeriesFrame, k: nat, w: Write, j: nat) {
    && k < |f.ts| && k < |f.values| && k < |f.quality|
    && j < |w.frame.ts| && j < |w.frame.values| && j < |w.frame.quality|
    && f.ts[k] == w.frame.ts[j] && f.values[k] == w.frame.values[j] && f.quality[k] == w.frame.quality[j]
  }

  // f has an ingest column exactly when it has rows and every write they come from has one, and then
  // it holds the times of those rows.
  predicate IngestOf(f: SeriesFrame, from: seq<Write>, at: seq<nat>)
    requires |from| == |at| == |f.ts|
  {
    && (f.ingest.Some? <==> f.ts != [] && forall k :: 0 <= k < |f.ts| ==> from[k].frame.ingest.Some?)
    && (f.ingest.Some? ==>
          && |f.ingest.value| == |f.ts|
          && forall k :: 0 <= k < |f.ts| ==>
               && from[k].frame.ingest.Some? && at[k] < |from[k].frame.ingest.value|
               && f.ingest.value[k] == from[k].frame.ingest.value[at[k]])
  }

  // No write of the series that holds instant t has a larger stamp than w.
  predicate NoneNewer(h: seq<Write>, layer: string, source: string, id: string, t: int, w: Write) {
    forall v :: v in h && OfSeries(v, layer, source, id) && t in v.frame.ts ==> v.stamp <= w.stamp
  }

  // Row k comes from row at[k] of the write from[k], the newest that holds its instant.
  predicate RowsFrom(h: seq<Write>, layer: string, source: string, id: string, f: SeriesFrame,
                     from: seq<Write>, at: seq<nat>)
    requires |from| == |at| == |f.ts|
  {
    forall k :: 0 <= k < |f.ts| ==>
      && from[k] in h && OfSeries(from[k], layer, source, id) && SameRow(f, k, from[k], at[k])
      && NoneNewer(h, layer, source, id, f.ts[k], from[k])
  }

  // The instants of f are those written to the series from start on and before end, where an end at
  // i64::MAX bounds nothing.
  predicate Instants(h: seq<Write>, layer: string, source: string, id: string, start: int, end: int, f: SeriesFrame) {
    && (forall i, j :: 0 <= i < j < |f.ts| ==> f.ts[i] < f.ts[j])
    && (forall k :: 0 <= k < |f.ts| ==> start <= f.ts[k] && (f.ts[k] < end || end == MAX))
    && forall w, t :: w in h && OfSeries(w, layer, source, id) && t in w.frame.ts ==>
         (start <= t && (t < end || end == MAX) ==> t in f.ts)
  }

  // f answers a read of one series in [start, end) after the writes h.
  ghost predicate Answer(h: seq<Write>, layer: string, source: string, id: string, start: int, end: int,
                         f: SeriesFrame)
  {
    && f.Valid() && f.id == id && Instants(h, layer, source, id, start, end, f)
    && exists from, at ::
         |from| == |at| == |f.ts| && RowsFrom(h, layer, source, id, f, from, at) && IngestOf(f, from, at)
  }

  // Row k of f is the cell of m at its instant.
  predicate SameCell(m: map<CellKey, Cell>, layer: string, source: string, id: string, f: SeriesFrame, k: nat)
    requires f.Valid() && k < |f.ts|
  {
    var c := CellKey(layer, source, id, f.ts[k]);
    c in m && f.ts[k] == m[c].sample.ts && f.values[k] == m[c].sample.value && f.quality[k] == m[c].sample.quality
  }

  // f lists the cells of m of one series from start on and before end, with their ingest times if there
  // are rows and every cell has one.
  ghost predicate MapAnswer(m: map<CellKey, Cell>, layer: string, source: string, id: string, start: int, end: int,
                            f: SeriesFrame)
  {
    && f.Valid() && f.id == id
    && (forall i, j :: 0 <= i < j < |f.ts| ==> f.ts[i] < f.ts[j])
    && (forall t :: t in f.ts <==>
          start <= t && (t < end || end == MAX) && CellKey(layer, source, id, t) in m)
    && (forall k :: 0 <= k < |f.ts| ==> SameCell(m, layer, source, id, f, k))
    && (f.ingest.Some? <==>
          f.ts != [] && forall k :: 0 <= k < |f.ts| ==> m[CellKey(layer, source, id, f.ts[k])].sample.ingest.Some?)
    && (f.ingest.Some? ==> forall k :: 0 <= k < |f.ts| ==>
          m[CellKey(layer, source, id, f.ts[k])].sample.ingest == Some(f.ingest.value[k]))
  }
}
