// SeriesFrame and its normalisation (core/tabayyun-core/src/frame.rs).
module Frame {
  import opened Int64
  import opened Sorting

  datatype Option<T> = None | Some(value: T)

  // An f64: only whether it is finite, and exact arithmetic on finite values, matter here.
  datatype Value = NaN | Inf(positive: bool) | Fin(x: real)

  datatype Quality = Good | Uncertain | Bad | Estimated {
    predicate IsUsable() { Good? || Estimated? }
  }

  datatype Sample = Sample(ts: int, value: Value, quality: Quality, ingest: Option<int>)

  datatype SeriesFrame = SeriesFrame(id: string, ts: seq<int>, values: seq<Value>,
                                     quality: seq<Quality>, ingest: Option<seq<int>>)
  {
    predicate Valid() {
      && |ts| == |values| == |quality|
      && (ingest.Some? ==> |ingest.value| == |ts|)
      && forall i :: 0 <= i < |ts| ==> InRange(ts[i])
    }

    function At(i: nat): Sample
      requires Valid() && i < |ts|
    {
      Sample(ts[i], values[i], quality[i], if ingest.Some? then Some(ingest.value[i]) else None)
    }
  }

  datatype Normalization = Normalization(wasSorted: bool, exactDuplicatesRemoved: nat, conflictingDuplicates: nat)

  predicate Increasing(ts: seq<int>) {
    forall i, j :: 0 <= i < j < |ts| ==> ts[i] < ts[j]
  }

  // Sample i is the first its source delivered for its timestamp.
  predicate IsFirst(f: SeriesFrame, i: int) {
    0 <= i < |f.ts| && forall j :: 0 <= j < i ==> f.ts[j] != f.ts[i]
  }

  // g holds, in time order, the first sample of every timestamp of f and nothing else.
  ghost predicate Normalizes(f: SeriesFrame, g: SeriesFrame) {
    && f.Valid() && g.Valid() && g.id == f.id && g.ingest.Some? == f.ingest.Some?
    && Increasing(g.ts)
    && (forall i :: 0 <= i < |f.ts| ==> f.ts[i] in g.ts)
    && (forall k :: 0 <= k < |g.ts| ==> KeepsFirst(f, g, k))
  }

  ghost predicate KeepsFirst(f: SeriesFrame, g: SeriesFrame, k: nat)
    requires f.Valid() && g.Valid() && k < |g.ts|
  {
    exists i :: IsFirst(f, i) && g.At(k) == f.At(i)
  }

  // The duplicate test: equal values, NaN being equal to NaN here, and equal quality.
  predicate SameFact(f: SeriesFrame, i: nat, j: nat)
    requires f.Valid() && i < |f.ts| && j < |f.ts|
  {
    f.values[i] == f.values[j] && f.quality[i] == f.quality[j]
  }

  // Sample i repeats an earlier timestamp; `exact` says whether it repeats its first sample's facts.
  ghost predicate IsDuplicate(f: SeriesFrame, i: int, exact: bool)
    requires f.Valid()
  {
    0 <= i < |f.ts| && exists j :: 0 <= j < i && IsFirst(f, j) && f.ts[j] == f.ts[i] && SameFact(f, i, j) == exact
  }

  ghost function Duplicates(f: SeriesFrame, exact: bool): set<int>
    requires f.Valid()
  {
    set i | 0 <= i < |f.ts| && IsDuplicate(f, i, exact)
  }

  predicate IsSorted(f: SeriesFrame) {
    forall i, j :: 0 <= i < |f.ts| && 0 <= j < |f.ts| && j == i + 1 ==> f.ts[i] <= f.ts[j]
  }

  lemma SortedIff(f: SeriesFrame)
    ensures IsSorted(f) <==> forall i, j :: 0 <= i < j < |f.ts| ==> f.ts[i] <= f.ts[j]
  {
    if IsSorted(f) {
      forall i, j | 0 <= i < j < |f.ts| ensures f.ts[i] <= f.ts[j] { SortedFrom(f, i, j); }
    }
  }

  lemma {:induction false} SortedFrom(f: SeriesFrame, i: nat, j: nat)
    requires IsSorted(f) && i < j < |f.ts|
    ensures f.ts[i] <= f.ts[j]
  {
    if i < j - 1 { SortedFrom(f, i, j - 1); }
    assert f.ts[j - 1] <= f.ts[j];
  }

  datatype Entry = Entry(ts: int, pos: int)

  predicate ByTime(a: Entry, b: Entry) {
    a.ts < b.ts || (a.ts == b.ts && a.pos <= b.pos)
  }

  function Entries(f: SeriesFrame): seq<Entry> {
    seq(|f.ts|, i requires 0 <= i < |f.ts| => Entry(f.ts[i], i))
  }

  // The sample indices in stable time order: a stable sort by timestamp is the sort by
  // (timestamp, position).
  function TimeOrder(f: SeriesFrame): seq<Entry> {
    SortBy(Entries(f), (a, b) => ByTime(a, b))
  }

  lemma TimeOrderIsStable(f: SeriesFrame)
    ensures var p := TimeOrder(f);
            && |p| == |f.ts|
            && (forall k :: 0 <= k < |p| ==> 0 <= p[k].pos < |f.ts| && p[k].ts == f.ts[p[k].pos])
            && (forall i :: 0 <= i < |f.ts| ==> Entry(f.ts[i], i) in p)
            && (forall k, l :: 0 <= k < l < |p| ==> ByTime(p[k], p[l]) && p[k] != p[l])
  {
    var s, p := Entries(f), TimeOrder(f);
    SortBySorts(s, (a, b) => ByTime(a, b));
    forall i | 0 <= i < |f.ts| ensures Entry(f.ts[i], i) in p { assert s[i] in s; }
    forall k | 0 <= k < |p| ensures 0 <= p[k].pos < |f.ts| && p[k].ts == f.ts[p[k].pos] { assert p[k] in s; }
    NoRepeats(s, p);
  }

  // Stable sort by timestamp; the first sample of a timestamp is kept, later ones are counted as
  // exact or conflicting duplicates.
  method Normalized(f: SeriesFrame) returns (g: SeriesFrame, report: Normalization)
    requires f.Valid()
    ensures Normalizes(f, g)
    ensures report.wasSorted <==> forall i, j :: 0 <= i < j < |f.ts| ==> f.ts[i] <= f.ts[j]
    ensures report.exactDuplicatesRemoved == |Duplicates(f, true)|
    ensures report.conflictingDuplicates == |Duplicates(f, false)|
    ensures |g.ts| + report.exactDuplicatesRemoved + report.conflictingDuplicates == |f.ts|
  {
    hide Kept, CountIn, Duplicates, TimeOrder, IsSorted, Normalizes, Columns;
    var order := TimeOrder(f);
    TimeOrderEntries(f);
    var out: seq<Sample> := [];
    var exact, conflicting := 0, 0;
    NothingKept(f, order);
    for k := 0 to |order|
      invariant Kept(f, order, k, out)
      invariant exact == CountIn(order, k, Duplicates(f, true))
      invariant conflicting == CountIn(order, k, Duplicates(f, false))
      invariant |out| + exact + conflicting == k
    {
      var x := f.At(order[k].pos);
      if out != [] && out[|out| - 1].ts == x.ts {
        var last := out[|out| - 1];
        RepeatedHere(f, order, k, out);
        if last.value == x.value && last.quality == x.quality {
          exact := exact + 1;
        } else {
          conflicting := conflicting + 1;
        }
      } else {
        FirstHere(f, order, k, out);
        out := out + [x];
      }
    }
    g := Columns(f, out);
    report := Normalization(IsSorted(f), exact, conflicting);
    KeptNormalize(f, out);
    SortedIff(f);
    DuplicatesCounted(f, true);
    DuplicatesCounted(f, false);
  }

  // The kept samples as the columns of a frame of f's series.
  function Columns(f: SeriesFrame, out: seq<Sample>): SeriesFrame {
    SeriesFrame(f.id,
                seq(|out|, i requires 0 <= i < |out| => out[i].ts),
                seq(|out|, i requires 0 <= i < |out| => out[i].value),
                seq(|out|, i requires 0 <= i < |out| => out[i].quality),
                if f.ingest.Some? then Some(seq(|out|, i requires 0 <= i < |out| => IngestOr0(out[i]))) else None)
  }

  function IngestOr0(x: Sample): int {
    if x.ingest.Some? then x.ingest.value else 0
  }

  ghost predicate IsFirstSample(f: SeriesFrame, x: Sample)
    requires f.Valid()
  {
    exists i :: IsFirst(f, i) && x == f.At(i)
  }

  ghost predicate HasTime(out: seq<Sample>, t: int) {
    exists q :: 0 <= q < |out| && out[q].ts == t
  }

  // What the loop has kept of the first k entries: first samples in strictly increasing time, up
  // to the latest entry.
  ghost predicate Kept(f: SeriesFrame, order: seq<Entry>, k: nat, out: seq<Sample>)
    requires f.Valid() && k <= |order|
  {
    && (forall q :: 0 <= q < |out| ==> IsFirstSample(f, out[q]))
    && (forall p, q :: 0 <= p < q < |out| ==> out[p].ts < out[q].ts)
    && (forall l :: 0 <= l < k ==> HasTime(out, order[l].ts))
    && (if k == 0 then out == [] else out != [] && out[|out| - 1].ts == order[k - 1].ts)
  }

  lemma NothingKept(f: SeriesFrame, order: seq<Entry>)
    requires f.Valid()
    ensures Kept(f, order, 0, []) && forall dups :: CountIn(order, 0, dups) == 0
  {
  }

  // How many of the first k entries lie in dups.
  ghost function CountIn(order: seq<Entry>, k: nat, dups: set<int>): nat
    requires k <= |order|
  {
    if k == 0 then 0 else CountIn(order, k - 1, dups) + (if order[k - 1].pos in dups then 1 else 0)
  }

  // The positions in dups of the first k entries.
  ghost function PositionsIn(order: seq<Entry>, k: nat, dups: set<int>): set<int>
    requires k <= |order|
  {
    set l | 0 <= l < k && order[l].pos in dups :: order[l].pos
  }

  lemma OnePosition(order: seq<Entry>, k: nat, dups: set<int>)
    requires k < |order| && forall p, q :: 0 <= p < q < |order| ==> order[p].pos != order[q].pos
    ensures order[k].pos !in PositionsIn(order, k, dups)
    ensures PositionsIn(order, k + 1, dups) ==
            PositionsIn(order, k, dups) + if order[k].pos in dups then {order[k].pos} else {}
  {
  }

  lemma {:induction false} CountInIsSize(order: seq<Entry>, k: nat, dups: set<int>)
    requires k <= |order|
    requires forall p, q :: 0 <= p < q < |order| ==> order[p].pos != order[q].pos
    ensures CountIn(order, k, dups) == |PositionsIn(order, k, dups)|
  {
    if k == 0 {
    } else {
      OnePosition(order, k - 1, dups);
      hide PositionsIn;
      CountInIsSize(order, k - 1, dups);
    }
  }

  lemma CountsAll(f: SeriesFrame, dups: set<int>)
    requires forall i :: i in dups ==> 0 <= i < |f.ts|
    ensures CountIn(TimeOrder(f), |TimeOrder(f)|, dups) == |dups|
  {
    var order := TimeOrder(f);
    TimeOrderIsStable(f);
    CountInIsSize(order, |order|, dups);
    forall i | i in dups ensures exists l :: 0 <= l < |order| && order[l].pos == i {
      assert Entry(f.ts[i], i) in order;
    }
    assert dups == PositionsIn(order, |order|, dups);
  }

  lemma DuplicatesCounted(f: SeriesFrame, exact: bool)
    requires f.Valid()
    ensures CountIn(TimeOrder(f), |TimeOrder(f)|, Duplicates(f, exact)) == |Duplicates(f, exact)|
  {
    hide CountIn, TimeOrder;
    CountsAll(f, Duplicates(f, exact));
  }

  lemma TimeOrderEntries(f: SeriesFrame)
    ensures |TimeOrder(f)| == |f.ts|
    ensures forall k :: 0 <= k < |TimeOrder(f)| ==>
              0 <= TimeOrder(f)[k].pos < |f.ts| && TimeOrder(f)[k].ts == f.ts[TimeOrder(f)[k].pos]
  {
    TimeOrderIsStable(f);
  }

  lemma KeptNormalize(f: SeriesFrame, out: seq<Sample>)
    requires f.Valid() && |TimeOrder(f)| == |f.ts| && Kept(f, TimeOrder(f), |f.ts|, out)
    ensures Normalizes(f, Columns(f, out)) && |Columns(f, out).ts| == |out|
  {
    var g := Columns(f, out);
    forall q: nat | q < |out| ensures InRange(g.ts[q]) {
      assert IsFirstSample(f, out[q]);
    }
    assert g.Valid() && Increasing(g.ts);
    forall q: nat | q < |out| ensures KeepsFirst(f, g, q) {
      KeptSample(f, out, q);
    }
    hide IsFirstSample, KeepsFirst;
    forall i: nat | i < |f.ts| ensures f.ts[i] in g.ts { TimeIsKept(f, out, i); }
  }

  lemma TimeIsKept(f: SeriesFrame, out: seq<Sample>, i: nat)
    requires f.Valid() && |TimeOrder(f)| == |f.ts| && Kept(f, TimeOrder(f), |f.ts|, out) && i < |f.ts|
    ensures f.ts[i] in Columns(f, out).ts
  {
    hide IsFirstSample, TimeOrder;
    TimeOrderIsStable(f);
    var g, order := Columns(f, out), TimeOrder(f);
    var l :| 0 <= l < |order| && order[l] == Entry(f.ts[i], i);
    assert HasTime(out, order[l].ts);
    var q :| 0 <= q < |out| && out[q].ts == order[l].ts;
    assert g.ts[q] == f.ts[i];
  }

  lemma KeptSample(f: SeriesFrame, out: seq<Sample>, q: nat)
    requires f.Valid() && Columns(f, out).Valid() && q < |out| && IsFirstSample(f, out[q])
    ensures KeepsFirst(f, Columns(f, out), q)
  {
    var i :| IsFirst(f, i) && out[q] == f.At(i);
    assert Columns(f, out).At(q) == f.At(i);
  }

  lemma RepeatedHere(f: SeriesFrame, order: seq<Entry>, k: nat, out: seq<Sample>)
    requires f.Valid() && order == TimeOrder(f) && k < |order| && Kept(f, order, k, out)
    requires out != [] && 0 <= order[k].pos < |f.ts| && out[|out| - 1].ts == f.ts[order[k].pos]
    ensures Kept(f, order, k + 1, out)
    ensures var x, last := f.At(order[k].pos), out[|out| - 1];
            var same := last.value == x.value && last.quality == x.quality;
            && CountIn(order, k + 1, Duplicates(f, true)) == CountIn(order, k, Duplicates(f, true))
               + (if same then 1 else 0)
            && CountIn(order, k + 1, Duplicates(f, false)) == CountIn(order, k, Duplicates(f, false))
               + (if same then 0 else 1)
  {
    hide TimeOrder, CountIn;
    var i, last := order[k].pos, out[|out| - 1];
    assert IsFirstSample(f, last);
    var first :| IsFirst(f, first) && last == f.At(first);
    EarlierSameTime(f, order, k, first);
    OneClass(f, i, first);
    OneMoreCounted(order, k, Duplicates(f, true));
    OneMoreCounted(order, k, Duplicates(f, false));
    assert HasTime(out, order[k].ts) by { assert out[|out| - 1].ts == order[k].ts; }
  }

  lemma OneMoreCounted(order: seq<Entry>, k: nat, dups: set<int>)
    requires k < |order|
    ensures CountIn(order, k + 1, dups) == CountIn(order, k, dups) + (if order[k].pos in dups then 1 else 0)
  {
  }

  lemma EarlierSameTime(f: SeriesFrame, order: seq<Entry>, k: nat, first: int)
    requires order == TimeOrder(f) && 0 < k < |order| && 0 <= order[k].pos < |f.ts|
    requires IsFirst(f, first) && f.ts[first] == f.ts[order[k].pos] == order[k - 1].ts
    ensures first < order[k].pos && order[k].ts == f.ts[order[k].pos]
  {
    TimeOrderIsStable(f);
    assert ByTime(order[k - 1], order[k]) && order[k - 1] != order[k];
    assert first <= order[k - 1].pos;
  }

  lemma OneClass(f: SeriesFrame, i: int, first: int)
    requires f.Valid() && 0 <= first < i < |f.ts| && IsFirst(f, first) && f.ts[first] == f.ts[i]
    ensures forall e :: i in Duplicates(f, e) <==> e == SameFact(f, i, first)
  {
    forall j | 0 <= j < i && IsFirst(f, j) && f.ts[j] == f.ts[i] ensures j == first {
      if j < first {} else if first < j {}
    }
  }

  lemma FirstHere(f: SeriesFrame, order: seq<Entry>, k: nat, out: seq<Sample>)
    requires f.Valid() && order == TimeOrder(f) && k < |order| && Kept(f, order, k, out)
    requires 0 <= order[k].pos < |f.ts|
    requires out != [] ==> out[|out| - 1].ts != f.ts[order[k].pos]
    ensures Kept(f, order, k + 1, out + [f.At(order[k].pos)])
    ensures CountIn(order, k + 1, Duplicates(f, true)) == CountIn(order, k, Duplicates(f, true))
    ensures CountIn(order, k + 1, Duplicates(f, false)) == CountIn(order, k, Duplicates(f, false))
  {
    TimeOrderIsStable(f);
    var i := order[k].pos;
    NoEarlierEntry(f, order, k);
    forall e ensures i !in Duplicates(f, e) {}
    if k > 0 { assert ByTime(order[k - 1], order[k]); }
    KeptGrows(f, order, k, out, f.At(i));
  }

  lemma KeptGrows(f: SeriesFrame, order: seq<Entry>, k: nat, out: seq<Sample>, x: Sample)
    requires f.Valid() && k < |order| && Kept(f, order, k, out)
    requires IsFirstSample(f, x) && x.ts == order[k].ts && (k > 0 ==> order[k - 1].ts < x.ts)
    ensures Kept(f, order, k + 1, out + [x])
  {
    var out' := out + [x];
    forall p, q | 0 <= p < q < |out'| ensures out'[p].ts < out'[q].ts {
      if q == |out| && p < |out| - 1 { assert out[p].ts < out[|out| - 1].ts; }
    }
    forall l | 0 <= l < k + 1 ensures HasTime(out', order[l].ts) {
      if l < k {
        assert HasTime(out, order[l].ts);
        var q :| 0 <= q < |out| && out[q].ts == order[l].ts;
        assert out'[q] == out[q];
      } else {
        assert out'[|out|].ts == order[l].ts;
      }
    }
  }

  lemma NoEarlierEntry(f: SeriesFrame, order: seq<Entry>, k: nat)
    requires f.Valid() && order == TimeOrder(f) && k < |order|
    requires k > 0 ==> order[k - 1].ts != order[k].ts
    ensures IsFirst(f, order[k].pos)
  {
    TimeOrderIsStable(f);
    var i := order[k].pos;
    forall j | 0 <= j < i ensures f.ts[j] != f.ts[i] {
      var q :| 0 <= q < |order| && order[q] == Entry(f.ts[j], j);
      if k < q {
        assert ByTime(order[k], order[q]);
      } else if q < k {
        assert ByTime(order[k - 1], order[k]);
        if q < k - 1 { assert ByTime(order[q], order[k - 1]); }
      }
    }
  }

  // The normalised frame is determined by the delivered one.
  lemma NormalizedIsUnique(f: SeriesFrame, g: SeriesFrame, h: SeriesFrame)
    requires Normalizes(f, g) && Normalizes(f, h)
    ensures g == h
  {
    NormalizedKeepsTimes(f, g);
    NormalizedKeepsTimes(f, h);
    IncreasingUnique(g.ts, h.ts);
    forall k | 0 <= k < |g.ts| ensures g.At(k) == h.At(k) {
      assert KeepsFirst(f, g, k) && KeepsFirst(f, h, k);
      var i :| IsFirst(f, i) && g.At(k) == f.At(i);
      var j :| IsFirst(f, j) && h.At(k) == f.At(j);
      assert f.ts[i] == g.ts[k] == h.ts[k] == f.ts[j];
      if i < j {} else if j < i {}
    }
    SamplesDetermine(g, h);
  }

  lemma NormalizedKeepsTimes(f: SeriesFrame, g: SeriesFrame)
    requires Normalizes(f, g)
    ensures forall t :: t in g.ts <==> t in f.ts
  {
    forall t | t in g.ts ensures t in f.ts {
      var k :| 0 <= k < |g.ts| && g.ts[k] == t;
      assert KeepsFirst(f, g, k);
      var i :| IsFirst(f, i) && g.At(k) == f.At(i);
      assert f.ts[i] == t;
    }
  }

  lemma SamplesDetermine(g: SeriesFrame, h: SeriesFrame)
    requires g.Valid() && h.Valid() && g.id == h.id && |g.ts| == |h.ts| && g.ingest.Some? == h.ingest.Some?
    requires forall k :: 0 <= k < |g.ts| ==> g.At(k) == h.At(k)
    ensures g == h
  {
    forall k | 0 <= k < |g.ts|
      ensures g.ts[k] == h.ts[k] && g.values[k] == h.values[k] && g.quality[k] == h.quality[k]
      ensures g.ingest.Some? ==> g.ingest.value[k] == h.ingest.value[k]
    {
      assert g.At(k) == h.At(k);
    }
    assert g.ts == h.ts && g.values == h.values && g.quality == h.quality;
    if g.ingest.Some? { assert g.ingest.value == h.ingest.value; }
  }

  // An increasing sequence is determined by its set of elements.
  lemma {:induction false} IncreasingUnique(a: seq<int>, b: seq<int>)
    requires Increasing(a) && Increasing(b)
    requires forall t :: t in a <==> t in b
    ensures a == b
  {
    assert (a != [] ==> a[0] in a) && (b != [] ==> b[0] in b);
    if a != [] {
      assert a[0] == b[0];
      forall t ensures t in a[1..] <==> t in b[1..] {
        assert t in a[1..] <==> t in a && t != a[0];
        assert t in b[1..] <==> t in b && t != b[0];
      }
      IncreasingUnique(a[1..], b[1..]);
    }
  }

  // Normalising twice changes nothing more.
  lemma NormalizedIsStable(f: SeriesFrame, g: SeriesFrame)
    requires Normalizes(f, g)
    ensures Normalizes(g, g) && Duplicates(g, true) == {} && Duplicates(g, false) == {}
  {
    forall k: nat | k < |g.ts| ensures KeepsFirst(g, g, k) {
      assert IsFirst(g, k);
    }
  }

  // Row k of g is the first delivered sample of its instant, column by column.
  ghost predicate FirstDelivered(f: SeriesFrame, g: SeriesFrame, k: nat, i: nat)
    requires f.Valid() && g.Valid() && k < |g.ts|
  {
    && i < |f.ts| && f.ts[i] == g.ts[k] && (forall j: nat :: j < i ==> f.ts[j] != f.ts[i])
    && g.values[k] == f.values[i] && g.quality[k] == f.quality[i]
    && (g.ingest.Some? && f.ingest.Some? ==> g.ingest.value[k] == f.ingest.value[i])
  }

  ghost predicate HasFirst(f: SeriesFrame, g: SeriesFrame, k: nat)
    requires f.Valid() && g.Valid() && k < |g.ts|
  {
    exists i: nat :: FirstDelivered(f, g, k, i)
  }

  // The normalised frame has the delivered instants in strict order, each with its first sample.
  lemma NormalizedColumns(f: SeriesFrame, g: SeriesFrame)
    requires Normalizes(f, g)
    ensures g.id == f.id && g.ingest.Some? == f.ingest.Some?
    ensures forall k, l :: 0 <= k < l < |g.ts| ==> g.ts[k] < g.ts[l]
    ensures forall t :: t in g.ts <==> t in f.ts
    ensures forall k: nat :: k < |g.ts| ==> HasFirst(f, g, k)
  {
    NormalizedKeepsTimes(f, g);
    forall k: nat | k < |g.ts| ensures HasFirst(f, g, k) {
      assert KeepsFirst(f, g, k);
      var i :| IsFirst(f, i) && g.At(k) == f.At(i);
      var n: nat := i;
      SameColumns(f, g, k, n);
    }
  }

  lemma SameColumns(f: SeriesFrame, g: SeriesFrame, k: nat, i: nat)
    requires f.Valid() && g.Valid() && k < |g.ts| && IsFirst(f, i) && g.At(k) == f.At(i)
    ensures FirstDelivered(f, g, k, i)
  {
    assert g.At(k).ts == f.At(i).ts && g.At(k).value == f.At(i).value && g.At(k).quality == f.At(i).quality;
    assert g.At(k).ingest == f.At(i).ingest;
  }

  // ---- What normalising drops ----------------------------------------------------------------

  // Some kept sample has the time, value and quality of sample i.
  ghost predicate FactKept(f: SeriesFrame, g: SeriesFrame, i: nat)
    requires f.Valid() && g.Valid() && i < |f.ts|
  {
    exists k: nat :: k < |g.ts| && g.ts[k] == f.ts[i] && g.values[k] == f.values[i] && g.quality[k] == f.quality[i]
  }

  lemma FirstOf(f: SeriesFrame, i: nat) returns (first: nat)
    requires i < |f.ts|
    ensures first <= i && IsFirst(f, first) && f.ts[first] == f.ts[i]
  {
    if j: nat :| j < i && f.ts[j] == f.ts[i] {
      first := FirstOf(f, j);
    } else {
      first := i;
    }
  }

  lemma KeptAt(f: SeriesFrame, g: SeriesFrame, first: nat) returns (k: nat)
    requires Normalizes(f, g) && IsFirst(f, first)
    ensures k < |g.ts| && g.At(k) == f.At(first)
  {
    assert f.ts[first] in g.ts;
    k :| 0 <= k < |g.ts| && g.ts[k] == f.ts[first];
    assert KeepsFirst(f, g, k);
    var j :| IsFirst(f, j) && g.At(k) == f.At(j);
    assert f.ts[j] == f.ts[first];
    SameFirst(f, j, first);
  }

  lemma SameFirst(f: SeriesFrame, i: int, j: int)
    requires IsFirst(f, i) && IsFirst(f, j) && f.ts[i] == f.ts[j]
    ensures i == j
  {
  }

  lemma FactKeptUnlessConflicting(f: SeriesFrame, g: SeriesFrame, i: nat)
    requires Normalizes(f, g) && i < |f.ts|
    ensures FactKept(f, g, i) <==> i !in Duplicates(f, false)
  {
    var first := FirstOf(f, i);
    var k := KeptAt(f, g, first);
    if first < i { OneClass(f, i, first); }
    assert g.ts[k] == f.At(first).ts && g.values[k] == f.At(first).value && g.quality[k] == f.At(first).quality;
    hide KeepsFirst, IsFirst;
    if FactKept(f, g, i) {
      var l: nat :| l < |g.ts| && g.ts[l] == f.ts[i] && g.values[l] == f.values[i] && g.quality[l] == f.quality[i];
      assert l == k;
    }
  }

  // Nothing beyond exact duplicates is dropped if and only if there is no conflicting duplicate.
  lemma OnlyExactDuplicatesDropped(f: SeriesFrame, g: SeriesFrame)
    requires Normalizes(f, g)
    ensures (forall i: nat :: i < |f.ts| ==> FactKept(f, g, i)) <==> Duplicates(f, false) == {}
  {
    assert f.Valid() && g.Valid();
    hide Normalizes, FactKept;
    forall i: nat | i < |f.ts| ensures FactKept(f, g, i) <==> i !in Duplicates(f, false) {
      FactKeptUnlessConflicting(f, g, i);
    }
    if forall i: nat :: i < |f.ts| ==> FactKept(f, g, i) {
      forall i ensures i !in Duplicates(f, false) {
        if 0 <= i < |f.ts| { assert FactKept(f, g, i); }
      }
    }
  }

  // Two samples of one timestamp with different values: only the first is kept.
  lemma ConflictIsDropped() returns (f: SeriesFrame, g: SeriesFrame)
    ensures Normalizes(f, g) && f.ts == [0, 0] && f.values == [Fin(1.0), Fin(2.0)]
    ensures g.ts == [0] && g.values == [Fin(1.0)] && 1 in Duplicates(f, false)
  {
    f := SeriesFrame("", [0, 0], [Fin(1.0), Fin(2.0)], [Good, Good], None);
    g := SeriesFrame("", [0], [Fin(1.0)], [Good], None);
    assert IsFirst(f, 0) && g.At(0) == f.At(0);
    assert KeepsFirst(f, g, 0);
    assert !SameFact(f, 1, 0);
  }
}
