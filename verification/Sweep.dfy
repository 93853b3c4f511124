// The sweep of `merged_coverage` (core/tabayyun-core/src/score.rs): the integral of the maximum
// weight over a window, with weights quantised to 1e-6, computed from sorted open and close events
// and a counted multiset of active weights.
module Sweep {
  import opened Arithmetic
  import opened Int64
  import opened Sorting
  import opened Counting

  datatype Interval = Interval(s: int, e: int, w: real)

  // An interval opens or closes; `key` is its weight in millionths.
  datatype Event = Event(t: int, open: bool, key: nat)

  const MILLION: real := 1000000.0

  // The weight rounded to the nearest millionth; the cast to an unsigned integer stops at 0.
  function Key(w: real): (k: nat) {
    if w <= 0.0 then 0 else (w * MILLION + 0.5).Floor
  }

  lemma KeyIsClose(w: real)
    requires w > 0.0
    ensures -0.0000005 <= Key(w) as real / MILLION - w <= 0.0000005
  {
    var k := Key(w) as real;
    assert k <= w * MILLION + 0.5 < k + 1.0;
    assert k / MILLION * MILLION == k;
  }

  // ---- The reference: the maximum at each instant ------------------------------------------------

  function Clip(i: Interval, start: int, end: int): Interval {
    Interval(Max(i.s, start), Min(i.e, end), i.w)
  }

  predicate Counts(c: Interval) {
    c.e > c.s && c.w > 0.0
  }

  // The clipped intervals that count.
  function Clipped(intervals: seq<Interval>, start: int, end: int): (cs: seq<Interval>)
    ensures forall c :: c in cs ==> Counts(c) && start <= c.s && c.e <= end
  {
    if intervals == [] then []
    else
      var c := Clip(intervals[0], start, end);
      (if Counts(c) then [c] else []) + Clipped(intervals[1..], start, end)
  }

  predicate CoversAt(c: Interval, x: int) {
    c.s <= x < c.e
  }

  // The largest key among the intervals covering instant x, 0 when none does.
  function MaxKeyAt(cs: seq<Interval>, x: int): nat {
    if cs == [] then 0
    else
      var rest := MaxKeyAt(cs[1..], x);
      if CoversAt(cs[0], x) && Key(cs[0].w) > rest then Key(cs[0].w) else rest
  }

  // The sum of the maximum over the instants of [a, b).
  ghost function Area(cs: seq<Interval>, a: int, b: int): nat
    decreases b - a
  {
    if a >= b then 0 else Area(cs, a, b - 1) + MaxKeyAt(cs, b - 1)
  }

  lemma {:induction false} AreaSplit(cs: seq<Interval>, a: int, m: int, b: int)
    requires a <= m <= b
    ensures Area(cs, a, b) == Area(cs, a, m) + Area(cs, m, b)
    decreases b - m
  {
    if m < b { AreaSplit(cs, a, m, b - 1); }
  }

  lemma {:induction false} AreaConstant(cs: seq<Interval>, a: int, b: int, k: nat)
    requires a <= b
    requires forall x :: a <= x < b ==> MaxKeyAt(cs, x) == k
    ensures Area(cs, a, b) == (b - a) * k
    decreases b - a
  {
    if a < b {
      AreaConstant(cs, a, b - 1, k);
      assert (b - a) * k == (b - 1 - a) * k + k;
    }
  }

  lemma {:induction false} MaxKeyAtIsMax(cs: seq<Interval>, x: int)
    ensures forall c :: c in cs && CoversAt(c, x) ==> Key(c.w) <= MaxKeyAt(cs, x)
    ensures MaxKeyAt(cs, x) > 0 ==> exists c :: c in cs && CoversAt(c, x) && Key(c.w) == MaxKeyAt(cs, x)
  {
    if cs != [] {
      hide Key;
      MaxKeyAtIsMax(cs[1..], x);
      assert cs == [cs[0]] + cs[1..];
    }
  }

  // ---- Events ----------------------------------------------------------------------------

  function EventsOf(cs: seq<Interval>): (ev: seq<Event>) {
    if cs == [] then []
    else [Event(cs[0].s, true, Key(cs[0].w)), Event(cs[0].e, false, Key(cs[0].w))] + EventsOf(cs[1..])
  }

  // Time order, closes before opens at one instant.
  predicate EventLe(a: Event, b: Event) {
    a.t < b.t || (a.t == b.t && (!a.open || b.open))
  }

  ghost predicate SortedEvents(cs: seq<Interval>, ev: seq<Event>) {
    && (forall c :: c in cs ==> Counts(c))
    && multiset(ev) == multiset(EventsOf(cs))
    && forall i, j :: 0 <= i < j < |ev| ==> EventLe(ev[i], ev[j])
  }

  ghost function Opens(ev: seq<Event>, k: nat): nat {
    Count(ev, (e: Event) => e.open && e.key == k)
  }

  ghost function Closes(ev: seq<Event>, k: nat): nat {
    Count(ev, (e: Event) => !e.open && e.key == k)
  }

  // Opens or closes of key k up to instant x.
  ghost function OpensBy(ev: seq<Event>, k: nat, x: int): nat {
    Count(ev, (e: Event) => e.open && e.key == k && e.t <= x)
  }

  ghost function ClosesBy(ev: seq<Event>, k: nat, x: int): nat {
    Count(ev, (e: Event) => !e.open && e.key == k && e.t <= x)
  }

  ghost function StartedBy(cs: seq<Interval>, k: nat, x: int): nat {
    Count(cs, (c: Interval) => Key(c.w) == k && c.s <= x)
  }

  ghost function EndedBy(cs: seq<Interval>, k: nat, x: int): nat {
    Count(cs, (c: Interval) => Key(c.w) == k && c.e <= x)
  }

  ghost function Covering(cs: seq<Interval>, k: nat, x: int): nat {
    Count(cs, (c: Interval) => Key(c.w) == k && CoversAt(c, x))
  }

  lemma {:induction false} EventsCountIntervals(cs: seq<Interval>, k: nat, x: int)
    ensures OpensBy(EventsOf(cs), k, x) == StartedBy(cs, k, x)
    ensures ClosesBy(EventsOf(cs), k, x) == EndedBy(cs, k, x)
  {
    hide Key;
    if cs != [] {
      EventsCountIntervals(cs[1..], k, x);
      var o, c := Event(cs[0].s, true, Key(cs[0].w)), Event(cs[0].e, false, Key(cs[0].w));
      var p, q := (e: Event) => e.open && e.key == k && e.t <= x, (e: Event) => !e.open && e.key == k && e.t <= x;
      PairCount(o, c, EventsOf(cs[1..]), p);
      PairCount(o, c, EventsOf(cs[1..]), q);
      assert EventsOf(cs) == [o, c] + EventsOf(cs[1..]);
    }
  }

  lemma PairCount<T>(x: T, y: T, rest: seq<T>, p: T -> bool)
    ensures Count([x, y] + rest, p) == (if p(x) then 1 else 0) + (if p(y) then 1 else 0) + Count(rest, p)
  {
    assert ([x, y] + rest)[1..] == [y] + rest;
    assert ([y] + rest)[1..] == rest;
  }

  // Every started interval that has not ended covers x.
  lemma CoveringIsStartedMinusEnded(cs: seq<Interval>, k: nat, x: int)
    requires forall c :: c in cs ==> Counts(c)
    ensures Covering(cs, k, x) == StartedBy(cs, k, x) - EndedBy(cs, k, x)
  {
    hide Key;
    CountMinus(cs, (c: Interval) => Key(c.w) == k && c.s <= x,
               (c: Interval) => Key(c.w) == k && c.e <= x,
               (c: Interval) => Key(c.w) == k && CoversAt(c, x));
  }

  // ---- Prefixes of the sorted events ---------------------------------------------------------

  // A prefix that holds every event up to x and no later one has exactly the intervals covering x
  // open and not yet closed.
  lemma PrefixAtInstant(cs: seq<Interval>, ev: seq<Event>, j: nat, x: int, k: nat)
    requires SortedEvents(cs, ev) && j <= |ev|
    requires forall i :: 0 <= i < j ==> ev[i].t <= x
    requires forall i :: j <= i < |ev| ==> ev[i].t > x
    ensures Opens(ev[..j], k) - Closes(ev[..j], k) == Covering(cs, k, x)
  {
    CoveringIsStartedMinusEnded(cs, k, x);
    EventsCountIntervals(cs, k, x);
    assert ev == ev[..j] + ev[j..];
    var o, c := (e: Event) => e.open && e.key == k && e.t <= x, (e: Event) => !e.open && e.key == k && e.t <= x;
    CountPermutation(ev, EventsOf(cs), o);
    CountPermutation(ev, EventsOf(cs), c);
    CountConcat(ev[..j], ev[j..], o);
    CountConcat(ev[..j], ev[j..], c);
    CountNone(ev[j..], o);
    CountNone(ev[j..], c);
    CountSame(ev[..j], o, (e: Event) => e.open && e.key == k);
    CountSame(ev[..j], c, (e: Event) => !e.open && e.key == k);
  }

  // In every prefix each close has its own open before it.
  lemma NoCloseLacksItsOpen(cs: seq<Interval>, ev: seq<Event>, j: nat, k: nat)
    requires SortedEvents(cs, ev) && j <= |ev|
    ensures Closes(ev[..j], k) <= Opens(ev[..j], k)
  {
    if j > 0 {
      var x := ev[j - 1].t;
      assert ev == ev[..j] + ev[j..];
      var c := (e: Event) => !e.open && e.key == k && e.t <= x;
      var o := (e: Event) => e.open && e.key == k && e.t <= x - 1;
      // Closes of the prefix are among the intervals ended by x, all of which started before x.
      forall e | e in ev[..j] ensures e.t <= x { var i :| 0 <= i < j && ev[i] == e; }
      forall e | e in ev[j..] ensures e.t >= x { var i :| j <= i < |ev| && ev[i] == e; }
      CountSame(ev[..j], (e: Event) => !e.open && e.key == k, c);
      CountConcat(ev[..j], ev[j..], c);
      CountPermutation(ev, EventsOf(cs), c);
      EventsCountIntervals(cs, k, x);
      EndedHaveStarted(cs, k, x);
      EventsCountIntervals(cs, k, x - 1);
      CountPermutation(ev, EventsOf(cs), o);
      CountConcat(ev[..j], ev[j..], o);
      CountNone(ev[j..], o);
      CountLe(ev[..j], o, (e: Event) => e.open && e.key == k);
    }
  }

  lemma EndedHaveStarted(cs: seq<Interval>, k: nat, x: int)
    requires forall c :: c in cs ==> Counts(c)
    ensures EndedBy(cs, k, x) <= StartedBy(cs, k, x - 1)
  {
    hide Key;
    CountLe(cs, (c: Interval) => Key(c.w) == k && c.e <= x, (c: Interval) => Key(c.w) == k && c.s <= x - 1);
  }

  // ---- The active multiset ---------------------------------------------------------------

  // active[k] is the number of opened and not yet closed intervals of key k; absent when none.
  ghost predicate IsActive(active: map<nat, nat>, ev: seq<Event>) {
    forall k: nat ::
      && (k in active <==> Opens(ev, k) > Closes(ev, k))
      && (k in active ==> active[k] == Opens(ev, k) - Closes(ev, k))
  }

  // The last key of the ordered map.
  function LastKey(active: map<nat, nat>): (k: nat)
    requires active != map[]
    ensures k in active && forall l :: l in active ==> l <= k
  {
    Greatest(active.Keys)
  }

  function Greatest(keys: set<nat>): (k: nat)
    requires keys != {}
    ensures k in keys && forall l :: l in keys ==> l <= k
  {
    HasGreatest(keys);
    var k :| k in keys && forall l :: l in keys ==> l <= k;
    k
  }

  lemma {:induction false} HasGreatest(keys: set<nat>)
    requires keys != {}
    ensures exists k :: k in keys && forall l :: l in keys ==> l <= k
  {
    var x :| x in keys;
    if keys != {x} {
      HasGreatest(keys - {x});
      var k :| k in keys - {x} && forall l :: l in keys - {x} ==> l <= k;
      var g := if x > k then x else k;
      forall l | l in keys ensures l <= g { if l != x { assert l in keys - {x}; } }
      assert g in keys;
    } else {
      assert x in keys && forall l :: l in keys ==> l <= x;
    }
  }

  function TopKey(active: map<nat, nat>): nat {
    if active == map[] then 0 else LastKey(active)
  }

  // The active multiset after one more event, as the entry, increment and removal of the code.
  function Step(active: map<nat, nat>, e: Event): map<nat, nat> {
    var c := if e.key in active then active[e.key] else 0;
    if e.open then active[e.key := c + 1]
    else if c <= 1 then active - {e.key}
    else active[e.key := c - 1]
  }

  lemma StepKeepsActive(cs: seq<Interval>, ev: seq<Event>, j: nat, active: map<nat, nat>)
    requires SortedEvents(cs, ev) && j < |ev| && IsActive(active, ev[..j])
    ensures IsActive(Step(active, ev[j]), ev[..j + 1])
    ensures !ev[j].open ==> ev[j].key in active
  {
    var e, active' := ev[j], Step(active, ev[j]);
    forall k: nat
      ensures (k in active' <==> Opens(ev[..j + 1], k) > Closes(ev[..j + 1], k))
           && (k in active' ==> active'[k] == Opens(ev[..j + 1], k) - Closes(ev[..j + 1], k))
      ensures k == e.key && !e.open ==> k in active
    {
      CountMore(ev, j, (e: Event) => e.open && e.key == k);
      CountMore(ev, j, (e: Event) => !e.open && e.key == k);
      NoCloseLacksItsOpen(cs, ev, j, k);
      NoCloseLacksItsOpen(cs, ev, j + 1, k);
    }
  }

  // Between two events the active maximum is the maximum of the intervals covering each instant.
  lemma TopKeyIsMax(cs: seq<Interval>, ev: seq<Event>, j: nat, active: map<nat, nat>, x: int)
    requires SortedEvents(cs, ev) && j <= |ev| && IsActive(active, ev[..j])
    requires forall i :: 0 <= i < j ==> ev[i].t <= x
    requires forall i :: j <= i < |ev| ==> ev[i].t > x
    ensures TopKey(active) == MaxKeyAt(cs, x)
  {
    hide Key;
    forall k: nat ensures k in active <==> exists c :: c in cs && Key(c.w) == k && CoversAt(c, x) {
      PrefixAtInstant(cs, ev, j, x, k);
      CountNone(cs, (c: Interval) => Key(c.w) == k && CoversAt(c, x));
    }
    MaxKeyAtIsMax(cs, x);
    var m := MaxKeyAt(cs, x);
    if m > 0 {
      var d :| d in cs && CoversAt(d, x) && Key(d.w) == m;
      assert m in active;
    }
    if active != map[] {
      var k := LastKey(active);
      var c :| c in cs && Key(c.w) == k && CoversAt(c, x);
    }
  }

  // The coverage of a window: the area under the maximum over the window's span.
  ghost function Coverage(intervals: seq<Interval>, start: int, end: int): (r: real)
    ensures 0.0 <= r <= 1.0
  {
    Clamp01(Area(Clipped(intervals, start, end), start, end) as real / MILLION / Max(end - start, 1) as real)
  }

  // ---- merged_coverage ------------------------------------------------------------------

  // The clipped intervals that count, as events.
  method Events(intervals: seq<Interval>, start: int, end: int) returns (events: seq<Event>)
    ensures events == EventsOf(Clipped(intervals, start, end))
  {
    events := [];
    ghost var n := |intervals|;
    assert intervals[..0] == [];
    for i := 0 to |intervals|
      invariant events == EventsOf(Clipped(intervals[..i], start, end))
    {
      ClippedMore(intervals, i, start, end);
      var c := Clip(intervals[i], start, end);
      if c.e > c.s && c.w > 0.0 {
        EventsMore(Clipped(intervals[..i], start, end), c);
        events := events + [Event(c.s, true, Key(c.w))];
        events := events + [Event(c.e, false, Key(c.w))];
      }
    }
    assert intervals[..|intervals|] == intervals;
  }

  lemma NoneClipped(start: int, end: int)
    ensures Clipped([], start, end) == []
  {
  }

  lemma Associative(x: seq<Interval>, y: seq<Interval>, z: seq<Interval>)
    ensures x + (y + z) == x + y + z
  {
  }

  lemma ClippedHead(a: seq<Interval>, start: int, end: int)
    requires a != []
    ensures Clipped(a, start, end) ==
            (if Counts(Clip(a[0], start, end)) then [Clip(a[0], start, end)] else []) + Clipped(a[1..], start, end)
  {
    hide Clip, Counts;
  }

  lemma {:induction false} ClippedConcat(a: seq<Interval>, b: seq<Interval>, start: int, end: int)
    ensures Clipped(a + b, start, end) == Clipped(a, start, end) + Clipped(b, start, end)
  {
    hide Clip, Counts, Clipped;
    if a == [] {
      assert a + b == b;
      NoneClipped(start, end);
    } else {
      ClippedConcat(a[1..], b, start, end);
      assert (a + b)[0] == a[0] && (a + b)[1..] == a[1..] + b;
      ClippedHead(a, start, end);
      ClippedHead(a + b, start, end);
      Associative(if Counts(Clip(a[0], start, end)) then [Clip(a[0], start, end)] else [],
                  Clipped(a[1..], start, end), Clipped(b, start, end));
    }
  }

  lemma ClippedMore(intervals: seq<Interval>, i: nat, start: int, end: int)
    requires i < |intervals|
    ensures var c := Clip(intervals[i], start, end);
            Clipped(intervals[..i + 1], start, end)
            == if Counts(c) then Clipped(intervals[..i], start, end) + [c] else Clipped(intervals[..i], start, end)
  {
    assert intervals[..i + 1] == intervals[..i] + [intervals[i]];
    ClippedConcat(intervals[..i], [intervals[i]], start, end);
    assert [intervals[i]][1..] == [];
  }

  lemma {:induction false} EventsMore(cs: seq<Interval>, c: Interval)
    ensures EventsOf(cs + [c]) == EventsOf(cs) + [Event(c.s, true, Key(c.w)), Event(c.e, false, Key(c.w))]
  {
    hide Key;
    if cs == [] {
      assert cs + [c] == [c] && [c][1..] == [];
    } else {
      EventsMore(cs[1..], c);
      assert (cs + [c])[1..] == cs[1..] + [c];
    }
  }

  ghost predicate Inside(cs: seq<Interval>, start: int, end: int) {
    forall c :: c in cs ==> Counts(c) && start <= c.s && c.e <= end
  }

  lemma {:induction false} EventsInside(cs: seq<Interval>, start: int, end: int)
    requires Inside(cs, start, end)
    ensures forall e :: e in EventsOf(cs) ==> start <= e.t <= end
    ensures forall c :: c in cs ==>
                  Event(c.s, true, Key(c.w)) in EventsOf(cs) && Event(c.e, false, Key(c.w)) in EventsOf(cs)
  {
    hide Key;
    if cs != [] {
      EventsInside(cs[1..], start, end);
      assert cs == [cs[0]] + cs[1..];
      var o, c := Event(cs[0].s, true, Key(cs[0].w)), Event(cs[0].e, false, Key(cs[0].w));
      assert EventsOf(cs) == [o, c] + EventsOf(cs[1..]);
      assert [o, c] + EventsOf(cs[1..]) == [o] + ([c] + EventsOf(cs[1..]));
    }
  }

  // The sorted events lie in the window, and no interval covers an instant before the first event
  // or from the last one on.
  lemma EventsSpanIntervals(cs: seq<Interval>, ev: seq<Event>, start: int, end: int)
    requires SortedEvents(cs, ev) && Inside(cs, start, end) && ev != []
    ensures forall i :: 0 <= i < |ev| ==> start <= ev[i].t <= end
    ensures forall x :: x < ev[0].t || x >= ev[|ev| - 1].t ==> MaxKeyAt(cs, x) == 0
  {
    hide Key, MaxKeyAt;
    EventsInside(cs, start, end);
    SamePermutation(ev, EventsOf(cs));
    forall i | 0 <= i < |ev| ensures start <= ev[i].t <= end && ev[0].t <= ev[i].t <= ev[|ev| - 1].t {
      assert ev[i] in ev;
      if i > 0 { assert EventLe(ev[0], ev[i]); }
      if i < |ev| - 1 { assert EventLe(ev[i], ev[|ev| - 1]); }
    }
    forall c | c in cs ensures ev[0].t <= c.s && c.e <= ev[|ev| - 1].t {
      assert Event(c.s, true, Key(c.w)) in ev && Event(c.e, false, Key(c.w)) in ev;
    }
    forall x | x < ev[0].t || x >= ev[|ev| - 1].t ensures MaxKeyAt(cs, x) == 0 {
      MaxKeyAtIsMax(cs, x);
    }
  }

  lemma AreaEnds(cs: seq<Interval>, ev: seq<Event>, start: int, end: int)
    requires SortedEvents(cs, ev) && Inside(cs, start, end) && ev != []
    ensures Area(cs, start, ev[0].t) == 0
    ensures Area(cs, start, end) == Area(cs, start, ev[|ev| - 1].t)
  {
    hide MaxKeyAt;
    EventsSpanIntervals(cs, ev, start, end);
    var first, last := ev[0].t, ev[|ev| - 1].t;
    AreaConstant(cs, start, first, 0);
    AreaConstant(cs, last, end, 0);
    AreaSplit(cs, start, last, end);
  }

  // From one event to the next the area grows by the elapsed time at the active maximum.
  lemma Stretch(cs: seq<Interval>, ev: seq<Event>, j: nat, active: map<nat, nat>, start: int, end: int, prev: int)
    requires SortedEvents(cs, ev) && Inside(cs, start, end) && j < |ev| && IsActive(active, ev[..j])
    requires if j == 0 then prev == ev[0].t else prev == ev[j - 1].t
    ensures start <= prev <= ev[j].t <= end
    ensures Area(cs, start, ev[j].t) == Area(cs, start, prev) + (ev[j].t - prev) * TopKey(active)
  {
    hide MaxKeyAt, IsActive, TopKey;
    EventsSpanIntervals(cs, ev, start, end);
    if j > 0 {
      assert EventLe(ev[j - 1], ev[j]);
      forall x | prev <= x < ev[j].t ensures MaxKeyAt(cs, x) == TopKey(active) {
        forall i | 0 <= i < j ensures ev[i].t <= x { if i < j - 1 { assert EventLe(ev[i], ev[j - 1]); } }
        forall i | j <= i < |ev| ensures ev[i].t > x { if i > j { assert EventLe(ev[j], ev[i]); } }
        TopKeyIsMax(cs, ev, j, active, x);
      }
    }
    AreaConstant(cs, prev, ev[j].t, TopKey(active));
    AreaSplit(cs, start, prev, ev[j].t);
  }

  lemma IntegralStep(a: nat, d: nat, k: nat)
    ensures (a + d * k) as real / MILLION == a as real / MILLION + d as real * (k as real / MILLION)
  {
    assert (d * k) as real == d as real * k as real;
  }

  // The active multiset and the integral after some sorted events, as the loop updates them; time
  // differences saturate.
  ghost function SweptActive(ev: seq<Event>): map<nat, nat> {
    if ev == [] then map[] else Step(SweptActive(ev[..|ev| - 1]), ev[|ev| - 1])
  }

  ghost function SweptIntegral(ev: seq<Event>): real {
    if |ev| <= 1 then 0.0
    else
      var n := |ev| - 1;
      SweptIntegral(ev[..n]) + SatSub(ev[n].t, ev[n - 1].t) as real * (TopKey(SweptActive(ev[..n])) as real / MILLION)
  }

  ghost function SweptCoverage(intervals: seq<Interval>, start: int, end: int): real {
    Clamp01(SweptIntegral(SortBy(EventsOf(Clipped(intervals, start, end)), EventLe))
        / Max(SatSub(end, start), 1) as real)
  }

  // The sweep computes the coverage of every window no longer than i64::MAX.
  method MergedCoverage(intervals: seq<Interval>, start: int, end: int) returns (r: real)
    requires InRange(start) && InRange(end)
    ensures r == SweptCoverage(intervals, start, end)
    ensures end - start <= MAX ==> r == Coverage(intervals, start, end)
  {
    hide Area, SortedEvents, EventsOf, Clipped, SortBy, SweptIntegral;
    var span := Max(SatSub(end, start), 1) as real;
    var events := Events(intervals, start, end);
    if end - start <= MAX { ShortWindowsExact(intervals, start, end); }
    if events == [] {
      NoEvents();
      return 0.0;
    }
    SortedNotEmpty(events);
    events := SortBy(events, EventLe);
    var integral := Integrate(events);
    r := Clamp01(integral / span);
  }

  lemma NoEvents()
    ensures SweptIntegral(SortBy([], EventLe)) == 0.0
  {
  }

  lemma NoEventsNoArea(cs: seq<Interval>, start: int, end: int)
    requires EventsOf(cs) == []
    ensures Area(cs, start, end) == 0
  {
    assert cs == [];
    if start < end { AreaConstant(cs, start, end, 0); }
  }

  // The sweep over the sorted events.
  method Integrate(events: seq<Event>) returns (integral: real)
    requires events != []
    ensures integral == SweptIntegral(events)
  {
    hide Step, SatSub, TopKey, LastKey;
    var active: map<nat, nat> := map[];
    integral := 0.0;
    var prev := events[0].t;
    for j := 0 to |events|
      invariant if j == 0 then prev == events[0].t else prev == events[j - 1].t
      invariant active == SweptActive(events[..j])
      invariant integral == SweptIntegral(events[..j])
    {
      var e := events[j];
      assert events[..j + 1][..j] == events[..j];
      TopIsLast(active);
      if active != map[] {
        integral := integral + SatSub(e.t, prev) as real * (LastKey(active) as real / MILLION);
      }
      prev := e.t;
      active := Step(active, e);
    }
    assert events[..|events|] == events;
  }

  lemma {:induction false} SweptIsArea(cs: seq<Interval>, ev: seq<Event>, start: int, end: int, j: nat)
    requires InRange(start) && InRange(end) && end - start <= MAX
    requires SortedEvents(cs, ev) && Inside(cs, start, end) && ev != [] && j <= |ev|
    ensures IsActive(SweptActive(ev[..j]), ev[..j])
    ensures SweptIntegral(ev[..j]) == if j == 0 then 0.0 else Area(cs, start, ev[j - 1].t) as real / MILLION
  {
    hide Area, IsActive, SortedEvents, Inside, Step, TopKey, SatSub;
    if j == 0 {
      NothingActive();
    } else {
      SweptIsArea(cs, ev, start, end, j - 1);
      assert ev[..j][..j - 1] == ev[..j - 1];
      StepKeepsActive(cs, ev, j - 1, SweptActive(ev[..j - 1]));
      if j == 1 {
        AreaEnds(cs, ev, start, end);
      } else {
        Advance(cs, ev, j - 1, SweptActive(ev[..j - 1]), start, end, ev[j - 2].t);
      }
    }
  }

  // In a window no longer than i64::MAX no time difference saturates.
  lemma ShortWindowsExact(intervals: seq<Interval>, start: int, end: int)
    requires InRange(start) && InRange(end) && end - start <= MAX
    ensures SweptCoverage(intervals, start, end) == Coverage(intervals, start, end)
  {
    hide Area, SortedEvents, EventsOf, Clipped, SortBy, SweptIntegral;
    var cs := Clipped(intervals, start, end);
    assert Inside(cs, start, end);
    var ev := SortBy(EventsOf(cs), EventLe);
    assert SortedEvents(cs, ev) by { EventsSorted(cs); }
    if ev == [] {
      NoEvents();
      assert EventsOf(cs) == [] by { NoneSorted(cs); }
      NoEventsNoArea(cs, start, end);
      NoneSwept();
    } else {
      SweptIsArea(cs, ev, start, end, |ev|);
      assert ev[..|ev|] == ev;
      AreaEnds(cs, ev, start, end);
    }
  }

  lemma NoneSwept()
    ensures SweptIntegral([]) == 0.0
  {
  }

  lemma EventsSorted(cs: seq<Interval>)
    requires forall c :: c in cs ==> Counts(c)
    ensures SortedEvents(cs, SortBy(EventsOf(cs), EventLe))
  {
    EventOrder();
    SortBySorts(EventsOf(cs), EventLe);
  }

  lemma EventOrder()
    ensures TotalPreorder(EventLe)
  {
  }

  lemma NoneSorted(cs: seq<Interval>)
    requires SortBy(EventsOf(cs), EventLe) == []
    ensures EventsOf(cs) == []
  {
    EventOrder();
    SortBySorts(EventsOf(cs), EventLe);
  }

  // In every longer window the divisor saturates: a single interval of weight 1 over the first
  // nanosecond counts for more than its share.
  lemma LongWindowFails(start: int, end: int)
    requires InRange(start) && InRange(end) && end - start > MAX
    ensures SweptCoverage([Interval(start, start + 1, 1.0)], start, end)
         != Coverage([Interval(start, start + 1, 1.0)], start, end)
  {
    hide SortBy, SweptIntegral, Area, Clipped, EventsOf, Clamp01;
    var i := Interval(start, start + 1, 1.0);
    OneClipped(i, start, end);
    OneInterval(i);
    OneArea(i, start, end);
    SharesDiffer(end - start);
  }

  lemma OneClipped(i: Interval, start: int, end: int)
    requires i.s == start && i.e == start + 1 && i.w > 0.0 && start + 1 <= end
    ensures Clipped([i], start, end) == [i]
  {
    assert [i][1..] == [];
    assert Clip(i, start, end) == i;
    assert Clipped([i][1..], start, end) == [];
    assert Clipped([i], start, end) == [i] + Clipped([i][1..], start, end);
  }

  lemma SharesDiffer(n: int)
    requires n > MAX
    ensures Clamp01(1.0 / MAX as real) != Clamp01(1000000 as real / MILLION / n as real)
  {
    var p, q, m, x := 1.0 / MAX as real, 1.0 / n as real, MAX as real, n as real;
    assert 1000000 as real / MILLION == 1.0;
    assert p * m == 1.0 && q * x == 1.0;
    assert 0.0 < p < 1.0;
    PositiveShare(x, q);
    assert p * x > p * m;
  }

  lemma PositiveShare(x: real, q: real)
    requires x > 1.0 && q * x == 1.0
    ensures 0.0 < q < 1.0
  {
  }

  lemma OneInterval(i: Interval)
    requires i.e == i.s + 1 && i.w == 1.0
    ensures SweptIntegral(SortBy(EventsOf([i]), EventLe)) == 1.0
  {
    var a, b := Event(i.s, true, 1000000), Event(i.e, false, 1000000);
    assert [i][1..] == [];
    assert EventsOf([i]) == [a, b];
    assert [a, b][1..] == [b] && [b][1..] == [];
    assert SortBy([b], EventLe) == [b];
    assert SortBy([a, b], EventLe) == Insert(a, [b], EventLe);
    assert [a, b][..1] == [a] && [a][..0] == [];
    assert SweptActive([a]) == map[1000000 := 1];
    assert SweptIntegral([a, b]) == 0.0 + SatSub(i.e, i.s) as real * (TopKey(SweptActive([a])) as real / MILLION);
  }

  lemma OneArea(i: Interval, start: int, end: int)
    requires i.s == start && i.e == start + 1 && i.w == 1.0 && start + 1 <= end
    ensures Area([i], start, end) == 1000000
  {
    assert [i][1..] == [];
    AreaSplit([i], start, start + 1, end);
    AreaConstant([i], start, start + 1, 1000000);
    AreaConstant([i], start + 1, end, 0);
  }

  // merged_coverage is the coverage of all findings exactly in the windows no longer than i64::MAX.
  lemma CoverageExactIffShort(start: int, end: int)
    requires InRange(start) && InRange(end)
    ensures (forall intervals :: SweptCoverage(intervals, start, end) == Coverage(intervals, start, end))
       <==> end - start <= MAX
  {
    hide SweptCoverage, Coverage;
    if end - start <= MAX {
      forall intervals ensures SweptCoverage(intervals, start, end) == Coverage(intervals, start, end) {
        ShortWindowsExact(intervals, start, end);
      }
    } else {
      LongWindowFails(start, end);
    }
  }

  lemma Advance(cs: seq<Interval>, ev: seq<Event>, j: nat, active: map<nat, nat>, start: int, end: int, prev: int)
    requires SortedEvents(cs, ev) && Inside(cs, start, end) && j < |ev| && IsActive(active, ev[..j])
    requires if j == 0 then prev == ev[0].t else prev == ev[j - 1].t
    requires InRange(start) && InRange(end)
    ensures end - start <= MAX ==>
              Area(cs, start, ev[j].t) as real / MILLION
              == Area(cs, start, prev) as real / MILLION
               + SatSub(ev[j].t, prev) as real * (TopKey(active) as real / MILLION)
  {
    hide Area, IsActive, SortedEvents, Inside, TopKey;
    Stretch(cs, ev, j, active, start, end, prev);
    IntegralStep(Area(cs, start, prev), ev[j].t - prev, TopKey(active));
  }

  lemma TopIsLast(active: map<nat, nat>)
    ensures TopKey(active) == if active == map[] then 0 else LastKey(active)
  {
  }

  lemma NothingActive()
    ensures IsActive(map[], [])
  {
  }

  lemma SortedNotEmpty(events: seq<Event>)
    requires events != []
    ensures SortBy(events, EventLe) != []
  {
    EventOrder();
    SortBySorts(events, EventLe);
    assert events[0] in multiset(events);
  }

  // ---- What the quantised integral means --------------------------------------------------------

  // The largest weight among the intervals covering instant x.
  ghost function MaxWeightAt(cs: seq<Interval>, x: int): (m: real)
    ensures m >= 0.0
  {
    if cs == [] then 0.0
    else
      var rest := MaxWeightAt(cs[1..], x);
      if cs[0].s <= x < cs[0].e && cs[0].w > rest then cs[0].w else rest
  }

  ghost function WeightArea(cs: seq<Interval>, a: int, b: int): real
    decreases b - a
  {
    if a >= b then 0.0 else WeightArea(cs, a, b - 1) + MaxWeightAt(cs, b - 1)
  }

  lemma KeyMonotone(v: real, w: real)
    requires v <= w
    ensures Key(v) <= Key(w)
  {
    if v > 0.0 {
      var a, b := v * MILLION + 0.5, w * MILLION + 0.5;
      assert a <= b;
      assert a.Floor as real <= a && b < b.Floor as real + 1.0;
    }
  }

  // Quantising commutes with the maximum.
  lemma {:induction false} MaxKeyIsKeyOfMax(cs: seq<Interval>, x: int)
    ensures MaxKeyAt(cs, x) == Key(MaxWeightAt(cs, x))
  {
    if cs != [] {
      MaxKeyIsKeyOfMax(cs[1..], x);
      var rest := MaxWeightAt(cs[1..], x);
      if cs[0].w <= rest { KeyMonotone(cs[0].w, rest); } else { KeyMonotone(rest, cs[0].w); }
    }
  }

  // The quantised integral differs from the true one by at most half a millionth per instant.
  lemma {:induction false} AreaIsClose(cs: seq<Interval>, a: int, b: int)
    requires a <= b
    ensures -0.0000005 * (b - a) as real
               <= Area(cs, a, b) as real / MILLION - WeightArea(cs, a, b) <= 0.0000005 * (b - a) as real
    decreases b - a
  {
    hide Key, MaxKeyAt, MaxWeightAt;
    if a < b {
      AreaIsClose(cs, a, b - 1);
      var w := MaxWeightAt(cs, b - 1);
      MaxKeyIsKeyOfMax(cs, b - 1);
      assert -0.0000005 <= Key(w) as real / MILLION - w <= 0.0000005 by { KeyIsCloseOrZero(w); }
    }
  }

  lemma KeyIsCloseOrZero(w: real)
    requires w >= 0.0
    ensures -0.0000005 <= Key(w) as real / MILLION - w <= 0.0000005
  {
    if w > 0.0 { KeyIsClose(w); }
  }

  ghost function ExactCoverage(intervals: seq<Interval>, start: int, end: int): real {
    Clamp01(WeightArea(Clipped(intervals, start, end), start, end) / Max(end - start, 1) as real)
  }

  // merged_coverage is the integral of the maximum weight over the span, to within half a millionth.
  lemma CoverageIsClose(intervals: seq<Interval>, start: int, end: int)
    ensures -0.0000005 <= Coverage(intervals, start, end) - ExactCoverage(intervals, start, end) <= 0.0000005
  {
    hide Area, WeightArea;
    var cs := Clipped(intervals, start, end);
    if start < end {
      AreaIsClose(cs, start, end);
      var d := (end - start) as real;
      Divide(Area(cs, start, end) as real / MILLION, WeightArea(cs, start, end), 0.0000005, d);
    } else {
      NoWindowNoArea(cs, start, end);
    }
  }

  lemma NoWindowNoArea(cs: seq<Interval>, start: int, end: int)
    requires start >= end
    ensures Area(cs, start, end) == 0 && WeightArea(cs, start, end) == 0.0
  {
  }

  lemma Divide(x: real, y: real, eps: real, d: real)
    requires d > 0.0 && -eps * d <= x - y <= eps * d
    ensures -eps <= x / d - y / d <= eps
  {
    assert x / d - y / d == (x - y) / d;
    assert eps * d / d == eps;
    QuotientOrder(x - y, eps * d, d);
    QuotientOrder(-eps * d, x - y, d);
    assert -eps * d / d == -eps;
  }

  // ---- Clipping changes nothing inside the window ---------------------------------------------------

  lemma {:induction false} TopOfTwo(a: seq<Interval>, b: seq<Interval>, x: int)
    ensures var p, q := MaxWeightAt(a, x), MaxWeightAt(b, x);
            MaxWeightAt(a + b, x) == if p > q then p else q
  {
    if a == [] {
      assert a + b == b;
    } else {
      TopOfTwo(a[1..], b, x);
      assert (a + b)[1..] == a[1..] + b;
    }
  }

  lemma TopOfOne(c: Interval, start: int, end: int, x: int)
    requires start <= x < end
    ensures MaxWeightAt(Clipped([c], start, end), x) == if c.s <= x < c.e && c.w > 0.0 then c.w else 0.0
  {
    var k := Clip(c, start, end);
    assert [c][1..] == [] && Clipped([], start, end) == [];
    assert Clipped([c], start, end) == if Counts(k) then [k] else [];
    assert [k][1..] == [] && MaxWeightAt([], x) == 0.0;
  }

  lemma {:induction false} ClippingKeepsTop(intervals: seq<Interval>, start: int, end: int, x: int)
    requires start <= x < end
    ensures MaxWeightAt(Clipped(intervals, start, end), x) == MaxWeightAt(intervals, x)
  {
    hide Clipped;
    if intervals == [] {
      NoneClipped(start, end);
    } else {
      assert intervals == [intervals[0]] + intervals[1..];
      ClippedConcat([intervals[0]], intervals[1..], start, end);
      TopOfTwo(Clipped([intervals[0]], start, end), Clipped(intervals[1..], start, end), x);
      TopOfOne(intervals[0], start, end, x);
      ClippingKeepsTop(intervals[1..], start, end, x);
    }
  }

  lemma {:induction false} ClippingKeepsArea(intervals: seq<Interval>, start: int, end: int, b: int)
    requires b <= end
    ensures WeightArea(Clipped(intervals, start, end), start, b) == WeightArea(intervals, start, b)
    decreases b - start
  {
    hide Clipped, MaxWeightAt;
    if start < b {
      ClippingKeepsArea(intervals, start, end, b - 1);
      ClippingKeepsTop(intervals, start, end, b - 1);
    }
  }

  // The coverage is the mean over the window of the largest weight of the intervals covering each
  // instant, at most 1, to within half a millionth.
  lemma CoverageIsMean(intervals: seq<Interval>, start: int, end: int)
    requires start < end
    ensures var mean := WeightArea(intervals, start, end) / (end - start) as real;
            -0.0000005 <= Coverage(intervals, start, end) - (if mean > 1.0 then 1.0 else mean) <= 0.0000005
  {
    hide Coverage, WeightArea, Clipped;
    CoverageIsClose(intervals, start, end);
    ClippingKeepsArea(intervals, start, end, end);
    AreaAtLeast0(intervals, start, end);
    assert Max(end - start, 1) == end - start;
    QuotientOrder(0.0, WeightArea(intervals, start, end), (end - start) as real);
  }

  lemma {:induction false} AreaAtLeast0(cs: seq<Interval>, a: int, b: int)
    ensures WeightArea(cs, a, b) >= 0.0
    decreases b - a
  {
    hide MaxWeightAt;
    if a < b { AreaAtLeast0(cs, a, b - 1); }
  }
}
