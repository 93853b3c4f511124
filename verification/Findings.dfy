// Stored findings (api/src/tabayyun/services/findings.py): which record an incoming finding merges
// into, what a merge keeps, and the lifecycle people drive. A table pairs the stored rows with a
// ghost history: for every record the incoming findings it absorbed, in order.
module Findings {
  import opened Frame
  import opened Timeconv

  datatype Status = Open | Acked | Muted | Resolved

  // Stored windows are half-open and count microseconds; the core's windows count nanoseconds.
  datatype Window = Window(start: int, end: int)

  // Top-level evidence keys and their values.
  type Evidence = map<string, string>

  datatype Incoming = Incoming(check: string, dimension: string, severity: string, start: int, end: int,
                               impact: real, summary: string, evidence: Evidence)

  datatype Finding = Finding(id: nat, workspace: nat, series: nat, check: string, dimension: string,
                             severity: string, window: Window, impact: real, summary: string,
                             evidence: Evidence, status: Status, reason: Option<string>,
                             statusAt: Option<int>, firstRun: Option<nat>, lastRun: Option<nat>,
                             occurrences: nat, createdAt: int, updatedAt: int)

  // One finding of the report that a run persists for one series.
  datatype Report = Report(workspace: nat, series: nat, run: nat, now: int)

  // ---- Windows --------------------------------------------------------------------------

  function StoredWindow(x: Incoming): (w: Window)
    ensures w.start < w.end
  {
    var start := Floor(x.start);
    Window(start, if Ceiling(x.end) > start + 1 then Ceiling(x.end) else start + 1)
  }

  predicate InWindow(u: int, w: Window) {
    w.start <= u < w.end
  }

  // The stored window holds the core's, and no smaller window of whole microseconds does.
  lemma StoredWindowIsLeast(x: Incoming, w: Window)
    ensures StoredWindow(x).start * 1000 <= x.start && x.end <= StoredWindow(x).end * 1000
    ensures x.start < x.end && w.start * 1000 <= x.start && x.end <= w.end * 1000 ==>
              w.start <= StoredWindow(x).start && StoredWindow(x).end <= w.end
  {
    RoundingBracket(x.start);
    RoundingBracket(x.end);
  }

  function Union(a: Window, b: Window): Window {
    Window(if a.start <= b.start then a.start else b.start, if a.end >= b.end then a.end else b.end)
  }

  function OverlapRatio(a: Window, b: Window): real {
    var inter := (if a.end <= b.end then a.end else b.end) - (if a.start >= b.start then a.start else b.start);
    var all := Union(a, b).end - Union(a, b).start;
    if all > 0 then (if inter >= 0 then inter else 0) as real / all as real else 0.0
  }

  predicate Overlap(a: Window, b: Window) {
    a.start < b.end && a.end > b.start
  }

  lemma ProperFraction(a: int, b: int)
    requires 0 < a <= b
    ensures 0.0 < a as real / b as real <= 1.0
    ensures a as real / b as real == 1.0 <==> a == b
  {
    var q := a as real / b as real;
    assert q * b as real == a as real;
  }

  // Overlapping windows have a ratio in (0, 1], the same both ways, and 1 only for equal windows.
  lemma RatioOfOverlapping(a: Window, b: Window)
    requires a.start < a.end && b.start < b.end && Overlap(a, b)
    ensures 0.0 < OverlapRatio(a, b) <= 1.0
    ensures OverlapRatio(a, b) == 1.0 <==> a == b
    ensures OverlapRatio(a, b) == OverlapRatio(b, a)
  {
    var inter := (if a.end <= b.end then a.end else b.end) - (if a.start >= b.start then a.start else b.start);
    ProperFraction(inter, Union(a, b).end - Union(a, b).start);
  }

  // The microseconds of a window.
  ghost function Micros(w: Window): set<int> {
    set u | w.start <= u < w.end && InWindow(u, w)
  }

  lemma {:induction false} CountMicros(w: Window)
    requires w.start <= w.end
    ensures |Micros(w)| == w.end - w.start
    decreases w.end - w.start
  {
    if w.start < w.end {
      var v := Window(w.start, w.end - 1);
      CountMicros(v);
      assert Micros(w) == Micros(v) + {w.end - 1};
    }
  }

  function Common(a: Window, b: Window): Window {
    Window(if a.start >= b.start then a.start else b.start, if a.end <= b.end then a.end else b.end)
  }

  lemma MicrosOfBoth(a: Window, b: Window)
    requires Overlap(a, b)
    ensures Micros(a) + Micros(b) == Micros(Union(a, b)) && Micros(a) * Micros(b) == Micros(Common(a, b))
  {
  }

  lemma RatioIsFraction(a: Window, b: Window)
    requires a.start < a.end && b.start < b.end && Overlap(a, b)
    ensures Common(a, b).start < Common(a, b).end && Union(a, b).start < Union(a, b).end
    ensures OverlapRatio(a, b)
         == (Common(a, b).end - Common(a, b).start) as real / (Union(a, b).end - Union(a, b).start) as real
  {
  }

  // The ratio is the share of the microseconds in either window that lie in both.
  lemma RatioIsShare(a: Window, b: Window)
    requires a.start < a.end && b.start < b.end && Overlap(a, b)
    ensures OverlapRatio(a, b) * |Micros(a) + Micros(b)| as real == |Micros(a) * Micros(b)| as real
  {
    hide Micros, Union, Common, OverlapRatio;
    var both, all := Common(a, b), Union(a, b);
    RatioIsFraction(a, b);
    MicrosOfBoth(a, b);
    CountMicros(all);
    CountMicros(both);
    FractionTimes(both.end - both.start, all.end - all.start);
  }

  lemma FractionTimes(a: int, b: int)
    requires b > 0
    ensures a as real / b as real * b as real == a as real
  {
  }

  // A merge invents no time: overlapping windows have their union as common window.
  lemma UnionOfOverlapping(a: Window, b: Window, u: int)
    requires Overlap(a, b)
    ensures InWindow(u, Union(a, b)) <==> InWindow(u, a) || InWindow(u, b)
  {
  }

  // ---- Which record absorbs ---------------------------------------------------------------

  predicate Absorbing(s: Status) {
    s == Open || s == Acked
  }

  function Get(e: Evidence, key: string): Option<string> {
    if key in e then Some(e[key]) else None
  }

  // The same evidence keys, and the same value for every key of the incoming finding that names
  // the subject of a cross-series finding.
  predicate SameSubject(stored: Evidence, e: Evidence) {
    && stored.Keys == e.Keys
    && (forall k :: k in {"group_id", "partner"} && k in e ==> Get(stored, k) == Some(e[k]))
  }

  predicate Candidate(f: Finding, r: Report, x: Incoming) {
    && f.workspace == r.workspace && f.series == r.series && f.check == x.check
    && Absorbing(f.status)
    && Overlap(f.window, StoredWindow(x))
    && f.firstRun != Some(r.run)
    && SameSubject(f.evidence, x.evidence)
  }

  function Ratio(f: Finding, x: Incoming): real {
    OverlapRatio(f.window, StoredWindow(x))
  }

  // The order of the query: earliest window first, then the oldest record.
  predicate QueryLe(a: Finding, b: Finding) {
    a.window.start < b.window.start || (a.window.start == b.window.start && a.createdAt <= b.createdAt)
  }

  ghost predicate IsBest(rows: seq<Finding>, f: Finding, r: Report, x: Incoming) {
    && f in rows && Candidate(f, r, x)
    && forall g :: g in rows && Candidate(g, r, x) ==>
         Ratio(g, x) < Ratio(f, x) || (Ratio(g, x) == Ratio(f, x) && QueryLe(f, g))
  }

  ghost predicate NoCandidate(rows: seq<Finding>, r: Report, x: Incoming) {
    forall g :: g in rows ==> !Candidate(g, r, x)
  }

  // A record that already has exactly the incoming window is preferred to every other one.
  lemma ExactWindowWins(rows: seq<Finding>, f: Finding, g: Finding, r: Report, x: Incoming)
    requires IsBest(rows, f, r, x) && f.window.start < f.window.end
    requires g in rows && Candidate(g, r, x) && g.window == StoredWindow(x)
    ensures f.window == StoredWindow(x)
  {
    RatioOfOverlapping(g.window, StoredWindow(x));
    RatioOfOverlapping(f.window, StoredWindow(x));
  }

  // What kind of finding a record is: this never changes.
  datatype Kind = Kind(check: string, keys: set<string>, group: Option<string>, partner: Option<string>)

  function KindOf(check: string, e: Evidence): Kind {
    Kind(check, e.Keys, Get(e, "group_id"), Get(e, "partner"))
  }

  lemma CandidateHasSameKind(f: Finding, r: Report, x: Incoming)
    ensures f.check == x.check && SameSubject(f.evidence, x.evidence) <==>
              KindOf(f.check, f.evidence) == KindOf(x.check, x.evidence)
  {
    var e, g := x.evidence, f.evidence;
    if KindOf(f.check, g) == KindOf(x.check, e) {
      forall k | k in {"group_id", "partner"} && k in e ensures Get(g, k) == Some(e[k]) {
        assert Get(e, k) == Some(e[k]);
      }
    }
    if f.check == x.check && SameSubject(g, e) {
      assert "group_id" in g <==> "group_id" in e;
      assert "partner" in g <==> "partner" in e;
    }
  }

  // ---- Tables and steps ---------------------------------------------------------------------

  function Merged(f: Finding, r: Report, x: Incoming): Finding {
    f.(window := Union(f.window, StoredWindow(x)), severity := x.severity, dimension := x.dimension,
       impact := x.impact, summary := x.summary, evidence := x.evidence,
       occurrences := f.occurrences + (if f.lastRun == Some(r.run) then 0 else 1),
       lastRun := Some(r.run), updatedAt := r.now)
  }

  function Created(id: nat, r: Report, x: Incoming): Finding {
    Finding(id, r.workspace, r.series, x.check, x.dimension, x.severity, StoredWindow(x), x.impact,
            x.summary, x.evidence, Open, None, None, Some(r.run), Some(r.run), 1, r.now, r.now)
  }

  // One incoming finding that a record absorbed; `at` counts the findings ever persisted.
  datatype Absorbed = Absorbed(at: nat, run: nat, incoming: Incoming)

  datatype Logged = Logged(series: nat, run: nat, owner: nat)

  datatype Table = Table(rows: seq<Finding>, nextId: nat, log: seq<Logged>, history: map<nat, seq<Absorbed>>)

  const EMPTY := Table([], 0, [], map[])

  function InsertRow(t: Table, r: Report, x: Incoming): Table {
    Table(t.rows + [Created(t.nextId, r, x)], t.nextId + 1, t.log + [Logged(r.series, r.run, t.nextId)],
          t.history[t.nextId := [Absorbed(|t.log|, r.run, x)]])
  }

  // The record keeps its place unless its window starts earlier now: the start is part of the
  // primary key, so the row is deleted and inserted anew under the same id.
  function MergedRows(rows: seq<Finding>, i: nat, g: Finding): seq<Finding>
    requires i < |rows|
  {
    if g.window.start == rows[i].window.start then rows[i := g] else rows[..i] + rows[i + 1..] + [g]
  }

  function MergeRow(t: Table, i: nat, r: Report, x: Incoming): Table
    requires i < |t.rows| && t.rows[i].id in t.history
  {
    var f := t.rows[i];
    Table(MergedRows(t.rows, i, Merged(f, r, x)), t.nextId, t.log + [Logged(r.series, r.run, f.id)],
          t.history[f.id := t.history[f.id] + [Absorbed(|t.log|, r.run, x)]])
  }

  predicate Allowed(current: Status, requested: Status) {
    match current
    case Open => requested in {Acked, Muted, Resolved}
    case Acked => requested in {Resolved, Open}
    case Muted => requested == Open
    case Resolved => requested == Open
  }

  // What counts as white space at the ends of a status reason.
  predicate IsSpace(c: char) {
    var k := c as int;
    || 9 <= k <= 13 || 28 <= k <= 32 || k == 0x85 || k == 0xA0 || k == 0x1680 || 0x2000 <= k <= 0x200A
    || k == 0x2028 || k == 0x2029 || k == 0x202F || k == 0x205F || k == 0x3000
  }

  function StripLeft(s: string): string {
    if s == [] || !IsSpace(s[0]) then s else StripLeft(s[1..])
  }

  function StripRight(s: string): string {
    if s == [] || !IsSpace(s[|s| - 1]) then s else StripRight(s[..|s| - 1])
  }

  // The reason as stored: without white space at its ends, and none when nothing is left.
  function StoredReason(reason: Option<string>): Option<string> {
    if reason.Some? && StripRight(StripLeft(reason.value)) != ""
    then Some(StripRight(StripLeft(reason.value))) else None
  }

  predicate Blank(s: string) {
    forall i :: 0 <= i < |s| ==> IsSpace(s[i])
  }

  lemma Reassemble(s: string, a: string, b: string)
    requires s != "" && s[1..] == a + b
    ensures s == [s[0]] + a + b
  {
    assert s == [s[0]] + s[1..];
  }

  lemma {:induction false} LeftIsBlank(s: string) returns (a: string)
    ensures s == a + StripLeft(s) && Blank(a)
    ensures StripLeft(s) != "" ==> !IsSpace(StripLeft(s)[0])
  {
    hide IsSpace;
    if s == [] || !IsSpace(s[0]) {
      a := "";
    } else {
      a := LeftIsBlank(s[1..]);
      Reassemble(s, a, StripLeft(s[1..]));
      a := [s[0]] + a;
    }
  }

  lemma {:induction false} RightIsBlank(s: string) returns (b: string)
    ensures s == StripRight(s) + b && Blank(b)
    ensures StripRight(s) != "" ==> !IsSpace(StripRight(s)[|StripRight(s)| - 1]) && StripRight(s)[0] == s[0]
  {
    hide IsSpace;
    if s == [] || !IsSpace(s[|s| - 1]) {
      b := "";
    } else {
      var n := |s| - 1;
      b := RightIsBlank(s[..n]);
      assert s == s[..n] + [s[n]];
      assert s == StripRight(s) + (b + [s[n]]);
      b := b + [s[n]];
    }
  }

  // A stored reason is what remains between two blank ends, and None is stored for a blank one only.
  lemma ReasonIsStripped(s: string) returns (a: string, core: string, b: string)
    ensures s == a + core + b && Blank(a) && Blank(b)
    ensures StoredReason(Some(s)) == if core == "" then None else Some(core)
    ensures core != "" ==> !IsSpace(core[0]) && !IsSpace(core[|core| - 1])
    ensures core == "" <==> Blank(s)
  {
    hide IsSpace;
    a := LeftIsBlank(s);
    var rest := StripLeft(s);
    b := RightIsBlank(rest);
    core := StripRight(rest);
    assert s == a + core + b;
    if core != "" { assert s[|a|] == core[0]; }
  }

  predicate Changeable(f: Finding, ws: nat, id: nat, status: Status) {
    f.id == id && f.workspace == ws && Allowed(f.status, status)
  }

  function WithStatus(f: Finding, status: Status, reason: Option<string>, now: int): Finding {
    f.(status := status, reason := reason, statusAt := Some(now), updatedAt := now)
  }

  datatype Action =
    | Persist(report: Report, incoming: Incoming)
    | Change(workspace: nat, id: nat, status: Status, reason: Option<string>, now: int)

  ghost predicate Merges(t: Table, r: Report, x: Incoming, t': Table) {
    exists i: nat :: i < |t.rows| && IsBest(t.rows, t.rows[i], r, x) && t.rows[i].id in t.history
                     && t' == MergeRow(t, i, r, x)
  }

  ghost predicate Next(t: Table, a: Action, t': Table) {
    match a
    case Persist(r, x) =>
      || (NoCandidate(t.rows, r, x) && t' == InsertRow(t, r, x))
      || Merges(t, r, x, t')
    case Change(ws, id, status, reason, now) =>
      || (t' == t && forall f :: f in t.rows ==> !Changeable(f, ws, id, status))
      || exists i: nat :: i < |t.rows| && Changeable(t.rows[i], ws, id, status)
                          && t' == t.(rows := t.rows[i := WithStatus(t.rows[i], status, reason, now)])
  }

  ghost predicate IsTrace(ts: seq<Table>, acts: seq<Action>) {
    && |ts| == |acts| + 1
    && forall k :: 0 <= k < |acts| ==> Next(ts[k], acts[k], ts[k + 1])
  }
}
