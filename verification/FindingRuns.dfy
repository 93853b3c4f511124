// Counting runs and repeating a report (services/findings.py): when `occurrences` is the number of
// runs, and why the same report under a fresh run id creates no finding.
module FindingRuns {
  import opened Frame
  import opened Findings
  import opened FindingLaws

  // ---- Occurrences -------------------------------------------------------------------------------

  ghost function Runs(h: seq<Absorbed>): set<nat> {
    set k | 0 <= k < |h| :: h[k].run
  }

  // No run merges into the record again after another run did.
  ghost predicate NoReturn(h: seq<Absorbed>) {
    forall i, j, k :: 0 <= i < j < k < |h| && h[i].run == h[k].run ==> h[j].run == h[k].run
  }

  lemma RunsGrow(h: seq<Absorbed>)
    requires h != []
    ensures Runs(h) == Runs(h[..|h| - 1]) + {Last(h).run}
  {
    var p := h[..|h| - 1];
    assert forall k :: 0 <= k < |p| ==> p[k] == h[k];
    forall r | r in Runs(h) ensures r in Runs(p) + {Last(h).run} {
      var k :| 0 <= k < |h| && h[k].run == r;
      if k < |p| { assert p[k].run == r; }
    }
  }

  lemma RunIn(h: seq<Absorbed>, r: nat) returns (k: nat)
    requires r in Runs(h)
    ensures k < |h| && h[k].run == r
  {
    k :| 0 <= k < |h| && h[k].run == r;
  }

  lemma NoReturnOfPrefix(h: seq<Absorbed>)
    requires |h| >= 2
    ensures NoReturn(h) ==> NoReturn(h[..|h| - 1])
    ensures NoReturn(h[..|h| - 1]) && Last(h).run == h[|h| - 2].run ==> NoReturn(h)
    ensures NoReturn(h[..|h| - 1]) && Last(h).run !in Runs(h[..|h| - 1]) ==> NoReturn(h)
  {
    var p := h[..|h| - 1];
    if NoReturn(h) {
      forall i, j, k | 0 <= i < j < k < |p| && p[i].run == p[k].run ensures p[j].run == p[k].run {
        assert h[j].run == h[k].run;
      }
    }
    if NoReturn(p) && (Last(h).run == h[|h| - 2].run || Last(h).run !in Runs(p)) {
      forall i, j, k | 0 <= i < j < k < |h| && h[i].run == h[k].run ensures h[j].run == h[k].run {
        if k < |p| {
          assert p[i].run == p[k].run && p[j].run == p[k].run;
        } else {
          assert p[i].run in Runs(p);
          if j < |p| - 1 { assert p[j].run == p[|p| - 1].run; }
        }
      }
    }
  }

  lemma NoReturnOfShort(h: seq<Absorbed>)
    requires |h| <= 1
    ensures NoReturn(h)
  {
  }

  lemma ReturnsAfter(h: seq<Absorbed>, i: nat)
    requires i < |h| - 2 && h[i].run == Last(h).run && h[|h| - 2].run != Last(h).run
    ensures !NoReturn(h)
  {
    assert h[i].run == h[|h| - 1].run;
  }

  // Counting a run whenever it differs from the last one never counts too few, and counts right
  // exactly when no run comes back after another.
  lemma {:induction false} BlocksCountRuns(h: seq<Absorbed>)
    ensures |Runs(h)| <= Blocks(h)
    ensures |Runs(h)| == Blocks(h) <==> NoReturn(h)
  {
    hide NoReturn;
    if |h| <= 1 {
      NoReturnOfShort(h);
      assert Runs(h) == if h == [] then {} else {h[0].run};
    } else {
      var p := h[..|h| - 1];
      BlocksCountRuns(p);
      RunsGrow(h);
      NoReturnOfPrefix(h);
      var r := Last(h).run;
      assert p[|p| - 1].run in Runs(p);
      if r in Runs(p) {
        assert Runs(h) == Runs(p);
        var i := RunIn(p, r);
        if r != h[|h| - 2].run { ReturnsAfter(h, i); }
      } else {
        assert r != h[|h| - 2].run;
      }
    }
  }

  predicate SameSeries(log: seq<Logged>, i: nat, j: nat, k: nat)
    requires i < j < k < |log|
  {
    log[i].series == log[j].series && log[j].series == log[k].series
  }

  // For each series, the log entries of one run stand together: one report per run and series.
  ghost predicate OneReportPerRun(log: seq<Logged>) {
    forall i, j, k :: 0 <= i < j < k < |log| && SameSeries(log, i, j, k) && log[i].run == log[k].run ==>
      log[j].run == log[k].run
  }

  lemma DatedNoReturn(f: Finding, h: seq<Absorbed>, log: seq<Logged>)
    requires Dated(f, h, log) && OneReportPerRun(log)
    ensures NoReturn(h)
  {
    forall i, j, k | 0 <= i < j < k < |h| && h[i].run == h[k].run ensures h[j].run == h[k].run {
      assert SameSeries(log, h[i].at, h[j].at, h[k].at);
    }
  }

  // `occurrences` is the number of distinct runs that reported the record, exactly when no run
  // returns to it; one report per run and series is enough for that.
  lemma OccurrencesCountRuns(t: Table, f: Finding)
    requires Inv(t) && f in t.rows
    ensures f.id in t.history && |Runs(t.history[f.id])| <= f.occurrences
    ensures |Runs(t.history[f.id])| == f.occurrences <==> NoReturn(t.history[f.id])
    ensures OneReportPerRun(t.log) ==> NoReturn(t.history[f.id])
  {
    assert RowFolded(f, t);
    BlocksCountRuns(t.history[f.id]);
    hide Inv, Dated, NoReturn, OneReportPerRun;
    if OneReportPerRun(t.log) { DatedNoReturn(f, t.history[f.id], t.log); }
  }

  // A table with one open record, made by run 1, that absorbed only copies of x.
  ghost predicate OneRecord(t: Table, x: Incoming, occurrences: nat, h: seq<Absorbed>) {
    && |t.rows| == 1 && h != [] && t.history == map[0 := h]
    && var f := t.rows[0];
       && f.id == 0 && f.workspace == 0 && f.series == 0 && f.check == x.check && f.evidence == x.evidence
       && f.window == StoredWindow(x) && f.status == Open && f.occurrences == occurrences
       && f.firstRun == Some(1) && f.lastRun == Some(h[|h| - 1].run)
  }

  lemma SameAgain(t: Table, x: Incoming, n: nat, h: seq<Absorbed>, r: Report)
    requires OneRecord(t, x, n, h) && r.workspace == 0 && r.series == 0 && r.run != 1
    requires h != [] && h[|h| - 1].run != r.run
    ensures |t.rows| == 1 && t.rows[0].id in t.history && Next(t, Persist(r, x), MergeRow(t, 0, r, x))
    ensures OneRecord(MergeRow(t, 0, r, x), x, n + 1, h + [Absorbed(|t.log|, r.run, x)])
    ensures |MergeRow(t, 0, r, x).log| == |t.log| + 1
  {
    var f := t.rows[0];
    assert IsBest(t.rows, f, r, x);
    assert Merges(t, r, x, MergeRow(t, 0, r, x));
    assert t.history[0 := h + [Absorbed(|t.log|, r.run, x)]] == map[0 := h + [Absorbed(|t.log|, r.run, x)]];
  }

  // A run that reports again after another one is counted twice: runs 1, 2, 3 and 2 again give four
  // occurrences from three runs.
  lemma ReturningRunCountsTwice(x: Incoming) returns (ts: seq<Table>, acts: seq<Action>)
    ensures |acts| == 4 && IsTrace(ts, acts) && ts[0] == EMPTY
    ensures |ts[4].rows| == 1 && ts[4].rows[0].occurrences == 4
    ensures 0 in ts[4].history && |Runs(ts[4].history[0])| == 3
  {
    hide InsertRow, MergeRow, Next, OneRecord, Runs, IsTrace;
    var r1, r2, r3 := Report(0, 0, 1, 0), Report(0, 0, 2, 0), Report(0, 0, 3, 0);
    var a, b, c, d := Absorbed(0, 1, x), Absorbed(1, 2, x), Absorbed(2, 3, x), Absorbed(3, 2, x);
    var t1 := InsertRow(EMPTY, r1, x);
    FirstRecord(t1, r1, x);
    SameAgain(t1, x, 1, [a], r2);
    var t2 := MergeRow(t1, 0, r2, x);
    assert [a] + [b] == [a, b];
    SameAgain(t2, x, 2, [a, b], r3);
    var t3 := MergeRow(t2, 0, r3, x);
    assert [a, b] + [c] == [a, b, c];
    SameAgain(t3, x, 3, [a, b, c], r2);
    var t4 := MergeRow(t3, 0, r2, x);
    assert [a, b, c] + [d] == [a, b, c, d];
    RecordOf(t4, x, 4, [a, b, c, d]);
    ts, acts := [EMPTY, t1, t2, t3, t4], [Persist(r1, x), Persist(r2, x), Persist(r3, x), Persist(r2, x)];
    TraceOfFour(EMPTY, t1, t2, t3, t4, acts[0], acts[1], acts[2], acts[3]);
    RunsOfFour(a, b, c, d);
  }

  lemma TraceOfFour(s: Table, t: Table, u: Table, v: Table, w: Table, a: Action, b: Action, c: Action, d: Action)
    requires Next(s, a, t) && Next(t, b, u) && Next(u, c, v) && Next(v, d, w)
    ensures IsTrace([s, t, u, v, w], [a, b, c, d])
  {
    hide Next;
  }

  lemma FirstRecord(t: Table, r: Report, x: Incoming)
    requires r == Report(0, 0, 1, 0) && t == InsertRow(EMPTY, r, x)
    ensures OneRecord(t, x, 1, [Absorbed(0, 1, x)]) && Next(EMPTY, Persist(r, x), t) && |t.log| == 1
  {
  }

  lemma RecordOf(t: Table, x: Incoming, n: nat, h: seq<Absorbed>)
    requires OneRecord(t, x, n, h)
    ensures |t.rows| == 1 && t.rows[0].occurrences == n && 0 in t.history && t.history[0] == h
  {
  }

  lemma RunsOfFour(a: Absorbed, b: Absorbed, c: Absorbed, d: Absorbed)
    requires a.run == 1 && b.run == 2 && c.run == 3 && d.run == 2
    ensures |Runs([a, b, c, d])| == 3
  {
    var h := [a, b, c, d];
    assert h[0].run == 1 && h[1].run == 2 && h[2].run == 3 && h[3].run == 2;
    assert Runs(h) == {1, 2, 3};
  }

  // ---- Repeating a report ----------------------------------------------------------------------------

  // An absorbing record of the right kind covers the window of x.
  ghost predicate Covers(f: Finding, ws: nat, series: nat, x: Incoming) {
    && f.workspace == ws && f.series == series && Absorbing(f.status)
    && f.window.start <= StoredWindow(x).start && StoredWindow(x).end <= f.window.end
    && KindOf(f.check, f.evidence) == KindOf(x.check, x.evidence)
  }

  ghost predicate Covered(t: Table, ws: nat, series: nat, x: Incoming) {
    exists f :: f in t.rows && Covers(f, ws, series, x)
  }

  predicate Closes(a: Action) {
    a.Change? && !Absorbing(a.status)
  }

  ghost predicate FreshRun(t: Table, run: nat) {
    forall f :: f in t.rows ==> f.firstRun != Some(run)
  }

  lemma LaterCovers(f: Finding, g: Finding, ws: nat, series: nat, x: Incoming)
    requires Covers(f, ws, series, x) && Later(f, g) && Absorbing(g.status)
    ensures Covers(g, ws, series, x)
  {
  }

  lemma StepKeepsCovered(t: Table, a: Action, t': Table, ws: nat, series: nat, x: Incoming)
    requires Inv(t) && Next(t, a, t') && Covered(t, ws, series, x) && !Closes(a)
    ensures Covered(t', ws, series, x)
  {
    var f :| f in t.rows && Covers(f, ws, series, x);
    var g := StepKeepsRecord(t, a, t', f);
    StepKeepsAbsorbing(t, a, t', f, g);
    LaterCovers(f, g, ws, series, x);
  }

  lemma StepKeepsAbsorbing(t: Table, a: Action, t': Table, f: Finding, g: Finding)
    requires Inv(t) && Next(t, a, t') && f in t.rows && g in t'.rows && g.id == f.id
    requires Absorbing(f.status) && !Closes(a)
    ensures Absorbing(g.status)
  {
    hide Inv, Next;
    UniqueRows(t);
    if a.Persist? {
      PersistLeavesClosed(t, a.report, a.incoming, t');
      assert g in Closed(t'.rows) <==> !Absorbing(g.status);
    } else if t' != t {
      var q, h := ChangeEffect(t, a, t');
    }
  }

  lemma PersistCovers(t: Table, r: Report, x: Incoming, t': Table)
    requires Inv(t) && Next(t, Persist(r, x), t')
    ensures Covered(t', r.workspace, r.series, x)
  {
    var g := PersistEffect(t, r, x, t');
    if !NoCandidate(t.rows, r, x) {
      var f :| IsBest(t.rows, f, r, x) && g == Merged(f, r, x);
      CandidateHasSameKind(f, r, x);
      CandidateOfSeries(f, r, x);
      MergedIsLater(f, r, x);
    }
    hide Inv, Next, KindOf, StoredWindow;
    assert Covers(g, r.workspace, r.series, x);
  }

  lemma CoveredIsCandidate(t: Table, r: Report, x: Incoming)
    requires Covered(t, r.workspace, r.series, x) && FreshRun(t, r.run)
    ensures !NoCandidate(t.rows, r, x)
  {
    var f :| f in t.rows && Covers(f, r.workspace, r.series, x);
    CandidateHasSameKind(f, r, x);
    hide KindOf, SameSubject;
    assert f.window.start < StoredWindow(x).end && f.window.end > StoredWindow(x).start;
    assert Candidate(f, r, x);
  }

  // Only inserting creates a record of a run, so merging keeps a run fresh.
  lemma StepKeepsFresh(t: Table, a: Action, t': Table, run: nat)
    requires Inv(t) && Next(t, a, t') && FreshRun(t, run)
    requires a.Persist? && a.report.run == run ==> !NoCandidate(t.rows, a.report, a.incoming)
    ensures FreshRun(t', run)
  {
    if a.Persist? {
      var g := PersistEffect(t, a.report, a.incoming, t');
      if !NoCandidate(t.rows, a.report, a.incoming) {
        var f :| IsBest(t.rows, f, a.report, a.incoming) && g == Merged(f, a.report, a.incoming);
        assert f in t.rows;
      }
    } else if t' != t {
      var q, h := ChangeEffect(t, a, t');
    }
  }

  ghost predicate PersistedBefore(acts: seq<Action>, m: nat, ws: nat, series: nat, x: Incoming)
    requires m <= |acts|
  {
    exists i: nat :: i < m && acts[i].Persist? && acts[i].incoming == x
                     && acts[i].report.workspace == ws && acts[i].report.series == series
  }

  // Everything the run `run` persists from step m on was persisted for that series before step m.
  ghost predicate Repeats(acts: seq<Action>, m: nat, run: nat)
    requires m <= |acts|
  {
    forall k :: m <= k < |acts| && acts[k].Persist? && acts[k].report.run == run ==>
      PersistedBefore(acts, m, acts[k].report.workspace, acts[k].report.series, acts[k].incoming)
  }

  ghost predicate RunStartsAt(acts: seq<Action>, m: nat, run: nat)
    requires m <= |acts|
  {
    forall k :: 0 <= k < m && acts[k].Persist? ==> acts[k].report.run != run
  }

  lemma {:induction false} CoveredUntil(ts: seq<Table>, acts: seq<Action>, i: nat, k: nat)
    requires IsTrace(ts, acts) && Inv(ts[0]) && i < k <= |acts| && acts[i].Persist?
    requires forall j :: i < j < k ==> !Closes(acts[j])
    ensures Covered(ts[k], acts[i].report.workspace, acts[i].report.series, acts[i].incoming)
  {
    hide Inv, Next, Covered;
    RunKeepsInv(ts, acts, k - 1);
    assert Next(ts[k - 1], acts[k - 1], ts[k - 1 + 1]);
    var r, x := acts[i].report, acts[i].incoming;
    if k == i + 1 {
      PersistCovers(ts[i], r, x, ts[i + 1]);
    } else {
      CoveredUntil(ts, acts, i, k - 1);
      StepKeepsCovered(ts[k - 1], acts[k - 1], ts[k], r.workspace, r.series, x);
    }
  }

  lemma {:induction false} StaysFresh(ts: seq<Table>, acts: seq<Action>, m: nat, k: nat, run: nat)
    requires IsTrace(ts, acts) && Inv(ts[0]) && FreshRun(ts[0], run) && m <= |acts| && k <= |acts|
    requires (forall j :: 0 <= j < |acts| ==> !Closes(acts[j])) && RunStartsAt(acts, m, run) && Repeats(acts, m, run)
    ensures FreshRun(ts[k], run)
    ensures k < |acts| && acts[k].Persist? && acts[k].report.run == run ==>
              !NoCandidate(ts[k].rows, acts[k].report, acts[k].incoming)
  {
    hide Inv, Next, Covered, FreshRun, NoCandidate, PersistedBefore;
    if k > 0 {
      StaysFresh(ts, acts, m, k - 1, run);
      RunKeepsInv(ts, acts, k - 1);
      assert Next(ts[k - 1], acts[k - 1], ts[k - 1 + 1]);
      StepKeepsFresh(ts[k - 1], acts[k - 1], ts[k], run);
    }
    if k < |acts| && acts[k].Persist? && acts[k].report.run == run {
      var r, x := acts[k].report, acts[k].incoming;
      assert PersistedBefore(acts, m, r.workspace, r.series, x);
      var i := Earlier(acts, m, r.workspace, r.series, x);
      CoveredUntil(ts, acts, i, k);
      CoveredIsCandidate(ts[k], r, x);
    }
  }

  lemma Earlier(acts: seq<Action>, m: nat, ws: nat, series: nat, x: Incoming) returns (i: nat)
    requires m <= |acts| && PersistedBefore(acts, m, ws, series, x)
    ensures i < m && acts[i].Persist? && acts[i].incoming == x
    ensures acts[i].report.workspace == ws && acts[i].report.series == series
  {
    i :| i < m && acts[i].Persist? && acts[i].incoming == x
         && acts[i].report.workspace == ws && acts[i].report.series == series;
  }

  // Re-run stability: over any interleaving with other runs in which nothing is muted or resolved, a
  // fresh run that only repeats findings persisted before it merges every one of them.
  lemma RerunCreatesNothing(ts: seq<Table>, acts: seq<Action>, m: nat, run: nat, k: nat)
    requires IsTrace(ts, acts) && Inv(ts[0]) && FreshRun(ts[0], run) && m <= |acts|
    requires (forall j :: 0 <= j < |acts| ==> !Closes(acts[j])) && RunStartsAt(acts, m, run) && Repeats(acts, m, run)
    requires k < |acts| && acts[k].Persist? && acts[k].report.run == run
    ensures |ts[k + 1].rows| == |ts[k].rows| && Ids(ts[k + 1].rows) == Ids(ts[k].rows)
  {
    hide Inv, Next, Covered, FreshRun, NoCandidate, Repeats, RunStartsAt;
    StaysFresh(ts, acts, m, k, run);
    RunKeepsInv(ts, acts, k);
    assert Next(ts[k], acts[k], ts[k + 1]);
    MergeAddsNothing(ts[k], acts[k].report, acts[k].incoming, ts[k + 1]);
  }

  lemma CandidateOfBest(rows: seq<Finding>, f: Finding, r: Report, x: Incoming)
    requires IsBest(rows, f, r, x)
    ensures f in rows && Candidate(f, r, x)
  {
  }

  lemma IdIn(rows: seq<Finding>, f: Finding)
    requires f in rows
    ensures f.id in Ids(rows)
  {
  }

  lemma MergeAddsNothing(t: Table, r: Report, x: Incoming, t': Table)
    requires Inv(t) && Next(t, Persist(r, x), t') && !NoCandidate(t.rows, r, x)
    ensures |t'.rows| == |t.rows| && Ids(t'.rows) == Ids(t.rows)
  {
    hide Inv, Next, Candidate, Merged, NoCandidate, IsBest, Ids, StoredWindow;
    var g := PersistEffect(t, r, x, t');
    var f :| IsBest(t.rows, f, r, x) && g == Merged(f, r, x);
    CandidateOfBest(t.rows, f, r, x);
    MergedIsLater(f, r, x);
    IdsOfMembers(t.rows, t'.rows, g);
    IdIn(t.rows, f);
  }
}
