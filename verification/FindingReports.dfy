// Runs of whole reports (the callers of persist_report in api/src/tabayyun/services/runs.py and
// dataset_runs.py): a run persists one report per series, in the transaction that completes it, so
// `occurrences` counts distinct runs.
module FindingReports {
  import opened Findings
  import opened FindingLaws
  import opened FindingRuns
  import opened FindingStore

  // ---- Runs in blocks ------------------------------------------------------------------------

  // The findings of one report: so many by one run.
  datatype Block = Block(run: nat, size: nat)

  function Repeat(run: nat, size: nat): (s: seq<nat>)
    ensures |s| == size && forall k :: 0 <= k < |s| ==> s[k] == run
  {
    seq(size, k => run)
  }

  function Expand(blocks: seq<Block>): seq<nat> {
    if blocks == [] then []
    else Expand(blocks[..|blocks| - 1]) + Repeat(blocks[|blocks| - 1].run, blocks[|blocks| - 1].size)
  }

  predicate DistinctRuns(blocks: seq<Block>) {
    forall i, j :: 0 <= i < j < |blocks| ==> blocks[i].run != blocks[j].run
  }

  ghost predicate InBlocks(runs: seq<nat>) {
    exists blocks :: DistinctRuns(blocks) && runs == Expand(blocks)
  }

  lemma {:induction false} RunOfBlock(blocks: seq<Block>, p: nat)
    requires p < |Expand(blocks)|
    ensures exists i :: 0 <= i < |blocks| && blocks[i].run == Expand(blocks)[p]
  {
    var n := |blocks| - 1;
    var front := blocks[..n];
    if p < |Expand(front)| {
      RunOfBlock(front, p);
      var i :| 0 <= i < |front| && front[i].run == Expand(front)[p];
      assert blocks[i].run == Expand(blocks)[p];
    } else {
      assert blocks[n].run == Expand(blocks)[p];
    }
  }

  lemma OtherRun(blocks: seq<Block>, p: nat)
    requires blocks != [] && DistinctRuns(blocks) && p < |Expand(blocks[..|blocks| - 1])|
    ensures Expand(blocks)[p] != blocks[|blocks| - 1].run
  {
    var front := blocks[..|blocks| - 1];
    RunOfBlock(front, p);
    var i :| 0 <= i < |front| && front[i].run == Expand(front)[p];
    assert blocks[i].run != blocks[|blocks| - 1].run;
  }

  // The entries of one run stand together.
  lemma {:induction false} BlocksContiguous(blocks: seq<Block>, p: nat, q: nat, r: nat)
    requires DistinctRuns(blocks) && p < q < r < |Expand(blocks)| && Expand(blocks)[p] == Expand(blocks)[r]
    ensures Expand(blocks)[q] == Expand(blocks)[r]
  {
    var n := |blocks| - 1;
    var front := blocks[..n];
    if r < |Expand(front)| {
      BlocksContiguous(front, p, q, r);
    } else if p < |Expand(front)| {
      OtherRun(blocks, p);
    }
  }

  // ---- The log of a series ----------------------------------------------------------------------

  // The runs that persisted findings of the series, finding by finding.
  function LoggedRuns(log: seq<Logged>, series: nat): seq<nat> {
    if log == [] then []
    else
      var front := LoggedRuns(log[..|log| - 1], series);
      if log[|log| - 1].series == series then front + [log[|log| - 1].run] else front
  }

  function RunsOn(acts: seq<Action>, series: nat): seq<nat> {
    if acts == [] then []
    else
      var front, a := RunsOn(acts[..|acts| - 1], series), acts[|acts| - 1];
      if a.Persist? && a.report.series == series then front + [a.report.run] else front
  }

  lemma {:induction false} LogPrefix(log: seq<Logged>, series: nat, i: nat, j: nat)
    requires i <= j <= |log|
    ensures LoggedRuns(log[..i], series) <= LoggedRuns(log[..j], series)
  {
    if i < j {
      LogPrefix(log, series, i, j - 1);
      assert log[..j][..j - 1] == log[..j - 1];
    }
  }

  // Entry i of the log is at the position that counts the earlier entries of its series.
  lemma LogPosition(log: seq<Logged>, i: nat, series: nat)
    requires i < |log| && log[i].series == series
    ensures var p := |LoggedRuns(log[..i], series)|;
            p < |LoggedRuns(log, series)| && LoggedRuns(log, series)[p] == log[i].run
    ensures |LoggedRuns(log[..i + 1], series)| == |LoggedRuns(log[..i], series)| + 1
  {
    assert log[..i + 1][..i] == log[..i];
    LogPrefix(log, series, i + 1, |log|);
    assert log[..|log|] == log;
  }

  lemma BlocksReportOnce(log: seq<Logged>)
    requires forall series :: InBlocks(LoggedRuns(log, series))
    ensures OneReportPerRun(log)
  {
    forall i, j, k | 0 <= i < j < k < |log| && SameSeries(log, i, j, k) && log[i].run == log[k].run
      ensures log[j].run == log[k].run
    {
      var s := log[i].series;
      assert InBlocks(LoggedRuns(log, s));
      var blocks :| DistinctRuns(blocks) && LoggedRuns(log, s) == Expand(blocks);
      LogPosition(log, i, s);
      LogPosition(log, j, s);
      LogPosition(log, k, s);
      LogPrefix(log, s, i + 1, j);
      LogPrefix(log, s, j + 1, k);
      BlocksContiguous(blocks, |LoggedRuns(log[..i], s)|, |LoggedRuns(log[..j], s)|, |LoggedRuns(log[..k], s)|);
    }
  }

  lemma StepLogs(t: Table, a: Action, t': Table)
    requires Next(t, a, t')
    ensures match a
            case Persist(r, x) => |t'.log| == |t.log| + 1 && t'.log[..|t.log|] == t.log
                                  && t'.log[|t.log|].series == r.series && t'.log[|t.log|].run == r.run
            case Change(ws, id, status, reason, now) => t'.log == t.log
  {
    hide IsBest, NoCandidate, Created, Merged, MergedRows, WithStatus, Changeable;
  }

  lemma {:induction false} LogFollows(ts: seq<Table>, acts: seq<Action>, series: nat, k: nat)
    requires IsTrace(ts, acts) && ts[0] == EMPTY && k <= |acts|
    ensures LoggedRuns(ts[k].log, series) == RunsOn(acts[..k], series)
  {
    if k > 0 {
      LogFollows(ts, acts, series, k - 1);
      assert Next(ts[k - 1], acts[k - 1], ts[k - 1 + 1]);
      hide Next, IsTrace;
      StepLogs(ts[k - 1], acts[k - 1], ts[k]);
      assert acts[..k][..k - 1] == acts[..k - 1];
    }
  }

  // ---- Whole reports -----------------------------------------------------------------------------

  // For every series the persisted findings are whole reports, one after another, no two of one run.
  // Reports of different series may interleave, and status changes may come at any time.
  ghost predicate WholeReports(acts: seq<Action>) {
    forall series :: InBlocks(RunsOn(acts, series))
  }

  // Over every interleaving of whole reports and status changes, `occurrences` is the number of distinct
  // runs that reported the record.
  lemma WholeReportsCountRuns(ts: seq<Table>, acts: seq<Action>, f: Finding)
    requires IsTrace(ts, acts) && ts[0] == EMPTY && WholeReports(acts) && f in ts[|acts|].rows
    ensures f.id in ts[|acts|].history && f.occurrences == |Runs(ts[|acts|].history[f.id])|
  {
    var t := ts[|acts|];
    EmptyHasInv();
    RunKeepsInv(ts, acts, |acts|);
    hide IsTrace, Inv, InBlocks, OneReportPerRun, NoReturn;
    assert acts[..|acts|] == acts;
    forall series ensures InBlocks(LoggedRuns(t.log, series)) {
      LogFollows(ts, acts, series, |acts|);
      assert InBlocks(RunsOn(acts, series));
    }
    BlocksReportOnce(t.log);
    OccurrencesCountRuns(t, f);
  }

  // What the callers do: complete runs, each with one report per series, and change statuses.
  datatype Event = Reported(report: Report, findings: seq<Incoming>) | Changed(change: Action)

  function ActionsOf(events: seq<Event>): seq<Action> {
    if events == [] then []
    else
      ActionsOf(events[..|events| - 1])
      + match events[|events| - 1]
        case Reported(r, xs) => Persists(r, xs)
        case Changed(a) => [a]
  }

  predicate OncePerRun(events: seq<Event>) {
    && (forall i :: 0 <= i < |events| && events[i].Changed? ==> events[i].change.Change?)
    && (forall i, j :: 0 <= i < j < |events| ==> !SameRun(events[i], events[j]))
  }

  // Two reports of one run for one series.
  predicate SameRun(a: Event, b: Event) {
    && a.Reported? && b.Reported?
    && a.report.series == b.report.series && a.report.run == b.report.run
  }

  function BlocksOn(events: seq<Event>, series: nat): seq<Block> {
    if events == [] then []
    else
      var front, e := BlocksOn(events[..|events| - 1], series), events[|events| - 1];
      if e.Reported? && e.report.series == series then front + [Block(e.report.run, |e.findings|)] else front
  }

  lemma {:induction false} RunsOnConcat(a: seq<Action>, b: seq<Action>, series: nat)
    ensures RunsOn(a + b, series) == RunsOn(a, series) + RunsOn(b, series)
  {
    if b == [] {
      assert a + b == a;
    } else {
      RunsOnConcat(a, b[..|b| - 1], series);
      assert (a + b)[..|a + b| - 1] == a + b[..|b| - 1];
    }
  }

  lemma {:induction false} RunsOfReport(r: Report, xs: seq<Incoming>, series: nat)
    ensures RunsOn(Persists(r, xs), series) == if r.series == series then Repeat(r.run, |xs|) else []
  {
    if xs != [] {
      var n := |xs| - 1;
      RunsOfReport(r, xs[..n], series);
      assert Persists(r, xs)[..n] == Persists(r, xs[..n]);
    }
  }

  lemma {:induction false} RunsOfEvents(events: seq<Event>, series: nat)
    requires forall i :: 0 <= i < |events| && events[i].Changed? ==> events[i].change.Change?
    ensures RunsOn(ActionsOf(events), series) == Expand(BlocksOn(events, series))
  {
    if events != [] {
      var n := |events| - 1;
      RunsOfEvents(events[..n], series);
      match events[n]
      case Reported(r, xs) =>
        RunsOnConcat(ActionsOf(events[..n]), Persists(r, xs), series);
        RunsOfReport(r, xs, series);
        if r.series == series {
          var blocks := BlocksOn(events, series);
          assert blocks[..|blocks| - 1] == BlocksOn(events[..n], series);
        }
      case Changed(a) =>
        RunsOnConcat(ActionsOf(events[..n]), [a], series);
        assert [a][..0] == [];
    }
  }

  lemma {:induction false} BlockOfEvent(events: seq<Event>, series: nat, b: Block)
    requires b in BlocksOn(events, series)
    ensures exists i :: 0 <= i < |events| && events[i].Reported? && events[i].report.series == series
                        && events[i].report.run == b.run
  {
    var n := |events| - 1;
    if b in BlocksOn(events[..n], series) {
      BlockOfEvent(events[..n], series, b);
      var i :| 0 <= i < n && events[..n][i].Reported? && events[..n][i].report.series == series
               && events[..n][i].report.run == b.run;
      assert events[i] == events[..n][i];
    } else {
      assert events[n].report.run == b.run;
    }
  }

  lemma {:induction false} BlocksAreDistinct(events: seq<Event>, series: nat)
    requires OncePerRun(events)
    ensures DistinctRuns(BlocksOn(events, series))
  {
    if events != [] {
      var n := |events| - 1;
      BlocksAreDistinct(events[..n], series);
      var front := BlocksOn(events[..n], series);
      if events[n].Reported? && events[n].report.series == series {
        forall k | 0 <= k < |front| ensures front[k].run != events[n].report.run {
          BlockOfEvent(events[..n], series, front[k]);
          var i :| 0 <= i < n && events[..n][i].Reported? && events[..n][i].report.series == series
                   && events[..n][i].report.run == front[k].run;
          assert !SameRun(events[i], events[n]);
        }
      }
    }
  }

  // Reports completed by runs that each persist once per series are whole reports.
  lemma CompletedRunsReportWhole(events: seq<Event>)
    requires OncePerRun(events)
    ensures WholeReports(ActionsOf(events))
  {
    forall series ensures InBlocks(RunsOn(ActionsOf(events), series)) {
      RunsOfEvents(events, series);
      BlocksAreDistinct(events, series);
    }
  }
}
