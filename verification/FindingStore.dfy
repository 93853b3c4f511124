// The findings table as the service changes it (services/findings.py): persisting a report in one
// locked transaction, and one status change at a time. A merge and an insert are single statements of
// that transaction; the ids of new rows are fresh by assumption, here numbered in order.
module FindingStore {
  import opened Frame
  import opened Sorting
  import opened Findings
  import opened FindingLaws
  import opened FindingRuns
  import opened FindingMeaning

  datatype Outcome = Changed(finding: Finding) | UnknownStatus | NotFound | Conflict(current: Status, requested: Status)

  function ParseStatus(s: string): Option<Status> {
    if s == "open" then Some(Open)
    else if s == "acked" then Some(Acked)
    else if s == "muted" then Some(Muted)
    else if s == "resolved" then Some(Resolved)
    else None
  }

  function Persists(r: Report, xs: seq<Incoming>): (acts: seq<Action>)
    ensures |acts| == |xs| && forall k :: 0 <= k < |xs| ==> acts[k] == Persist(r, xs[k])
  {
    if xs == [] then [] else Persists(r, xs[..|xs| - 1]) + [Persist(r, xs[|xs| - 1])]
  }

  // The tables a report leads through, from `before` to `after`.
  ghost predicate Leads(ts: seq<Table>, before: Table, r: Report, xs: seq<Incoming>, after: Table) {
    IsTrace(ts, Persists(r, xs)) && ts[0] == before && ts[|xs|] == after
  }

  lemma LeadsFurther(ts: seq<Table>, before: Table, r: Report, xs: seq<Incoming>, after: Table, x: Incoming, t: Table)
    requires Leads(ts, before, r, xs, after) && Next(after, Persist(r, x), t)
    ensures Leads(ts + [t], before, r, xs + [x], t)
  {
    hide Next;
    var us, ys := ts + [t], xs + [x];
    var acts := Persists(r, ys);
    assert ys[..|ys| - 1] == xs;
    forall k | 0 <= k < |acts| ensures Next(us[k], acts[k], us[k + 1]) {
      if k < |xs| { assert Next(ts[k], Persists(r, xs)[k], ts[k + 1]); }
    }
  }

  lemma QueryOrder()
    ensures TotalPreorder(QueryLe)
  {
  }

  lemma NotBefore(ordered: seq<Finding>, i: nat, f: Finding)
    requires Sorted(ordered, QueryLe) && i < |ordered| && f in ordered[..i]
    ensures QueryLe(f, ordered[i])
  {
    var j: nat :| j < i && ordered[..i][j] == f;
    assert ordered[j] == f;
  }

  lemma RowHasHistory(t: Table, f: Finding)
    requires Inv(t) && f in t.rows
    ensures f.id in t.history
  {
    assert f.id in Ids(t.rows);
  }

  lemma MergedWindowIs(f: Finding, r: Report, x: Incoming)
    ensures Merged(f, r, x).window == Union(f.window, StoredWindow(x))
  {
  }

  lemma UpdatedIsMerged(f: Finding, r: Report, x: Incoming, g: Finding)
    requires g == f.(window := Union(f.window, StoredWindow(x)), severity := x.severity, dimension := x.dimension,
                     impact := x.impact, summary := x.summary, evidence := x.evidence,
                     occurrences := f.occurrences + (if f.lastRun == Some(r.run) then 0 else 1),
                     lastRun := Some(r.run), updatedAt := r.now)
    ensures g == Merged(f, r, x)
  {
  }

  lemma RebuiltIsMerged(f: Finding, r: Report, x: Incoming, g: Finding)
    requires g == Finding(f.id, f.workspace, f.series, f.check, x.dimension, x.severity,
                          Union(f.window, StoredWindow(x)), x.impact, x.summary, x.evidence, f.status, f.reason,
                          f.statusAt, f.firstRun, Some(r.run),
                          f.occurrences + (if f.lastRun == Some(r.run) then 0 else 1), f.createdAt, r.now)
    ensures g == Merged(f, r, x)
  {
    hide StoredWindow, Union;
  }

  class FindingTable {
    var rows: seq<Finding>
    var nextId: nat
    ghost var log: seq<Logged>
    ghost var history: map<nat, seq<Absorbed>>

    ghost function Contents(): Table
      reads this
    {
      Table(rows, nextId, log, history)
    }

    ghost predicate Valid()
      reads this
    {
      Inv(Contents())
    }

    constructor ()
      ensures Valid() && Contents() == EMPTY
    {
      rows, nextId, log, history := [], 0, [], map[];
      new;
      EmptyHasInv();
    }

    // The absorbing record with the largest overlap, the earliest of equal ones in query order.
    method BestCandidate(r: Report, x: Incoming) returns (best: Option<Finding>)
      ensures best.None? ==> NoCandidate(rows, r, x)
      ensures best.Some? ==> IsBest(rows, best.value, r, x)
      // In terms of the rows' own fields.
      ensures best.None? <==> forall f :: f in rows ==> !Absorbs(f, r, x)
      ensures best.Some? ==> Chosen(rows, best.value, r, x)
    {
      hide Absorbs, Chosen;
      hide Candidate, Ratio, QueryLe, Insert, SortBy;
      QueryOrder();
      var ordered := SortBy(rows, QueryLe);
      SortBySorts(rows, QueryLe);
      best := None;
      for i := 0 to |ordered|
        invariant best.None? ==> NoCandidate(ordered[..i], r, x)
        invariant best.Some? ==> IsBest(ordered[..i], best.value, r, x)
      {
        var f := ordered[i];
        assert ordered[..i + 1] == ordered[..i] + [f];
        assert QueryLe(f, f);
        if best.Some? { NotBefore(ordered, i, best.value); }
        if Candidate(f, r, x) && (best.None? || Ratio(f, x) > Ratio(best.value, x)) {
          best := Some(f);
        }
      }
      assert ordered[..|ordered|] == ordered;
      forall f ensures Absorbs(f, r, x) <==> Candidate(f, r, x) { AbsorbsIff(f, r, x); }
      if best.Some? { BestIsChosen(rows, best.value, r, x); }
    }

    method Merge(f: Finding, r: Report, x: Incoming)
      requires Valid() && f in rows
      modifies this
      ensures exists i: nat :: i < |old(rows)| && old(rows)[i] == f && f.id in old(history)
                               && Contents() == MergeRow(old(Contents()), i, r, x)
    {
      hide Inv, StoredWindow, Union, Merged;
      RowHasHistory(Contents(), f);
      var i: nat :| i < |rows| && rows[i] == f;
      ghost var before := Contents();
      var window := Union(f.window, StoredWindow(x));
      var occurrences := f.occurrences + if f.lastRun == Some(r.run) then 0 else 1;
      MergedWindowIs(f, r, x);
      if window.start == f.window.start {
        var updated := f.(window := window, severity := x.severity, dimension := x.dimension, impact := x.impact,
                          summary := x.summary, evidence := x.evidence, occurrences := occurrences,
                          lastRun := Some(r.run), updatedAt := r.now);
        UpdatedIsMerged(f, r, x, updated);
        rows := rows[i := updated];
      } else {
        var rebuilt := Finding(f.id, f.workspace, f.series, f.check, x.dimension, x.severity, window, x.impact,
                               x.summary, x.evidence, f.status, f.reason, f.statusAt, f.firstRun, Some(r.run),
                               occurrences, f.createdAt, r.now);
        RebuiltIsMerged(f, r, x, rebuilt);
        rows := rows[..i] + rows[i + 1..];
        rows := rows + [rebuilt];
      }
      assert rows == MergedRows(before.rows, i, Merged(f, r, x));
      hide MergedRows;
      history := history[f.id := history[f.id] + [Absorbed(|log|, r.run, x)]];
      log := log + [Logged(r.series, r.run, f.id)];
      assert Contents() == MergeRow(before, i, r, x);
    }

    // One incoming finding: merged into the best candidate, or inserted as an open finding.
    method PersistOne(r: Report, x: Incoming) returns (inserted: bool)
      requires Valid()
      modifies this
      ensures Valid() && Next(old(Contents()), Persist(r, x), Contents())
      ensures inserted <==> NoCandidate(old(rows), r, x)
      ensures |rows| == |old(rows)| + (if inserted then 1 else 0)
      ensures Closed(rows) == Closed(old(rows))
      ensures Persisted(old(rows), r, x, rows, inserted) && ClosedStay(old(rows), rows)
    {
      hide Persisted, ClosedStay, Chosen, Absorbs;
      ghost var before := Contents();
      var best := BestCandidate(r, x);
      hide Inv, Candidate, Created, Closed, MergedRows;
      match best {
        case None =>
          history := history[nextId := [Absorbed(|log|, r.run, x)]];
          log := log + [Logged(r.series, r.run, nextId)];
          rows := rows + [Created(nextId, r, x)];
          nextId := nextId + 1;
          inserted := true;
          assert Contents() == InsertRow(before, r, x);
        case Some(f) =>
          Merge(f, r, x);
          inserted := false;
          assert Merges(before, r, x, Contents());
      }
      StepKeepsInv(before, Persist(r, x), Contents());
      PersistLeavesClosed(before, r, x, Contents());
      PersistMeans(before, r, x, Contents());
      var g := PersistEffect(before, r, x, Contents());
    }

    // Every finding of the report is either new or merged, and closed records stay as they are.
    method PersistReport(r: Report, findings: seq<Incoming>) returns (created: nat, merged: nat, ghost ts: seq<Table>)
      requires Valid()
      modifies this
      ensures Valid() && Leads(ts, old(Contents()), r, findings, Contents())
      ensures created + merged == |findings| && |rows| == |old(rows)| + created
      ensures Closed(rows) == Closed(old(rows)) && ClosedStay(old(rows), rows)
    {
      hide Inv, Next, Closed, Leads, Persisted;
      created, merged, ts := 0, 0, [Contents()];
      LeadsNowhere(Contents(), r);
      for i := 0 to |findings|
        invariant Valid() && Leads(ts, old(Contents()), r, findings[..i], Contents())
        invariant created + merged == i && |rows| == |old(rows)| + created
        invariant Closed(rows) == Closed(old(rows)) && ClosedStay(old(rows), rows)
      {
        ghost var before := Contents();
        var inserted := PersistOne(r, findings[i]);
        LeadsFurther(ts, old(Contents()), r, findings[..i], before, findings[i], Contents());
        assert findings[..i + 1] == findings[..i] + [findings[i]];
        ts := ts + [Contents()];
        if inserted { created := created + 1; } else { merged := merged + 1; }
      }
      assert findings[..|findings|] == findings;
    }

    // One transition of the lifecycle, or the reason why not; a refused change alters nothing.
    method ChangeStatus(ws: nat, id: nat, status: string, reason: Option<string>, now: int) returns (outcome: Outcome)
      requires Valid()
      modifies this
      ensures Valid()
      ensures outcome.UnknownStatus? <==> ParseStatus(status).None?
      ensures !outcome.Changed? ==> Contents() == old(Contents())
      ensures outcome.NotFound? ==> forall f :: f in rows ==> f.id != id || f.workspace != ws
      ensures outcome.Conflict? ==>
                Some(outcome.requested) == ParseStatus(status) && !Allowed(outcome.current, outcome.requested)
                && exists f :: f in rows && f.id == id && f.workspace == ws && f.status == outcome.current
      ensures outcome.Changed? ==>
                ParseStatus(status) == Some(outcome.finding.status) && outcome.finding in rows
                && (exists f :: f in old(rows) && Changeable(f, ws, id, outcome.finding.status)
                                && outcome.finding == WithStatus(f, outcome.finding.status, StoredReason(reason), now))
      // In terms of the words and of the record's own fields.
      ensures outcome.UnknownStatus? <==>
                status != "open" && status != "acked" && status != "muted" && status != "resolved"
      ensures outcome.NotFound? ==> rows == old(rows) && forall f :: f in rows ==> f.id != id || f.workspace != ws
      ensures outcome.Conflict? ==>
                && Names(status, outcome.requested) && !Permitted(outcome.current, outcome.requested)
                && exists f :: f in rows && f.id == id && f.workspace == ws && f.status == outcome.current
      ensures outcome.Changed? ==>
                exists f :: f in old(rows) && f.id == id && f.workspace == ws
                            && Permitted(f.status, outcome.finding.status)
                            && Restated(f, outcome.finding, status, reason, now)
                            && outcome.finding in rows && OthersStay(old(rows), rows, id) && |rows| == |old(rows)|
      ensures ParseStatus(status).Some? ==>
                Next(old(Contents()), Change(ws, id, ParseStatus(status).value, StoredReason(reason), now), Contents())
    {
      hide Restated, Allowed, Permitted;
      var requested := ParseStatus(status);
      StatusWords(status);
      hide ParseStatus, Inv;
      if requested.None? { return UnknownStatus; }
      var i := 0;
      while i < |rows| && !(rows[i].id == id && rows[i].workspace == ws)
        invariant 0 <= i <= |rows|
        invariant forall f :: f in rows[..i] ==> f.id != id || f.workspace != ws
      {
        i := i + 1;
      }
      if i == |rows| {
        assert rows[..i] == rows;
        return NotFound;
      }
      var f := rows[i];
      assert SameIdSameRow(rows) by { UniqueRows(Contents()); }
      AllowedIsPermitted(f.status, requested.value);
      if !Allowed(f.status, requested.value) { return Conflict(f.status, requested.value); }
      ghost var before := Contents();
      var g := WithStatus(f, requested.value, StoredReason(reason), now);
      rows := rows[i := g];
      assert g == rows[i];
      assert Contents() == before.(rows := before.rows[i :=
                            WithStatus(before.rows[i], requested.value, StoredReason(reason), now)]);
      StepKeepsInv(before, Change(ws, id, requested.value, StoredReason(reason), now), Contents());
      StatusIsRestated(f, status, requested.value, reason, now);
      OneRowRestated(before, i, g);
      return Changed(g);
    }
  }

  lemma StatusWords(word: string)
    ensures ParseStatus(word).Some? ==> Names(word, ParseStatus(word).value)
    ensures ParseStatus(word).None? <==> word != "open" && word != "acked" && word != "muted" && word != "resolved"
  {
  }

  lemma OneRowRestated(t: Table, i: nat, g: Finding)
    requires Inv(t) && i < |t.rows| && g.id == t.rows[i].id
    ensures OthersStay(t.rows, t.rows[i := g], g.id)
  {
    IdsAreUnique(t);
    hide Inv;
    forall f: Finding | f.id != g.id ensures f in t.rows[i := g] <==> f in t.rows { UpdatedMember(t.rows, i, g, f); }
  }

  lemma LeadsNowhere(t: Table, r: Report)
    ensures Leads([t], t, r, [], t)
  {
  }

  lemma {:induction false} SameCount(ts: seq<Table>, acts: seq<Action>, m: nat, run: nat, k: nat)
    requires IsTrace(ts, acts) && Inv(ts[0]) && FreshRun(ts[0], run) && m <= k <= |acts|
    requires (forall j :: 0 <= j < |acts| ==> !Closes(acts[j])) && RunStartsAt(acts, m, run) && Repeats(acts, m, run)
    requires forall j :: m <= j < |acts| ==> acts[j].Persist? && acts[j].report.run == run
    ensures |ts[k].rows| == |ts[m].rows|
  {
    hide IsTrace, Inv, FreshRun, Closes, RunStartsAt, Repeats;
    if k > m {
      SameCount(ts, acts, m, run, k - 1);
      RerunCreatesNothing(ts, acts, m, run, k - 1);
    }
  }

  lemma Joined(ts: seq<Table>, acts: seq<Action>, us: seq<Table>, more: seq<Action>)
    requires IsTrace(ts, acts) && IsTrace(us, more) && us[0] == ts[|acts|]
    ensures IsTrace(ts + us[1..], acts + more)
  {
    hide Next;
    var all, tables, m := acts + more, ts + us[1..], |acts|;
    forall k | 0 <= k < |all| ensures Next(tables[k], all[k], tables[k + 1]) {
      if k < m { assert Next(ts[k], acts[k], ts[k + 1]); }
      else { assert Next(us[k - m], more[k - m], us[k - m + 1]); }
    }
  }

  // A report persisted again under a fresh run id creates nothing, whatever other runs persisted in
  // between, while nothing was muted or resolved.
  lemma RepeatedReportCreatesNothing(ts: seq<Table>, acts: seq<Action>, first: nat, xs: seq<Incoming>,
                                     r: Report, us: seq<Table>, after: Table, r2: Report)
    requires IsTrace(ts, acts) && Inv(ts[0]) && first + |xs| <= |acts|
    requires forall j :: 0 <= j < |acts| ==> !Closes(acts[j]) && (acts[j].Persist? ==> acts[j].report.run != r2.run)
    requires forall k :: 0 <= k < |xs| ==> acts[first + k] == Persist(r, xs[k])
    requires r2.workspace == r.workspace && r2.series == r.series && FreshRun(ts[0], r2.run)
    requires Leads(us, ts[|acts|], r2, xs, after)
    ensures |after.rows| == |ts[|acts|].rows|
  {
    hide Inv, Next, FreshRun;
    var more, m := Persists(r2, xs), |acts|;
    var all, tables := acts + more, ts + us[1..];
    Joined(ts, acts, us, more);
    forall k | m <= k < |all|
      ensures PersistedBefore(all, m, all[k].report.workspace, all[k].report.series, all[k].incoming)
    {
      assert all[first + (k - m)] == acts[first + (k - m)] == Persist(r, xs[k - m]);
      assert all[k] == more[k - m];
    }
    SameCount(tables, all, m, r2.run, |all|);
    assert |xs| > 0 ==> tables[|all|] == us[|xs|];
  }
}
