// What every run of persisted reports and status changes keeps (services/findings.py): each record's
// window is exactly what it absorbed, its kind never changes, occurrences count runs, every reported
// finding is absorbed once, and repeating a report creates nothing.
module FindingLaws {
  import opened Frame
  import opened Findings

  // ---- A record and its history --------------------------------------------------------------

  ghost predicate Reported(h: seq<Absorbed>, u: int) {
    exists k: nat :: k < |h| && InWindow(u, StoredWindow(h[k].incoming))
  }

  ghost predicate WindowIsUnion(w: Window, h: seq<Absorbed>) {
    w.start < w.end && forall u :: InWindow(u, w) <==> Reported(h, u)
  }

  function Last(h: seq<Absorbed>): Absorbed
    requires h != []
  {
    h[|h| - 1]
  }

  // Severity, dimension, impact, summary and evidence are those of the newest absorbed finding.
  predicate NewestFacts(f: Finding, x: Incoming) {
    && f.severity == x.severity && f.dimension == x.dimension && f.impact == x.impact
    && f.summary == x.summary && f.evidence == x.evidence
  }

  ghost predicate OneKind(f: Finding, h: seq<Absorbed>) {
    forall k :: 0 <= k < |h| ==> KindOf(h[k].incoming.check, h[k].incoming.evidence) == KindOf(f.check, f.evidence)
  }

  // The run that created a record never merges into it.
  ghost predicate CreatorStaysOut(h: seq<Absorbed>) {
    forall k :: 0 < k < |h| ==> h[k].run != h[0].run
  }

  // Maximal groups of neighbouring entries with one run.
  function Blocks(h: seq<Absorbed>): nat {
    if |h| <= 1 then |h|
    else Blocks(h[..|h| - 1]) + (if h[|h| - 1].run == h[|h| - 2].run then 0 else 1)
  }

  ghost predicate Folded(f: Finding, h: seq<Absorbed>) {
    && h != []
    && WindowIsUnion(f.window, h) && OneKind(f, h) && NewestFacts(f, Last(h).incoming)
    && f.firstRun == Some(h[0].run) && f.lastRun == Some(Last(h).run)
    && CreatorStaysOut(h) && f.occurrences == Blocks(h)
  }

  lemma CreatedIsFolded(id: nat, at: nat, r: Report, x: Incoming)
    ensures Folded(Created(id, r, x), [Absorbed(at, r.run, x)])
  {
    var h := [Absorbed(at, r.run, x)];
    forall u ensures InWindow(u, StoredWindow(x)) <==> Reported(h, u) {
      if InWindow(u, StoredWindow(x)) { assert InWindow(u, StoredWindow(h[0].incoming)); }
    }
  }

  lemma ReportedGrows(h: seq<Absorbed>, a: Absorbed, u: int)
    ensures Reported(h + [a], u) <==> Reported(h, u) || InWindow(u, StoredWindow(a.incoming))
  {
    var g := h + [a];
    if Reported(h, u) {
      var k: nat :| k < |h| && InWindow(u, StoredWindow(h[k].incoming));
      assert InWindow(u, StoredWindow(g[k].incoming));
    }
    if InWindow(u, StoredWindow(a.incoming)) { assert InWindow(u, StoredWindow(g[|h|].incoming)); }
  }

  lemma MergedWindow(f: Finding, h: seq<Absorbed>, r: Report, x: Incoming, at: nat)
    requires WindowIsUnion(f.window, h) && Candidate(f, r, x)
    ensures WindowIsUnion(Merged(f, r, x).window, h + [Absorbed(at, r.run, x)])
  {
    hide StoredWindow, Reported, KindOf, SameSubject;
    var g := h + [Absorbed(at, r.run, x)];
    forall u ensures InWindow(u, Merged(f, r, x).window) <==> Reported(g, u) {
      ReportedGrows(h, Absorbed(at, r.run, x), u);
      UnionOfOverlapping(f.window, StoredWindow(x), u);
    }
  }

  lemma MergedKind(f: Finding, h: seq<Absorbed>, r: Report, x: Incoming, at: nat)
    requires OneKind(f, h) && Candidate(f, r, x)
    ensures OneKind(Merged(f, r, x), h + [Absorbed(at, r.run, x)])
    ensures KindOf(f.check, f.evidence) == KindOf(f.check, x.evidence)
  {
    CandidateHasSameKind(f, r, x);
    hide StoredWindow, KindOf, SameSubject;
    var g, a := h + [Absorbed(at, r.run, x)], Absorbed(at, r.run, x);
    forall k | 0 <= k < |g|
      ensures KindOf(g[k].incoming.check, g[k].incoming.evidence) == KindOf(f.check, x.evidence)
    {
      if k < |h| { assert g[k] == h[k]; }
    }
  }

  // Merging keeps a record in step with its history.
  lemma MergedIsFolded(f: Finding, h: seq<Absorbed>, r: Report, x: Incoming, at: nat)
    requires Folded(f, h) && Candidate(f, r, x)
    ensures Folded(Merged(f, r, x), h + [Absorbed(at, r.run, x)])
  {
    MergedWindow(f, h, r, x, at);
    MergedKind(f, h, r, x, at);
    hide StoredWindow, KindOf, SameSubject, WindowIsUnion, OneKind;
    var g := h + [Absorbed(at, r.run, x)];
    assert g[..|g| - 1] == h;
    assert g[|g| - 2] == Last(h);
    assert Last(g) == Absorbed(at, r.run, x);
    assert g[0] == h[0];
    assert CreatorStaysOut(g) by {
      forall k | 0 < k < |g| ensures g[k].run != g[0].run {
        if k < |h| { assert g[k] == h[k]; }
      }
    }
  }

  // ---- The table and the log ------------------------------------------------------------------

  ghost predicate UniqueIds(rows: seq<Finding>) {
    forall i, j :: 0 <= i < j < |rows| ==> rows[i].id != rows[j].id
  }

  ghost function Ids(rows: seq<Finding>): set<nat> {
    set f | f in rows :: f.id
  }

  ghost predicate RowFolded(f: Finding, t: Table) {
    f.id in t.history && Folded(f, t.history[f.id]) && Dated(f, t.history[f.id], t.log)
  }

  // The history of a record points at its entries of the log, in the order they were made.
  ghost predicate Dated(f: Finding, h: seq<Absorbed>, log: seq<Logged>) {
    && (forall k :: 0 <= k < |h| ==> h[k].at < |log| && log[h[k].at] == Logged(f.series, h[k].run, f.id))
    && (forall k, l :: 0 <= k < l < |h| ==> h[k].at < h[l].at)
  }

  ghost predicate RowsFolded(t: Table) {
    forall f :: f in t.rows ==> RowFolded(f, t)
  }

  ghost predicate InHistory(at: nat, h: seq<Absorbed>) {
    exists k: nat :: k < |h| && h[k].at == at
  }

  // Every finding ever persisted is in the history of its owner.
  ghost predicate AllAbsorbed(t: Table) {
    forall at: nat :: at < |t.log| ==> t.log[at].owner in t.history && InHistory(at, t.history[t.log[at].owner])
  }

  ghost predicate Inv(t: Table) {
    && UniqueIds(t.rows) && Ids(t.rows) == t.history.Keys
    && (forall id :: id in t.history ==> id < t.nextId)
    && RowsFolded(t) && AllAbsorbed(t)
  }

  lemma UpdatedMember(rows: seq<Finding>, i: nat, g: Finding, f: Finding)
    requires i < |rows| && UniqueIds(rows) && g.id == rows[i].id
    ensures f in rows[i := g] <==> f == g || (f in rows && f.id != g.id)
  {
    var m := rows[i := g];
    assert m[i] == g;
    if f in rows && f.id != g.id {
      var k: nat :| k < |rows| && rows[k] == f;
      assert m[k] == f;
    }
  }

  lemma MovedMember(rows: seq<Finding>, i: nat, g: Finding, f: Finding)
    requires i < |rows| && UniqueIds(rows) && g.id == rows[i].id
    ensures f in rows[..i] + rows[i + 1..] + [g] <==> f == g || (f in rows && f.id != g.id)
  {
    var m := rows[..i] + rows[i + 1..] + [g];
    assert m[|rows| - 1] == g;
    if f in rows && f.id != g.id {
      var k: nat :| k < |rows| && rows[k] == f;
      assert m[if k < i then k else k - 1] == f;
    }
  }

  lemma MergedRowsMembers(rows: seq<Finding>, i: nat, g: Finding)
    requires i < |rows| && UniqueIds(rows) && g.id == rows[i].id
    ensures UniqueIds(MergedRows(rows, i, g)) && |MergedRows(rows, i, g)| == |rows|
    ensures forall f :: f in MergedRows(rows, i, g) <==> f == g || (f in rows && f.id != g.id)
  {
    var m := MergedRows(rows, i, g);
    if g.window.start == rows[i].window.start {
      forall f ensures f in m <==> f == g || (f in rows && f.id != g.id) { UpdatedMember(rows, i, g, f); }
    } else {
      forall f ensures f in m <==> f == g || (f in rows && f.id != g.id) { MovedMember(rows, i, g, f); }
    }
  }

  lemma IdsOfMembers(a: seq<Finding>, b: seq<Finding>, g: Finding)
    requires forall f :: f in b <==> f == g || (f in a && f.id != g.id)
    ensures Ids(b) == Ids(a) + {g.id}
  {
    forall id ensures id in Ids(b) <==> id in Ids(a) + {g.id} {
      if id in Ids(a) && id != g.id {
        var f :| f in a && f.id == id;
        assert f in b;
      }
      if id == g.id { assert g in b; }
    }
  }

  lemma DatedGrows(f: Finding, h: seq<Absorbed>, log: seq<Logged>, e: Logged)
    requires Dated(f, h, log)
    ensures Dated(f, h, log + [e])
  {
  }

  lemma DatedEntry(f: Finding, h: seq<Absorbed>, log: seq<Logged>, a: Absorbed)
    requires Dated(f, h, log) && a.at == |log|
    ensures Dated(f, h + [a], log + [Logged(f.series, a.run, f.id)])
  {
  }

  lemma InHistoryGrows(at: nat, h: seq<Absorbed>, a: Absorbed)
    ensures InHistory(at, h + [a]) <==> InHistory(at, h) || at == a.at
  {
    var g := h + [a];
    if InHistory(at, h) {
      var k: nat :| k < |h| && h[k].at == at;
      assert g[k].at == at;
    }
    if at == a.at { assert g[|h|].at == at; }
  }

  // One more finding persisted, absorbed by the record `id` whose history was `h`.
  lemma AbsorbedOnceMore(t: Table, t': Table, id: nat, h: seq<Absorbed>, a: Absorbed, e: Logged)
    requires AllAbsorbed(t) && (id in t.history ==> t.history[id] == h)
    requires t'.log == t.log + [e] && e.owner == id && a.at == |t.log|
    requires t'.history == t.history[id := h + [a]]
    ensures AllAbsorbed(t')
  {
    hide InHistory;
    forall at: nat | at < |t'.log|
      ensures t'.log[at].owner in t'.history && InHistory(at, t'.history[t'.log[at].owner])
    {
      if at < |t.log| { assert t'.log[at] == t.log[at]; }
      InHistoryGrows(at, h, a);
    }
  }

  // One row g replaces every row of its id.
  ghost predicate Replaces(a: seq<Finding>, b: seq<Finding>, g: Finding) {
    forall f :: f in b <==> f == g || (f in a && f.id != g.id)
  }

  // When one row and its history change, the others stay in step with theirs.
  lemma OthersStayFolded(t: Table, t': Table, g: Finding, e: Logged)
    requires RowsFolded(t) && RowFolded(g, t') && Replaces(t.rows, t'.rows, g) && t'.log == t.log + [e]
    requires forall id :: id in t.history && id != g.id ==> id in t'.history && t'.history[id] == t.history[id]
    ensures RowsFolded(t')
  {
    hide Folded, Dated;
    forall f | f in t'.rows ensures RowFolded(f, t') {
      if f != g {
        assert RowFolded(f, t);
        DatedGrows(f, t.history[f.id], t.log, e);
      }
    }
  }

  lemma NewId(t: Table)
    requires Inv(t)
    ensures t.nextId !in t.history && forall f :: f in t.rows ==> f.id != t.nextId
  {
    forall f | f in t.rows ensures f.id in Ids(t.rows) {}
  }

  lemma InsertKeepsInv(t: Table, r: Report, x: Incoming)
    requires Inv(t)
    ensures Inv(InsertRow(t, r, x))
  {
    hide Folded, Dated, AllAbsorbed, RowsFolded, StoredWindow;
    var t' := InsertRow(t, r, x);
    var f, a, e := Created(t.nextId, r, x), Absorbed(|t.log|, r.run, x), Logged(r.series, r.run, t.nextId);
    NewId(t);
    IdsOfMembers(t.rows, t'.rows, f);
    CreatedIsFolded(t.nextId, |t.log|, r, x);
    CreatedIsDated(f, a, t.log, e);
    OthersStayFolded(t, t', f, e);
    assert [a] == [] + [a];
    AbsorbedOnceMore(t, t', t.nextId, [], a, e);
  }

  lemma CreatedIsDated(f: Finding, a: Absorbed, log: seq<Logged>, e: Logged)
    requires a.at == |log| && e == Logged(f.series, a.run, f.id)
    ensures Dated(f, [a], log + [e])
  {
  }

  lemma FoldedRow(t: Table, i: nat)
    requires Inv(t) && i < |t.rows|
    ensures RowFolded(t.rows[i], t)
  {
  }

  lemma MergeKeepsInv(t: Table, i: nat, r: Report, x: Incoming)
    requires Inv(t) && i < |t.rows| && Candidate(t.rows[i], r, x)
    ensures t.rows[i].id in t.history && Inv(MergeRow(t, i, r, x))
  {
    hide Folded, Dated, AllAbsorbed, RowsFolded, Candidate, MergedRows;
    FoldedRow(t, i);
    var f := t.rows[i];
    var t', h, g := MergeRow(t, i, r, x), t.history[f.id], Merged(f, r, x);
    var a, e := Absorbed(|t.log|, r.run, x), Logged(r.series, r.run, f.id);
    CandidateOfSeries(f, r, x);
    MergedRowsMembers(t.rows, i, g);
    IdsOfMembers(t.rows, t'.rows, g);
    MergedIsFolded(f, h, r, x, |t.log|);
    DatedEntry(f, h, t.log, a);
    SameDates(f, g, h + [a], t'.log);
    OthersStayFolded(t, t', g, e);
    AbsorbedOnceMore(t, t', f.id, h, a, e);
  }

  lemma CandidateOfSeries(f: Finding, r: Report, x: Incoming)
    requires Candidate(f, r, x)
    ensures f.series == r.series && f.workspace == r.workspace && Absorbing(f.status)
  {
  }

  lemma SameDates(f: Finding, g: Finding, h: seq<Absorbed>, log: seq<Logged>)
    requires Dated(f, h, log) && f.id == g.id && f.series == g.series
    ensures Dated(g, h, log)
  {
  }

  lemma StatusKeepsInv(t: Table, i: nat, status: Status, reason: Option<string>, now: int)
    requires Inv(t) && i < |t.rows|
    ensures Inv(t.(rows := t.rows[i := WithStatus(t.rows[i], status, reason, now)]))
  {
    hide Dated, AllAbsorbed;
    var f, g := t.rows[i], WithStatus(t.rows[i], status, reason, now);
    assert t.rows[i := g] == MergedRows(t.rows, i, g);
    MergedRowsMembers(t.rows, i, g);
    var t' := t.(rows := t.rows[i := g]);
    IdsOfMembers(t.rows, t'.rows, g);
    hide Folded;
    forall q | q in t'.rows ensures RowFolded(q, t') {
      if q == g {
        assert RowFolded(f, t);
        SameDates(f, g, t.history[f.id], t.log);
        StatusKeepsFolded(f, t.history[f.id], status, reason, now);
      } else {
        assert RowFolded(q, t);
      }
    }
    SameHistory(t, t');
  }

  lemma StatusKeepsFolded(f: Finding, h: seq<Absorbed>, status: Status, reason: Option<string>, now: int)
    requires Folded(f, h)
    ensures Folded(WithStatus(f, status, reason, now), h)
  {
    hide WindowIsUnion, Blocks, KindOf;
  }

  lemma SameHistory(t: Table, t': Table)
    requires AllAbsorbed(t) && t'.log == t.log && t'.history == t.history
    ensures AllAbsorbed(t')
  {
  }

  lemma StepKeepsInv(t: Table, a: Action, t': Table)
    requires Inv(t) && Next(t, a, t')
    ensures Inv(t')
  {
    hide Inv, InsertRow, MergeRow;
    match a
    case Persist(r, x) =>
      if NoCandidate(t.rows, r, x) && t' == InsertRow(t, r, x) {
        InsertKeepsInv(t, r, x);
      } else {
        var i: nat :| i < |t.rows| && IsBest(t.rows, t.rows[i], r, x) && t.rows[i].id in t.history
                      && t' == MergeRow(t, i, r, x);
        MergeKeepsInv(t, i, r, x);
      }
    case Change(ws, id, status, reason, now) =>
      if t' != t {
        var i: nat :| i < |t.rows| && Changeable(t.rows[i], ws, id, status)
                      && t' == t.(rows := t.rows[i := WithStatus(t.rows[i], status, reason, now)]);
        StatusKeepsInv(t, i, status, reason, now);
      }
  }

  lemma EmptyHasInv()
    ensures Inv(EMPTY)
  {
    assert Ids(EMPTY.rows) == {};
  }

  lemma {:induction false} RunKeepsInv(ts: seq<Table>, acts: seq<Action>, k: nat)
    requires IsTrace(ts, acts) && Inv(ts[0]) && k <= |acts|
    ensures Inv(ts[k])
  {
    if k > 0 {
      RunKeepsInv(ts, acts, k - 1);
      hide Inv, Next;
      assert Next(ts[k - 1], acts[k - 1], ts[k - 1 + 1]);
      StepKeepsInv(ts[k - 1], acts[k - 1], ts[k]);
    }
  }

  // ---- Conservation -----------------------------------------------------------------------------

  // Every finding ever persisted was absorbed by exactly one record, the one that the log names.
  lemma AbsorbedByExactlyOne(t: Table, at: nat, id: nat)
    requires Inv(t) && at < |t.log| && id in t.history
    ensures InHistory(at, t.history[id]) <==> id == t.log[at].owner
  {
    assert id in Ids(t.rows);
    var f :| f in t.rows && f.id == id;
    assert RowFolded(f, t);
    hide Folded;
  }

  // ---- What happens to one record over a run ------------------------------------------------------

  // g is a later version of f: identity, kind and creation are kept and the window only grows.
  predicate Later(f: Finding, g: Finding) {
    && g.id == f.id && g.workspace == f.workspace && g.series == f.series
    && g.firstRun == f.firstRun && g.createdAt == f.createdAt
    && KindOf(g.check, g.evidence) == KindOf(f.check, f.evidence)
    && g.window.start <= f.window.start && f.window.end <= g.window.end
    && g.occurrences >= f.occurrences
  }

  lemma MergedIsLater(f: Finding, r: Report, x: Incoming)
    requires Candidate(f, r, x)
    ensures Later(f, Merged(f, r, x)) && Merged(f, r, x).status == f.status
    ensures StoredWindow(x).start >= Merged(f, r, x).window.start
    ensures StoredWindow(x).end <= Merged(f, r, x).window.end
  {
    CandidateHasSameKind(f, r, x);
    hide KindOf, StoredWindow;
  }

  // A persisted finding inserts an open record, or grows one absorbing candidate.
  lemma PersistEffect(t: Table, r: Report, x: Incoming, t': Table) returns (g: Finding)
    requires Inv(t) && Next(t, Persist(r, x), t')
    ensures Replaces(t.rows, t'.rows, g)
    ensures |t'.rows| == |t.rows| + (if NoCandidate(t.rows, r, x) then 1 else 0)
    ensures if NoCandidate(t.rows, r, x) then g == Created(t.nextId, r, x) && g.id !in Ids(t.rows)
            else exists f :: IsBest(t.rows, f, r, x) && g == Merged(f, r, x)
  {
    hide RowsFolded, AllAbsorbed, Candidate, MergedRows, Merged, StoredWindow, Ratio, QueryLe;
    if t' == InsertRow(t, r, x) && NoCandidate(t.rows, r, x) {
      g := Created(t.nextId, r, x);
      NewId(t);
    } else {
      var i: nat :| i < |t.rows| && IsBest(t.rows, t.rows[i], r, x) && t.rows[i].id in t.history
                    && t' == MergeRow(t, i, r, x);
      g := Merged(t.rows[i], r, x);
      assert g.id == t.rows[i].id by { MergedIsLater(t.rows[i], r, x); }
      MergedRowsMembers(t.rows, i, g);
    }
  }

  lemma ChangeEffect(t: Table, a: Action, t': Table) returns (f: Finding, g: Finding)
    requires Inv(t) && Next(t, a, t') && a.Change? && t' != t
    ensures f in t.rows && Changeable(f, a.workspace, a.id, a.status)
    ensures g == WithStatus(f, a.status, a.reason, a.now) && Replaces(t.rows, t'.rows, g)
    ensures |t'.rows| == |t.rows|
  {
    hide RowsFolded, AllAbsorbed;
    var i: nat :| i < |t.rows| && Changeable(t.rows[i], a.workspace, a.id, a.status)
                  && t' == t.(rows := t.rows[i := WithStatus(t.rows[i], a.status, a.reason, a.now)]);
    f := t.rows[i];
    g := WithStatus(f, a.status, a.reason, a.now);
    assert t'.rows == MergedRows(t.rows, i, g);
    MergedRowsMembers(t.rows, i, g);
  }

  ghost predicate SameIdSameRow(rows: seq<Finding>) {
    forall f, g :: f in rows && g in rows && f.id == g.id ==> f == g
  }

  lemma UniqueRows(t: Table)
    requires Inv(t)
    ensures SameIdSameRow(t.rows)
  {
  }

  lemma KnownId(rows: seq<Finding>, f: Finding)
    requires f in rows
    ensures f.id in Ids(rows)
  {
  }

  lemma BestIsCandidate(rows: seq<Finding>, f: Finding, r: Report, x: Incoming)
    requires IsBest(rows, f, r, x)
    ensures f in rows && Candidate(f, r, x)
  {
  }

  // No record is ever lost, and each step leaves a later version of it. Persisting changes only
  // absorbing records, so it never alters a muted or a resolved one.
  lemma StepKeepsRecord(t: Table, a: Action, t': Table, f: Finding) returns (g: Finding)
    requires Inv(t) && Next(t, a, t') && f in t.rows
    ensures g in t'.rows && Later(f, g)
    ensures a.Persist? ==> g == f || (Candidate(f, a.report, a.incoming) && g.status == f.status)
    ensures a.Change? ==> g.window == f.window && g.occurrences == f.occurrences && (g.id != a.id ==> g == f)
  {
    hide Inv, Next, Candidate, Merged, KindOf, Ids, IsBest, NoCandidate, Created;
    UniqueRows(t);
    g := f;
    if a.Persist? {
      var h := PersistEffect(t, a.report, a.incoming, t');
      KnownId(t.rows, f);
      if h.id == f.id {
        var q :| IsBest(t.rows, q, a.report, a.incoming) && h == Merged(q, a.report, a.incoming);
        BestIsCandidate(t.rows, q, a.report, a.incoming);
        MergedIsLater(q, a.report, a.incoming);
        g := h;
      }
    } else if t' != t {
      var q, h := ChangeEffect(t, a, t');
      if h.id == f.id { g := h; }
    }
  }

  lemma {:induction false} RunKeepsRecord(ts: seq<Table>, acts: seq<Action>, i: nat, j: nat, f: Finding)
    returns (g: Finding)
    requires IsTrace(ts, acts) && Inv(ts[0]) && i <= j <= |acts| && f in ts[i].rows
    ensures g in ts[j].rows && Later(f, g)
    decreases j - i
  {
    hide Inv, Next, KindOf;
    if i == j {
      g := f;
    } else {
      RunKeepsInv(ts, acts, i);
      assert Next(ts[i], acts[i], ts[i + 1]);
      var m := StepKeepsRecord(ts[i], acts[i], ts[i + 1], f);
      g := RunKeepsRecord(ts, acts, i + 1, j, m);
    }
  }

  ghost function Closed(rows: seq<Finding>): set<Finding> {
    set f | f in rows && (f.status == Muted || f.status == Resolved)
  }

  // The muted and resolved records before and after persisting are the same ones, unchanged.
  lemma PersistLeavesClosed(t: Table, r: Report, x: Incoming, t': Table)
    requires Inv(t) && Next(t, Persist(r, x), t')
    ensures Closed(t'.rows) == Closed(t.rows)
  {
    hide Inv, Next, Candidate, IsBest, NoCandidate, Ids, Merged;
    UniqueRows(t);
    var g := PersistEffect(t, r, x, t');
    if !NoCandidate(t.rows, r, x) {
      var f :| IsBest(t.rows, f, r, x) && g == Merged(f, r, x);
      BestIsCandidate(t.rows, f, r, x);
      CandidateOfSeries(f, r, x);
      MergedIsLater(f, r, x);
    }
    forall f ensures f in Closed(t'.rows) <==> f in Closed(t.rows) {
      if f in t.rows { KnownId(t.rows, f); }
    }
  }
}
