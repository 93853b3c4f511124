// What persisting a finding and changing a status do to the stored rows, field by field
// (services/findings.py).
module FindingMeaning {
  import opened Frame
  import opened Timeconv
  import opened Findings
  import opened FindingLaws

  // ---- Which record absorbs a finding ------------------------------------------------------------

  // The stored bounds of an incoming finding in microseconds: rounded outwards and never empty.
  function StartOf(x: Incoming): int {
    x.start / 1000
  }

  function EndOf(x: Incoming): int {
    var up := if x.end % 1000 == 0 then x.end / 1000 else x.end / 1000 + 1;
    if up > StartOf(x) then up else StartOf(x) + 1
  }

  // The record is open or acknowledged, overlaps the finding, is of its kind and of another first run.
  ghost predicate Absorbs(f: Finding, r: Report, x: Incoming) {
    && f.workspace == r.workspace && f.series == r.series && f.check == x.check
    && (f.status == Open || f.status == Acked)
    && f.window.start < EndOf(x) && StartOf(x) < f.window.end
    && f.firstRun != Some(r.run)
    && (forall key :: key in f.evidence <==> key in x.evidence)
    && ("group_id" in x.evidence && "group_id" in f.evidence ==> f.evidence["group_id"] == x.evidence["group_id"])
    && ("partner" in x.evidence && "partner" in f.evidence ==> f.evidence["partner"] == x.evidence["partner"])
  }

  // Microseconds in both windows, and from the first to the last of either.
  function Both(f: Finding, x: Incoming): int {
    var n := (if f.window.end < EndOf(x) then f.window.end else EndOf(x))
             - (if f.window.start > StartOf(x) then f.window.start else StartOf(x));
    if n < 0 then 0 else n
  }

  function Either(f: Finding, x: Incoming): int {
    (if f.window.end > EndOf(x) then f.window.end else EndOf(x))
    - (if f.window.start < StartOf(x) then f.window.start else StartOf(x))
  }

  // f has the larger share of microseconds in common, or the same and the earlier window, or the same
  // start and is the older record.
  predicate Preferred(f: Finding, g: Finding, x: Incoming) {
    || Both(g, x) * Either(f, x) < Both(f, x) * Either(g, x)
    || (Both(g, x) * Either(f, x) == Both(f, x) * Either(g, x)
        && (f.window.start < g.window.start || (f.window.start == g.window.start && f.createdAt <= g.createdAt)))
  }

  ghost predicate Chosen(rows: seq<Finding>, f: Finding, r: Report, x: Incoming) {
    && f in rows && Absorbs(f, r, x)
    && forall g :: g in rows && Absorbs(g, r, x) ==> Preferred(f, g, x)
  }

  // ---- What a step changes -----------------------------------------------------------------------

  predicate IsNew(g: Finding, r: Report, x: Incoming) {
    && g.workspace == r.workspace && g.series == r.series && g.check == x.check
    && g.dimension == x.dimension && g.severity == x.severity && g.impact == x.impact
    && g.summary == x.summary && g.evidence == x.evidence
    && g.window.start == StartOf(x) && g.window.end == EndOf(x)
    && g.status == Open && g.reason == None && g.statusAt == None
    && g.firstRun == Some(r.run) && g.lastRun == Some(r.run) && g.occurrences == 1
    && g.createdAt == r.now && g.updatedAt == r.now
  }

  // g is f with the incoming finding folded in.
  predicate FoldedIn(f: Finding, g: Finding, r: Report, x: Incoming) {
    // The identity and what people set stay.
    && g.id == f.id && g.workspace == f.workspace && g.series == f.series && g.check == f.check
    && g.status == f.status && g.reason == f.reason && g.statusAt == f.statusAt
    && g.firstRun == f.firstRun && g.createdAt == f.createdAt
    // The facts are the new ones.
    && g.dimension == x.dimension && g.severity == x.severity && g.impact == x.impact
    && g.summary == x.summary && g.evidence == x.evidence
    && g.lastRun == Some(r.run) && g.updatedAt == r.now
    // The window covers both, and one run counts once.
    && g.window.start == (if f.window.start < StartOf(x) then f.window.start else StartOf(x))
    && g.window.end == (if f.window.end > EndOf(x) then f.window.end else EndOf(x))
    && g.occurrences == (if f.lastRun == Some(r.run) then f.occurrences else f.occurrences + 1)
  }

  // All rows but those with the id stay the same.
  ghost predicate OthersStay(before: seq<Finding>, after: seq<Finding>, id: nat) {
    forall f: Finding :: f.id != id ==> (f in after <==> f in before)
  }

  // A finding that no record absorbs becomes a new row; any other changes the chosen record.
  ghost predicate Persisted(before: seq<Finding>, r: Report, x: Incoming, after: seq<Finding>, inserted: bool) {
    && (inserted <==> forall f :: f in before ==> !Absorbs(f, r, x))
    && (inserted ==> exists g :: IsNew(g, r, x) && after == before + [g] && forall f :: f in before ==> f.id != g.id)
    && (!inserted ==> |after| == |before| && exists f, g ::
          Chosen(before, f, r, x) && FoldedIn(f, g, r, x) && g in after && (g == f || f !in after)
          && OthersStay(before, after, f.id))
  }

  // Muted and resolved records are the same ones before and after.
  ghost predicate ClosedStay(before: seq<Finding>, after: seq<Finding>) {
    forall f: Finding :: f.status == Muted || f.status == Resolved ==> (f in before <==> f in after)
  }

  // ---- The code's definitions in these terms --------------------------------------------------------

  lemma StoredIs(x: Incoming)
    ensures StoredWindow(x) == Window(StartOf(x), EndOf(x))
  {
  }

  lemma AbsorbsIff(f: Finding, r: Report, x: Incoming)
    ensures Candidate(f, r, x) <==> Absorbs(f, r, x)
  {
    hide StoredWindow, StartOf, EndOf;
    StoredIs(x);
    SubjectIff(f.evidence, x.evidence);
  }

  lemma SubjectIff(stored: Evidence, e: Evidence)
    ensures SameSubject(stored, e) <==>
              && (forall key :: key in stored <==> key in e)
              && ("group_id" in e && "group_id" in stored ==> stored["group_id"] == e["group_id"])
              && ("partner" in e && "partner" in stored ==> stored["partner"] == e["partner"])
  {
    if SameSubject(stored, e) {
      if "group_id" in e { assert Get(stored, "group_id") == Some(e["group_id"]); }
      if "partner" in e { assert Get(stored, "partner") == Some(e["partner"]); }
    }
  }

  lemma RatioIs(f: Finding, x: Incoming)
    ensures Either(f, x) > 0
    ensures Ratio(f, x) == Both(f, x) as real / Either(f, x) as real
  {
    hide StoredWindow;
    StoredIs(x);
  }

  lemma CompareFractions(a: int, b: int, c: int, d: int)
    requires b > 0 && d > 0
    ensures a as real / b as real < c as real / d as real <==> a * d < c * b
    ensures a as real / b as real == c as real / d as real <==> a * d == c * b
  {
    var p, q, bb, dd := a as real / b as real, c as real / d as real, b as real, d as real;
    assert p * bb == a as real && q * dd == c as real;
    assert (a * d) as real == p * bb * dd;
    assert (c * b) as real == q * dd * bb;
    Scale(p, q, bb * dd);
  }

  lemma Scale(p: real, q: real, n: real)
    requires n > 0.0
    ensures p < q <==> p * n < q * n
    ensures p == q <==> p * n == q * n
  {
  }

  lemma BestIsChosen(rows: seq<Finding>, f: Finding, r: Report, x: Incoming)
    requires IsBest(rows, f, r, x)
    ensures Chosen(rows, f, r, x)
  {
    hide Candidate, Absorbs, Ratio, Both, Either;
    AbsorbsIff(f, r, x);
    forall g | g in rows && Absorbs(g, r, x) ensures Preferred(f, g, x) {
      AbsorbsIff(g, r, x);
      PreferredIf(f, g, r, x);
    }
  }

  lemma PreferredIf(f: Finding, g: Finding, r: Report, x: Incoming)
    requires Absorbs(f, r, x) && Absorbs(g, r, x)
    requires Ratio(g, x) < Ratio(f, x) || (Ratio(g, x) == Ratio(f, x) && QueryLe(f, g))
    ensures Preferred(f, g, x)
  {
    hide Ratio, Both, Either, StartOf, EndOf;
    RatioIs(f, x);
    RatioIs(g, x);
    CompareFractions(Both(g, x), Either(g, x), Both(f, x), Either(f, x));
  }

  lemma CreatedIsNew(id: nat, r: Report, x: Incoming)
    ensures IsNew(Created(id, r, x), r, x)
  {
    hide StartOf, EndOf, StoredWindow;
    StoredIs(x);
  }

  lemma MergedIsAbsorbed(f: Finding, r: Report, x: Incoming)
    ensures FoldedIn(f, Merged(f, r, x), r, x)
  {
    hide StartOf, EndOf, StoredWindow;
    StoredIs(x);
  }

  // ---- Steps ------------------------------------------------------------------------------------

  lemma InsertMeans(t: Table, r: Report, x: Incoming)
    requires Inv(t) && NoCandidate(t.rows, r, x)
    ensures Persisted(t.rows, r, x, InsertRow(t, r, x).rows, true)
  {
    hide Candidate, Absorbs, IsNew, Created, Inv;
    CreatedIsNew(t.nextId, r, x);
    CreatedId(t.nextId, r, x);
    NewId(t);
    forall f | f in t.rows ensures !Absorbs(f, r, x) { AbsorbsIff(f, r, x); }
  }

  lemma CreatedId(id: nat, r: Report, x: Incoming)
    ensures Created(id, r, x).id == id
  {
  }

  lemma MergeMeans(t: Table, i: nat, r: Report, x: Incoming)
    requires Inv(t) && i < |t.rows| && IsBest(t.rows, t.rows[i], r, x) && t.rows[i].id in t.history
    ensures Persisted(t.rows, r, x, MergeRow(t, i, r, x).rows, false)
  {
    hide Candidate, Absorbs, FoldedIn, Merged, IsBest, Chosen, MergedRows, Inv, StoredWindow;
    var f, g := t.rows[i], Merged(t.rows[i], r, x);
    BestIsChosen(t.rows, f, r, x);
    ChosenAbsorbs(t.rows, f, r, x);
    MergedIsAbsorbed(f, r, x);
    FoldedId(f, g, r, x);
    IdsAreUnique(t);
    MergedRowsMembers(t.rows, i, g);
    UniqueRows(t);
    forall h: Finding | h.id != f.id ensures h in MergedRows(t.rows, i, g) <==> h in t.rows {}
  }

  lemma ChosenAbsorbs(rows: seq<Finding>, f: Finding, r: Report, x: Incoming)
    requires Chosen(rows, f, r, x)
    ensures f in rows && Absorbs(f, r, x)
  {
  }

  lemma FoldedId(f: Finding, g: Finding, r: Report, x: Incoming)
    requires FoldedIn(f, g, r, x)
    ensures g.id == f.id && g.status == f.status
  {
  }

  lemma IdsAreUnique(t: Table)
    requires Inv(t)
    ensures UniqueIds(t.rows)
  {
  }

  // What persisting one finding does to the rows, and that it touches no muted or resolved one.
  lemma PersistMeans(t: Table, r: Report, x: Incoming, t': Table)
    requires Inv(t) && Next(t, Persist(r, x), t')
    ensures Persisted(t.rows, r, x, t'.rows, NoCandidate(t.rows, r, x)) && ClosedStay(t.rows, t'.rows)
  {
    hide Inv, InsertRow, MergeRow, IsBest, Persisted, NoCandidate;
    if NoCandidate(t.rows, r, x) && t' == InsertRow(t, r, x) {
      InsertMeans(t, r, x);
    } else {
      var i: nat :| i < |t.rows| && IsBest(t.rows, t.rows[i], r, x) && t.rows[i].id in t.history
                    && t' == MergeRow(t, i, r, x);
      MergeMeans(t, i, r, x);
      BestCandidateExists(t.rows, t.rows[i], r, x);
    }
    PersistLeavesClosed(t, r, x, t');
    ClosedAre(t.rows);
    ClosedAre(t'.rows);
  }

  lemma BestCandidateExists(rows: seq<Finding>, f: Finding, r: Report, x: Incoming)
    requires IsBest(rows, f, r, x)
    ensures !NoCandidate(rows, r, x)
  {
  }

  lemma ClosedAre(rows: seq<Finding>)
    ensures forall f: Finding :: f in Closed(rows) <==> f in rows && (f.status == Muted || f.status == Resolved)
  {
  }

  // ---- Status changes ----------------------------------------------------------------------------

  // The word of a status.
  predicate Names(word: string, s: Status) {
    match s
    case Open => word == "open"
    case Acked => word == "acked"
    case Muted => word == "muted"
    case Resolved => word == "resolved"
  }

  // The seven permitted transitions.
  predicate Permitted(from: Status, to: Status) {
    || (from == Open && to == Acked) || (from == Open && to == Muted) || (from == Open && to == Resolved)
    || (from == Acked && to == Resolved) || (from == Acked && to == Open)
    || (from == Muted && to == Open)
    || (from == Resolved && to == Open)
  }

  // White space: the tab and line controls, the separators and the spaces.
  const WHITE: set<int> :=
    {0x09, 0x0A, 0x0B, 0x0C, 0x0D, 0x1C, 0x1D, 0x1E, 0x1F, 0x20, 0x85, 0xA0, 0x1680, 0x2000, 0x2001, 0x2002, 0x2003,
     0x2004, 0x2005, 0x2006, 0x2007, 0x2008, 0x2009, 0x200A, 0x2028, 0x2029, 0x202F, 0x205F, 0x3000}

  predicate AllWhite(s: string) {
    forall i :: 0 <= i < |s| ==> s[i] as int in WHITE
  }

  // The stored reason is the given one without white ends, and None when nothing is left or was given.
  ghost predicate Trimmed(reason: Option<string>, stored: Option<string>) {
    match stored
    case None => reason.None? || AllWhite(reason.value)
    case Some(core) =>
      && core != "" && core[0] as int !in WHITE && core[|core| - 1] as int !in WHITE && reason.Some?
      && exists a, b :: AllWhite(a) && AllWhite(b) && reason.value == a + core + b
  }

  lemma SpaceIsWhite(c: char)
    ensures IsSpace(c) <==> c as int in WHITE
  {
  }

  lemma BlankIsWhite(s: string)
    ensures Blank(s) <==> AllWhite(s)
  {
    hide IsSpace, WHITE;
    forall i | 0 <= i < |s| ensures IsSpace(s[i]) <==> s[i] as int in WHITE { SpaceIsWhite(s[i]); }
  }

  // g is f under its new status.
  ghost predicate Restated(f: Finding, g: Finding, word: string, reason: Option<string>, now: int) {
    && Names(word, g.status) && Trimmed(reason, g.reason) && g.statusAt == Some(now) && g.updatedAt == now
    && g.id == f.id && g.workspace == f.workspace && g.series == f.series && g.check == f.check
    && g.dimension == f.dimension && g.severity == f.severity && g.window == f.window && g.impact == f.impact
    && g.summary == f.summary && g.evidence == f.evidence && g.firstRun == f.firstRun && g.lastRun == f.lastRun
    && g.occurrences == f.occurrences && g.createdAt == f.createdAt
  }

  lemma AllowedIsPermitted(from: Status, to: Status)
    ensures Allowed(from, to) <==> Permitted(from, to)
  {
  }

  lemma StoredIsTrimmed(reason: Option<string>)
    ensures Trimmed(reason, StoredReason(reason))
  {
    hide IsSpace, Blank, StripLeft, StripRight, WHITE, AllWhite;
    if reason.Some? {
      var a, core, b := ReasonIsStripped(reason.value);
      BlankIsWhite(a);
      BlankIsWhite(b);
      BlankIsWhite(reason.value);
      if core != "" {
        SpaceIsWhite(core[0]);
        SpaceIsWhite(core[|core| - 1]);
      }
    }
  }

  lemma StatusIsRestated(f: Finding, word: string, s: Status, reason: Option<string>, now: int)
    requires Names(word, s)
    ensures Restated(f, WithStatus(f, s, StoredReason(reason), now), word, reason, now)
  {
    hide Trimmed, StoredReason;
    StoredIsTrimmed(reason);
  }
}
