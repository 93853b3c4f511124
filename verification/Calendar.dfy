// Calendar arithmetic of the cache (core/tabayyun-core/src/cache.rs): days to months and back in
// the proleptic Gregorian calendar (section 3.2.1 of ISO 8601:2004), month starts in nanoseconds,
// and the months a time range overlaps.
module Calendar {
  import opened Int64

  const NS_PER_DAY: int := 86_400_000_000_000
  const END_OF_TIME: int := MAX

  datatype Month = Month(y: int, m: int) {
    predicate Valid() { 1 <= m <= 12 }

    function Next(): Month {
      if m == 12 then Month(y + 1, 1) else Month(y, m + 1)
    }

    predicate Le(other: Month) {
      y < other.y || (y == other.y && m <= other.m)
    }

    // Months counted on one axis; lexicographic order on valid months is order here.
    function Index(): int { 12 * y + m }
  }

  // ---- The reference: leap years and month lengths ----------------------------------------

  predicate IsLeap(y: int) {
    y % 4 == 0 && (y % 100 != 0 || y % 400 == 0)
  }

  function MonthLength(mo: Month): int
    requires mo.Valid()
  {
    if mo.m == 2 then (if IsLeap(mo.y) then 29 else 28)
    else if mo.m == 4 || mo.m == 6 || mo.m == 9 || mo.m == 11 then 30
    else 31
  }

  // ---- The code's two conversions -------------------------------------------------------

  // Days before year-of-era yoe, in a year that starts on 1 March.
  function EraYearStart(yoe: int): int {
    365 * yoe + yoe / 4 - yoe / 100
  }

  function YearOfEra(doe: int): int {
    (doe - doe / 1460 + doe / 36_524 - doe / 146_096) / 365
  }

  function CivilFromDays(z: int): Month {
    var z := z + 719_468;
    var era := z / 146_097;
    var doe := z % 146_097;
    var yoe := YearOfEra(doe);
    var doy := doe - EraYearStart(yoe);
    var mp := (5 * doy + 2) / 153;
    var m := if mp < 10 then mp + 3 else mp - 9;
    var y := yoe + era * 400 + (if m <= 2 then 1 else 0);
    Month(y, m)
  }

  // Days before 1 March of year y, counted from 1 March of year 0.
  function MarchDays(y: int): int {
    y / 400 * 146_097 + EraYearStart(y % 400)
  }

  // Days before month mp of a year that starts in March (mp 0 is March, mp 11 February).
  function MonthOffset(mp: int): int {
    (153 * mp + 2) / 5
  }

  // The month may be 13, the next January.
  function DaysFromCivil(y: int, m: int): int {
    var (y, m) := if m > 12 then (y + 1, m - 12) else (y, m);
    var y := if m <= 2 then y - 1 else y;
    var mp := if m > 2 then m - 3 else m + 9;
    MarchDays(y) + MonthOffset(mp) - 719_468
  }

  function FirstDay(mo: Month): int {
    DaysFromCivil(mo.y, mo.m)
  }

  // ---- days_from_civil counts real month lengths -------------------------------------------

  lemma EraYearStep(yoe: int)
    ensures EraYearStart(yoe + 1) == EraYearStart(yoe) + 365
         + (if (yoe + 1) % 4 == 0 then 1 else 0) - (if (yoe + 1) % 100 == 0 then 1 else 0)
  {
    FourthStep(yoe);
    HundredthStep(yoe);
  }

  lemma FourthStep(x: int)
    ensures (x + 1) / 4 == x / 4 + (if (x + 1) % 4 == 0 then 1 else 0)
  {
  }

  lemma HundredthStep(x: int)
    ensures (x + 1) / 100 == x / 100 + (if (x + 1) % 100 == 0 then 1 else 0)
  {
  }

  lemma LeapByEra(era: int, yoe: int)
    ensures IsLeap(400 * era + yoe) == IsLeap(yoe)
  {
    assert (400 * era + yoe) % 4 == yoe % 4 by { Remainder4(100 * era + yoe / 4, yoe % 4); }
    assert (400 * era + yoe) % 100 == yoe % 100 by { Remainder100(4 * era + yoe / 100, yoe % 100); }
    assert (400 * era + yoe) % 400 == yoe % 400 by { Remainder400(era + yoe / 400, yoe % 400); }
  }

  lemma Remainder4(q: int, r: int)
    requires 0 <= r < 4
    ensures (4 * q + r) % 4 == r
  {
  }

  lemma Remainder100(q: int, r: int)
    requires 0 <= r < 100
    ensures (100 * q + r) % 100 == r
  {
  }

  lemma Remainder400(q: int, r: int)
    requires 0 <= r < 400
    ensures (400 * q + r) % 400 == r
  {
  }

  lemma EraYearLength(yoe: int)
    requires 0 <= yoe < 399
    ensures EraYearStart(yoe + 1) == EraYearStart(yoe) + 365 + (if IsLeap(yoe + 1) then 1 else 0)
  {
    hide EraYearStart;
    EraYearStep(yoe);
  }

  lemma LastEraYear()
    ensures 146_097 + EraYearStart(0) == EraYearStart(399) + 366 && IsLeap(400)
  {
  }

  // One March-based year to the next, across era ends.
  lemma MarchYearLength(y: int)
    ensures MarchDays(y + 1) == MarchDays(y) + 365 + (if IsLeap(y + 1) then 1 else 0)
  {
    hide EraYearStart, IsLeap;
    var era, yoe := y / 400, y % 400;
    LeapByEra(era, yoe + 1);
    assert y + 1 == 400 * era + (yoe + 1);
    if yoe == 399 {
      assert (y + 1) / 400 == era + 1 && (y + 1) % 400 == 0;
      LastEraYear();
    } else {
      assert (y + 1) / 400 == era && (y + 1) % 400 == yoe + 1;
      EraYearLength(yoe);
    }
  }

  lemma MonthOffsetSteps(m: int)
    requires 1 <= m <= 12 && m != 2
    ensures var mp := if m > 2 then m - 3 else m + 9;
            MonthOffset(mp + 1) - MonthOffset(mp) == (if m == 4 || m == 6 || m == 9 || m == 11 then 30 else 31)
  {
    var mp := if m > 2 then m - 3 else m + 9;
    assert mp == 0 || mp == 1 || mp == 2 || mp == 3 || mp == 4 || mp == 5
        || mp == 6 || mp == 7 || mp == 8 || mp == 9 || mp == 10;
  }

  lemma EpochDay()
    ensures FirstDay(Month(1970, 1)) == 0
  {
  }

  lemma MonthFollows(mo: Month)
    requires mo.Valid()
    ensures FirstDay(mo.Next()) == FirstDay(mo) + MonthLength(mo)
  {
    hide MarchDays, IsLeap, MonthOffset;
    assert MonthOffset(0) == 0 && MonthOffset(11) == 337 by { OffsetEnds(); }
    if mo.m == 2 {
      MarchYearLength(mo.y - 1);
    } else {
      MonthOffsetSteps(mo.m);
    }
  }

  lemma OffsetEnds()
    ensures MonthOffset(0) == 0 && MonthOffset(11) == 337
  {
  }

  // With the day number of one month fixed, the month lengths fix the day number of every month.
  lemma DaysFromCivilCountsMonthLengths(mo: Month)
    requires mo.Valid()
    ensures FirstDay(Month(1970, 1)) == 0
    ensures FirstDay(mo.Next()) == FirstDay(mo) + MonthLength(mo)
    ensures DaysFromCivil(mo.y, mo.m + 1) == FirstDay(mo.Next())
  {
    hide MarchDays, IsLeap, MonthOffset, MonthLength;
    EpochDay();
    MonthFollows(mo);
  }

  // ---- civil_from_days finds the month that holds a day ---------------------------------------

  // Year 100 c + 4 k + j of the era: k four-year blocks and j years into century c. The estimate of
  // the year may fall one short of a block (j == -1).
  lemma CenturyYear(c: int, k: int, j: int)
    requires 0 <= c <= 3 && 0 <= k <= 25 && -1 <= j <= 3 && 0 <= 4 * k + j <= 99
    ensures EraYearStart(100 * c + 4 * k + j) == 365 * (100 * c + 4 * k + j) + 24 * c + k - (if j < 0 then 1 else 0)
    ensures EraYearStart(100 * c + 4 * k + j + 1)
         == 365 * (100 * c + 4 * k + j + 1) + 24 * c + k + (if j == 3 then 1 else 0)
          - (if 4 * k + j == 99 then 1 else 0)
  {
    var y := 100 * c + 4 * k + j;
    assert y / 4 == 25 * c + k + (if j < 0 then -1 else 0);
    assert (y + 1) / 4 == 25 * c + k + (if j == 3 then 1 else 0);
    assert y / 100 == c && (y + 1) / 100 == c + (if 4 * k + j == 99 then 1 else 0);
  }

  // Inside one century c of the era, r days in: k four-year blocks and j years.
  lemma CenturyBrackets(c: int, r: int)
    requires 0 <= c <= 3 && 0 <= r < 36_524
    ensures var doe := 36_524 * c + r;
            var yoe := YearOfEra(doe);
            0 <= yoe < 400 && EraYearStart(yoe) <= doe < EraYearStart(yoe + 1)
  {
    hide EraYearStart;
    var doe := 36_524 * c + r;
    var k, s := (24 * c + r) / 1460, (24 * c + r) % 1460;
    var j := (s - 24 * c - k) / 365;
    assert doe / 1460 == 25 * c + k;
    assert doe / 36_524 == c && doe / 146_096 == 0;
    assert doe - doe / 1460 + doe / 36_524 == 365 * (100 * c + 4 * k) + (s - 24 * c - k);
    assert YearOfEra(doe) == 100 * c + 4 * k + j;
    assert -1 <= j <= 3 && 0 <= k <= 25;
    assert 0 <= 4 * k + j <= 99;
    CenturyYear(c, k, j);
  }

  lemma YearOfEraBrackets(doe: int)
    requires 0 <= doe < 146_097
    ensures 0 <= YearOfEra(doe) < 400
    ensures EraYearStart(YearOfEra(doe)) <= doe
    ensures doe < EraYearStart(YearOfEra(doe) + 1) || (YearOfEra(doe) == 399 && doe == 146_096)
  {
    if doe < 146_096 {
      CenturyBrackets(doe / 36_524, doe % 36_524);
    }
  }

  lemma MarchYearBrackets(z: int) returns (y: int, doy: int)
    ensures y == YearOfEra((z + 719_468) % 146_097) + (z + 719_468) / 146_097 * 400
    ensures doy == (z + 719_468) % 146_097 - EraYearStart(YearOfEra((z + 719_468) % 146_097))
    ensures z + 719_468 == MarchDays(y) + doy
    ensures 0 <= doy < MarchDays(y + 1) - MarchDays(y)
  {
    var era, doe := (z + 719_468) / 146_097, (z + 719_468) % 146_097;
    var yoe := YearOfEra(doe);
    YearOfEraBrackets(doe);
    y, doy := yoe + era * 400, doe - EraYearStart(yoe);
    assert y / 400 == era && y % 400 == yoe;
    if yoe == 399 {
      assert (y + 1) / 400 == era + 1 && (y + 1) % 400 == 0;
    } else {
      assert (y + 1) / 400 == era && (y + 1) % 400 == yoe + 1;
    }
  }

  // The month of a year day, by the fifths-of-153 rule.
  lemma MonthOfDay(doy: int)
    requires 0 <= doy <= 365
    ensures var mp := (5 * doy + 2) / 153;
            0 <= mp <= 11 && MonthOffset(mp) <= doy && (mp < 11 ==> doy < MonthOffset(mp + 1))
  {
  }

  lemma CivilFromDaysBrackets(z: int)
    ensures CivilFromDays(z).Valid()
    ensures FirstDay(CivilFromDays(z)) <= z < DaysFromCivil(CivilFromDays(z).y, CivilFromDays(z).m + 1)
  {
    hide MarchDays, EraYearStart, YearOfEra;
    var y, doy := MarchYearBrackets(z);
    MarchYearLength(y);
    MonthOfDay(doy);
    var mp := (5 * doy + 2) / 153;
    var m := if mp < 10 then mp + 3 else mp - 9;
    assert CivilFromDays(z) == Month(y + (if m <= 2 then 1 else 0), m);
  }

  // ---- Uniqueness, inverse and order -------------------------------------------------------

  lemma {:induction false} LaterMonthStartsLater(a: Month, b: Month)
    requires a.Valid() && b.Valid() && a.Le(b) && a != b
    ensures FirstDay(a.Next()) <= FirstDay(b)
    decreases b.Index() - a.Index()
  {
    hide FirstDay, DaysFromCivil;
    DaysFromCivilCountsMonthLengths(a);
    if a.Next() != b {
      DaysFromCivilCountsMonthLengths(a.Next());
      LaterMonthStartsLater(a.Next(), b);
    }
  }

  // The month of a day is the one valid month whose days hold it.
  lemma CivilFromDaysUnique(z: int, mo: Month)
    requires mo.Valid()
    ensures CivilFromDays(z) == mo <==> FirstDay(mo) <= z < FirstDay(mo.Next())
  {
    hide FirstDay, DaysFromCivil, CivilFromDays;
    CivilFromDaysBrackets(z);
    var c := CivilFromDays(z);
    DaysFromCivilCountsMonthLengths(c);
    DaysFromCivilCountsMonthLengths(mo);
    if c != mo {
      if c.Le(mo) { LaterMonthStartsLater(c, mo); } else { LaterMonthStartsLater(mo, c); }
    }
  }

  lemma DaysStartInOrder(z: int, mo: Month)
    requires mo.Valid()
    ensures mo.Le(CivilFromDays(z)) <==> FirstDay(mo) <= z
  {
    hide FirstDay, DaysFromCivil, CivilFromDays;
    var c := CivilFromDays(z);
    CivilFromDaysBrackets(z);
    DaysFromCivilCountsMonthLengths(c);
    DaysFromCivilCountsMonthLengths(mo);
    if c != mo {
      if c.Le(mo) { LaterMonthStartsLater(c, mo); } else { LaterMonthStartsLater(mo, c); }
    }
  }

  lemma CivilOfFirstDay(mo: Month)
    requires mo.Valid()
    ensures CivilFromDays(FirstDay(mo)) == mo
  {
    hide FirstDay, DaysFromCivil, CivilFromDays;
    DaysFromCivilCountsMonthLengths(mo);
    CivilFromDaysUnique(FirstDay(mo), mo);
  }

  lemma CivilFromDaysMonotone(z: int, z': int)
    requires z <= z'
    ensures CivilFromDays(z).Le(CivilFromDays(z'))
  {
    hide FirstDay, DaysFromCivil, CivilFromDays;
    CivilFromDaysBrackets(z);
    CivilFromDaysBrackets(z');
    var a, b := CivilFromDays(z), CivilFromDays(z');
    if !a.Le(b) {
      LaterMonthStartsLater(b, a);
      DaysFromCivilCountsMonthLengths(b);
    }
  }

  // ---- Nanoseconds -------------------------------------------------------------------

  function YearMonth(tsNs: int): Month {
    CivilFromDays(tsNs / NS_PER_DAY)
  }

  function MonthStartNs(y: int, m: int): int {
    SatMul(DaysFromCivil(y, m), NS_PER_DAY)
  }

  // Whether t lies before the half-open range end; an end at END_OF_TIME has none.
  predicate BeforeEnd(t: int, end: int) {
    t < end || end == END_OF_TIME
  }

  predicate InSpan(t: int, start: int, end: int) {
    start <= t && BeforeEnd(t, end)
  }

  lemma YearMonthUnique(t: int, mo: Month)
    requires mo.Valid()
    ensures YearMonth(t) == mo
       <==> FirstDay(mo) * NS_PER_DAY <= t < FirstDay(mo.Next()) * NS_PER_DAY
  {
    hide CivilFromDays, FirstDay;
    CivilFromDaysUnique(t / NS_PER_DAY, mo);
  }

  lemma YearMonthMonotone(t: int, t': int)
    requires t <= t'
    ensures YearMonth(t).Valid() && YearMonth(t').Valid()
    ensures YearMonth(t).Le(YearMonth(t'))
  {
    hide CivilFromDays, DaysFromCivil;
    CivilFromDaysMonotone(t / NS_PER_DAY, t' / NS_PER_DAY);
    CivilFromDaysBrackets(t / NS_PER_DAY);
    CivilFromDaysBrackets(t' / NS_PER_DAY);
  }

  // The saturated month end separates exactly this month's later samples from the next months',
  // except that i64::MAX itself never lies before a saturated end.
  lemma MonthEndSeparates(t: int, u: int)
    requires InRange(t) && InRange(u) && t <= u
    ensures var mo := YearMonth(t);
            && MonthStartNs(mo.y, mo.m) <= t
            && (u < MonthStartNs(mo.y, mo.m + 1) ==> YearMonth(u) == mo)
            && (u >= MonthStartNs(mo.y, mo.m + 1) && u != MAX ==> YearMonth(u) != mo)
  {
    hide CivilFromDays, DaysFromCivil;
    var mo := YearMonth(t);
    CivilFromDaysBrackets(t / NS_PER_DAY);
    YearMonthUnique(t, mo);
    YearMonthUnique(u, mo);
    DaysFromCivilCountsMonthLengths(mo);
  }

  // In nanoseconds a month is its days long, up to the 64-bit limits, and January 1970 starts at 0.
  lemma MonthNanoseconds(mo: Month)
    requires mo.Valid()
    ensures MonthStartNs(1970, 1) == 0
    ensures MIN < MonthStartNs(mo.y, mo.m) && MonthStartNs(mo.y, mo.m + 1) < MAX ==>
              MonthStartNs(mo.y, mo.m + 1)
              == MonthStartNs(mo.y, mo.m) + MonthLength(mo) * (24 * 60 * 60 * 1_000_000_000)
  {
    hide DaysFromCivil, MonthLength;
    DaysFromCivilCountsMonthLengths(mo);
    EpochDay();
    LongerMonth(mo);
  }

  lemma LongerMonth(mo: Month)
    requires mo.Valid()
    ensures 28 <= MonthLength(mo) <= 31
  {
  }

  // ---- months_between --------------------------------------------------------------------

  function LastInstant(end: int): int {
    if end == END_OF_TIME then end else SatSub(end, 1)
  }

  predicate StrictlyIncreasing(months: seq<Month>) {
    forall i, j :: 0 <= i < j < |months| ==> months[i].Le(months[j]) && months[i] != months[j]
  }

  lemma MonthsStartInOrder(t: int, mo: Month)
    requires mo.Valid()
    ensures mo.Le(YearMonth(t)) <==> FirstDay(mo) * NS_PER_DAY <= t
  {
    hide CivilFromDays, FirstDay;
    DaysStartInOrder(t / NS_PER_DAY, mo);
  }

  lemma MonthReached(mo: Month) returns (x: int)
    requires mo.Valid()
    ensures x == FirstDay(mo) * NS_PER_DAY && YearMonth(x) == mo
  {
    hide CivilFromDays, FirstDay;
    x := FirstDay(mo) * NS_PER_DAY;
    assert x / NS_PER_DAY == FirstDay(mo);
    CivilOfFirstDay(mo);
  }

  lemma EveryMonthBetweenIsReached(start: int, t: int, mo: Month)
    requires start <= t && mo.Valid() && YearMonth(start).Le(mo) && mo.Le(YearMonth(t))
    ensures exists x :: start <= x <= t && YearMonth(x) == mo
  {
    hide YearMonth, FirstDay;
    if mo != YearMonth(start) {
      var x := MonthReached(mo);
      MonthsStartInOrder(t, mo);
      MonthsStartInOrder(start, mo);
      assert start <= x <= t && YearMonth(x) == mo;
    }
  }

  // The months of the range, strictly increasing. For a non-empty range they are exactly the
  // months that hold one of its instants.
  method MonthsBetween(start: int, end: int) returns (out: seq<Month>)
    requires InRange(start) && InRange(end)
    ensures StrictlyIncreasing(out)
    ensures forall mo :: mo in out <==> mo.Valid() && YearMonth(start).Le(mo) && mo.Le(YearMonth(LastInstant(end)))
    ensures BeforeEnd(start, end) ==>
              forall mo :: mo in out <==> exists t :: InRange(t) && InSpan(t, start, end) && YearMonth(t) == mo
  {
    YearMonthMonotone(start, start);
    YearMonthMonotone(LastInstant(end), LastInstant(end));
    out := MonthsFrom(YearMonth(start), YearMonth(LastInstant(end)));
    if BeforeEnd(start, end) {
      MonthsAreExact(out, start, end);
    }
  }

  // The loop of months_between.
  method MonthsFrom(first: Month, last: Month) returns (out: seq<Month>)
    requires first.Valid() && last.Valid()
    ensures StrictlyIncreasing(out)
    ensures forall mo :: mo in out <==> mo.Valid() && first.Le(mo) && mo.Le(last)
  {
    out := [];
    var cur := first;
    while cur.Le(last)
      invariant cur.Valid() && first.Le(cur)
      invariant StrictlyIncreasing(out)
      invariant forall mo :: mo in out ==> mo.Le(last)
      invariant forall mo :: mo in out <==> mo.Valid() && first.Le(mo) && mo.Le(cur) && mo != cur
      decreases last.Index() + 1 - cur.Index()
    {
      out := out + [cur];
      cur := cur.Next();
    }
  }

  lemma MonthsAreExact(out: seq<Month>, start: int, end: int)
    requires InRange(start) && InRange(end) && BeforeEnd(start, end)
    requires forall mo :: mo in out <==> mo.Valid() && YearMonth(start).Le(mo) && mo.Le(YearMonth(LastInstant(end)))
    ensures forall mo :: mo in out <==> exists t :: InRange(t) && InSpan(t, start, end) && YearMonth(t) == mo
  {
    hide YearMonth;
    forall mo ensures mo in out <==> exists t :: InRange(t) && InSpan(t, start, end) && YearMonth(t) == mo {
      MonthIsExact(mo, start, end);
    }
  }

  lemma MonthIsExact(mo: Month, start: int, end: int)
    requires InRange(start) && InRange(end) && BeforeEnd(start, end)
    ensures mo.Valid() && YearMonth(start).Le(mo) && mo.Le(YearMonth(LastInstant(end)))
       <==> exists t :: InRange(t) && InSpan(t, start, end) && YearMonth(t) == mo
  {
    hide YearMonth;
    if t :| InRange(t) && InSpan(t, start, end) && YearMonth(t) == mo {
      YearMonthMonotone(start, t);
      YearMonthMonotone(t, LastInstant(end));
    }
    if mo.Valid() && YearMonth(start).Le(mo) && mo.Le(YearMonth(LastInstant(end))) {
      EveryMonthBetweenIsReached(start, LastInstant(end), mo);
    }
  }
}
