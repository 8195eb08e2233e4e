/** UTC calendar boundaries of the lazily refreshed allowances. A time is a number
    of milliseconds since 1970-01-01T00:00Z. */
module ResetBoundary {
  import opened Options

  const DAY_MS: nat := 86_400_000

  predicate LeapYear(year: nat) { year % 4 == 0 && (year % 100 != 0 || year % 400 == 0) }

  /** Days in month `k`, counting months from January 1970. */
  function MonthLength(k: nat): (days: nat)
    ensures 28 <= days <= 31
  {
    var year, month := 1970 + k / 12, k % 12;
    if month == 1 then (if LeapYear(year) then 29 else 28)
    else if month == 3 || month == 5 || month == 8 || month == 10 then 30
    else 31
  }

  /** The day number of the first day of month `k`. */
  function MonthStart(k: nat): nat { if k == 0 then 0 else MonthStart(k - 1) + MonthLength(k - 1) }

  datatype Civil = Civil(year: nat, month: nat, date: nat)

  /** The month that holds the `rest`-th day (from 0) after the start of month `k`. */
  function CivilFrom(k: nat, rest: nat): Civil
    decreases rest
  {
    if rest < MonthLength(k) then Civil(1970 + k / 12, k % 12, rest + 1)
    else CivilFrom(k + 1, rest - MonthLength(k))
  }

  /** UTC year, month (from 0) and date (from 1) of a time. */
  function CivilOf(now: nat): Civil { CivilFrom(0, now / DAY_MS) }

  function MonthIndex(c: Civil): int { (c.year - 1970) * 12 + c.month }

  /** The time of midnight at the start of a civil date from 1970 on. */
  function UtcMidnight(year: nat, month: nat, date: nat): nat
    requires 1970 <= year && 1 <= date
  {
    (MonthStart((year - 1970) * 12 + month) + date - 1) * DAY_MS
  }

  lemma {:induction false} CivilFromCorrect(k: nat, rest: nat)
    ensures var c := CivilFrom(k, rest);
            && 1970 <= c.year && 0 <= c.month < 12 && 1 <= c.date <= MonthLength(MonthIndex(c))
            && MonthStart(MonthIndex(c)) + c.date - 1 == MonthStart(k) + rest
    decreases rest
  {
    if rest >= MonthLength(k) {
      assert MonthStart(k + 1) == MonthStart(k) + MonthLength(k);
      CivilFromCorrect(k + 1, rest - MonthLength(k));
    }
  }

  function DailyBoundary(now: nat): nat {
    var c := CivilOf(now);
    CivilFromCorrect(0, now / DAY_MS);
    UtcMidnight(c.year, c.month, c.date)
  }

  function PeriodBoundary(now: nat): nat {
    var c := CivilOf(now);
    CivilFromCorrect(0, now / DAY_MS);
    UtcMidnight(c.year, c.month, 1)
  }

  predicate IsStale(resetOn: Option<nat>, boundary: nat) { resetOn.None? || resetOn.value < boundary }

  lemma {:induction false} MonthStartMonotone(j: nat, k: nat)
    requires j <= k
    ensures MonthStart(j) <= MonthStart(k)
    ensures j < k ==> MonthStart(j) + MonthLength(j) <= MonthStart(k)
    decreases k - j
  {
    if j < k {
      MonthStartMonotone(j, k - 1);
      assert MonthStart(k) == MonthStart(k - 1) + MonthLength(k - 1);
    }
  }

  /** Going through the calendar and back yields the last midnight not after `now`. */
  lemma DailyBoundaryIsLastMidnight(now: nat)
    ensures DailyBoundary(now) == now / DAY_MS * DAY_MS
    ensures DailyBoundary(now) <= now < DailyBoundary(now) + DAY_MS
  {
    CivilFromCorrect(0, now / DAY_MS);
  }

  /** The month in which a day falls, and the period boundary counted in days. */
  lemma MonthOfDay(now: nat) returns (m: nat)
    ensures MonthStart(m) <= now / DAY_MS < MonthStart(m + 1) && PeriodBoundary(now) == MonthStart(m) * DAY_MS
  {
    hide CivilFrom, MonthLength;
    CivilFromCorrect(0, now / DAY_MS);
    m := MonthIndex(CivilOf(now));
    assert MonthStart(m + 1) == MonthStart(m) + MonthLength(m);
  }

  /** Months do not overlap. */
  lemma MonthsDisjoint(m: nat, k: nat, day: nat)
    requires MonthStart(m) <= day < MonthStart(m + 1)
    ensures MonthStart(k) == MonthStart(m) <==> MonthStart(k) <= day < MonthStart(k + 1)
  {
    if m < k {
      MonthStartMonotone(m + 1, k);
      MonthStartMonotone(m, k);
    } else if k < m {
      MonthStartMonotone(k + 1, m);
      MonthStartMonotone(k, m);
    }
  }

  lemma DayScale(day: nat, now: nat)
    ensures day * DAY_MS <= now <==> day <= now / DAY_MS
  {
  }

  /** The period boundary is the midnight that opens month `k` exactly when `now`
      lies in that month: at or after its opening, before the next month's. */
  lemma PeriodBoundaryIsMonthStart(now: nat, k: nat)
    ensures PeriodBoundary(now) == MonthStart(k) * DAY_MS
            <==> MonthStart(k) * DAY_MS <= now < MonthStart(k + 1) * DAY_MS
  {
    hide PeriodBoundary, MonthStart;
    var m := MonthOfDay(now);
    MonthsDisjoint(m, k, now / DAY_MS);
    DayScale(MonthStart(k), now);
    DayScale(MonthStart(k + 1), now);
  }

  /** The month that holds a time. */
  lemma MonthHolding(now: nat) returns (k: nat)
    ensures MonthStart(k) * DAY_MS <= now < MonthStart(k + 1) * DAY_MS && PeriodBoundary(now) == MonthStart(k) * DAY_MS
  {
    hide PeriodBoundary, MonthStart;
    k := MonthOfDay(now);
    DayScale(MonthStart(k), now);
    DayScale(MonthStart(k + 1), now);
  }

  /** A period boundary is also a daily one, not after the clock, and stays put within its month. */
  lemma PeriodBoundaryFacts(t: nat)
    ensures PeriodBoundary(t) <= DailyBoundary(t) <= t
    ensures DailyBoundary(DailyBoundary(t)) == DailyBoundary(t)
    ensures PeriodBoundary(PeriodBoundary(t)) == PeriodBoundary(t)
    ensures PeriodBoundary(DailyBoundary(t)) == PeriodBoundary(t)
  {
    hide PeriodBoundary, DailyBoundary, MonthStart;
    var k := MonthHolding(t);
    DailyBoundaryIsLastMidnight(t);
    DailyBoundaryIsLastMidnight(DailyBoundary(t));
    MidnightsBefore(MonthStart(k), t);
    PeriodBoundaryIsMonthStart(PeriodBoundary(t), k);
    PeriodBoundaryIsMonthStart(DailyBoundary(t), k);
  }

  lemma MidnightsBefore(day: nat, t: nat)
    requires day * DAY_MS <= t
    ensures day * DAY_MS <= t / DAY_MS * DAY_MS
    ensures t / DAY_MS * DAY_MS / DAY_MS * DAY_MS == t / DAY_MS * DAY_MS
  {
  }

  /** Boundaries never go back. */
  lemma BoundariesMonotone(s: nat, t: nat)
    requires s <= t
    ensures DailyBoundary(s) <= DailyBoundary(t) && PeriodBoundary(s) <= PeriodBoundary(t)
  {
    hide PeriodBoundary, DailyBoundary, MonthStart;
    DailyBoundaryIsLastMidnight(s);
    DailyBoundaryIsLastMidnight(t);
    var j := MonthHolding(s);
    var k := MonthHolding(t);
    if k < j {
      MonthStartMonotone(k + 1, j);
    } else {
      MonthStartMonotone(j, k);
    }
  }

  // ---------------------------------------------------------------- the Gregorian calendar

  /** The day number of the first of January, as ECMA-262 defines it (section 21.4.1.3):
      365 days a year, and one more for each leap day since. */
  function DayFromYear(year: nat): int
    requires 1970 <= year
  {
    365 * (year - 1970) + (year - 1969) / 4 - (year - 1901) / 100 + (year - 1601) / 400
  }

  /** Days of a year of 365 before each of its months. */
  const BEFORE_MONTH: seq<nat> := [0, 31, 59, 90, 120, 151, 181, 212, 243, 273, 304, 334]

  lemma MonthAhead(n: nat, m: nat)
    requires m < 12
    ensures MonthStart(n * 12 + m + 1) == MonthStart(n * 12 + m) + MonthLength(n * 12 + m)
    ensures MonthLength(n * 12 + m)
            == if m == 1 then (if LeapYear(1970 + n) then 29 else 28)
               else if m == 3 || m == 5 || m == 8 || m == 10 then 30 else 31
  {
    assert (n * 12 + m) / 12 == n && (n * 12 + m) % 12 == m;
  }

  lemma HalfYear(n: nat)
    ensures var first, leap := MonthStart(n * 12), if LeapYear(1970 + n) then 1 else 0;
            && MonthStart(n * 12 + 1) == first + 31 && MonthStart(n * 12 + 2) == first + 59 + leap
            && MonthStart(n * 12 + 3) == first + 90 + leap && MonthStart(n * 12 + 4) == first + 120 + leap
            && MonthStart(n * 12 + 5) == first + 151 + leap && MonthStart(n * 12 + 6) == first + 181 + leap
  {
    hide MonthStart, MonthLength, LeapYear;
    MonthAhead(n, 0);
    MonthAhead(n, 1);
    MonthAhead(n, 2);
    MonthAhead(n, 3);
    MonthAhead(n, 4);
    MonthAhead(n, 5);
  }

  lemma OtherHalf(n: nat)
    ensures var middle := MonthStart(n * 12 + 6);
            && MonthStart(n * 12 + 7) == middle + 31 && MonthStart(n * 12 + 8) == middle + 62
            && MonthStart(n * 12 + 9) == middle + 92 && MonthStart(n * 12 + 10) == middle + 123
            && MonthStart(n * 12 + 11) == middle + 153 && MonthStart(n * 12 + 12) == middle + 184
  {
    hide MonthStart, MonthLength, LeapYear;
    MonthAhead(n, 6);
    MonthAhead(n, 7);
    MonthAhead(n, 8);
    MonthAhead(n, 9);
    MonthAhead(n, 10);
    MonthAhead(n, 11);
  }

  /** Counting multiples: one more exactly when the next number is one. */
  lemma NextMultiples(a: nat)
    ensures (a + 1) / 4 == a / 4 + if (a + 1) % 4 == 0 then 1 else 0
    ensures (a + 1) / 100 == a / 100 + if (a + 1) % 100 == 0 then 1 else 0
    ensures (a + 1) / 400 == a / 400 + if (a + 1) % 400 == 0 then 1 else 0
  {
  }

  lemma OneYearOn(year: nat)
    requires 1970 <= year
    ensures DayFromYear(year + 1) == DayFromYear(year) + 365 + if LeapYear(year) then 1 else 0
  {
    NextMultiples(year - 1969);
    NextMultiples(year - 1901);
    NextMultiples(year - 1601);
    SameRemainders(year);
    Centuries(year);
  }

  lemma SameRemainders(year: nat)
    requires 1970 <= year
    ensures (year - 1968) % 4 == year % 4 && (year - 1900) % 100 == year % 100 && (year - 1600) % 400 == year % 400
  {
    assert year - 1968 == 4 * (year / 4 - 492) + year % 4;
    assert year - 1900 == 100 * (year / 100 - 19) + year % 100;
    assert year - 1600 == 400 * (year / 400 - 4) + year % 400;
  }

  lemma Centuries(year: nat)
    ensures year % 400 == 0 ==> year % 100 == 0
    ensures year % 100 == 0 ==> year % 4 == 0
  {
    if year % 400 == 0 { assert year == 100 * (year / 400 * 4); }
    if year % 100 == 0 { assert year == 4 * (year / 100 * 25); }
  }

  lemma {:induction false} YearStartIs(n: nat)
    ensures MonthStart(n * 12) == DayFromYear(1970 + n)
    decreases n
  {
    hide MonthStart, DayFromYear, LeapYear, MonthLength;
    if n > 0 {
      YearStartIs(n - 1);
      YearEnds(n - 1);
      OneYearOn(1969 + n);
      assert (n - 1) * 12 + 12 == n * 12;
    } else {
      FirstYear();
    }
  }

  lemma FirstYear()
    ensures MonthStart(0) == DayFromYear(1970) == 0
  {
  }

  lemma YearEnds(n: nat)
    ensures MonthStart(n * 12 + 12) == MonthStart(n * 12) + 365 + if LeapYear(1970 + n) then 1 else 0
  {
    hide MonthStart, LeapYear;
    HalfYear(n);
    OtherHalf(n);
  }

  /** Every month of every year starts on the day of the Gregorian calendar. */
  lemma CalendarIsGregorian(year: nat, month: nat)
    requires 1970 <= year && month < 12
    ensures MonthStart((year - 1970) * 12 + month)
            == DayFromYear(year) + BEFORE_MONTH[month]
               + if 2 <= month && DayFromYear(year + 1) - DayFromYear(year) == 366 then 1 else 0
  {
    hide MonthStart, MonthLength, LeapYear, DayFromYear;
    var n := year - 1970;
    YearStartIs(n);
    HalfYear(n);
    OtherHalf(n);
    OneYearOn(year);
  }
}
