/** The ISO text of a time in UTC, as `toISOString` writes it. A time is a number of
    milliseconds from 1970 on, up to the last one a JavaScript date can hold. */
module IsoTime {
  import opened Options
  import opened ResetBoundary

  const LAST_TIME: nat := 8_640_000_000_000_000

  type Time = t: nat | t <= LAST_TIME

  // ---------------------------------------------------------------- fixed-width digits

  function Digit(n: int): char
    requires 0 <= n < 10
  {
    (n + 48) as char
  }

  function Power(width: nat): nat { if width == 0 then 1 else 10 * Power(width - 1) }

  function Padded(n: nat, width: nat): (s: string)
    ensures |s| == width
  {
    if width == 0 then "" else Padded(n / 10, width - 1) + [Digit(n % 10)]
  }

  function Value(s: string): int { if |s| == 0 then 0 else Value(s[..|s| - 1]) * 10 + s[|s| - 1] as int - 48 }

  lemma {:induction false} PaddedReads(n: nat, width: nat)
    requires n < Power(width)
    ensures Value(Padded(n, width)) == n
  {
    if width > 0 {
      var s := Padded(n, width);
      assert s[..|s| - 1] == Padded(n / 10, width - 1);
      PaddedReads(n / 10, width - 1);
    }
  }

  // ---------------------------------------------------------------- ISO texts

  const HOUR_MS: nat := 3_600_000
  const MINUTE_MS: nat := 60_000

  /** Up to year 9999 four digits, later a plus sign and six. */
  function YearText(year: nat): string { if year <= 9999 then Padded(year, 4) else "+" + Padded(year, 6) }

  function TimeText(month: nat, date: nat, rest: nat): (s: string)
    ensures |s| == 20
  {
    "-" + Padded(month + 1, 2) + "-" + Padded(date, 2) + "T" + Padded(rest / HOUR_MS, 2) + ":"
        + Padded(rest / MINUTE_MS % 60, 2)
    + ":" + Padded(rest / 1000 % 60, 2) + "." + Padded(rest % 1000, 3) + "Z"
  }

  /** The fields of a time: its civil date and the milliseconds into that day. */
  function ToIso(t: Time): string {
    var c := CivilOf(t);
    YearText(c.year) + TimeText(c.month, c.date, t % DAY_MS)
  }

  predicate Digits(s: string) { forall i :: 0 <= i < |s| ==> '0' <= s[i] <= '9' }

  /** Digits and separators where `TimeText` puts them. */
  predicate TimeShape(s: string) {
    && |s| == 20 && s[0] == '-' && s[3] == '-' && s[6] == 'T' && s[9] == ':' && s[12] == ':' && s[15] == '.'
    && s[19] == 'Z'
    && Digits(s[1..3]) && Digits(s[4..6]) && Digits(s[7..9]) && Digits(s[10..12]) && Digits(s[13..15])
    && Digits(s[16..19])
  }

  function MonthField(s: string): int requires TimeShape(s) { Value(s[1..3]) - 1 }

  function DateField(s: string): int requires TimeShape(s) { Value(s[4..6]) }

  function ClockField(s: string): int
    requires TimeShape(s)
  {
    Value(s[7..9]) * HOUR_MS + Value(s[10..12]) * MINUTE_MS + Value(s[13..15]) * 1000 + Value(s[16..19])
  }

  /** A time of day; the end of a day may be written as 24:00:00.000. */
  predicate ClockInRange(s: string)
    requires TimeShape(s)
  {
    Value(s[10..12]) < 60 && Value(s[13..15]) < 60 && ClockField(s) <= DAY_MS
  }

  /** Reading the text back; `None` for a text of another shape or with a field out of
      range. A date past the end of its month runs into the next one. */
  function FromIso(s: string): Option<int> {
    if |s| < 24 || |s| != (if s[0] == '+' then 27 else 24) then None
    else
      var digits := if s[0] == '+' then s[1..7] else s[..4];
      var rest := s[|s| - 20..];
      if !Digits(digits) || !TimeShape(rest) || !ClockInRange(rest) then None
      else
        var year, month, date := Value(digits), MonthField(rest), DateField(rest);
        if year < 1970 || !(0 <= month < 12) || !(1 <= date <= 31) then None
        else Some(UtcMidnight(year, month, date) + ClockField(rest))
  }

  lemma {:induction false} MonthsAreLong(k: nat)
    ensures 28 * k <= MonthStart(k)
  {
    if k > 0 { MonthsAreLong(k - 1); }
  }

  lemma YearInRange(t: Time)
    ensures 1970 <= CivilOf(t).year <= 999_999 && 0 <= CivilOf(t).month < 12 && 1 <= CivilOf(t).date <= 31
  {
    CivilFromCorrect(0, t / DAY_MS);
    MonthsAreLong(MonthIndex(CivilOf(t)));
  }

  lemma {:induction false} PaddedDigits(n: nat, width: nat)
    ensures Digits(Padded(n, width))
  {
    if width > 0 { PaddedDigits(n / 10, width - 1); }
  }

  lemma TimeFields(month: nat, date: nat, rest: nat)
    requires month < 12 && 1 <= date <= 31 && rest < DAY_MS
    ensures var s := TimeText(month, date, rest);
            TimeShape(s) && MonthField(s) == month && DateField(s) == date && ClockField(s) == rest && ClockInRange(s)
  {
    hide Padded, Digits, Value;
    var s := TimeText(month, date, rest);
    assert s[1..3] == Padded(month + 1, 2) && s[4..6] == Padded(date, 2);
    assert s[7..9] == Padded(rest / HOUR_MS, 2) && s[10..12] == Padded(rest / MINUTE_MS % 60, 2);
    assert s[13..15] == Padded(rest / 1000 % 60, 2) && s[16..19] == Padded(rest % 1000, 3);
    Powers();
    FieldReads(month + 1, 2);
    FieldReads(date, 2);
    FieldReads(rest / HOUR_MS, 2);
    FieldReads(rest / MINUTE_MS % 60, 2);
    FieldReads(rest / 1000 % 60, 2);
    FieldReads(rest % 1000, 3);
    ClockFields(rest);
  }

  lemma FieldReads(n: nat, width: nat)
    requires n < Power(width)
    ensures Digits(Padded(n, width)) && Value(Padded(n, width)) == n
  {
    PaddedReads(n, width);
    PaddedDigits(n, width);
  }

  lemma Powers()
    ensures Power(2) == 100 && Power(3) == 1000 && Power(4) == 10_000 && Power(6) == 1_000_000
  {
    assert Power(2) == 100;
    assert Power(4) == 10_000;
  }

  lemma ClockFields(rest: nat)
    requires rest < DAY_MS
    ensures rest / HOUR_MS < 24
    ensures rest / HOUR_MS * HOUR_MS + rest / MINUTE_MS % 60 * MINUTE_MS + rest / 1000 % 60 * 1000 + rest % 1000 == rest
  {
    var seconds := rest / 1000;
    var minutes := seconds / 60;
    assert rest / MINUTE_MS == minutes;
    assert rest / HOUR_MS == minutes / 60;
  }

  /** Writing a time and reading it back gives the same millisecond. */
  lemma IsoRoundTrip(t: Time)
    ensures FromIso(ToIso(t)) == Some(t)
  {
    hide CivilFrom, MonthStart, Padded, Value, TimeText, TimeShape, MonthField, DateField, ClockField, ClockInRange;
    var c := CivilOf(t);
    YearInRange(t);
    var s := ToIso(t);
    var rest := TimeText(c.month, c.date, t % DAY_MS);
    TimeFields(c.month, c.date, t % DAY_MS);
    YearReads(c.year, rest);
    assert s[|s| - 20..] == rest;
    MidnightReads(t);
  }

  lemma MidnightReads(t: Time)
    ensures var c := CivilOf(t);
            1970 <= c.year && 1 <= c.date && UtcMidnight(c.year, c.month, c.date) + t % DAY_MS == t
  {
    CivilFromCorrect(0, t / DAY_MS);
  }

  lemma YearReads(year: nat, rest: string)
    requires 1970 <= year <= 999_999 && |rest| == 20
    ensures var s := YearText(year) + rest;
            && |s| >= 24 && |s| == (if s[0] == '+' then 27 else 24) && |s| - 20 == |YearText(year)|
            && (var digits := if s[0] == '+' then s[1..7] else s[..4]; Digits(digits) && Value(digits) == year)
  {
    var s := YearText(year) + rest;
    Powers();
    if year <= 9999 {
      FieldReads(year, 4);
      assert s[..4] == Padded(year, 4);
      PaddedHasNoSign(year, 4);
      assert s[0] == Padded(year, 4)[0];
    } else {
      FieldReads(year, 6);
      assert s[1..7] == Padded(year, 6);
    }
  }

  lemma {:induction false} PaddedHasNoSign(n: nat, width: nat)
    ensures '+' !in Padded(n, width) && ' ' !in Padded(n, width)
    ensures forall i :: 0 <= i < width ==> Padded(n, width)[i] as int < 128
  {
    if width > 0 { PaddedHasNoSign(n / 10, width - 1); }
  }

  /** The text is plain ASCII without a space. */
  lemma IsoIsPlain(t: Time)
    ensures ' ' !in ToIso(t) && |ToIso(t)| > 0 && forall i :: 0 <= i < |ToIso(t)| ==> ToIso(t)[i] as int < 128
  {
    hide CivilOf, Padded;
    var c := CivilOf(t);
    var rest := t % DAY_MS;
    PaddedHasNoSign(c.year, 4);
    PaddedHasNoSign(c.year, 6);
    PaddedHasNoSign(c.month + 1, 2);
    PaddedHasNoSign(c.date, 2);
    PaddedHasNoSign(rest / HOUR_MS, 2);
    PaddedHasNoSign(rest / MINUTE_MS % 60, 2);
    PaddedHasNoSign(rest / 1000 % 60, 2);
    PaddedHasNoSign(rest % 1000, 3);
  }

  predicate Field(s: string, i: nat, width: nat, n: int) {
    i + width <= |s| && Digits(s[i..i + width]) && Value(s[i..i + width]) == n
  }

  function HourOf(rest: nat): nat { rest / HOUR_MS }

  function MinuteOf(rest: nat): nat { rest / MINUTE_MS % 60 }

  function SecondOf(rest: nat): nat { rest / 1000 % 60 }

  function MilliOf(rest: nat): nat { rest % 1000 }

  lemma TimeParts(month: nat, date: nat, rest: nat)
    ensures var s := TimeText(month, date, rest);
            && s[0] == '-' && s[3] == '-' && s[6] == 'T' && s[9] == ':' && s[12] == ':' && s[15] == '.' && s[19] == 'Z'
            && s[1..3] == Padded(month + 1, 2) && s[4..6] == Padded(date, 2) && s[7..9] == Padded(HourOf(rest), 2)
            && s[10..12] == Padded(MinuteOf(rest), 2) && s[13..15] == Padded(SecondOf(rest), 2)
            && s[16..19] == Padded(MilliOf(rest), 3)
  {
    hide Padded;
  }

  lemma FieldAfterYear(s: string, year: string, u: string, i: nat, width: nat, n: nat)
    requires s == year + u && |year| == 4 && i + width <= |u| && u[i..i + width] == Padded(n, width) && n < Power(width)
    ensures Field(s, 4 + i, width, n)
  {
    hide Padded, Power, Value;
    FieldReads(n, width);
    assert s[4 + i..4 + i + width] == u[i..i + width];
  }

  /** Four digits of year, then month, day, hour, minute, second and millisecond, each with
      a fixed number of digits between its separators. */
  predicate Layout(s: string, year: nat, month: nat, date: nat, rest: nat) {
    && |s| == 24
    && s[4] == '-' && s[7] == '-' && s[10] == 'T' && s[13] == ':' && s[16] == ':' && s[19] == '.' && s[23] == 'Z'
    && Field(s, 0, 4, year) && Field(s, 5, 2, month + 1) && Field(s, 8, 2, date)
    && Field(s, 11, 2, HourOf(rest)) && Field(s, 14, 2, MinuteOf(rest))
    && Field(s, 17, 2, SecondOf(rest)) && Field(s, 20, 3, MilliOf(rest))
  }

  /** The layout of the text (section 5.6 of RFC 3339, in UTC and to the millisecond). */
  lemma IsoLayout(t: Time)
    requires CivilOf(t).year <= 9999
    ensures var c := CivilOf(t); Layout(ToIso(t), c.year, c.month, c.date, t % DAY_MS)
  {
    hide Layout, Padded, TimeText, CivilFrom;
    YearInRange(t);
    IsoSplit(t);
    var c := CivilOf(t);
    LaidOut(c.year, c.month, c.date, t % DAY_MS);
  }

  lemma LaidOut(year: nat, month: nat, date: nat, rest: nat)
    requires year <= 9999 && month < 12 && date <= 31 && rest < DAY_MS
    ensures Layout(Padded(year, 4) + TimeText(month, date, rest), year, month, date, rest)
  {
    ClockParts(rest);
    Powers();
    hide Padded, Digits, Value, TimeText, Field, Power, HourOf, MinuteOf, SecondOf, MilliOf;
    TimeParts(month, date, rest);
    var y, u := Padded(year, 4), TimeText(month, date, rest);
    var s := y + u;
    Separators(s, y, u);
    FieldReads(year, 4);
    FieldStarts(s, 4, year);
    FieldAfterYear(s, y, u, 1, 2, month + 1);
    FieldAfterYear(s, y, u, 4, 2, date);
    FieldAfterYear(s, y, u, 7, 2, HourOf(rest));
    FieldAfterYear(s, y, u, 10, 2, MinuteOf(rest));
    FieldAfterYear(s, y, u, 13, 2, SecondOf(rest));
    FieldAfterYear(s, y, u, 16, 3, MilliOf(rest));
  }

  lemma IsoSplit(t: Time)
    requires CivilOf(t).year <= 9999
    ensures var c := CivilOf(t); ToIso(t) == Padded(c.year, 4) + TimeText(c.month, c.date, t % DAY_MS)
  {
  }

  lemma Separators(s: string, year: string, u: string)
    requires s == year + u && |year| == 4 && |u| == 20
    ensures |s| == 24 && s[0..4] == year
    ensures s[4] == u[0] && s[7] == u[3] && s[10] == u[6] && s[13] == u[9] && s[16] == u[12] && s[19] == u[15]
            && s[23] == u[19]
  {
  }

  lemma ClockParts(rest: nat)
    requires rest < DAY_MS
    ensures HourOf(rest) < 24 && MinuteOf(rest) < 60 && SecondOf(rest) < 60 && MilliOf(rest) < 1000
  {
    ClockFields(rest);
  }

  lemma FieldStarts(s: string, width: nat, n: int)
    requires width <= |s| && Digits(s[0..width]) && Value(s[0..width]) == n
    ensures Field(s, 0, width, n)
  {
  }

  /** The fields a four-digit-year text is made of, in their ranges: an existing month, a
      date up to 31, a time of day, or the end of a day written as 24:00:00.000. */
  predicate Stands(s: string, year: nat, month: nat, date: nat, hour: nat, minute: nat, second: nat, milli: nat) {
    && |s| == 24
    && s[4] == '-' && s[7] == '-' && s[10] == 'T' && s[13] == ':' && s[16] == ':' && s[19] == '.' && s[23] == 'Z'
    && Field(s, 0, 4, year) && Field(s, 5, 2, month) && Field(s, 8, 2, date)
    && Field(s, 11, 2, hour) && Field(s, 14, 2, minute) && Field(s, 17, 2, second) && Field(s, 20, 3, milli)
    && 1970 <= year && 1 <= month <= 12 && 1 <= date <= 31 && minute < 60 && second < 60
    && (hour < 24 || (hour == 24 && minute == 0 && second == 0 && milli == 0))
  }

  function TimeAt(year: nat, month: nat, date: nat, hour: nat, minute: nat, second: nat, milli: nat): int
    requires 1970 <= year && 1 <= month && 1 <= date
  {
    UtcMidnight(year, month - 1, date) + hour * HOUR_MS + minute * MINUTE_MS + second * 1000 + milli
  }

  lemma {:induction false} DigitsCount(s: string)
    requires Digits(s)
    ensures 0 <= Value(s) < Power(|s|)
    decreases |s|
  {
    if |s| > 0 { DigitsCount(s[..|s| - 1]); }
  }

  /** A text with a four-digit year is read as the time its fields stand for, and not at
      all when it has another layout or a field out of range. */
  lemma FromIsoExact(s: string)
    requires |s| == 24 && s[0] != '+'
    ensures FromIso(s).Some? <==> exists y, mo, d, h, mi, sec, ms :: Stands(s, y, mo, d, h, mi, sec, ms)
    ensures forall y, mo, d, h, mi, sec, ms :: Stands(s, y, mo, d, h, mi, sec, ms) ==>
              FromIso(s) == Some(TimeAt(y, mo, d, h, mi, sec, ms))
  {
    hide Value, Digits, Power, UtcMidnight;
    var u := s[4..];
    TailFields(s, u);
    Powers();
    forall y, mo, d, h, mi, sec, ms | Stands(s, y, mo, d, h, mi, sec, ms)
      ensures FromIso(s) == Some(TimeAt(y, mo, d, h, mi, sec, ms))
    {
      StandsReads(s, u, y, mo, d, h, mi, sec, ms);
    }
    if FromIso(s).Some? { ReadStands(s, u); }
  }

  lemma TailFields(s: string, u: string)
    requires |s| == 24 && u == s[4..]
    ensures s[|s| - 20..] == u && s[0..4] == s[..4]
    ensures u[1..3] == s[5..7] && u[4..6] == s[8..10] && u[7..9] == s[11..13] && u[10..12] == s[14..16]
            && u[13..15] == s[17..19] && u[16..19] == s[20..23]
  {
  }

  lemma StandsReads(s: string, u: string, y: nat, mo: nat, d: nat, h: nat, mi: nat, sec: nat, ms: nat)
    requires |s| == 24 && s[0] != '+' && u == s[4..] && Stands(s, y, mo, d, h, mi, sec, ms)
    ensures FromIso(s) == Some(TimeAt(y, mo, d, h, mi, sec, ms))
  {
    hide Value, Digits, UtcMidnight;
    TailFields(s, u);
    MilliBelow(s);
  }

  lemma MilliBelow(s: string)
    requires |s| == 24 && Digits(s[20..23])
    ensures 0 <= Value(s[20..23]) < 1000
  {
    DigitsCount(s[20..23]);
    Powers();
  }

  lemma ReadStands(s: string, u: string)
    requires |s| == 24 && s[0] != '+' && u == s[4..] && FromIso(s).Some?
    ensures exists y, mo, d, h, mi, sec, ms :: Stands(s, y, mo, d, h, mi, sec, ms)
  {
    hide Value, Digits, UtcMidnight, Power;
    TailFields(s, u);
    Powers();
    DigitsCount(s[..4]);
    DigitsCount(s[5..7]);
    DigitsCount(s[8..10]);
    DigitsCount(s[11..13]);
    DigitsCount(s[14..16]);
    DigitsCount(s[17..19]);
    DigitsCount(s[20..23]);
    assert Stands(s, Value(s[..4]), Value(s[5..7]), Value(s[8..10]), Value(s[11..13]), Value(s[14..16]),
                  Value(s[17..19]), Value(s[20..23]));
  }
}
