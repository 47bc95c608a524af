/** Proleptic Gregorian calendar arithmetic standing in for JavaScript's `Date`:
    dates as (year, month, day) triples, a day number counted from 1970-01-01,
    `setMonth` with its day rollover, and the `YYYY-MM-DD` serialisation that
    `toISOString().split('T')[0]` produces and `new Date(s)` reads back. */
module Calendar {
  import opened Wrappers
  import opened Text

  const MsPerDay: int := 86400000

  datatype Date = Date(year: int, month: int, day: int)

  predicate IsLeapYear(y: int) {
    y % 4 == 0 && (y % 100 != 0 || y % 400 == 0)
  }

  function DaysInMonth(y: int, m: int): (n: int)
    requires 1 <= m <= 12
    ensures 28 <= n <= 31
    ensures n == 29 <==> m == 2 && IsLeapYear(y)
  {
    if m == 2 then (if IsLeapYear(y) then 29 else 28)
    else if m == 4 || m == 6 || m == 9 || m == 11 then 30
    else 31
  }

  predicate ValidDate(d: Date) {
    1 <= d.month <= 12 && 1 <= d.day <= DaysInMonth(d.year, d.month)
  }

  /** A date a JavaScript `Date` can hold: a month of 1..12 and a day inside it. */
  type CalDate = d: Date | ValidDate(d) witness Date(1970, 1, 1)

  type MsOfDay = x: int | 0 <= x < MsPerDay

  /** A moment: a calendar date and the milliseconds elapsed since its midnight. */
  datatype Instant = Instant(date: CalDate, ms: MsOfDay)

  function YearDays(y: int): int {
    if IsLeapYear(y) then 366 else 365
  }

  /** Days from 1970-01-01 to the first of January of year y, counted a year at a time
      (negative before 1970). DaysFromYearFormula gives the closed form. */
  function DaysBeforeYear(y: int): int
    decreases if y < 1970 then 1970 - y else y - 1970
  {
    if y == 1970 then 0
    else if y > 1970 then DaysBeforeYear(y - 1) + YearDays(y - 1)
    else DaysBeforeYear(y + 1) - YearDays(y)
  }

  /** ECMAScript's DayFromYear, with floor division. */
  function DayFromYear(y: int): int {
    365 * (y - 1970) + (y - 1969) / 4 - (y - 1901) / 100 + (y - 1601) / 400
  }

  /** Days from the first of January of a common year to the first of month m
      (m == 13 stands for the first of the next January). */
  function CommonDaysBefore(m: int): int
    requires 1 <= m <= 13
  {
    if m == 1 then 0 else if m == 2 then 31 else if m == 3 then 59
    else if m == 4 then 90 else if m == 5 then 120 else if m == 6 then 151
    else if m == 7 then 181 else if m == 8 then 212 else if m == 9 then 243
    else if m == 10 then 273 else if m == 11 then 304 else if m == 12 then 334
    else 365
  }

  /** Days from the first of January of year y to the first of month m. */
  function DaysBeforeMonth(y: int, m: int): int
    requires 1 <= m <= 13
  {
    CommonDaysBefore(m) + if m > 2 && IsLeapYear(y) then 1 else 0
  }

  /** The year that month index t = 12 * year + (month - 1) falls in: t divided by 12,
      rounded down. Defined by steps of twelve so that its contract, not a division,
      is what proofs about month indices see. */
  function IndexYear(t: int): (y: int)
    ensures 12 * y <= t < 12 * y + 12
    decreases if t < 0 then 12 - t else t
  {
    if t < 0 then IndexYear(t + 12) - 1 else if t < 12 then 0 else IndexYear(t - 12) + 1
  }

  /** The month (1..12) of month index t. */
  function IndexMonth(t: int): (m: int)
    ensures 1 <= m <= 12
  {
    t - 12 * IndexYear(t) + 1
  }

  /** The day number of the first day of the month with index t;
      `Date.UTC`'s MakeDay(year, monthIndex, 1) divided by the length of a day. */
  function FirstDayNumber(t: int): int {
    DaysBeforeYear(IndexYear(t)) + DaysBeforeMonth(IndexYear(t), IndexMonth(t))
  }

  function MonthIndex(d: Date): int {
    12 * d.year + d.month - 1
  }

  /** Days since 1970-01-01 (negative before it). */
  function DayNumber(d: CalDate): int {
    DaysBeforeYear(d.year) + DaysBeforeMonth(d.year, d.month) + d.day - 1
  }

  /** Milliseconds since 1970-01-01T00:00, what `Date.now()` and `getTime()` return. */
  function Millis(t: Instant): int {
    DayNumber(t.date) * MsPerDay + t.ms
  }

  /** The moment `new Date('YYYY-MM-DD')` denotes: midnight of that date. */
  function Midnight(d: CalDate): Instant {
    Instant(d, 0)
  }

  /** `date.setMonth(date.getMonth() + k)`: the year and month move by k months and the
      day of the month is kept; a day past the end of the target month carries over
      into the following month (January 31 plus one month is March 3 or March 2). */
  function AddMonths(d: CalDate, k: int): (r: CalDate)
    ensures var t := MonthIndex(d) + k;
            d.day <= DaysInMonth(IndexYear(t), IndexMonth(t)) ==> r == Date(IndexYear(t), IndexMonth(t), d.day)
  {
    var t := MonthIndex(d) + k;
    var y, m := IndexYear(t), IndexMonth(t);
    var dim := DaysInMonth(y, m);
    if d.day <= dim then Date(y, m, d.day)
    else
      var next := Date(if m == 12 then y + 1 else y, if m == 12 then 1 else m + 1, d.day - dim);
      next
  }

  /** The clamping rule: a day past the end of the target month becomes its last day. */
  function AddMonthsClamped(d: CalDate, k: int): (r: CalDate)
    ensures MonthIndex(r) == MonthIndex(d) + k
    ensures r.day <= d.day
  {
    var t := MonthIndex(d) + k;
    var y, m := IndexYear(t), IndexMonth(t);
    var dim := DaysInMonth(y, m);
    Date(y, m, if d.day <= dim then d.day else dim)
  }

  // ---------------------------------------------------------------------------
  // Day-number facts

  lemma EpochIsDayZero()
    ensures DayNumber(Date(1970, 1, 1)) == 0
  {
  }

  /** The four-year term of DayFromYear grows by one exactly after a year divisible by 4. */
  lemma FourYearStep(y: int)
    ensures (y - 1968) / 4 - (y - 1969) / 4 == if y % 4 == 0 then 1 else 0
  {
    var a, r := (y - 1969) / 4, (y - 1969) % 4;
    assert y == 4 * (a + 492) + r + 1;
    if r == 3 {
      assert y - 1968 == 4 * (a + 1);
    } else {
      assert y - 1968 == 4 * a + (r + 1);
    }
  }

  /** The century term grows by one exactly after a year divisible by 100. */
  lemma CenturyStep(y: int)
    ensures (y - 1900) / 100 - (y - 1901) / 100 == if y % 100 == 0 then 1 else 0
  {
    var a, r := (y - 1901) / 100, (y - 1901) % 100;
    assert y == 100 * (a + 19) + r + 1;
    if r == 99 {
      assert y - 1900 == 100 * (a + 1);
    } else {
      assert y - 1900 == 100 * a + (r + 1);
    }
  }

  /** The four-century term grows by one exactly after a year divisible by 400. */
  lemma QuadricentennialStep(y: int)
    ensures (y - 1600) / 400 - (y - 1601) / 400 == if y % 400 == 0 then 1 else 0
  {
    var a, r := (y - 1601) / 400, (y - 1601) % 400;
    assert y == 400 * (a + 4) + r + 1;
    if r == 399 {
      assert y - 1600 == 400 * (a + 1);
    } else {
      assert y - 1600 == 400 * a + (r + 1);
    }
  }

  /** The closed form grows by the length of each year. */
  lemma DayFromYearStep(y: int)
    ensures DayFromYear(y + 1) == DayFromYear(y) + YearDays(y)
  {
    FourYearStep(y);
    CenturyStep(y);
    QuadricentennialStep(y);
    DayFromNextYear(y);
    DivisorsNest(y);
  }

  /** A multiple of 400 is a multiple of 100, and a multiple of 100 a multiple of 4. */
  lemma DivisorsNest(y: int)
    ensures y % 400 == 0 ==> y % 100 == 0
    ensures y % 100 == 0 ==> y % 4 == 0
  {
    if y % 400 == 0 { MultipleOf400(y); }
    if y % 100 == 0 { MultipleOf100(y); }
  }

  lemma MultipleOf400(y: int)
    requires y % 400 == 0
    ensures y % 100 == 0
  {
    var k := y / 400;
    assert y == 400 * k;
    assert y == 100 * (4 * k);
  }

  lemma MultipleOf100(y: int)
    requires y % 100 == 0
    ensures y % 4 == 0
  {
    var k := y / 100;
    assert y == 100 * k;
    assert y == 4 * (25 * k);
  }

  lemma DayFromNextYear(y: int)
    ensures DayFromYear(y + 1) == 365 * (y - 1969) + (y - 1968) / 4 - (y - 1900) / 100 + (y - 1600) / 400
  {
  }

  /** Counting a year at a time agrees with ECMAScript's DayFromYear. */
  lemma {:induction false} DaysFromYearFormula(y: int)
    ensures DaysBeforeYear(y) == DayFromYear(y)
    decreases if y < 1970 then 1970 - y else y - 1970
  {
    if y > 1970 {
      DaysFromYearFormula(y - 1);
      DayFromYearStep(y - 1);
    } else if y < 1970 {
      DaysFromYearFormula(y + 1);
      DayFromYearStep(y);
    }
  }

  /** Each month starts the length of the previous month after it. */
  lemma MonthStep(y: int, m: int, next: int)
    requires 1 <= m <= 12 && next == m + 1
    ensures DaysBeforeMonth(y, next) == DaysBeforeMonth(y, m) + DaysInMonth(y, m)
  {
  }

  lemma YearLength(y: int)
    ensures DaysBeforeMonth(y, 13) == if IsLeapYear(y) then 366 else 365
  {
  }

  /** Each year starts the length of the previous year after it. */
  lemma NextYear(y: int, next: int)
    requires next == y + 1
    ensures DaysBeforeYear(next) == DaysBeforeYear(y) + DaysBeforeMonth(y, 13)
  {
    YearLength(y);
    if next > 1970 {
      assert DaysBeforeYear(next) == DaysBeforeYear(next - 1) + YearDays(next - 1);
    }
  }

  /** A date's month index splits back into its year and month. */
  lemma MonthIndexOf(d: Date)
    requires 1 <= d.month <= 12
    ensures IndexYear(MonthIndex(d)) == d.year && IndexMonth(MonthIndex(d)) == d.month
  {
    var y := IndexYear(MonthIndex(d));
    assert 12 * y <= 12 * d.year + d.month - 1 < 12 * y + 12;
  }

  lemma DayNumberFromIndex(d: CalDate)
    ensures DayNumber(d) == FirstDayNumber(MonthIndex(d)) + d.day - 1
  {
    MonthIndexOf(d);
  }

  /** The month index after t: December is followed by January of the next year. */
  lemma IndexStep(t: int)
    ensures IndexMonth(t) == 12 ==> IndexYear(t + 1) == IndexYear(t) + 1 && IndexMonth(t + 1) == 1
    ensures IndexMonth(t) < 12 ==> IndexYear(t + 1) == IndexYear(t) && IndexMonth(t + 1) == IndexMonth(t) + 1
  {
    var y, y' := IndexYear(t), IndexYear(t + 1);
    assert 12 * y <= t < 12 * y + 12 && 12 * y' <= t + 1 < 12 * y' + 12;
  }

  /** The first of the next month comes the length of this month later. */
  lemma FirstOfNextMonth(t: int)
    ensures FirstDayNumber(t + 1) == FirstDayNumber(t) + DaysInMonth(IndexYear(t), IndexMonth(t))
  {
    var y, m := IndexYear(t), IndexMonth(t);
    var y', m' := IndexYear(t + 1), IndexMonth(t + 1);
    IndexStep(t);
    if m == 12 {
      NextYear(y, y');
    } else {
      MonthStep(y, m, m');
    }
  }

  lemma {:induction false} FirstDayNumberMonotone(t1: int, t2: int)
    requires t1 <= t2
    ensures FirstDayNumber(t1) + 28 * (t2 - t1) <= FirstDayNumber(t2)
    decreases t2 - t1
  {
    if t1 < t2 {
      FirstDayNumberMonotone(t1, t2 - 1);
      FirstOfNextMonth(t2 - 1);
    }
  }

  /** What `setMonth` computes: MakeDay(year, month + k, 1) plus (day - 1) days. Together
      with DayNumberInjective this pins AddMonths down as JavaScript's rollover. */
  lemma AddMonthsDayNumber(d: CalDate, k: int)
    ensures DayNumber(AddMonths(d, k)) == FirstDayNumber(MonthIndex(d) + k) + d.day - 1
  {
    var t := MonthIndex(d) + k;
    var y, m := IndexYear(t), IndexMonth(t);
    var r := AddMonths(d, k);
    DayNumberFromIndex(r);
    if d.day <= DaysInMonth(y, m) {
      assert MonthIndex(r) == 12 * y + m - 1 == t;
    } else {
      FirstOfNextMonth(t);
      assert MonthIndex(r) == t + 1;
    }
  }

  /** Later offsets never give earlier due dates. */
  lemma AddMonthsMonotone(d: CalDate, k1: int, k2: int)
    requires k1 <= k2
    ensures DayNumber(AddMonths(d, k1)) <= DayNumber(AddMonths(d, k2))
  {
    AddMonthsDayNumber(d, k1);
    AddMonthsDayNumber(d, k2);
    FirstDayNumberMonotone(MonthIndex(d) + k1, MonthIndex(d) + k2);
  }

  /** Rollover and clamping agree exactly when the day fits in the target month;
      otherwise rollover lands (day - length of target month) days after the clamped date. */
  lemma RolloverVersusClamp(d: CalDate, k: int)
    ensures var t := MonthIndex(d) + k;
            var dim := DaysInMonth(IndexYear(t), IndexMonth(t));
            (AddMonths(d, k) == AddMonthsClamped(d, k) <==> d.day <= dim)
            && DayNumber(AddMonths(d, k)) == DayNumber(AddMonthsClamped(d, k)) + (if d.day <= dim then 0 else d.day - dim)
  {
    var t := MonthIndex(d) + k;
    var c := AddMonthsClamped(d, k);
    AddMonthsDayNumber(d, k);
    DayNumberFromIndex(c);
    if d.day > DaysInMonth(IndexYear(t), IndexMonth(t)) {
      assert AddMonths(d, k).day < d.day;
    }
  }

  /** Lexicographic order of valid dates is day-number order. */
  lemma DayNumberOrder(a: CalDate, b: CalDate)
    requires MonthIndex(a) < MonthIndex(b) || (MonthIndex(a) == MonthIndex(b) && a.day < b.day)
    ensures DayNumber(a) < DayNumber(b)
  {
    var ta, tb := MonthIndex(a), MonthIndex(b);
    DayNumberFromIndex(a);
    DayNumberFromIndex(b);
    if ta < tb {
      var fa := FirstDayNumber(ta);
      MonthIndexOf(a);
      var dim := DaysInMonth(IndexYear(ta), IndexMonth(ta));
      assert a.day <= dim;
      FirstOfNextMonth(ta);
      FirstDayNumberMonotone(ta + 1, tb);
      assert DayNumber(a) < fa + dim <= FirstDayNumber(tb) <= DayNumber(b);
    }
  }

  lemma DayNumberInjective(a: CalDate, b: CalDate)
    requires DayNumber(a) == DayNumber(b)
    ensures a == b
  {
    if MonthIndex(a) < MonthIndex(b) || (MonthIndex(a) == MonthIndex(b) && a.day < b.day) {
      DayNumberOrder(a, b);
    } else if MonthIndex(b) < MonthIndex(a) || (MonthIndex(a) == MonthIndex(b) && b.day < a.day) {
      DayNumberOrder(b, a);
    } else {
      MonthIndexOf(a);
      MonthIndexOf(b);
    }
  }

  // ---------------------------------------------------------------------------
  // ISO 8601 date strings

  /** The year as `toISOString` writes it: four digits for 0..9999, otherwise a sign
      and six digits. */
  function YearText(y: int): string {
    if 0 <= y <= 9999 then Pad(y, 4)
    else if y < 0 then "-" + Pad(-y, 6)
    else "+" + Pad(y, 6)
  }

  /** The `-MM-DD` part of an ISO date. */
  function MonthDayText(d: CalDate): string {
    "-" + Pad(d.month, 2) + "-" + Pad(d.day, 2)
  }

  /** `d.toISOString().split('T')[0]`. */
  function FormatIsoDate(d: CalDate): string {
    YearText(d.year) + MonthDayText(d)
  }

  function MakeDate(y: int, m: int, day: int): (r: Option<CalDate>)
    ensures r.Some? <==> ValidDate(Date(y, m, day))
    ensures r.Some? ==> r.value == Date(y, m, day)
  {
    if 1 <= m <= 12 && 1 <= day <= DaysInMonth(y, m) then Some(Date(y, m, day)) else None
  }

  /** Reads the six characters `-MM-DD` that follow the year. */
  function ParseMonthDay(year: int, tail: string): Option<CalDate>
    requires |tail| == 6
  {
    if tail[0] == '-' && AllDigits(tail[1..3]) && tail[3] == '-' && AllDigits(tail[4..]) then
      MakeDate(year, DigitsValue(tail[1..3]), DigitsValue(tail[4..]))
    else None
  }

  /** `new Date(s)` for the date-only ISO forms `YYYY-MM-DD` and `±YYYYYY-MM-DD`; None
      stands for an Invalid Date. */
  function ParseIsoDate(s: string): (r: Option<CalDate>)
    ensures r.Some? ==> |s| == 10 || |s| == 13
  {
    if |s| == 10 && AllDigits(s[..4]) then ParseMonthDay(DigitsValue(s[..4]), s[4..])
    else if |s| == 13 && (s[0] == '+' || s[0] == '-') && AllDigits(s[1..7])
            && !(s[0] == '-' && DigitsValue(s[1..7]) == 0) then
      var v: int := DigitsValue(s[1..7]);
      ParseMonthDay(if s[0] == '-' then -v else v, s[7..])
    else None
  }

  lemma MonthDayRoundTrip(d: CalDate)
    ensures |MonthDayText(d)| == 6 && ParseMonthDay(d.year, MonthDayText(d)) == Some(d)
  {
    var mm, dd := Pad(d.month, 2), Pad(d.day, 2);
    PadLength(d.month, 2);
    PadLength(d.day, 2);
    PadRoundTrip(d.month, 2);
    PadRoundTrip(d.day, 2);
    var tail := MonthDayText(d);
    assert tail[1..3] == mm && tail[4..] == dd;
  }

  /** The four-digit form reads its year from the first four characters. */
  lemma ParseFourDigitShape(s: string, yy: string, tail: string)
    requires s == yy + tail && |yy| == 4 && AllDigits(yy) && |tail| == 6
    ensures ParseIsoDate(s) == ParseMonthDay(DigitsValue(yy), tail)
  {
    assert s[..4] == yy && s[4..] == tail;
  }

  /** The signed form reads its year from a sign and the six characters after it. */
  lemma ParseSignedShape(s: string, sign: char, yy: string, tail: string)
    requires s == [sign] + yy + tail && |yy| == 6 && AllDigits(yy) && |tail| == 6
    requires sign == '+' || sign == '-'
    requires !(sign == '-' && DigitsValue(yy) == 0)
    ensures ParseIsoDate(s) == ParseMonthDay(if sign == '-' then -(DigitsValue(yy) as int) else DigitsValue(yy), tail)
  {
    assert s[0] == sign && s[1..7] == yy && s[7..] == tail;
  }

  lemma FourDigitYearRoundTrip(d: CalDate)
    requires 0 <= d.year <= 9999
    ensures ParseIsoDate(FormatIsoDate(d)) == Some(d)
  {
    var yy := Pad(d.year, 4);
    PadLength(d.year, 4);
    PadRoundTrip(d.year, 4);
    MonthDayRoundTrip(d);
    ParseFourDigitShape(FormatIsoDate(d), yy, MonthDayText(d));
  }

  /** A year outside 0..9999 is written as a sign and the six digits of v. */
  lemma SignedYearText(y: int, sign: char, v: nat)
    requires (sign == '-' && 0 < v && v == -y) || (sign == '+' && 9999 < v && v == y)
    ensures YearText(y) == [sign] + Pad(v, 6)
  {
  }

  lemma SignedRoundTrip(d: CalDate, sign: char, v: nat)
    requires v <= 999999
    requires (sign == '-' && 0 < v && v == -d.year) || (sign == '+' && 9999 < v && v == d.year)
    ensures ParseIsoDate(FormatIsoDate(d)) == Some(d)
  {
    var yy := Pad(v, 6);
    PadLength(v, 6);
    PadRoundTrip(v, 6);
    SignedYearText(d.year, sign, v);
    MonthDayRoundTrip(d);
    ParseSignedShape(FormatIsoDate(d), sign, yy, MonthDayText(d));
  }

  lemma SignedYearRoundTrip(d: CalDate)
    requires -999999 <= d.year < 0 || 9999 < d.year <= 999999
    ensures ParseIsoDate(FormatIsoDate(d)) == Some(d)
  {
    if d.year < 0 { SignedRoundTrip(d, '-', -d.year); } else { SignedRoundTrip(d, '+', d.year); }
  }

  /** Reading back a serialised due date gives the same date. */
  lemma IsoRoundTrip(d: CalDate)
    requires -999999 <= d.year <= 999999
    ensures ParseIsoDate(FormatIsoDate(d)) == Some(d)
  {
    if 0 <= d.year <= 9999 { FourDigitYearRoundTrip(d); } else { SignedYearRoundTrip(d); }
  }
}
