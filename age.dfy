/** `calculateAge`, identical in the schedule manager, the store helpers and the page
    helpers: whole years since birth, or a month count while the year count is zero. */
module Age {
  import opened Wrappers
  import opened Text
  import opened Calendar

  datatype AgeReading = Years(years: int) | Months(months: int)

  /** The year difference, less one while this year's birthday is still ahead. */
  function YearCount(birth: Date, today: Date): int {
    var monthDiff := today.month - birth.month;
    var age := today.year - birth.year;
    if monthDiff < 0 || (monthDiff == 0 && today.day < birth.day) then age - 1 else age
  }

  /** The reading before it is rendered: under a zero year count, the month difference less
      one when today's day of the month is before the birth day. */
  function Reading(birth: Date, today: Date): AgeReading {
    if YearCount(birth, today) == 0 then
      Months(today.month - birth.month - (if today.day < birth.day then 1 else 0))
    else Years(YearCount(birth, today))
  }

  /** `${n} unit` with an `s` unless n is exactly 1. */
  function Plural(n: int, unit: string): string {
    IntToString(n) + " " + unit + (if n != 1 then "s" else "")
  }

  function Render(a: AgeReading): string {
    match a
    case Years(n) => Plural(n, "year")
    case Months(n) => Plural(n, "month")
  }

  /** The age text of a stored `dateOfBirth` on the calendar day `today`. An unreadable date
      is an Invalid Date: every difference is NaN, no comparison holds, and the text is
      "NaN years". */
  function AgeText(birthDate: string, today: CalDate): (t: string)
    ensures t == "NaN years" <==> ParseIsoDate(birthDate).None?
  {
    match ParseIsoDate(birthDate)
    case Some(birth) =>
      var r := Render(Reading(birth, today));
      assert r[0] == '-' || IsDigit(r[0]);
      r
    case None => "NaN years"
  }

  /** The age text by cases: "NaN years" for an unreadable date; for a readable one, `y years`
      when y birthdays have been reached and y is not zero, and otherwise the month count,
      which is the elapsed months less twelve for every New Year crossed. */
  lemma AgeTextCases(birthDate: string, today: CalDate, y: int)
    ensures ParseIsoDate(birthDate).None? ==> AgeText(birthDate, today) == "NaN years"
    ensures ParseIsoDate(birthDate).Some? ==>
              var birth := ParseIsoDate(birthDate).value;
              OnOrBefore(Date(birth.year + y, birth.month, birth.day), today) &&
              !OnOrBefore(Date(birth.year + y + 1, birth.month, birth.day), today) ==>
                AgeText(birthDate, today) ==
                  if y != 0 then Plural(y, "year")
                  else Plural(ElapsedMonths(birth, today) - 12 * (today.year - birth.year), "month")
  {
    match ParseIsoDate(birthDate)
    case None =>
    case Some(birth) =>
      if OnOrBefore(Date(birth.year + y, birth.month, birth.day), today) &&
         !OnOrBefore(Date(birth.year + y + 1, birth.month, birth.day), today) {
        YearCountUnique(birth, today, y);
        if y == 0 {
          MonthsReading(birth, today);
        }
      }
  }

  /** Calendar order on (year, month, day). */
  predicate OnOrBefore(a: Date, b: Date) {
    a.year < b.year || (a.year == b.year && (a.month < b.month || (a.month == b.month && a.day <= b.day)))
  }

  /** Whole months from birth to today, counting a month once its day of the month is reached. */
  function ElapsedMonths(birth: Date, today: Date): int {
    12 * (today.year - birth.year) + (today.month - birth.month) - (if today.day < birth.day then 1 else 0)
  }

  /** The year count is the number of birthdays reached: the Y-th anniversary is on or before
      today and the (Y+1)-th is after it. */
  lemma YearCountIsAnniversaries(birth: Date, today: Date)
    ensures var y := YearCount(birth, today);
            && OnOrBefore(Date(birth.year + y, birth.month, birth.day), today)
            && !OnOrBefore(Date(birth.year + y + 1, birth.month, birth.day), today)
  {
  }

  /** At most one year count fits between consecutive anniversaries. */
  lemma YearCountUnique(birth: Date, today: Date, y: int)
    requires OnOrBefore(Date(birth.year + y, birth.month, birth.day), today)
    requires !OnOrBefore(Date(birth.year + y + 1, birth.month, birth.day), today)
    ensures y == YearCount(birth, today)
  {
    YearCountIsAnniversaries(birth, today);
  }

  /** Under a zero year count the reported months are the elapsed months minus twelve for
      every calendar year boundary crossed: right within one calendar year, twelve short
      across a New Year. */
  lemma MonthsReading(birth: Date, today: Date)
    requires ValidDate(birth) && ValidDate(today)
    requires Reading(birth, today).Months?
    ensures Reading(birth, today).months == ElapsedMonths(birth, today) - 12 * (today.year - birth.year)
    ensures OnOrBefore(birth, today) ==> 0 <= ElapsedMonths(birth, today) < 12
    ensures OnOrBefore(birth, today) ==>
              (Reading(birth, today).months == ElapsedMonths(birth, today) <==> today.year == birth.year)
  {
  }

  /** Some readings, the negative ones from birthdays later in the year than today. */
  lemma AgeExamples()
    ensures Reading(Date(2024, 11, 10), Date(2025, 2, 10)) == Months(-9)
    ensures Render(Months(-9)) == "-9 months"
    ensures Reading(Date(2024, 6, 15), Date(2025, 6, 14)) == Months(-1)
    ensures Render(Months(-1)) == "-1 months"
    ensures Reading(Date(2024, 6, 15), Date(2025, 6, 15)) == Years(1)
    ensures Render(Years(1)) == "1 year"
    ensures Reading(Date(2024, 3, 1), Date(2024, 4, 1)) == Months(1)
    ensures Render(Months(1)) == "1 month"
    ensures Render(Years(3)) == "3 years"
  {
    assert NatToString(9) == "9";
    assert NatToString(1) == "1";
    assert NatToString(3) == "3";
  }
}
