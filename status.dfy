/** The two status rules: the one `generateSchedule` applies when a schedule is created and
    the one `getChildSchedule` applies every time a schedule is read. */
module Status {
  import opened Calendar

  datatype Status = Upcoming | Due | Overdue | Completed {
    /** The string stored in a schedule item's `status` field. */
    function Name(): string {
      match this
      case Upcoming => "upcoming"
      case Due => "due"
      case Overdue => "overdue"
      case Completed => "completed"
    }

    /** Position along the life of a dose that is never given. */
    function Rank(): nat {
      match this
      case Upcoming => 0
      case Due => 1
      case Overdue => 2
      case Completed => 3
    }
  }

  /** `Math.floor((today - dueDate) / (1000 * 60 * 60 * 24))`, with the due date at midnight:
      the number of whole calendar days from the due date to today. */
  function DaysSince(due: CalDate, now: Instant): (days: int)
    ensures days == DayNumber(now.date) - DayNumber(due)
  {
    var elapsed := Millis(now) - Millis(Midnight(due));
    assert elapsed == (DayNumber(now.date) - DayNumber(due)) * MsPerDay + now.ms;
    elapsed / MsPerDay
  }

  /** The read-time classification of a dose that is not completed. */
  function StatusFromDays(daysDiff: int): Status {
    if daysDiff > 30 then Overdue
    else if daysDiff >= 0 then Due
    else Upcoming
  }

  /** The status `generateSchedule` gives a fresh draft: `upcoming` unless the due date
      (at midnight) is strictly before the current moment; then `overdue` past 30 days. */
  function GenerationStatus(due: CalDate, now: Instant): (s: Status)
    ensures s != Completed
    ensures s == Overdue <==> DayNumber(now.date) - DayNumber(due) > 30
    ensures s == Upcoming <==> Millis(now) <= Millis(Midnight(due))
  {
    if Millis(Midnight(due)) < Millis(now) then
      (if DaysSince(due, now) > 30 then Overdue else Due)
    else Upcoming
  }

  /** The status `getChildSchedule` gives a dose that is not completed: by whole calendar
      days past the due date, `overdue` beyond 30, `due` from 0 to 30, `upcoming` before. */
  function ReadTimeStatus(due: CalDate, now: Instant): (s: Status)
    ensures s != Completed
    ensures s == Overdue <==> DayNumber(now.date) - DayNumber(due) > 30
    ensures s == Due <==> 0 <= DayNumber(now.date) - DayNumber(due) <= 30
    ensures s == Upcoming <==> DayNumber(now.date) < DayNumber(due)
  {
    StatusFromDays(DaysSince(due, now))
  }

  /** The same rule for a due moment given as a time value t, milliseconds since the epoch,
      as `new Date(n)` reads a number: the elapsed milliseconds are divided by a day and
      rounded down, so `overdue` starts once 31 full days have passed and `upcoming` ends
      at t itself. */
  function TimeValueStatus(t: int, now: Instant): (s: Status)
    ensures s != Completed
    ensures s == Overdue <==> Millis(now) - t >= 31 * MsPerDay
    ensures s == Upcoming <==> Millis(now) < t
  {
    StatusFromDays((Millis(now) - t) / MsPerDay)
  }

  lemma ReadTimeBoundaries()
    ensures StatusFromDays(31) == Overdue && StatusFromDays(30) == Due
    ensures StatusFromDays(0) == Due && StatusFromDays(-1) == Upcoming
  {
  }

  /** As time passes a dose that is not given only moves forward: upcoming, due, overdue. */
  lemma ReadTimeMonotone(d1: int, d2: int)
    requires d1 <= d2
    ensures StatusFromDays(d1).Rank() <= StatusFromDays(d2).Rank()
    ensures StatusFromDays(d2) != Completed
  {
  }

  /** The generation rule by whole days: it is the read rule except on the due date itself,
      which it calls `upcoming` at exactly midnight and `due` at any later moment. */
  lemma GenerationByDays(due: CalDate, now: Instant)
    ensures var days := DayNumber(now.date) - DayNumber(due);
            GenerationStatus(due, now) ==
              if days > 30 then Overdue
              else if days > 0 || (days == 0 && now.ms > 0) then Due
              else Upcoming
  {
    var days := DayNumber(now.date) - DayNumber(due);
    assert Millis(now) - Millis(Midnight(due)) == days * MsPerDay + now.ms;
  }

  /** The two rules agree on every input except a due date that is today at midnight
      exactly, where generation says `upcoming` and a read says `due`. */
  lemma GenerationVersusRead(due: CalDate, now: Instant)
    ensures GenerationStatus(due, now) == ReadTimeStatus(due, now) <==> !(now.date == due && now.ms == 0)
    ensures now.date == due && now.ms == 0 ==> GenerationStatus(due, now) == Upcoming && ReadTimeStatus(due, now) == Due
  {
    GenerationByDays(due, now);
    if DayNumber(now.date) == DayNumber(due) {
      DayNumberInjective(now.date, due);
    }
  }

  /** Distinct statuses are stored under distinct strings. */
  lemma NameInjective(a: Status, b: Status)
    requires a.Name() == b.Name()
    ensures a == b
  {
  }
}
