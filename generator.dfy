/** `vaccineSchedule.generateSchedule`: one draft per protocol dose, in protocol order. */
module Generator {
  import opened Wrappers
  import opened Calendar
  import opened Protocol
  import opened Status

  /** `{ ...vaccine, dueDate, status, administered: false }`. */
  datatype Draft = Draft(name: string, description: string, ageMonths: nat, ageText: string,
                         dueDate: string, status: string, administered: bool)

  function DueDate(birth: CalDate, dose: Dose): CalDate {
    AddMonths(birth, dose.ageMonths)
  }

  function MakeDraft(birth: CalDate, now: Instant, dose: Dose): Draft {
    var due := DueDate(birth, dose);
    Draft(dose.name, dose.description, dose.ageMonths, dose.ageText,
          FormatIsoDate(due), GenerationStatus(due, now).Name(), false)
  }

  /** `this.vaccines.map(...)`: each draft copies its dose, carries the due date `ageMonths`
      after birth as `YYYY-MM-DD`, its generation-time status, and is not administered. */
  function GenerateSchedule(birth: CalDate, now: Instant): (r: seq<Draft>)
    ensures |r| == |Vaccines|
    ensures forall i :: 0 <= i < |r| ==>
              && r[i].name == Vaccines[i].name
              && r[i].description == Vaccines[i].description
              && r[i].ageMonths == Vaccines[i].ageMonths
              && r[i].ageText == Vaccines[i].ageText
              && r[i].dueDate == FormatIsoDate(AddMonths(birth, Vaccines[i].ageMonths))
              && r[i].status == GenerationStatus(AddMonths(birth, Vaccines[i].ageMonths), now).Name()
              && !r[i].administered
  {
    seq(|Vaccines|, i requires 0 <= i < |Vaccines| => MakeDraft(birth, now, Vaccines[i]))
  }

  /** The drafts name every dose once: their names are the protocol's, pairwise distinct. */
  lemma OneDraftPerDose(birth: CalDate, now: Instant)
    ensures var r := GenerateSchedule(birth, now);
            |r| == 12 && forall i, j :: 0 <= i < j < |r| ==> r[i].name != r[j].name
  {
    ProtocolShape();
  }

  /** The drafts follow the protocol's age order. */
  lemma DraftAgesNondecreasing(birth: CalDate, now: Instant)
    ensures var r := GenerateSchedule(birth, now);
            forall i, j :: 0 <= i <= j < |r| ==> r[i].ageMonths <= r[j].ageMonths
  {
    AgesInOrder();
  }

  /** Each serialised due date reads back as the birth date advanced by the dose's age. */
  lemma DueDatesReadBack(birth: CalDate, now: Instant, i: nat)
    requires i < |Vaccines|
    requires -999999 <= birth.year <= 999997
    ensures ParseIsoDate(GenerateSchedule(birth, now)[i].dueDate) == Some(AddMonths(birth, Vaccines[i].ageMonths))
  {
    var due := AddMonths(birth, Vaccines[i].ageMonths);
    AgesInOrder();
    assert Vaccines[i].ageMonths <= 24;
    assert birth.year <= due.year <= birth.year + 3;
    IsoRoundTrip(due);
  }

  /** Protocol order is also due-date order. */
  lemma DueDatesNondecreasing(birth: CalDate, i: nat, j: nat)
    requires i <= j < |Vaccines|
    ensures DayNumber(AddMonths(birth, Vaccines[i].ageMonths)) <= DayNumber(AddMonths(birth, Vaccines[j].ageMonths))
  {
    AgesInOrder();
    AddMonthsMonotone(birth, Vaccines[i].ageMonths, Vaccines[j].ageMonths);
  }

  /** The initial status by whole days: upcoming until the due date has passed, due for
      the first 30 days after it, overdue from the 31st. */
  lemma InitialStatusCases(birth: CalDate, now: Instant, i: nat)
    requires i < |Vaccines|
    ensures var due := AddMonths(birth, Vaccines[i].ageMonths);
            var days := DayNumber(now.date) - DayNumber(due);
            var st := GenerateSchedule(birth, now)[i].status;
            && (st == "overdue" <==> days > 30)
            && (st == "due" <==> (0 < days <= 30 || (days == 0 && now.ms > 0)))
            && (st == "upcoming" <==> (days < 0 || (days == 0 && now.ms == 0)))
  {
    GenerationByDays(AddMonths(birth, Vaccines[i].ageMonths), now);
  }
}
