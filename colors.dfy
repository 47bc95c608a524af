/** `getStatusColor`: the badge colour of a status string. The schedule manager and the
    store helpers share one mapping; the page helpers add `up-to-date`. */
module Colors {
  import opened Status

  const Palette: set<string> := {"success", "warning", "error", "secondary"}

  /** The mapping of the schedule manager and the store helpers. */
  function StatusColor(status: string): (c: string)
    ensures c in Palette
  {
    if status == "completed" then "success"
    else if status == "due" then "warning"
    else if status == "overdue" then "error"
    else "secondary"
  }

  /** The mapping of the page helpers, which also colours `up-to-date` as a success. */
  function StatusColorWithUpToDate(status: string): (c: string)
    ensures c in Palette
  {
    if status == "completed" then "success"
    else if status == "due" then "warning"
    else if status == "overdue" then "error"
    else if status == "up-to-date" then "success"
    else "secondary"
  }

  /** The two mappings differ on exactly one input, `up-to-date`, which the page helpers
      colour as a success. */
  lemma MappingsDifferOnlyOnUpToDate(status: string)
    ensures StatusColor(status) != StatusColorWithUpToDate(status) <==> status == "up-to-date"
    ensures StatusColorWithUpToDate("up-to-date") == "success" && StatusColor("up-to-date") == "secondary"
  {
  }

  /** Only the three recognised statuses get a colour of their own; `upcoming`, like every
      unknown string, is `secondary`. */
  lemma SecondaryIsTheDefault(status: string)
    ensures StatusColor(status) == "secondary" <==> status !in {"completed", "due", "overdue"}
  {
  }

  /** Over the statuses the model computes, the colour is determined by the status and
      distinguishes all but `upcoming` from one another. */
  lemma StatusColors(s: Status, t: Status)
    ensures StatusColor(Completed.Name()) == "success" && StatusColor(Due.Name()) == "warning"
    ensures StatusColor(Overdue.Name()) == "error" && StatusColor(Upcoming.Name()) == "secondary"
    ensures StatusColor(s.Name()) == StatusColor(t.Name()) <==> s == t
  {
  }
}
