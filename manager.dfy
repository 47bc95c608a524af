/** The page state of `ScheduleManager`: the children of the account, the selected child,
    the loaded schedule and the display filter. The results of the store calls it awaits
    are parameters; what those calls do to the store is the `Store` module's business. */
module Manager {
  import opened Wrappers
  import opened Records
  import opened Store

  /** `selectedChild`: null until a selection is cleared or made, undefined after a lookup
      that found nothing. */
  datatype Selection = NullChild | UndefinedChild | Selected(child: Record)

  /** The predicate of the `currentSchedule.filter` in `renderSchedule`. */
  predicate Keeps(filter: string, item: Record) {
    if filter == "completed" then Truthy(Field(item, "completed"))
    else if filter == "due" then Field(item, "status") == Str("due")
    else if filter == "overdue" then Field(item, "status") == Str("overdue")
    else true
  }

  function FilterBy(items: seq<Record>, filter: string): (r: seq<Record>)
    ensures |r| <= |items|
  {
    if items == [] then []
    else (if Keeps(filter, items[0]) then [items[0]] else []) + FilterBy(items[1..], filter)
  }

  /** The list `renderSchedule` shows for a filter: `all` skips the filter. An item is
      shown exactly when it is in the schedule and passes the filter (`completed` keeps a
      truthy `completed`, `due` and `overdue` keep that status), in schedule order. */
  function FilterSchedule(items: seq<Record>, filter: string): (r: seq<Record>)
    ensures forall x :: x in r <==> x in items && (filter == "all" || Keeps(filter, x))
    ensures forall x :: multiset(r)[x] == if filter == "all" || Keeps(filter, x) then multiset(items)[x] else 0
    ensures IsSubsequence(r, items)
  {
    if filter == "all" then
      SubsequenceOfSelf(items);
      items
    else
      FilterByIsSubsequence(items, filter);
      FilterByCount(items, filter);
      assert forall x :: x in FilterBy(items, filter) <==> x in items && Keeps(filter, x) by {
        forall x { FilterByMembers(items, filter, x); }
      }
      FilterBy(items, filter)
  }

  /** `currentSchedule.filter(v => !v.completed)`, the doses offered for recording: exactly
      the items not completed, in schedule order. */
  function Pending(items: seq<Record>): (r: seq<Record>)
    ensures forall x :: x in r <==> x in items && !Truthy(Field(x, "completed"))
    ensures IsSubsequence(r, items)
  {
    if items == [] then []
    else
      var rest := Pending(items[1..]);
      assert items == [items[0]] + items[1..];
      if !Truthy(Field(items[0], "completed")) then
        var r := [items[0]] + rest;
        assert r[0] == items[0] && r[1..] == rest;
        r
      else
        SkipHead(rest, items);
        rest
  }

  /** `find(x => x.id === id)`: the first record whose `id` is `id`, if any. */
  function FirstWithId(items: seq<Record>, id: Value): (r: Option<Record>)
    ensures r.Some? <==> exists i :: 0 <= i < |items| && Field(items[i], "id") == id
    ensures r.Some? ==> exists i :: 0 <= i < |items| && items[i] == r.value && Field(r.value, "id") == id &&
                                    forall j :: 0 <= j < i ==> Field(items[j], "id") != id
  {
    if items == [] then None
    else if Field(items[0], "id") == id then Some(items[0])
    else
      var rest := FirstWithId(items[1..], id);
      assert forall i :: 1 <= i < |items| ==> items[i] == items[1..][i - 1];
      rest
  }

  /** The keys the store hands out start at 1, so the `id` of a child it added is truthy
      and `HandleChildSelection` given that id finds a child carrying it and loads. */
  lemma StoreIdSelectable(items: seq<Record>, i: nat, k: Key)
    requires i < |items| && Field(items[i], "id") == Num(k) && 1 <= k
    ensures Truthy(Num(k))
    ensures FirstWithId(items, Num(k)).Some? && Field(FirstWithId(items, Num(k)).value, "id") == Num(k)
  {
  }

  /** s is an order-preserving subsequence of t. */
  predicate IsSubsequence(s: seq<Record>, t: seq<Record>)
    decreases |t|
  {
    if s == [] then true
    else if t == [] then false
    else if s[0] == t[0] then IsSubsequence(s[1..], t[1..])
    else IsSubsequence(s, t[1..])
  }

  class ScheduleManager {
    var allChildren: seq<Record>
    var selectedChild: Selection
    var currentSchedule: seq<Record>
    var currentFilter: string

    constructor ()
      ensures allChildren == [] && selectedChild == NullChild && currentSchedule == [] && currentFilter == "all"
    {
      allChildren, selectedChild, currentSchedule, currentFilter := [], NullChild, [], "all";
    }

    /** `loadChildren`: keeps the children of a successful `getAllChildren`; after a failure
        the list is left as it was and an error is shown. */
    method LoadChildren(result: Result<seq<Record>, Error>)
      modifies this
      ensures result.Success? ==> allChildren == result.value
      ensures result.Failure? ==> allChildren == old(allChildren)
      ensures selectedChild == old(selectedChild) && currentSchedule == old(currentSchedule)
      ensures currentFilter == old(currentFilter)
    {
      if result.Success? {
        allChildren := result.value;
      }
    }

    /** `setFilter` */
    method SetFilter(filter: string)
      modifies this
      ensures currentFilter == filter
      ensures allChildren == old(allChildren) && selectedChild == old(selectedChild)
      ensures currentSchedule == old(currentSchedule)
    {
      currentFilter := filter;
    }

    /** `handleChildSelection` for the select's value: an empty value clears the selection,
        otherwise the first child with that `id` is selected; the result says whether the
        schedule is loaded next, which happens only when a child was found. */
    method HandleChildSelection(childId: Value) returns (loadSchedule: bool)
      modifies this
      ensures !Truthy(childId) ==> selectedChild == NullChild && !loadSchedule
      ensures Truthy(childId) ==>
                match FirstWithId(allChildren, childId)
                case Some(c) => selectedChild == Selected(c) && loadSchedule
                case None => selectedChild == UndefinedChild && !loadSchedule
      ensures allChildren == old(allChildren) && currentSchedule == old(currentSchedule)
      ensures currentFilter == old(currentFilter)
    {
      if !Truthy(childId) {
        selectedChild := NullChild;
        return false;
      }
      var found := FirstWithId(allChildren, childId);
      if found.None? {
        selectedChild := UndefinedChild;
        return false;
      }
      selectedChild := Selected(found.value);
      loadSchedule := true;
    }

    /** `loadChildSchedule`, given what `getChildSchedule` returned and what
        `initializeSchedule` would return. A successful read is kept even when it is empty,
        since an empty array is truthy, so the schedule is initialised only after a failed
        read; a failure of both, or no selected child to read from, shows the error card. */
    method LoadChildSchedule(readResult: Result<seq<Record>, Error>, initResult: Result<seq<Record>, Error>)
      returns (shown: bool)
      modifies this
      ensures !selectedChild.Selected? ==> !shown && currentSchedule == old(currentSchedule)
      ensures selectedChild.Selected? ==>
                match readResult
                case Success(items) => shown && currentSchedule == items
                case Failure(_) =>
                  match initResult
                  case Success(items) => shown && currentSchedule == items
                  case Failure(_) => !shown && currentSchedule == old(currentSchedule)
      ensures allChildren == old(allChildren) && selectedChild == old(selectedChild)
      ensures currentFilter == old(currentFilter)
    {
      if !selectedChild.Selected? { return false; }
      if readResult.Success? {
        currentSchedule := readResult.value;
        return true;
      }
      if initResult.Success? {
        currentSchedule := initResult.value;
        return true;
      }
      shown := false;
    }

    /** What `renderSchedule` lists: nothing without a selected child or schedule items,
        otherwise the schedule under the current filter. */
    function Displayed(): (r: Option<seq<Record>>)
      reads this
      ensures r.None? <==> !selectedChild.Selected? || currentSchedule == []
      ensures r.Some? ==> IsSubsequence(r.value, currentSchedule)
      ensures r.Some? ==>
                forall x :: multiset(r.value)[x] ==
                  if currentFilter == "all" || Keeps(currentFilter, x) then multiset(currentSchedule)[x] else 0
      ensures r.Some? ==>
                forall x :: x in r.value <==> x in currentSchedule && (currentFilter == "all" || Keeps(currentFilter, x))
    {
      if !selectedChild.Selected? || currentSchedule == [] then None
      else Some(FilterSchedule(currentSchedule, currentFilter))
    }

    /** The pending list of `openVaccinationModal`; none without a selected child. */
    function PendingVaccines(): (r: Option<seq<Record>>)
      reads this
      ensures r.Some? <==> selectedChild.Selected?
      ensures r.Some? ==> forall x :: x in r.value <==> x in currentSchedule && !Truthy(Field(x, "completed"))
      ensures r.Some? ==> IsSubsequence(r.value, currentSchedule)
    {
      if selectedChild.Selected? then Some(Pending(currentSchedule)) else None
    }

    /** The item `viewVaccinationDetails` shows, if one has that id. */
    function VaccinationDetails(vaccinationId: Value): (r: Option<Record>)
      reads this
      ensures r.Some? <==> exists i :: 0 <= i < |currentSchedule| && Field(currentSchedule[i], "id") == vaccinationId
      ensures r.Some? ==> r.value in currentSchedule && Field(r.value, "id") == vaccinationId
    {
      FirstWithId(currentSchedule, vaccinationId)
    }
  }

  // ---------------------------------------------------------------------------
  // Lemmas

  lemma {:induction false} SubsequenceOfSelf(s: seq<Record>)
    ensures IsSubsequence(s, s)
  {
    if s != [] { SubsequenceOfSelf(s[1..]); }
  }

  lemma {:induction false} FilterByIsSubsequence(items: seq<Record>, filter: string)
    ensures IsSubsequence(FilterBy(items, filter), items)
  {
    if items != [] {
      FilterByIsSubsequence(items[1..], filter);
      var r := FilterBy(items, filter);
      if Keeps(filter, items[0]) {
        assert r[0] == items[0] && r[1..] == FilterBy(items[1..], filter);
      } else {
        assert r == FilterBy(items[1..], filter);
        SkipHead(r, items);
      }
    }
  }

  lemma SkipHead(s: seq<Record>, t: seq<Record>)
    requires t != [] && IsSubsequence(s, t[1..])
    ensures IsSubsequence(s, t)
    decreases |t|, 0
  {
    if s != [] && s[0] == t[0] {
      SubsequenceTail(s, t[1..]);
    }
  }

  lemma SubsequenceTail(s: seq<Record>, t: seq<Record>)
    requires s != [] && IsSubsequence(s, t)
    ensures IsSubsequence(s[1..], t)
    decreases |t|, 1
  {
    if t != [] {
      if s[0] == t[0] {
        if s[1..] != [] { SubsequenceTail(s[1..], t[1..]); SkipHead(s[1..], t); }
      } else {
        SubsequenceTail(s, t[1..]);
        if s[1..] != [] { SkipHead(s[1..], t); }
      }
    }
  }

  lemma {:induction false} FilterByMembers(items: seq<Record>, filter: string, x: Record)
    ensures x in FilterBy(items, filter) <==> x in items && Keeps(filter, x)
  {
    if items != [] {
      FilterByMembers(items[1..], filter, x);
      assert items == [items[0]] + items[1..];
    }
  }

  /** Each record appears in the filtered list as often as in the schedule when it passes
      the filter, and not at all otherwise. */
  lemma {:induction false} FilterByCount(items: seq<Record>, filter: string)
    ensures forall x :: multiset(FilterBy(items, filter))[x] == if Keeps(filter, x) then multiset(items)[x] else 0
  {
    if items != [] {
      var h, t := items[0], items[1..];
      FilterByCount(t, filter);
      var k: seq<Record> := if Keeps(filter, h) then [h] else [];
      assert FilterBy(items, filter) == k + FilterBy(t, filter);
      HeadTail(items);
    }
  }

  /** `all`, and any filter other than the three named ones, shows the whole schedule. */
  lemma {:induction false} UnknownFilterShowsAll(items: seq<Record>, filter: string)
    requires filter !in {"completed", "due", "overdue"}
    ensures FilterSchedule(items, filter) == items
  {
    if filter != "all" && items != [] {
      UnknownFilterShowsAll(items[1..], filter);
      assert items == [items[0]] + items[1..];
    }
  }

  /** The pending list and the `completed` view split the schedule between them. */
  lemma PendingAndCompletedPartition(items: seq<Record>)
    ensures multiset(Pending(items)) + multiset(FilterSchedule(items, "completed")) == multiset(items)
    ensures forall x :: x in Pending(items) <==> x in items && !Truthy(Field(x, "completed"))
  {
    CompletedView(items);
    PendingSplit(items);
  }

  lemma CompletedView(items: seq<Record>)
    ensures FilterSchedule(items, "completed") == FilterBy(items, "completed")
  {
    assert "completed" != "all" by { assert "completed"[0] != "all"[0]; }
  }

  lemma {:induction false} PendingSplit(items: seq<Record>)
    ensures multiset(Pending(items)) + multiset(FilterBy(items, "completed")) == multiset(items)
  {
    if items != [] {
      var h, t := items[0], items[1..];
      PendingSplit(t);
      var done := Truthy(Field(h, "completed"));
      assert Keeps("completed", h) == done;
      var p, f := (if !done then [h] else []), (if done then [h] else []);
      assert Pending(items) == p + Pending(t);
      assert FilterBy(items, "completed") == f + FilterBy(t, "completed");
      assert multiset(p) + multiset(f) == multiset([h]);
      HeadTail(items);
    }
  }

  lemma HeadTail<T>(s: seq<T>)
    requires s != []
    ensures s == [s[0]] + s[1..] && multiset(s) == multiset([s[0]]) + multiset(s[1..])
  {
    assert s == [s[0]] + s[1..];
  }

}
