/** Records of the store as JavaScript sees them: objects of named fields whose values are
    strings, numbers, booleans or null; their truthiness; and the pure parts of reading a
    child's schedule (the ownership filter, the sort by `ageMonths`, the status refresh). */
module Records {
  import opened Wrappers
  import opened Calendar
  import opened Status

  /** A store key. Push keys sort chronologically, so key order is numeric order here. */
  type Key = nat

  /** The opaque id of an account, as `auth.getCurrentUser().id` yields it. */
  type UserId = string

  datatype Value = Str(s: string) | Num(n: int) | Bool(b: bool) | Null

  type Record = map<string, Value>

  /** `r.name`: a missing field reads as undefined, which behaves as null in every use here. */
  function Field(r: Record, name: string): Value {
    if name in r then r[name] else Null
  }

  /** JavaScript truthiness. */
  predicate Truthy(v: Value) {
    match v
    case Str(s) => s != ""
    case Num(n) => n != 0
    case Bool(b) => b
    case Null => false
  }

  /** `r.userId === uid`. */
  predicate OwnedBy(r: Record, uid: UserId) {
    Field(r, "userId") == Str(uid)
  }

  /** `(r.ageMonths || 0)` as the sort comparator uses it: a number is itself, a boolean
      counts as 1 or 0, anything missing or falsy is 0. */
  function AgeKey(r: Record): int {
    match Field(r, "ageMonths")
    case Num(n) => n
    case Bool(b) => if b then 1 else 0
    case _ => 0
  }

  /** `{ ...r, ...patch }`, which is also what the store's `update(patch)` leaves at a path. */
  function Merge(r: Record, patch: Record): (m: Record)
    ensures m.Keys == r.Keys + patch.Keys
    ensures forall k :: k in patch ==> m[k] == patch[k]
    ensures forall k :: k in r && k !in patch ==> m[k] == r[k]
  {
    r + patch
  }

  /** After an update, the record's owner is the patch's `userId` when the patch has one:
      nothing keeps a patch from handing a record to another account. */
  lemma MergeOwner(r: Record, patch: Record, uid: UserId)
    ensures OwnedBy(Merge(r, patch), uid) <==>
              if "userId" in patch then patch["userId"] == Str(uid) else OwnedBy(r, uid)
  {
  }

  // ---------------------------------------------------------------------------
  // Read-time status

  /** The largest magnitude of a JavaScript time value; `new Date(n)` beyond it is an
      Invalid Date. */
  const MaxTimeValue: int := 8640000000000000

  /** `new Date(item.dueDate)` followed by the day count. A `YYYY-MM-DD` string is that
      date's midnight. A number is that many milliseconds after the epoch, `true` and
      `false` are 1 and 0, and null is 0. An unreadable string or a number out of range is
      an Invalid Date: every comparison with NaN fails, and the status falls through to
      `upcoming`. */
  function DueStatus(due: Value, now: Instant): Status {
    match due
    case Str(s) =>
      (match ParseIsoDate(s)
       case Some(d) => ReadTimeStatus(d, now)
       case None => Upcoming)
    case Num(n) => if -MaxTimeValue <= n <= MaxTimeValue then TimeValueStatus(n, now) else Upcoming
    case Bool(b) => TimeValueStatus(if b then 1 else 0, now)
    case Null => TimeValueStatus(0, now)
  }

  /** The body of the `scheduleItems.forEach` that reassigns `item.status`: only `status`
      can change, and a completed item becomes `completed`. */
  function RefreshStatus(r: Record, now: Instant): (out: Record)
    ensures out.Keys - {"status"} == r.Keys - {"status"}
    ensures forall k :: k in r && k != "status" ==> k in out && out[k] == r[k]
    ensures Truthy(Field(r, "completed")) ==> Field(out, "status") == Str("completed")
  {
    var completed, due := Truthy(Field(r, "completed")), Truthy(Field(r, "dueDate"));
    if !completed && due then r["status" := Str(DueStatus(Field(r, "dueDate"), now).Name())]
    else if completed then r["status" := Str(Completed.Name())]
    else r
  }

  function RefreshAll(items: seq<Record>, now: Instant): (r: seq<Record>)
    ensures |r| == |items|
    ensures forall i :: 0 <= i < |r| ==> r[i] == RefreshStatus(items[i], now)
  {
    seq(|items|, i requires 0 <= i < |items| => RefreshStatus(items[i], now))
  }

  /** The moment `new Date(v)` denotes, as milliseconds since the epoch, or None for an
      Invalid Date. A string is read only in the `YYYY-MM-DD` forms. */
  function DueTime(v: Value): Option<int> {
    match v
    case Str(s) => if ParseIsoDate(s).Some? then Some(Millis(Midnight(ParseIsoDate(s).value))) else None
    case Num(n) => if -MaxTimeValue <= n <= MaxTimeValue then Some(n) else None
    case Bool(b) => Some(if b then 1 else 0)
    case Null => Some(0)
  }

  /** The read-time rule for an item that is not completed. With a due date, the status
      follows the milliseconds elapsed since the moment it denotes: `overdue` once 31 full
      days have passed, `due` from that moment on, `upcoming` before it, and `upcoming`
      for an Invalid Date. For a `YYYY-MM-DD` date this is the count of whole calendar
      days past it: more than 30, 0 to 30, or negative. An item with neither a completion
      nor a due date keeps the status it was stored with. */
  lemma RefreshStatusRules(r: Record, now: Instant)
    ensures var out := RefreshStatus(r, now);
            var due := Field(r, "dueDate");
            && (!Truthy(Field(r, "completed")) && !Truthy(due) ==> out == r)
            && (!Truthy(Field(r, "completed")) && Truthy(due) ==>
                  match DueTime(due)
                  case Some(t) =>
                    var elapsed := Millis(now) - t;
                    Field(out, "status") ==
                      Str(if elapsed >= 31 * MsPerDay then "overdue" else if elapsed >= 0 then "due" else "upcoming")
                  case None => Field(out, "status") == Str("upcoming"))
            && (!Truthy(Field(r, "completed")) && due.Str? && ParseIsoDate(due.s).Some? ==>
                  var days := DayNumber(now.date) - DayNumber(ParseIsoDate(due.s).value);
                  Field(out, "status") == Str(if days > 30 then "overdue" else if days >= 0 then "due" else "upcoming"))
  {
    var due := Field(r, "dueDate");
    if due.Str? && ParseIsoDate(due.s).Some? {
      var d := ParseIsoDate(due.s).value;
      assert Millis(now) - Millis(Midnight(d)) == (DayNumber(now.date) - DayNumber(d)) * MsPerDay + now.ms;
    }
  }

  /** A number is read as a moment, not ignored: 0 and the ISO text of 1970-01-01 are the
      same due date, and a due date of 1 read on 1 March 1970 is overdue. */
  lemma NumericDueDates(now: Instant)
    ensures DueStatus(Num(0), now) == DueStatus(Str(FormatIsoDate(Date(1970, 1, 1))), now)
    ensures DueStatus(Num(1), Midnight(Date(1970, 3, 1))) == Overdue
  {
    IsoRoundTrip(Date(1970, 1, 1));
    EpochIsDayZero();
    assert DayNumber(Date(1970, 3, 1)) == 59;
  }

  /** The birth date `generateSchedule` reads: only a `YYYY-MM-DD` string is modelled. */
  function ParseDateField(v: Value): Option<CalDate> {
    if v.Str? then ParseIsoDate(v.s) else None
  }

  /** Refreshing changes only `status`, so it keeps owners and sort keys. */
  lemma RefreshKeepsOwnerAndAge(r: Record, now: Instant, uid: UserId)
    ensures OwnedBy(RefreshStatus(r, now), uid) == OwnedBy(r, uid)
    ensures AgeKey(RefreshStatus(r, now)) == AgeKey(r)
  {
  }

  // ---------------------------------------------------------------------------
  // `scheduleItems.sort((a, b) => (a.ageMonths || 0) - (b.ageMonths || 0))`, a stable sort

  function InsertByAge(x: Record, s: seq<Record>): (r: seq<Record>)
  {
    if s == [] then [x]
    else if AgeKey(x) <= AgeKey(s[0]) then [x] + s
    else [s[0]] + InsertByAge(x, s[1..])
  }

  /** Insertion sort by the comparator's key: an ascending permutation of s. */
  function SortByAge(s: seq<Record>): (r: seq<Record>)
    ensures SortedByAge(r)
    ensures multiset(r) == multiset(s)
  {
    if s == [] then []
    else
      var t := SortByAge(s[1..]);
      InsertSorted(s[0], t);
      InsertPermutation(s[0], t);
      assert s == [s[0]] + s[1..];
      InsertByAge(s[0], t)
  }

  predicate SortedByAge(s: seq<Record>) {
    forall i, j :: 0 <= i <= j < |s| ==> AgeKey(s[i]) <= AgeKey(s[j])
  }

  /** The items of s whose sort key is a, in their order in s. */
  function WithAge(s: seq<Record>, a: int): seq<Record>
  {
    if s == [] then [] else (if AgeKey(s[0]) == a then [s[0]] else []) + WithAge(s[1..], a)
  }

  lemma {:induction false} InsertPermutation(x: Record, s: seq<Record>)
    ensures multiset(InsertByAge(x, s)) == multiset(s) + multiset{x}
  {
    if s == [] {
      assert InsertByAge(x, s) == [x];
    } else if AgeKey(x) <= AgeKey(s[0]) {
      assert InsertByAge(x, s) == [x] + s;
    } else {
      var t := InsertByAge(x, s[1..]);
      InsertPermutation(x, s[1..]);
      assert InsertByAge(x, s) == [s[0]] + t;
      assert s == [s[0]] + s[1..];
    }
  }

  predicate AllAtLeast(s: seq<Record>, b: int) {
    forall i :: 0 <= i < |s| ==> b <= AgeKey(s[i])
  }

  lemma SortedCons(y: Record, t: seq<Record>)
    requires SortedByAge(t) && AllAtLeast(t, AgeKey(y))
    ensures SortedByAge([y] + t)
  {
    var u := [y] + t;
    forall i, j | 0 <= i <= j < |u| ensures AgeKey(u[i]) <= AgeKey(u[j]) {
      if i > 0 { assert u[i] == t[i - 1] && u[j] == t[j - 1]; }
      else if j > 0 { assert u[j] == t[j - 1]; }
    }
  }

  lemma {:induction false} InsertAtLeast(x: Record, s: seq<Record>, b: int)
    requires AllAtLeast(s, b) && b <= AgeKey(x)
    ensures AllAtLeast(InsertByAge(x, s), b)
  {
    if s != [] && AgeKey(x) > AgeKey(s[0]) {
      InsertAtLeast(x, s[1..], b);
      var t := InsertByAge(x, s[1..]);
      assert InsertByAge(x, s) == [s[0]] + t;
    }
  }

  lemma {:induction false} InsertSorted(x: Record, s: seq<Record>)
    requires SortedByAge(s)
    ensures SortedByAge(InsertByAge(x, s))
  {
    if s == [] {
    } else if AgeKey(x) <= AgeKey(s[0]) {
      SortedCons(x, s);
    } else {
      assert SortedByAge(s[1..]);
      InsertSorted(x, s[1..]);
      assert AllAtLeast(s[1..], AgeKey(s[0]));
      InsertAtLeast(x, s[1..], AgeKey(s[0]));
      SortedCons(s[0], InsertByAge(x, s[1..]));
    }
  }

  lemma WithAgeCons(y: Record, t: seq<Record>, a: int)
    ensures WithAge([y] + t, a) == (if AgeKey(y) == a then [y] else []) + WithAge(t, a)
  {
    assert ([y] + t)[0] == y && ([y] + t)[1..] == t;
  }

  lemma {:induction false} InsertStable(x: Record, s: seq<Record>, a: int)
    requires SortedByAge(s)
    ensures WithAge(InsertByAge(x, s), a) == (if AgeKey(x) == a then [x] else []) + WithAge(s, a)
  {
    if s == [] {
      assert InsertByAge(x, s) == [x] + [];
      WithAgeCons(x, [], a);
    } else if AgeKey(x) <= AgeKey(s[0]) {
      assert InsertByAge(x, s) == [x] + s;
      WithAgeCons(x, s, a);
    } else {
      assert SortedByAge(s[1..]);
      InsertStable(x, s[1..], a);
      InsertStableStep(x, s, a);
    }
  }

  lemma InsertStableStep(x: Record, s: seq<Record>, a: int)
    requires s != [] && AgeKey(x) > AgeKey(s[0])
    requires WithAge(InsertByAge(x, s[1..]), a) == (if AgeKey(x) == a then [x] else []) + WithAge(s[1..], a)
    ensures WithAge(InsertByAge(x, s), a) == (if AgeKey(x) == a then [x] else []) + WithAge(s, a)
  {
    var t := InsertByAge(x, s[1..]);
    var wx: seq<Record> := if AgeKey(x) == a then [x] else [];
    assert InsertByAge(x, s) == [s[0]] + t;
    WithAgeCons(s[0], t, a);
    assert s == [s[0]] + s[1..];
    WithAgeCons(s[0], s[1..], a);
    if AgeKey(s[0]) == a {
      assert wx == [];
      assert WithAge(t, a) == WithAge(s[1..], a);
    } else {
      assert WithAge(InsertByAge(x, s), a) == WithAge(t, a);
      assert WithAge(s, a) == WithAge(s[1..], a);
    }
  }

  /** The sort is stable: the items sharing any one sort key keep their relative order. */
  lemma {:induction false} SortByAgeStable(s: seq<Record>, a: int)
    ensures WithAge(SortByAge(s), a) == WithAge(s, a)
  {
    if s != [] {
      SortByAgeStable(s[1..], a);
      InsertStable(s[0], SortByAge(s[1..]), a);
    }
  }

  /** Sorting a list already in age order changes nothing. */
  lemma {:induction false} SortByAgeOfSorted(s: seq<Record>)
    requires SortedByAge(s)
    ensures SortByAge(s) == s
  {
    if s != [] {
      assert SortedByAge(s[1..]);
      SortByAgeOfSorted(s[1..]);
      assert s == [s[0]] + s[1..];
    }
  }

  // ---------------------------------------------------------------------------
  // `snapshot.forEach(...)`: the children of a path in key order, optionally keeping only
  // the records of one owner

  predicate Admits(owner: Option<UserId>, r: Record) {
    owner.None? || OwnedBy(r, owner.value)
  }

  /** The admitted records among the keys below n, in ascending key order. */
  function Listing(m: map<Key, Record>, n: nat, owner: Option<UserId>): seq<Record>
  {
    if n == 0 then []
    else Listing(m, n - 1, owner) + (if n - 1 in m && Admits(owner, m[n - 1]) then [m[n - 1]] else [])
  }

  /** A record is listed exactly when it sits under a key below the bound and is admitted. */
  lemma {:induction false} ListingMembers(m: map<Key, Record>, n: nat, owner: Option<UserId>, x: Record)
    ensures x in Listing(m, n, owner) <==> exists k: Key :: k < n && k in m && m[k] == x && Admits(owner, x)
  {
    if n > 0 {
      ListingMembers(m, n - 1, owner, x);
      if n - 1 in m && m[n - 1] == x && Admits(owner, x) {
        assert x in Listing(m, n, owner);
      }
    }
  }

  lemma {:induction false} ListingAdmitted(m: map<Key, Record>, n: nat, owner: Option<UserId>)
    ensures forall x :: x in Listing(m, n, owner) ==> Admits(owner, x)
  {
    if n > 0 { ListingAdmitted(m, n - 1, owner); }
  }

  /** Every admitted record of a map whose keys are all below n, the bound that the push
      counter keeps above every key. */
  lemma ListingComplete(m: map<Key, Record>, n: nat, owner: Option<UserId>, k: Key)
    requires k in m && k < n && Admits(owner, m[k])
    ensures m[k] in Listing(m, n, owner)
  {
    ListingMembers(m, n, owner, m[k]);
  }

  /** The nested `forEach` of `getAllSchedules` and `getAllVaccinations`: every record of
      `owner` under every parent below p, parents in key order, children in key order. */
  function ListingAll(tree: map<Key, map<Key, Record>>, p: nat, n: nat, uid: UserId): seq<Record>
  {
    if p == 0 then []
    else ListingAll(tree, p - 1, n, uid) + (if p - 1 in tree then Listing(tree[p - 1], n, Some(uid)) else [])
  }

  lemma {:induction false} ListingAllMembers(tree: map<Key, map<Key, Record>>, p: nat, n: nat, uid: UserId, x: Record)
    ensures x in ListingAll(tree, p, n, uid) <==>
            exists c: Key, k: Key :: c < p && c in tree && k < n && k in tree[c] && tree[c][k] == x && OwnedBy(x, uid)
  {
    if p > 0 {
      ListingAllMembers(tree, p - 1, n, uid, x);
      if p - 1 in tree {
        ListingMembers(tree[p - 1], n, Some(uid), x);
      }
    }
  }
}
