/** The store operations of `childOperations`, `vaccinationOperations` and
    `scheduleOperations`: a Firebase tree held as maps, guarded by the current account.
    The current account is a parameter (None when nobody is logged in); the success of
    each write and of the one read that can visibly fail are parameters too. */
module Store {
  import opened Wrappers
  import opened Calendar
  import opened Protocol
  import opened Status
  import opened Generator
  import opened Records

  datatype Error =
    | NotAuthenticated   // 'User not authenticated'
    | ChildNotFound      // 'Child not found' (missing and foreign children alike)
    | AccessDenied       // 'Child not found or access denied'
    | RemoteFailure      // a store call rejected; its own message is passed on
    | InvalidTimeValue   // `toISOString` of an Invalid Date throws a RangeError

  type Tree = map<Key, map<Key, Record>>

  /** The children of a path; an absent path reads as empty. */
  function Subtree(tree: Tree, c: Key): map<Key, Record> {
    if c in tree then tree[c] else map[]
  }

  function RecordAt(m: map<Key, Record>, k: Key): Record {
    if k in m then m[k] else map[]
  }

  /** `{ ...childData, id, userId, createdAt }`. */
  function ChildRecord(childData: Record, id: Key, uid: UserId, stamp: int): Record {
    childData + map["id" := Num(id), "userId" := Str(uid), "createdAt" := Num(stamp)]
  }

  /** `{ ...vaccinationData, id, childId, userId, createdAt }`. */
  function VaccinationRecord(data: Record, id: Key, childId: Key, uid: UserId, stamp: int): Record {
    data + map["id" := Num(id), "childId" := Num(childId), "userId" := Str(uid), "createdAt" := Num(stamp)]
  }

  /** The schedule item `initializeSchedule` writes for one draft. */
  function ScheduleRecord(d: Draft, id: Key, childId: Key, uid: UserId, stamp: int): Record {
    map[
      "id" := Num(id), "childId" := Num(childId), "userId" := Str(uid),
      "vaccineName" := Str(d.name), "vaccineDescription" := Str(d.description),
      "ageMonths" := Num(d.ageMonths), "ageText" := Str(d.ageText),
      "dueDate" := Str(d.dueDate), "status" := Str(d.status),
      "completed" := Bool(false), "dateCompleted" := Null, "administeredBy" := Null,
      "location" := Null, "batchNumber" := Null, "notes" := Null,
      "createdAt" := Num(stamp)]
  }

  /** The records of the drafts, the i-th under push key base + i. */
  function ScheduleItems(drafts: seq<Draft>, base: Key, childId: Key, uid: UserId, stamp: int): (items: seq<Record>)
    ensures |items| == |drafts|
    ensures forall i :: 0 <= i < |items| ==> items[i] == ScheduleRecord(drafts[i], base + i, childId, uid, stamp)
  {
    seq(|drafts|, i requires 0 <= i < |drafts| => ScheduleRecord(drafts[i], base + i, childId, uid, stamp))
  }

  /** The items `initializeSchedule` writes for a birth date. */
  function InitialItems(birth: CalDate, now: Instant, base: Key, childId: Key, uid: UserId): (items: seq<Record>)
    ensures |items| == |Vaccines|
  {
    ScheduleItems(GenerateSchedule(birth, now), base, childId, uid, Millis(now))
  }

  /** The items among the first n whose write succeeded, under their push keys. */
  function Written(base: Key, items: seq<Record>, ok: seq<bool>, n: nat): map<Key, Record>
    requires n <= |items| == |ok|
  {
    if n == 0 then map[]
    else if ok[n - 1] then Written(base, items, ok, n - 1)[base + (n - 1) := items[n - 1]]
    else Written(base, items, ok, n - 1)
  }

  /** The tree after the first n writes, each succeeding or not; the store keeps no empty
      node, so a path nothing was written to stays as it was. */
  function AfterWrites(tree: Tree, childId: Key, base: Key, items: seq<Record>, ok: seq<bool>, n: nat): Tree
    requires n <= |items| == |ok|
  {
    var w := Written(base, items, ok, n);
    if w == map[] then tree else tree[childId := Subtree(tree, childId) + w]
  }

  /** The schedule tree `initializeSchedule` leaves for a birth-date field: unchanged when
      the field is not a date, otherwise the tree after the writes of the initial items. */
  function InitialTree(tree: Tree, childId: Key, base: Key, birthDate: Value, now: Instant, uid: UserId, ok: seq<bool>): Tree
    requires |ok| == DoseCount
  {
    match ParseDateField(birthDate)
    case None => tree
    case Some(birth) => AfterWrites(tree, childId, base, InitialItems(birth, now, base, childId, uid), ok, |ok|)
  }

  predicate AllTrue(ok: seq<bool>) {
    forall i :: 0 <= i < |ok| ==> ok[i]
  }

  /** What a read of `schedules/{childId}` shows `uid`: their items in key order, stably
      sorted by age, each with its status recomputed for `now`. */
  function ChildScheduleView(m: map<Key, Record>, n: nat, uid: UserId, now: Instant): seq<Record> {
    RefreshAll(SortByAge(Listing(m, n, Some(uid))), now)
  }

  predicate KeysBelow(m: map<Key, Record>, n: nat) {
    forall k :: k in m ==> k < n
  }

  predicate TreeBelow(t: Tree, n: nat) {
    forall c :: c in t ==> c < n && KeysBelow(t[c], n)
  }

  function Max(a: nat, b: nat): nat {
    if a < b then b else a
  }

  /** Gathers the children of a path in key order (a `snapshot.forEach` that pushes). */
  method CollectInKeyOrder(m: map<Key, Record>, n: nat, owner: Option<UserId>) returns (items: seq<Record>)
    ensures items == Listing(m, n, owner)
  {
    items := [];
    var k := 0;
    while k < n
      invariant 0 <= k <= n
      invariant items == Listing(m, k, owner)
    {
      if k in m && Admits(owner, m[k]) {
        items := items + [m[k]];
      }
      k := k + 1;
    }
  }

  /** Gathers the records of `uid` under every parent, parents and children in key order. */
  method CollectAllOwned(tree: Tree, n: nat, uid: UserId) returns (items: seq<Record>)
    ensures items == ListingAll(tree, n, n, uid)
  {
    items := [];
    var c := 0;
    while c < n
      invariant 0 <= c <= n
      invariant items == ListingAll(tree, c, n, uid)
    {
      if c in tree {
        var part := CollectInKeyOrder(tree[c], n, Some(uid));
        items := items + part;
      }
      c := c + 1;
    }
  }

  /** The `scheduleItems.forEach` that reassigns each item's status. */
  method RefreshStatuses(items: seq<Record>, now: Instant) returns (out: seq<Record>)
    ensures out == RefreshAll(items, now)
  {
    out := items;
    var i := 0;
    while i < |out|
      invariant 0 <= i <= |out| == |items|
      invariant forall j :: 0 <= j < i ==> out[j] == RefreshStatus(items[j], now)
      invariant forall j :: i <= j < |out| ==> out[j] == items[j]
    {
      out := out[i := RefreshStatus(out[i], now)];
      i := i + 1;
    }
  }

  /** The `Promise.all` of one `set` per item: each write lands or not on its own, and the
      result reports whether all of them landed. */
  method WriteEach(tree: Tree, c: Key, base: Key, items: seq<Record>, ok: seq<bool>) returns (t: Tree, allOk: bool)
    requires |items| == |ok|
    ensures t == AfterWrites(tree, c, base, items, ok, |items|)
    ensures allOk == AllTrue(ok)
  {
    t, allOk := tree, true;
    var i := 0;
    while i < |items|
      invariant 0 <= i <= |items|
      invariant t == AfterWrites(tree, c, base, items, ok, i)
      invariant allOk <==> forall j :: 0 <= j < i ==> ok[j]
    {
      AfterWritesStep(tree, c, base, items, ok, i);
      if ok[i] {
        t := t[c := Subtree(t, c)[base + i := items[i]]];
      }
      allOk := allOk && ok[i];
      i := i + 1;
    }
  }

  class RecordStore {
    var children: map<Key, Record>
    var schedules: Tree
    var vaccinations: Tree
    /** Stands in for `push()`: every key anywhere in the tree is below it, so the keys it
        hands out are new and increase in the order they are handed out. It starts at 1, so
        no key handed out is 0: like a push key, which is never the empty string, every one
        is truthy. */
    var nextKey: nat

    ghost predicate Valid()
      reads this
    {
      1 <= nextKey && KeysBelow(children, nextKey) && TreeBelow(schedules, nextKey) && TreeBelow(vaccinations, nextKey)
    }

    constructor ()
      ensures Valid()
      ensures children == map[] && schedules == map[] && vaccinations == map[] && nextKey == 1
    {
      children, schedules, vaccinations, nextKey := map[], map[], map[], 1;
    }

    /** `getChildById`: the child when it exists and belongs to the caller; a missing child
        and another account's child give the same error. */
    function ChildById(user: Option<UserId>, childId: Key): (r: Result<Record, Error>)
      reads this
      ensures r.Success? <==> user.Some? && childId in children && OwnedBy(children[childId], user.value)
      ensures r.Success? ==> r.value == children[childId]
      ensures r.Failure? ==> r.error == (if user.None? then NotAuthenticated else ChildNotFound)
    {
      if user.None? then Failure(NotAuthenticated)
      else if childId in children && OwnedBy(children[childId], user.value) then Success(children[childId])
      else Failure(ChildNotFound)
    }

    /** The guard of `updateChild`, `deleteChild` and the vaccination operations. */
    function Guard(user: Option<UserId>, childId: Key): (r: Result<UserId, Error>)
      reads this
      ensures r.Success? <==> ChildById(user, childId).Success?
      ensures r.Success? ==> user == Some(r.value)
      ensures r.Failure? ==> r.error == (if user.None? then NotAuthenticated else AccessDenied)
    {
      if user.None? then Failure(NotAuthenticated)
      else if ChildById(user, childId).Success? then Success(user.value)
      else Failure(AccessDenied)
    }

    // -------------------------------------------------------------------------
    // scheduleOperations

    /** `initializeSchedule`: generates the drafts, then writes each one under a new push key
        of `schedules/{childId}`. The writes are independent: the ones that succeed stay
        written, and the call reports success only when every one of them succeeded. */
    method InitializeSchedule(user: Option<UserId>, childId: Key, birthDate: Value, now: Instant, writeOk: seq<bool>)
      returns (r: Result<seq<Record>, Error>)
      requires Valid() && |writeOk| == DoseCount
      modifies this
      ensures Valid()
      ensures children == old(children) && vaccinations == old(vaccinations)
      ensures user.None? ==> r == Failure(NotAuthenticated) && unchanged(this)
      ensures user.Some? && ParseDateField(birthDate).None? ==> r == Failure(InvalidTimeValue) && unchanged(this)
      ensures user.Some? ==> schedules == InitialTree(old(schedules), childId, old(nextKey), birthDate, now, user.value, writeOk)
      ensures user.Some? && ParseDateField(birthDate).Some? ==>
                var items := InitialItems(ParseDateField(birthDate).value, now, old(nextKey), childId, user.value);
                && nextKey == Max(old(nextKey) + DoseCount, childId + 1)
                && r == (if AllTrue(writeOk) then Success(items) else Failure(RemoteFailure))
    {
      if user.None? { return Failure(NotAuthenticated); }
      var birth := ParseDateField(birthDate);
      if birth.None? { return Failure(InvalidTimeValue); }
      var base := nextKey;
      var items := InitialItems(birth.value, now, base, childId, user.value);
      var tree, allOk := WriteEach(schedules, childId, base, items, writeOk);
      AfterWritesBelow(old(schedules), childId, base, items, writeOk, Max(base + |items|, childId + 1));
      schedules := tree;
      nextKey := Max(base + |items|, childId + 1);
      r := if allOk then Success(items) else Failure(RemoteFailure);
    }

    /** `getChildSchedule`: filters `schedules/{childId}` by the denormalised `userId` alone
        (the child itself is never looked up), sorts by age and recomputes every status. */
    method GetChildSchedule(user: Option<UserId>, childId: Key, now: Instant, readOk: bool)
      returns (r: Result<seq<Record>, Error>)
      ensures user.None? ==> r == Failure(NotAuthenticated)
      ensures user.Some? && !readOk ==> r == Failure(RemoteFailure)
      ensures user.Some? && readOk ==> r == Success(ChildScheduleView(Subtree(schedules, childId), nextKey, user.value, now))
    {
      if user.None? { return Failure(NotAuthenticated); }
      if !readOk { return Failure(RemoteFailure); }
      var items := CollectInKeyOrder(Subtree(schedules, childId), nextKey, user);
      items := SortByAge(items);
      items := RefreshStatuses(items, now);
      r := Success(items);
    }

    /** `updateScheduleItem`: checks only that someone is logged in, then merges the patch
        and a fresh `updatedAt` into `schedules/{childId}/{scheduleId}`, creating it if it
        does not exist, whoever owns the child. */
    method UpdateScheduleItem(user: Option<UserId>, childId: Key, scheduleId: Key, updates: Record, now: Instant, writeOk: bool)
      returns (r: Result<(), Error>)
      requires Valid()
      modifies this
      ensures Valid()
      ensures r.Success? <==> user.Some? && writeOk
      ensures user.None? ==> r == Failure(NotAuthenticated)
      ensures user.Some? && !writeOk ==> r == Failure(RemoteFailure)
      ensures !r.Success? ==> unchanged(this)
      ensures r.Success? ==>
                && schedules == old(schedules)[childId := Subtree(old(schedules), childId)[scheduleId :=
                     Merge(RecordAt(Subtree(old(schedules), childId), scheduleId), updates["updatedAt" := Num(Millis(now))])]]
                && children == old(children) && vaccinations == old(vaccinations)
                && nextKey == Max(old(nextKey), Max(childId, scheduleId) + 1)
    {
      if user.None? { return Failure(NotAuthenticated); }
      if !writeOk { return Failure(RemoteFailure); }
      var sub := Subtree(schedules, childId);
      var patched := Merge(RecordAt(sub, scheduleId), updates["updatedAt" := Num(Millis(now))]);
      var old' := schedules;
      nextKey := Max(nextKey, Max(childId, scheduleId) + 1);
      schedules := schedules[childId := sub[scheduleId := patched]];
      TreeUpdateBelow(old', childId, sub[scheduleId := patched], old(nextKey), nextKey);
      r := Success(());
    }

    /** `getAllSchedules`: every item whose `userId` is the caller's, across all children. */
    method GetAllSchedules(user: Option<UserId>) returns (r: Result<seq<Record>, Error>)
      ensures user.None? ==> r == Failure(NotAuthenticated)
      ensures user.Some? ==> r == Success(ListingAll(schedules, nextKey, nextKey, user.value))
    {
      if user.None? { return Failure(NotAuthenticated); }
      var items := CollectAllOwned(schedules, nextKey, user.value);
      r := Success(items);
    }

    // -------------------------------------------------------------------------
    // childOperations

    /** `getAllChildren`: the caller's children in key order. */
    method GetAllChildren(user: Option<UserId>) returns (r: Result<seq<Record>, Error>)
      ensures user.None? ==> r == Failure(NotAuthenticated)
      ensures user.Some? ==> r == Success(Listing(children, nextKey, user))
    {
      if user.None? { return Failure(NotAuthenticated); }
      var items := CollectInKeyOrder(children, nextKey, user);
      r := Success(items);
    }

    /** `addChild`: writes the record under a new push key, then initialises its schedule
        from `childData.dateOfBirth` and reports success whatever that initialisation
        returned. */
    method AddChild(user: Option<UserId>, childData: Record, now: Instant, childWriteOk: bool, scheduleWriteOk: seq<bool>)
      returns (r: Result<(Key, Record), Error>)
      requires Valid() && |scheduleWriteOk| == DoseCount
      modifies this
      ensures Valid()
      ensures vaccinations == old(vaccinations)
      ensures user.None? ==> r == Failure(NotAuthenticated) && unchanged(this)
      ensures user.Some? && !childWriteOk ==>
                r == Failure(RemoteFailure) && nextKey == old(nextKey) + 1
                && children == old(children) && schedules == old(schedules)
      ensures user.Some? && childWriteOk ==>
                var id := old(nextKey);
                var child := ChildRecord(childData, id, user.value, Millis(now));
                && id !in old(children) && 1 <= id
                && r == Success((id, child))
                && children == old(children)[id := child]
                && schedules == InitialTree(old(schedules), id, id + 1, Field(childData, "dateOfBirth"), now, user.value, scheduleWriteOk)
                && nextKey == if ParseDateField(Field(childData, "dateOfBirth")).Some? then id + 1 + DoseCount else id + 1
    {
      if user.None? { return Failure(NotAuthenticated); }
      var id := nextKey;
      nextKey := nextKey + 1;
      var child := ChildRecord(childData, id, user.value, Millis(now));
      if !childWriteOk { return Failure(RemoteFailure); }
      children := children[id := child];
      ghost var base, tree := nextKey, schedules;
      assert base == id + 1 && tree == old(schedules);
      var birthDate := Field(childData, "dateOfBirth");
      var _ := InitializeSchedule(user, id, birthDate, now, scheduleWriteOk);
      assert nextKey == if ParseDateField(birthDate).Some? then base + DoseCount else base;
      r := Success((id, child));
    }

    /** `updateChild`: when the guard passes, merges the patch and a fresh `updatedAt` into
        the child. Nothing stops the patch from rewriting `userId`. */
    method UpdateChild(user: Option<UserId>, childId: Key, updates: Record, now: Instant, writeOk: bool)
      returns (r: Result<(), Error>)
      requires Valid()
      modifies this
      ensures Valid()
      ensures schedules == old(schedules) && vaccinations == old(vaccinations) && nextKey == old(nextKey)
      ensures old(Guard(user, childId)).Failure? ==> r == Failure(old(Guard(user, childId)).error) && unchanged(this)
      ensures old(Guard(user, childId)).Success? && !writeOk ==> r == Failure(RemoteFailure) && unchanged(this)
      ensures old(Guard(user, childId)).Success? && writeOk ==>
                r == Success(()) &&
                children == old(children)[childId := Merge(old(children)[childId], updates["updatedAt" := Num(Millis(now))])]
    {
      var g := Guard(user, childId);
      if g.Failure? { return Failure(g.error); }
      if !writeOk { return Failure(RemoteFailure); }
      children := children[childId := Merge(children[childId], updates["updatedAt" := Num(Millis(now))])];
      r := Success(());
    }

    /** `deleteChild`: when the guard passes, removes `children/{childId}`, then
        `vaccinations/{childId}`; `schedules/{childId}` is never removed. */
    method DeleteChild(user: Option<UserId>, childId: Key, childRemoveOk: bool, vaccinationsRemoveOk: bool)
      returns (r: Result<(), Error>)
      requires Valid()
      modifies this
      ensures Valid()
      ensures schedules == old(schedules) && nextKey == old(nextKey)
      ensures old(Guard(user, childId)).Failure? ==> r == Failure(old(Guard(user, childId)).error) && unchanged(this)
      ensures old(Guard(user, childId)).Success? && !childRemoveOk ==> r == Failure(RemoteFailure) && unchanged(this)
      ensures old(Guard(user, childId)).Success? && childRemoveOk ==>
                && children == old(children) - {childId}
                && vaccinations == (if vaccinationsRemoveOk then old(vaccinations) - {childId} else old(vaccinations))
                && r == (if vaccinationsRemoveOk then Success(()) else Failure(RemoteFailure))
                && ChildById(user, childId) == Failure(ChildNotFound)
    {
      var g := Guard(user, childId);
      if g.Failure? { return Failure(g.error); }
      if !childRemoveOk { return Failure(RemoteFailure); }
      children := children - {childId};
      if !vaccinationsRemoveOk { return Failure(RemoteFailure); }
      vaccinations := vaccinations - {childId};
      r := Success(());
    }

    // -------------------------------------------------------------------------
    // vaccinationOperations

    /** `addVaccination`: when the guard passes, writes the record under a new push key of
        `vaccinations/{childId}`. */
    method AddVaccination(user: Option<UserId>, childId: Key, data: Record, now: Instant, writeOk: bool)
      returns (r: Result<(Key, Record), Error>)
      requires Valid()
      modifies this
      ensures Valid()
      ensures children == old(children) && schedules == old(schedules)
      ensures old(Guard(user, childId)).Failure? ==> r == Failure(old(Guard(user, childId)).error) && unchanged(this)
      ensures old(Guard(user, childId)).Success? ==>
                var id := old(nextKey);
                var rec := VaccinationRecord(data, id, childId, user.value, Millis(now));
                && nextKey == id + 1
                && id !in Subtree(old(vaccinations), childId)
                && (writeOk ==>
                      r == Success((id, rec)) &&
                      vaccinations == old(vaccinations)[childId := Subtree(old(vaccinations), childId)[id := rec]])
                && (!writeOk ==> r == Failure(RemoteFailure) && vaccinations == old(vaccinations))
    {
      var g := Guard(user, childId);
      if g.Failure? { return Failure(g.error); }
      var id := nextKey;
      nextKey := nextKey + 1;
      var rec := VaccinationRecord(data, id, childId, g.value, Millis(now));
      if !writeOk { return Failure(RemoteFailure); }
      var old' := vaccinations;
      vaccinations := vaccinations[childId := Subtree(vaccinations, childId)[id := rec]];
      TreeUpdateBelow(old', childId, Subtree(old', childId)[id := rec], id, nextKey);
      r := Success((id, rec));
    }

    /** `getChildVaccinations`: when the guard passes, every record of the child in key
        order, without any per-record owner filter. */
    method GetChildVaccinations(user: Option<UserId>, childId: Key) returns (r: Result<seq<Record>, Error>)
      ensures Guard(user, childId).Failure? ==> r == Failure(Guard(user, childId).error)
      ensures Guard(user, childId).Success? ==> r == Success(Listing(Subtree(vaccinations, childId), nextKey, None))
    {
      var g := Guard(user, childId);
      if g.Failure? { return Failure(g.error); }
      var items := CollectInKeyOrder(Subtree(vaccinations, childId), nextKey, None);
      r := Success(items);
    }

    /** `updateVaccination`: when the guard passes, merges the patch and a fresh `updatedAt`
        into `vaccinations/{childId}/{vaccinationId}`, creating it if needed. */
    method UpdateVaccination(user: Option<UserId>, childId: Key, vaccinationId: Key, updates: Record, now: Instant, writeOk: bool)
      returns (r: Result<(), Error>)
      requires Valid()
      modifies this
      ensures Valid()
      ensures children == old(children) && schedules == old(schedules)
      ensures old(Guard(user, childId)).Failure? ==> r == Failure(old(Guard(user, childId)).error) && unchanged(this)
      ensures old(Guard(user, childId)).Success? && !writeOk ==> r == Failure(RemoteFailure) && unchanged(this)
      ensures old(Guard(user, childId)).Success? && writeOk ==>
                && r == Success(())
                && vaccinations == old(vaccinations)[childId := Subtree(old(vaccinations), childId)[vaccinationId :=
                     Merge(RecordAt(Subtree(old(vaccinations), childId), vaccinationId), updates["updatedAt" := Num(Millis(now))])]]
                && nextKey == Max(old(nextKey), vaccinationId + 1)
    {
      var g := Guard(user, childId);
      if g.Failure? { return Failure(g.error); }
      if !writeOk { return Failure(RemoteFailure); }
      var sub := Subtree(vaccinations, childId);
      var patched := Merge(RecordAt(sub, vaccinationId), updates["updatedAt" := Num(Millis(now))]);
      var old' := vaccinations;
      nextKey := Max(nextKey, vaccinationId + 1);
      vaccinations := vaccinations[childId := sub[vaccinationId := patched]];
      TreeUpdateBelow(old', childId, sub[vaccinationId := patched], old(nextKey), nextKey);
      r := Success(());
    }

    /** `getAllVaccinations`: every record whose `userId` is the caller's, across all children. */
    method GetAllVaccinations(user: Option<UserId>) returns (r: Result<seq<Record>, Error>)
      ensures user.None? ==> r == Failure(NotAuthenticated)
      ensures user.Some? ==> r == Success(ListingAll(vaccinations, nextKey, nextKey, user.value))
    {
      if user.None? { return Failure(NotAuthenticated); }
      var items := CollectAllOwned(vaccinations, nextKey, user.value);
      r := Success(items);
    }
  }

  // ---------------------------------------------------------------------------
  // Lemmas

  lemma {:induction false} WrittenKeys(base: Key, items: seq<Record>, ok: seq<bool>, n: nat)
    requires n <= |items| == |ok|
    ensures forall k :: k in Written(base, items, ok, n) <==> base <= k < base + n && ok[k - base]
    ensures forall k :: k in Written(base, items, ok, n) ==> Written(base, items, ok, n)[k] == items[k - base]
  {
    if n > 0 { WrittenKeys(base, items, ok, n - 1); }
  }

  /** The link fields of one schedule item, and the fields a later update records. */
  lemma ScheduleRecordLinks(d: Draft, id: Key, childId: Key, uid: UserId, stamp: int)
    ensures var r := ScheduleRecord(d, id, childId, uid, stamp);
            && Field(r, "id") == Num(id) && Field(r, "childId") == Num(childId) && OwnedBy(r, uid)
            && Field(r, "completed") == Bool(false) && Field(r, "dateCompleted") == Null
  {
  }

  /** The dose fields of one schedule item, copied from its draft. */
  lemma ScheduleRecordDose(d: Draft, id: Key, childId: Key, uid: UserId, stamp: int)
    ensures var r := ScheduleRecord(d, id, childId, uid, stamp);
            && Field(r, "vaccineName") == Str(d.name) && Field(r, "vaccineDescription") == Str(d.description)
            && AgeKey(r) == d.ageMonths
            && Field(r, "dueDate") == Str(d.dueDate) && Field(r, "status") == Str(d.status)
  {
  }

  /** Each item written for a list of drafts links its own push key, the child and the
      caller, and records nothing yet. */
  lemma ScheduleItemLinks(drafts: seq<Draft>, base: Key, childId: Key, uid: UserId, stamp: int, i: nat)
    requires i < |drafts|
    ensures var item := ScheduleItems(drafts, base, childId, uid, stamp)[i];
            && Field(item, "id") == Num(base + i)
            && Field(item, "childId") == Num(childId)
            && OwnedBy(item, uid)
            && Field(item, "completed") == Bool(false)
            && Field(item, "dateCompleted") == Null
  {
    ScheduleRecordLinks(drafts[i], base + i, childId, uid, stamp);
  }

  /** Each item written for a list of drafts carries its draft's dose fields. */
  lemma ScheduleItemDose(drafts: seq<Draft>, base: Key, childId: Key, uid: UserId, stamp: int, i: nat)
    requires i < |drafts|
    ensures var item := ScheduleItems(drafts, base, childId, uid, stamp)[i];
            && Field(item, "vaccineName") == Str(drafts[i].name)
            && Field(item, "vaccineDescription") == Str(drafts[i].description)
            && AgeKey(item) == drafts[i].ageMonths
            && Field(item, "dueDate") == Str(drafts[i].dueDate)
            && Field(item, "status") == Str(drafts[i].status)
  {
    ScheduleRecordDose(drafts[i], base + i, childId, uid, stamp);
  }

  /** The i-th initial item carries the i-th dose of the protocol. */
  lemma InitialItemDose(birth: CalDate, now: Instant, base: Key, childId: Key, uid: UserId, i: nat)
    requires i < |Vaccines|
    ensures var item := InitialItems(birth, now, base, childId, uid)[i];
            && Field(item, "vaccineName") == Str(Vaccines[i].name)
            && Field(item, "vaccineDescription") == Str(Vaccines[i].description)
            && AgeKey(item) == Vaccines[i].ageMonths
  {
    ScheduleItemDose(GenerateSchedule(birth, now), base, childId, uid, Millis(now), i);
  }

  /** The i-th initial item is due `ageMonths` after birth, serialised as an ISO date, with
      the status the generator gave it. */
  lemma InitialItemDue(birth: CalDate, now: Instant, base: Key, childId: Key, uid: UserId, i: nat)
    requires i < |Vaccines|
    ensures var item := InitialItems(birth, now, base, childId, uid)[i];
            var due := AddMonths(birth, Vaccines[i].ageMonths);
            && Field(item, "dueDate") == Str(FormatIsoDate(due))
            && Field(item, "status") == Str(GenerationStatus(due, now).Name())
  {
    ScheduleItemDose(GenerateSchedule(birth, now), base, childId, uid, Millis(now), i);
  }

  predicate DraftsByAge(drafts: seq<Draft>) {
    forall i, j :: 0 <= i <= j < |drafts| ==> drafts[i].ageMonths <= drafts[j].ageMonths
  }

  /** Items built from drafts in age order all belong to `uid` and are in age order. */
  lemma {:induction false} ScheduleItemsOrdered(drafts: seq<Draft>, base: Key, childId: Key, uid: UserId, stamp: int)
    requires DraftsByAge(drafts)
    ensures var items := ScheduleItems(drafts, base, childId, uid, stamp);
            && SortedByAge(items)
            && forall i :: 0 <= i < |items| ==> OwnedBy(items[i], uid)
  {
    var items := ScheduleItems(drafts, base, childId, uid, stamp);
    forall i | 0 <= i < |items|
      ensures OwnedBy(items[i], uid) && AgeKey(items[i]) == drafts[i].ageMonths
    {
      ScheduleRecordOwnerAge(drafts[i], base + i, childId, uid, stamp);
    }
  }

  lemma ScheduleRecordOwnerAge(d: Draft, id: Key, childId: Key, uid: UserId, stamp: int)
    ensures OwnedBy(ScheduleRecord(d, id, childId, uid, stamp), uid)
    ensures AgeKey(ScheduleRecord(d, id, childId, uid, stamp)) == d.ageMonths
  {
  }

  /** Listing a map that holds exactly `items` under the consecutive keys from `base`
      gives the items below the bound, in order. */
  lemma {:induction false} ListingOfRange(m: map<Key, Record>, base: Key, items: seq<Record>, n: nat, owner: Option<UserId>)
    requires forall k :: k in m <==> base <= k < base + |items|
    requires forall k :: k in m ==> m[k] == items[k - base]
    requires forall i :: 0 <= i < |items| ==> Admits(owner, items[i])
    ensures Listing(m, n, owner) == items[..if n <= base then 0 else if n - base < |items| then n - base else |items|]
  {
    if n > 0 {
      ListingOfRange(m, base, items, n - 1, owner);
      if base < n <= base + |items| {
        assert items[..n - base] == items[..n - 1 - base] + [items[n - 1 - base]];
      }
    }
  }

  /** Reading a path that held nothing, right after writes of owned, age-ordered items that
      all landed, gives the items back in their order with their statuses recomputed. */
  lemma ReadAfterWrites(tree: Tree, childId: Key, base: Key, items: seq<Record>, ok: seq<bool>,
                        n: nat, uid: UserId, now: Instant)
    requires |items| == |ok| && AllTrue(ok) && items != []
    requires SortedByAge(items) && forall i :: 0 <= i < |items| ==> OwnedBy(items[i], uid)
    requires Subtree(tree, childId) == map[]
    requires base + |items| <= n
    ensures ChildScheduleView(Subtree(AfterWrites(tree, childId, base, items, ok, |items|), childId), n, uid, now)
              == RefreshAll(items, now)
  {
    WrittenKeys(base, items, ok, |items|);
    var w := Written(base, items, ok, |items|);
    assert base in w;
    assert Subtree(AfterWrites(tree, childId, base, items, ok, |items|), childId) == w;
    ListingOfRange(w, base, items, n, Some(uid));
    assert items[..|items|] == items;
    SortByAgeOfSorted(items);
  }

  /** Reading a child's schedule right after an initialisation whose writes all landed, on
      a path that held nothing, gives the initial items in protocol order with their
      statuses recomputed. */
  lemma ReadAfterInitialize(tree: Tree, birth: CalDate, created: Instant, base: Key, childId: Key, uid: UserId,
                            ok: seq<bool>, n: nat, now: Instant)
    requires |ok| == |Vaccines| && AllTrue(ok)
    requires Subtree(tree, childId) == map[]
    requires base + |Vaccines| <= n
    ensures var items := InitialItems(birth, created, base, childId, uid);
            ChildScheduleView(Subtree(AfterWrites(tree, childId, base, items, ok, |items|), childId), n, uid, now)
              == RefreshAll(items, now)
  {
    var drafts := GenerateSchedule(birth, created);
    DraftAgesNondecreasing(birth, created);
    ScheduleItemsOrdered(drafts, base, childId, uid, Millis(created));
    AgesInOrder();
    ReadAfterWrites(tree, childId, base, InitialItems(birth, created, base, childId, uid), ok, n, uid, now);
  }

  /** A schedule read shows exactly the caller's items under the path, each with its status
      recomputed, in age order. */
  lemma ChildScheduleViewProperties(m: map<Key, Record>, n: nat, uid: UserId, now: Instant)
    ensures var view := ChildScheduleView(m, n, uid, now);
            && SortedByAge(view)
            && (forall x :: x in view <==>
                  exists k: Key :: k < n && k in m && OwnedBy(m[k], uid) && x == RefreshStatus(m[k], now))
  {
    ChildScheduleViewSorted(m, n, uid, now);
    ChildScheduleViewMembers(m, n, uid, now);
  }

  lemma ChildScheduleViewSorted(m: map<Key, Record>, n: nat, uid: UserId, now: Instant)
    ensures SortedByAge(ChildScheduleView(m, n, uid, now))
  {
    var listed := Listing(m, n, Some(uid));
    var sorted := SortByAge(listed);
    var view := ChildScheduleView(m, n, uid, now);
    forall i, j | 0 <= i <= j < |view|
      ensures AgeKey(view[i]) <= AgeKey(view[j])
    {
      RefreshKeepsOwnerAndAge(sorted[i], now, uid);
      RefreshKeepsOwnerAndAge(sorted[j], now, uid);
    }
  }

  lemma ChildScheduleViewMembers(m: map<Key, Record>, n: nat, uid: UserId, now: Instant)
    ensures var view := ChildScheduleView(m, n, uid, now);
            forall x :: x in view <==>
              exists k: Key :: k < n && k in m && OwnedBy(m[k], uid) && x == RefreshStatus(m[k], now)
  {
    var view := ChildScheduleView(m, n, uid, now);
    forall x
      ensures x in view <==> exists k: Key :: k < n && k in m && OwnedBy(m[k], uid) && x == RefreshStatus(m[k], now)
    {
      if x in view {
        ViewItemFromSource(m, n, uid, now, x);
      }
      if exists k: Key :: k < n && k in m && OwnedBy(m[k], uid) && x == RefreshStatus(m[k], now) {
        var k: Key :| k < n && k in m && OwnedBy(m[k], uid) && x == RefreshStatus(m[k], now);
        SourceItemInView(m, n, uid, now, k);
      }
    }
  }

  lemma ViewItemFromSource(m: map<Key, Record>, n: nat, uid: UserId, now: Instant, x: Record)
    requires x in ChildScheduleView(m, n, uid, now)
    ensures exists k: Key :: k < n && k in m && OwnedBy(m[k], uid) && x == RefreshStatus(m[k], now)
  {
    var listed := Listing(m, n, Some(uid));
    var sorted := SortByAge(listed);
    var view := ChildScheduleView(m, n, uid, now);
    var i :| 0 <= i < |view| && view[i] == x;
    assert sorted[i] in multiset(listed);
    ListingMembers(m, n, Some(uid), sorted[i]);
  }

  lemma SourceItemInView(m: map<Key, Record>, n: nat, uid: UserId, now: Instant, k: Key)
    requires k < n && k in m && OwnedBy(m[k], uid)
    ensures RefreshStatus(m[k], now) in ChildScheduleView(m, n, uid, now)
  {
    var listed := Listing(m, n, Some(uid));
    var sorted := SortByAge(listed);
    var view := ChildScheduleView(m, n, uid, now);
    ListingMembers(m, n, Some(uid), m[k]);
    assert m[k] in multiset(sorted);
    var i :| 0 <= i < |sorted| && sorted[i] == m[k];
    assert view[i] == RefreshStatus(m[k], now);
  }

  /** Initialising a path that already holds items replaces none of them: the new items
      land beside the old ones under fresh keys, so initialising twice duplicates every dose
      whose write landed both times. */
  lemma AfterWritesKeepsEarlier(tree: Tree, c: Key, base: Key, items: seq<Record>, ok: seq<bool>)
    requires |items| == |ok| && KeysBelow(Subtree(tree, c), base)
    ensures var after := Subtree(AfterWrites(tree, c, base, items, ok, |items|), c);
            && (forall k :: k in after <==> k in Subtree(tree, c) || (base <= k < base + |items| && ok[k - base]))
            && (forall k :: k in Subtree(tree, c) ==> after[k] == Subtree(tree, c)[k])
            && (forall k :: k in after && k !in Subtree(tree, c) ==> after[k] == items[k - base])
    ensures forall c' :: c' != c ==> Subtree(AfterWrites(tree, c, base, items, ok, |items|), c') == Subtree(tree, c')
  {
    WrittenKeys(base, items, ok, |items|);
  }

  /** A write that succeeded adds its item under its key. */
  lemma WrittenLanded(base: Key, items: seq<Record>, ok: seq<bool>, n: nat)
    requires 0 < n <= |items| == |ok| && ok[n - 1]
    ensures Written(base, items, ok, n) == Written(base, items, ok, n - 1)[base + (n - 1) := items[n - 1]]
  {
  }

  /** A write that failed adds nothing. */
  lemma WrittenSkipped(base: Key, items: seq<Record>, ok: seq<bool>, n: nat)
    requires 0 < n <= |items| == |ok| && !ok[n - 1]
    ensures Written(base, items, ok, n) == Written(base, items, ok, n - 1)
  {
  }

  /** One more write adds its item under its key when it succeeds. */
  lemma WrittenStep(base: Key, items: seq<Record>, ok: seq<bool>, i: nat, n: nat)
    requires n <= |items| == |ok| && i == n - 1
    ensures ok[i] ==> Written(base, items, ok, n) == Written(base, items, ok, i)[base + i := items[i]]
    ensures !ok[i] ==> Written(base, items, ok, n) == Written(base, items, ok, i)
  {
    if ok[i] {
      WrittenLanded(base, items, ok, n);
    } else {
      WrittenSkipped(base, items, ok, n);
    }
  }

  lemma MergeUpdate(m: map<Key, Record>, w: map<Key, Record>, k: Key, v: Record)
    ensures (m + w)[k := v] == m + w[k := v]
  {
  }

  lemma MergeEmpty(m: map<Key, Record>)
    ensures m + map[] == m
  {
  }

  lemma AfterWritesStep(tree: Tree, c: Key, base: Key, items: seq<Record>, ok: seq<bool>, i: nat)
    requires i < |items| == |ok|
    ensures var t := AfterWrites(tree, c, base, items, ok, i);
            AfterWrites(tree, c, base, items, ok, i + 1) ==
              if ok[i] then t[c := Subtree(t, c)[base + i := items[i]]] else t
  {
    var n := i + 1;
    var w, w' := Written(base, items, ok, i), Written(base, items, ok, n);
    WrittenStep(base, items, ok, i, n);
    var sub := Subtree(tree, c);
    var t := AfterWrites(tree, c, base, items, ok, i);
    if ok[i] {
      assert base + i in w';
      MergeUpdate(sub, w, base + i, items[i]);
      if w == map[] { MergeEmpty(sub); }
      assert Subtree(t, c) == sub + w;
    }
  }

  lemma AfterWritesBelow(tree: Tree, c: Key, base: Key, items: seq<Record>, ok: seq<bool>, n: nat)
    requires |items| == |ok| && TreeBelow(tree, base) && base + |items| <= n && c < n
    ensures TreeBelow(AfterWrites(tree, c, base, items, ok, |items|), n)
  {
    WrittenKeys(base, items, ok, |items|);
    var w := Written(base, items, ok, |items|);
    if w != map[] {
      TreeUpdateBelow(tree, c, Subtree(tree, c) + w, base, n);
    }
  }

  lemma TreeUpdateBelow(t: Tree, c: Key, sub: map<Key, Record>, n: nat, n': nat)
    requires TreeBelow(t, n) && n <= n' && c < n' && KeysBelow(sub, n')
    ensures TreeBelow(t[c := sub], n')
  {
  }
}
