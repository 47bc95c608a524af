# Immunization schedule engine, modelled in Dafny

This project models the core of a child-immunization tracker:

- a fixed protocol of twelve doses, and the generator that turns a birth date into a dated schedule;
- the two rules that derive a dose's status (`upcoming`, `due`, `overdue`, `completed`): one when the schedule is created, one each time it is read;
- the Firebase-backed store of children, vaccination records and schedule items, with its ownership guard;
- the schedule page's state: the child selection, the filter, and the pending-dose list;
- the small helpers: age text, status colour and phone-number formatting.

Modules follow the program's structure:

| file | module | what it holds |
|---|---|---|
| `wrappers.dfy` | `Wrappers` | `Option` and `Result` |
| `text.dfy` | `Text` | decimal digits, zero padding, integer rendering |
| `calendar.dfy` | `Calendar` | calendar dates, day numbers, `setMonth`-style month addition, `YYYY-MM-DD` formatting and parsing |
| `protocol.dfy` | `Protocol` | the dose table `vaccineSchedule.vaccines` |
| `status.dfy` | `Status` | the generation-time and read-time status rules |
| `generator.dfy` | `Generator` | `generateSchedule` |
| `records.dfy` | `Records` | store records as maps from field names to JSON-like values, truthiness, the read-time refresh, the stable sort by `ageMonths`, key-order listings |
| `store.dfy` | `Store` | the class `RecordStore`: `childOperations`, `vaccinationOperations` and `scheduleOperations` |
| `manager.dfy` | `Manager` | the class `ScheduleManager` and its filters and look-ups |
| `age.dfy` | `Age` | `calculateAge` |
| `colors.dfy` | `Colors` | both variants of `getStatusColor` |
| `phone.dfy` | `Phone` | `formatPhoneNumber` |

## How the outside world enters the model

- **Current account.** It is an `Option<UserId>` parameter, `None` when nobody is logged in.
- **Time.** "Now" is an `Instant`: a calendar date plus milliseconds since midnight. `Date.now()` stamps are `Millis(now)`, the milliseconds since the epoch. All dates are calendar dates, with no time zone.
- **Store failures.** Whether a store call succeeds is a boolean parameter of the operation, one flag per write. The bulk insert of a schedule takes one flag per dose.
- **Push keys.** They are natural numbers taken from a counter `nextKey` that starts at 1, so no key is 0 and, like a push key, every one is truthy. Every key anywhere in the tree stays below the counter (`RecordStore.Valid`), so Firebase's chronological key order becomes numeric order.
- **Absent paths.** An update of a path that does not exist creates it, as Firebase does. A path nothing was written to stays absent, since Firebase keeps no empty nodes.
- **Store calls awaited by the schedule page.** Their results are parameters of the `ScheduleManager` methods.

## Quirks of the code the model keeps

- **Month addition.** `setMonth` rolls a day past the end of the target month into the next month, so 31 January plus one month is 3 March (2 March in a leap year). `Calendar.AddMonths` follows it. `Calendar.AddMonthsClamped` is the clamping alternative, and `Calendar.RolloverVersusClamp` states exactly where the two differ.
- **Age text.** Under a zero year count the month count is not corrected across a New Year: a birth on 2024-06-15 read on 2025-06-14 gives "-1 months", and a birth in November read the following February gives "-9 months". `Age.MonthsReading` and `Age.AgeExamples` state this.
- **Bulk schedule insert.** The writes that landed are kept, and the caller learns only that something failed (`Store.RecordStore.InitializeSchedule`). A second initialisation adds a second set of items (`Store.AfterWritesKeepsEarlier`).
- **Two status rules.** Generation and reads classify a dose differently when its due date is today at exactly midnight: generation gives `upcoming`, a read gives `due` (`Status.GenerationVersusRead`).
- **Ownership.** `updateScheduleItem` checks only that someone is logged in (`Store.RecordStore.UpdateScheduleItem`). `getChildSchedule` filters items by their own `userId` and never checks the child (`Store.RecordStore.GetChildSchedule`). `deleteChild` leaves the child's schedule in place (`Store.RecordStore.DeleteChild`). An `updateChild` patch may rewrite `userId` (`Records.MergeOwner`).

## Model

| member | source | states |
|---|---|---|
| Protocol.ProtocolShape | firebase-utils.js:384-457 | the protocol has 12 doses with pairwise distinct names, ages never decrease along it, and it runs from birth to 24 months |
| Generator.GenerateSchedule | firebase-utils.js:460-487 | one draft per protocol dose, in protocol order. Each draft copies the dose's name, description, age and age text, carries the due date `ageMonths` after birth as an ISO date and the generation-time status, and is not administered |
| Generator.OneDraftPerDose | firebase-utils.js:460-487 | there are twelve drafts, with pairwise distinct names |
| Generator.DraftAgesNondecreasing | firebase-utils.js:461-485 | the drafts follow the protocol's age order |
| Generator.DueDatesReadBack | firebase-utils.js:479 | each serialised due date parses back to the birth date advanced by the dose's age |
| Generator.DueDatesNondecreasing | firebase-utils.js:462-464 | protocol order is also due-date order |
| Generator.InitialStatusCases | firebase-utils.js:466-475 | a draft is `overdue` exactly when more than 30 whole days are past, `due` when 0 to 30 days are past (day 0 only after midnight), and otherwise `upcoming` |
| Calendar.AddMonths | firebase-utils.js:463-464 | moves to the calendar month k later; the day is kept when it fits that month |
| Calendar.AddMonthsDayNumber | firebase-utils.js:463-464 | the result is the first day of the target month plus day − 1 days, so an overflowing day carries into the next month |
| Calendar.AddMonthsMonotone | firebase-utils.js:463-464 | more months never give an earlier date |
| Calendar.RolloverVersusClamp | firebase-utils.js:463-464 | rollover and clamping agree exactly when the day fits the target month; otherwise rollover lands (day − length of the target month) days after the clamped date |
| Calendar.DaysInMonth | firebase-utils.js:463-464 | month lengths lie between 28 and 31; a month has 29 days exactly in February of a leap year |
| Calendar.DaysFromYearFormula | firebase-utils.js:463-464 | counting the days before a year one year at a time agrees with ECMAScript's closed form DayFromYear: 365 days per year plus the leap days counted by 4, 100 and 400 with floor division |
| Calendar.EpochIsDayZero | firebase-utils.js:312 | day 0 is 1970-01-01, the epoch from which time values count |
| Calendar.DayNumberOrder | firebase-utils.js:468 | comparing dates matches calendar order |
| Calendar.DayNumberInjective | firebase-utils.js:468 | distinct dates have distinct day numbers |
| Calendar.IsoRoundTrip | firebase-utils.js:479 | `YYYY-MM-DD` (and `±YYYYYY-MM-DD` outside years 0 to 9999) formatting followed by parsing returns the date |
| Calendar.ParseIsoDate | firebase-utils.js:312 | only the ten- and thirteen-character ISO forms parse |
| Calendar.MakeDate | firebase-utils.js:312 | a parsed triple is accepted exactly when it is a real calendar date |
| Status.DaysSince | firebase-utils.js:313 | the floor of the milliseconds between the due date's midnight and now, divided by a day, is the whole calendar days between them |
| Status.GenerationStatus | firebase-utils.js:466-475 | a fresh draft is never `completed`; it is `overdue` exactly when more than 30 calendar days are past, and `upcoming` exactly when its due date's midnight is not before now |
| Status.ReadTimeStatus | firebase-utils.js:313-321 | a read classifies a dose that is not completed by whole calendar days past the due date: `overdue` beyond 30, `due` from 0 to 30, `upcoming` before; never `completed` |
| Status.TimeValueStatus | firebase-utils.js:312-321 | for a due moment given in milliseconds, `overdue` exactly when at least 31 days of milliseconds have passed and `upcoming` exactly before the moment |
| Status.GenerationByDays | firebase-utils.js:466-475 | the generation rule by whole days: overdue past 30 days, due from any moment after the due date's midnight, upcoming before |
| Status.ReadTimeBoundaries | firebase-utils.js:315-321 | 31 days past is overdue, 30 and 0 are due, −1 is upcoming |
| Status.ReadTimeMonotone | firebase-utils.js:315-321 | as time passes a dose that is not given only moves forward from upcoming to due to overdue, never to completed |
| Status.GenerationVersusRead | firebase-utils.js:309-325 | the generation and read rules agree except on a due date that is today at exactly midnight, where generation says upcoming and a read says due |
| Status.NameInjective | firebase-utils.js:316-323 | distinct statuses are stored under distinct strings |
| Records.RefreshStatus | firebase-utils.js:310-325 | a read changes no field but `status`, and a completed item becomes `completed` |
| Records.RefreshStatusRules | firebase-utils.js:310-325 | an item that is not completed but has a due date is classified by the milliseconds since the moment `new Date` reads from it (a `YYYY-MM-DD` string, a number of milliseconds, or a boolean as 1 or 0): `overdue` once 31 full days have passed, `due` from that moment, `upcoming` before it or for an Invalid Date. For an ISO date this is more than 30, 0 to 30, or fewer than 0 whole calendar days. An item with neither keeps its stored status |
| Records.NumericDueDates | firebase-utils.js:312 | a numeric due date is a moment: 0 is the same due date as 1970-01-01, and 1 read on 1 March 1970 is overdue |
| Records.RefreshAll | firebase-utils.js:310-325 | every item is refreshed in place, the list keeps its length and order |
| Records.RefreshKeepsOwnerAndAge | firebase-utils.js:310-325 | refreshing keeps each item's owner and sort key |
| Records.SortByAge | firebase-utils.js:306 | the sort by `ageMonths \|\| 0` yields an ascending permutation of its input |
| Records.SortByAgeStable | firebase-utils.js:306 | items with equal sort keys keep their relative order |
| Records.SortByAgeOfSorted | firebase-utils.js:306 | a list already in age order is left unchanged |
| Records.Merge | firebase-utils.js:91-94 | an update keeps the record's fields, and the patch's fields override them |
| Records.MergeOwner | firebase-utils.js:91-94 | after an update the owner is the patch's `userId` whenever the patch has one |
| Records.ListingMembers | firebase-utils.js:298-303 | a record is listed exactly when it sits under a key below the bound and belongs to the requested owner |
| Records.ListingAdmitted | firebase-utils.js:298-303 | every listed record belongs to the requested owner |
| Records.ListingComplete | firebase-utils.js:298-303 | every owned record under a key below the bound is listed |
| Records.ListingAllMembers | firebase-utils.js:365-372 | the listing across all children holds exactly the caller's records under every child |
| Store.RecordStore.ChildById | firebase-utils.js:56-76 | a child is returned exactly when it exists and its `userId` is the caller's; a missing and a foreign child give the same `Child not found` |
| Store.RecordStore.Guard | firebase-utils.js:81-89 | the guard of the child-scoped operations passes exactly when `getChildById` would succeed; otherwise it fails as not authenticated or as `Child not found or access denied` |
| Store.RecordStore.AddChild | firebase-utils.js:6-33 | the record is the data plus `id`, `userId` and `createdAt` under a fresh key, which is at least 1 (so its `id` is truthy). Its schedule is initialised from `dateOfBirth`, and success is reported whatever the initialisation did. A failed child write writes nothing but uses up a key |
| Store.RecordStore.GetAllChildren | firebase-utils.js:35-53 | returns the caller's children in key order |
| Store.RecordStore.UpdateChild | firebase-utils.js:78-101 | when the guard passes and the write lands, the patch plus `updatedAt` is merged into the child; otherwise nothing changes |
| Store.RecordStore.DeleteChild | firebase-utils.js:103-125 | when the guard passes, removes the child and then its vaccinations. The schedule subtree and every other child are left as they were. A failure of the second removal leaves the child removed |
| Store.RecordStore.AddVaccination | firebase-utils.js:130-159 | when the guard passes, writes the data plus `id`, `childId`, `userId` and `createdAt` under a fresh key of the child's path; nothing is written when the guard fails |
| Store.RecordStore.GetChildVaccinations | firebase-utils.js:161-185 | when the guard passes, returns every record under the child in key order, with no owner filter |
| Store.RecordStore.UpdateVaccination | firebase-utils.js:187-210 | when the guard passes and the write lands, merges the patch plus `updatedAt` into the record, creating it if needed |
| Store.RecordStore.GetAllVaccinations | firebase-utils.js:212-236 | the caller's records under every child, in key order |
| Store.RecordStore.InitializeSchedule | firebase-utils.js:241-285 | an unreadable birth date fails before any write. Otherwise item i is written under key `nextKey + i` exactly when its write lands, and success, returning the items, is reported only when every write landed |
| Store.RecordStore.GetChildSchedule | firebase-utils.js:288-332 | returns the items under the path whose own `userId` is the caller's (the child is never checked), sorted by age, with statuses refreshed |
| Store.RecordStore.UpdateScheduleItem | firebase-utils.js:335-352 | succeeds whenever someone is logged in and the write lands, whoever owns the child. It merges the patch plus `updatedAt`, creating the item if needed |
| Store.RecordStore.GetAllSchedules | firebase-utils.js:355-378 | the caller's items under every child, in key order |
| Store.WriteEach | firebase-utils.js:252-279 | the bulk insert as a loop: each write lands or not on its own, and the result says whether all landed |
| Store.CollectInKeyOrder | firebase-utils.js:298-303 | the `forEach` that pushes returns the key-order listing |
| Store.CollectAllOwned | firebase-utils.js:365-372 | the nested `forEach` returns the listing across all children |
| Store.RefreshStatuses | firebase-utils.js:310-325 | the loop that reassigns `status` yields the refreshed list |
| Store.ScheduleItems | firebase-utils.js:252-276 | one record per draft, the i-th under push key base + i |
| Store.ScheduleItemLinks | firebase-utils.js:256-269 | each item carries its own key as `id`, the child, the caller as `userId`, `completed = false` and `dateCompleted = null` |
| Store.InitialItemDose | firebase-utils.js:259-261 | the i-th item carries the name, description and age of the i-th dose |
| Store.InitialItemDue | firebase-utils.js:263-264 | the i-th item carries its ISO due date and generation-time status |
| Store.ScheduleItemsOrdered | firebase-utils.js:252-276 | items built from age-ordered drafts belong to the caller and are age-ordered |
| Store.ReadAfterInitialize | firebase-utils.js:288-306 | reading an empty path right after an initialisation whose writes all landed returns the initial items in protocol order, refreshed |
| Store.ChildScheduleViewProperties | firebase-utils.js:295-325 | a schedule read is age-ordered and holds exactly the refreshed versions of the caller's items under the path |
| Store.AfterWritesKeepsEarlier | schedule-manager.js:140-157 | initialising a path that already holds items replaces none of them, and other paths are untouched, so a second initialisation after a failed read duplicates the schedule |
| Manager.ScheduleManager.constructor | schedule-manager.js:3-8 | no children, a null selection, an empty schedule and the `all` filter |
| Manager.ScheduleManager.LoadChildren | schedule-manager.js:59-95 | the children of a successful read replace the list; a failure keeps it |
| Manager.ScheduleManager.SetFilter | schedule-manager.js:180-194 | sets the filter and nothing else |
| Manager.ScheduleManager.HandleChildSelection | schedule-manager.js:105-123 | an empty id clears the selection to null. Otherwise the first child with that id is selected and the schedule load follows. When no child matches, the selection becomes undefined and nothing is loaded |
| Manager.StoreIdSelectable | schedule-manager.js:105-123 | the id of a child the store added (a key from 1 up) is truthy, and selecting it finds a child with that id, so the schedule is loaded |
| Manager.ScheduleManager.Displayed | schedule-manager.js:196-213 | nothing is listed without a selected child or with an empty schedule; otherwise the listed items, in schedule order, are exactly the schedule's items that pass the current filter, each as many times as it occurs in the schedule |
| Manager.ScheduleManager.PendingVaccines | schedule-manager.js:317-332 | a list is offered exactly when a child is selected, and it holds exactly the schedule's items that are not completed, in schedule order |
| Manager.ScheduleManager.VaccinationDetails | schedule-manager.js:360-362 | an item is shown exactly when one in the schedule has the id, and the one shown is in the schedule and has that id |
| Manager.ScheduleManager.LoadChildSchedule | schedule-manager.js:125-178 | a successful read is kept even when empty. Only after a failed read is the initialisation's result used. A double failure, or no selected child, keeps the old schedule and shows the error |
| Manager.FirstWithId | schedule-manager.js:361 | finds a record exactly when one has the id, and returns the first such record |
| Manager.FilterSchedule | schedule-manager.js:205-213 | an item is displayed exactly when it is in the schedule and passes the filter (`completed` keeps truthy `completed`, `due` and `overdue` keep that status), as many times as it occurs in the schedule, and the displayed list is an order-preserving subsequence of the schedule |
| Manager.UnknownFilterShowsAll | schedule-manager.js:205-213 | `all`, and any filter other than the three named ones, displays the whole schedule |
| Manager.Pending | schedule-manager.js:332 | the pending list is exactly the items not completed, in schedule order |
| Manager.PendingAndCompletedPartition | schedule-manager.js:332 | the pending list and the `completed` view split the schedule's multiset between them |
| Age.AgeText | utils.js:90-110 | the text is "NaN years" exactly when the birth date is unreadable |
| Age.AgeTextCases | utils.js:90-110 | an unreadable date gives "NaN years"; a readable one gives `y years` (or `1 year`) when y birthdays have been reached and y is not zero, and otherwise the month count, the elapsed months less twelve for each New Year crossed |
| Age.YearCountIsAnniversaries | schedule-manager.js:451-456 | the year count is the number of birthdays reached: the Y-th anniversary is on or before today and the (Y+1)-th after it |
| Age.YearCountUnique | utils.js:93-98 | no other year count fits between consecutive anniversaries |
| Age.MonthsReading | firebase-utils.js:502-509 | under a zero year count the months are the elapsed months minus twelve per calendar year crossed. With birth on or before today, the elapsed months are 0 to 11, and the reading equals them exactly within one calendar year |
| Age.AgeExamples | utils.js:100-109 | November to February gives "-9 months", one day short of a birthday gives "-1 months", and the pluralisation gives "1 year", "1 month" and "3 years" |
| Colors.StatusColor | schedule-manager.js:469-480 | every status gets one of the four badge colours |
| Colors.StatusColors | firebase-utils.js:525-536 | `completed`, `due` and `overdue` get `success`, `warning` and `error`; `upcoming` gets `secondary`; the colour tells the computed statuses apart except for sharing `secondary` with unknown strings |
| Colors.SecondaryIsTheDefault | schedule-manager.js:469-480 | `secondary` exactly for strings other than the three named statuses |
| Colors.StatusColorWithUpToDate | utils.js:207-220 | the page helpers' mapping also yields one of the four colours |
| Colors.MappingsDifferOnlyOnUpToDate | utils.js:207-220 | the two mappings differ exactly on `up-to-date`, which the page helpers colour `success` and the others `secondary` |
| Phone.Digits | utils.js:70 | the stripped string holds only digits and is no longer than the input |
| Phone.DigitsOfChar | utils.js:70 | one character keeps exactly its digit |
| Phone.DigitsAppend | utils.js:70 | stripping distributes over concatenation, so with `Phone.DigitsOfChar` the result is the input's digits in order |
| Phone.FormatPhoneNumber | utils.js:69-76 | with exactly ten digits the result has fourteen characters carrying those digits; otherwise the input comes back unchanged |
| Phone.FormatShape | utils.js:69-76 | with exactly ten digits the result is `(ddd) ddd-dddd` holding those digits in order; otherwise the input comes back unchanged |
| Phone.MaskDigits | utils.js:71-73 | the digits of a masked ten-digit number are exactly the digits put in, in order |
| Phone.FormatIdempotent | utils.js:69-76 | formatting a formatted number changes nothing |
| Phone.FormatDependsOnDigitsOnly | utils.js:70-72 | inputs with the same ten digits format alike |
| Text.NatToStringRoundTrip | firebase-utils.js:479 | the decimal rendering of a number reads back as that number |
| Text.PadRoundTrip | firebase-utils.js:479 | a zero-padded month or day reads back as its value |

## Left out

- DOM rendering, modals, toasts, printing, the navigation handlers and `validateForm`: they are user interface only.
- `auth.js`: only the current account is modelled, as an optional parameter.
- `vaccination-recorder.js`: the patch it assembles for `updateScheduleItem` is an arbitrary record here.
- `realtimeListeners`: these are push subscriptions to the store.
- `debounce`, `generateId`, and the `setTimeout` in `initialize`: they depend on timers and randomness.
- `formatDate`: it depends on the locale library.
- Time zones: `new Date('YYYY-MM-DD')` reads UTC midnight, while `setMonth` and `getMonth` work in local time. The model uses pure calendar arithmetic throughout.
- Concurrency of `Promise.all`: the bulk insert is a sequential loop in which each write may fail.
- Milliseconds that pass during one call: each `new Date()` and `Date.now()` of one call is the same `now`.
- JavaScript's date range of ±100,000,000 days: model dates are unbounded. `Calendar.IsoRoundTrip` holds for years up to six digits.
- Date strings other than `YYYY-MM-DD` (or `±YYYYYY-MM-DD`): `new Date` parses more formats, but here they are Invalid Dates.
- Store read failures: only `getChildSchedule` takes a read-success flag, because the page's re-initialisation depends on it. Every other read succeeds in the model. The page's `loadChildren` receives the read result as a parameter.
- Store error messages: a rejected store call is `RemoteFailure`, without the store's message.
- Null fields: Firebase drops fields set to `null`. Reading an absent field gives `Null` here, so both forms read the same.
- Push keys, string ids and the page: keys are numbers here, not strings, so a record's `id` is `Num(key)`. The page compares ids as values with `===`.
- Records.RefreshStatusRules: a numeric due date is clipped at ±8.64e15 milliseconds as in JavaScript, but the current moment is not, since model dates are unbounded.
- Store.RecordStore.InitializeSchedule: only a `YYYY-MM-DD` string is read as a birth date. `new Date(n)` would read a number, a boolean or `null` as a moment (`null` as 1970-01-01); here such a birth date fails as an Invalid Date.
- Records.SortByAge: a string `ageMonths` sorts as 0. JavaScript would coerce a numeric string, and a non-numeric one makes the comparator return NaN.
- Manager.ScheduleManager.LoadChildSchedule: the store effects of the calls it awaits are not part of this method; they are stated by `Store.RecordStore.GetChildSchedule` and `Store.RecordStore.InitializeSchedule`.
- `selectChildById` and `initialize`: they only set the select element's value, then call `handleChildSelection` and `loadChildren`.
