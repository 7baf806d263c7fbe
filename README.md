# Booking register for rental units — a verified model

This project models the data layer of a small browser app that manages rental
units ("departamentos") and their reservations ("reservas"), together with the
checks its controller makes before calling that layer. The data layer keeps
two collections. It creates, updates and deletes records under a few guards:
- a reservation's unit must exist;
- check-out must come after check-in;
- a stay must not overlap another stay of the same unit;
- a unit with reservations cannot be deleted.

It answers availability and search queries. It builds the two per-day views
the calendar draws. It applies the changes a remote collection listener
reports, and exports and imports both collections.

The modules follow the program's structure:

- `Wrappers`: `Option` and `Result`. They stand for the `null` returns and
  the thrown errors.
- `Sequences`: the array operations the data layer uses
  (`filter`, `findIndex`, find-then-assign-or-push, and a batch of listener
  changes), written once over a key function.
- `Text`: `String.prototype.trim`, with the exact set of ECMAScript
  white-space characters.
- `Dates`: calendar dates as whole day numbers. A `YYYY-MM-DD` string parses
  to midnight UTC, so comparing parsed dates is comparing day numbers. This
  module also holds the proleptic Gregorian calendar the month view needs.
- `Bookings`: the records, the overlap test, the availability check, the
  search, the lookups and the two calendar views. These are pure queries
  over the collections.
- `ModelStore`: the class `Store`, which holds the two collections as
  sequence fields. Its methods are the create/update/delete operations, the
  listener callbacks, export, import and clear. `Store.Consistent` is the
  invariant the guards keep: well-formed ranges, no double booking, every
  reservation naming a stored unit, and unique ids.
- `Controller`: the form gates of the search, unit and reservation forms,
  the dispatch to create or update, and the class `Calendar` for the
  calendar's month cursor.
- `Fixtures`: the sample register of `datos-ejemplo.js`, and concrete
  consequences of the model on it.

Some behaviour of the code is easy to misread. The model follows the code:
- The data layer does not validate a new unit. A blank name or a capacity of
  0 is stored; only the form gate refuses them.
- Creating a reservation does not reject a blank guest name; it only trims it.
- Updating a reservation does not check that its unit exists.
  `Fixtures.UpdateCanOrphan` leaves a reservation naming a missing unit.
- The availability check treats stays as half-open ranges `[check-in,
  check-out)`. The calendar's day scan treats them as closed ranges. So the
  check-out day is drawn as taken while a new stay may start on it
  (`Fixtures.CheckOutDayShownTaken`).
- The listener's guard flag starts false and nothing sets it.
- The edited reservation is excluded only when the id is non-empty, because
  the source tests it for truthiness.
- Deleting a unit checks for reservations first, even when no unit has that
  id.

Fresh ids, timestamps and today's date are parameters supplied by the caller.

## Model

| member | source | states |
|---|---|---|
| Sequences.Filter | js/model.js:565-568 | `filter` keeps exactly the elements that pass, in order, each with its multiplicity; nothing is lost exactly when every element passes |
| Sequences.IndexOfKey | js/model.js:257 | `findIndex` gives the first position holding the id, or -1 exactly when no element has it |
| Sequences.CountKey | js/model.js:124-133 | the number of records with an id is 0 exactly when none has it, and never exceeds the length |
| Sequences.RemoveKey | js/model.js:300-304 | filtering out an id leaves no record with it and keeps every other record with its multiplicity, in order; the length is unchanged exactly when the id was absent |
| Sequences.Upsert | js/model.js:124-133 | when the id is present, exactly the first record with it is replaced and every other slot, later same-id records included, keeps its record; when it is absent, the record is pushed at the end |
| Sequences.ApplyChange | js/model.js:122-138 | an added or modified document is present afterwards; a removed one leaves no record with its id; records with other ids stay members (their order and multiplicity are `Sequences.ApplyChangeKeepsOthers`) |
| Sequences.ApplyChangeKeepsOthers | js/model.js:122-138 | the records a change does not name keep their order and multiplicity: any filter that keeps no record with the change's id selects the same sequence before and after |
| Sequences.ApplyChanges | js/model.js:122-139 | a record whose id no change of the batch names is a member afterwards exactly when it was one before (order and multiplicity are `Sequences.ApplyChangesKeepsOthers`) |
| Sequences.ApplyChangesKeepsOthers | js/model.js:122-139 | the records no change of the batch names keep their order and multiplicity: any filter that keeps none of the named ids selects the same sequence before and after |
| Sequences.ApplyChangesSnoc | js/model.js:122 | one more change at the end of a batch is applied after the rest |
| Sequences.UpsertIdempotent | js/model.js:124-133 | upserting the same record twice is upserting it once |
| Sequences.UpsertCount | js/model.js:124-133 | after an upsert the id occurs once if it was absent, and as often as before otherwise |
| Sequences.UpsertKeepsUniqueKeys | js/model.js:124-133 | upserting keeps the ids unique |
| Sequences.ApplyChangeIdempotent | js/model.js:122-138 | a change reported twice has the effect of one |
| Sequences.ReplayedUpsertLeavesOne | js/model.js:124-133 | an added or modified document applied twice leaves exactly one record with its id when at most one had it before |
| Sequences.ReplayedBatchLeavesOne | js/model.js:158-172 | a batch reporting the same document twice leaves exactly one record with its id when at most one had it before |
| Sequences.CountAppend | js/model.js:131 | a push adds one occurrence of the pushed record's id and none of any other |
| Sequences.CountUpdateSameKey | js/model.js:128-129 | assigning over a record with the same id keeps the count of that id |
| Sequences.FilterKeepsAll | js/model.js:546-548 | a filter that every element passes returns the sequence itself |
| Sequences.SubsequenceTransitive | js/model.js:546-555 | two filters in a row still give an order-preserving selection of the original |
| Sequences.SubsequencePairwise | js/model.js:300 | removing elements keeps every property that held for all pairs |
| Text.Trim | js/model.js:215 | `trim` returns the part of the string between its leading and trailing white space; it is empty exactly when the string is blank and otherwise starts and ends with a non-space |
| Text.TrimIdempotent | js/model.js:215 | trimming twice is trimming once |
| Text.TrimUnpadded | js/model.js:371 | a string with no white space at either end is its own trim |
| Dates.DaysInMonth | js/model.js:586-591 | every month has 28 to 31 days |
| Dates.MarchYearLength | js/model.js:586-591 | the year from March to March has 366 days when it ends in a leap year and 365 otherwise |
| Dates.LeapInEra | js/model.js:586-591 | whether a year is a leap year depends only on its place in the 400-year Gregorian cycle |
| Dates.EraSplit | js/model.js:586-591 | the day number of March 1 of year `yoe` of a 400-year era is 146097 days per era, 365 per earlier year of the era and one per leap day among them, less the 719468 days from March 1 of year 0 to 1970-01-01 |
| Dates.MonthLength | js/model.js:586-591 | the days of a month are the day numbers from its first day up to the first day of the next month |
| Dates.MonthWindow | js/model.js:588-591 | the days whose `getFullYear`/`getMonth` match `anio`/`mes` are `[first of month, first + length)` |
| Bookings.ConflictsIsOverlap | js/model.js:526-530 | for well-formed ranges the three-clause test is exactly "the half-open ranges overlap" |
| Bookings.BackToBackStaysDoNotConflict | js/model.js:526-530 | a stay ending on the day another starts does not conflict with it, in either order |
| Bookings.IsAvailable | js/model.js:501-534 | free exactly when no reservation blocks the range: same unit, not the excluded one, and conflicting |
| Bookings.AvailableIffNoOverlap | js/model.js:507-533 | over well-formed data, free exactly when no counted reservation of the unit overlaps the range |
| Bookings.BookedRangeUnavailable | js/model.js:398-400 | once a reservation is pushed, every range overlapping it is unavailable for its unit |
| Bookings.AppendKeepsNoDoubleBooking | js/model.js:365-367 | pushing a well-formed reservation that passed the check keeps the register free of double bookings |
| Bookings.ReplaceKeepsNoDoubleBooking | js/model.js:426-442 | writing an edited reservation over its own slot, checked with its id excluded, keeps the register free of double bookings when ids are unique, whether or not the id is empty |
| Bookings.OwnDatesStayAvailable | js/model.js:426-431 | re-submitting a stored reservation's own unit and dates never conflicts with itself when its id is non-empty (an empty id excludes nothing, so the record then blocks its own dates) |
| Bookings.SubsequenceKeepsInvariants | js/model.js:467-473 | removing reservations keeps well-formed ranges, no double booking and resolved units |
| Bookings.FindUnit | js/model.js:203-206 | the first unit with the id, or none exactly when no unit has it |
| Bookings.FindReservation | js/model.js:339-342 | the first reservation with the id, or none exactly when no reservation has it |
| Bookings.ReservationsOfUnit | js/model.js:565-568 | exactly the unit's reservations, in their stored order, each with its multiplicity; empty exactly when the unit has none |
| Bookings.FindAvailableUnits | js/model.js:541-558 | an order-preserving selection of the units holding exactly those with enough capacity, when given, and free for the range, when both dates are given, each with its multiplicity in the input |
| Bookings.ScanForDay | js/model.js:629-644 | the scan stops at the first reservation whose closed range holds the day, reporting whether that day is its first, last or an inner day; none exactly when no range holds it |
| Bookings.FindReservationOnDay | js/model.js:624-645 | none exactly when no reservation of the unit holds the day in its closed range; otherwise the first such, in order, with its day kind |
| Bookings.MonthMarksCoverage | js/model.js:581-613 | a day of the month is marked exactly when some reservation of the unit holds it in its closed range |
| Bookings.MonthMarksLastCover | js/model.js:581-613 | the mark of a marked day names the day, its kind and the last reservation, in order, whose closed range holds it |
| Bookings.LastCoveringExtends | js/model.js:592-608 | a later stay that does not hold a day leaves the earlier mark of that day in place |
| Bookings.MonthMarksShape | js/model.js:592-603 | only days of the month are marked, each under its own day of the month |
| Bookings.MarksOfNextDay | js/model.js:587-611 | one more step of the date cursor adds exactly that day's mark, when it falls in the month |
| Bookings.MarkStay | js/model.js:586-612 | walking one stay from check-in to check-out inclusive sets the marks of exactly its days in the month, over earlier marks |
| Bookings.MarkDays | js/model.js:581-613 | walking every stay in order gives the month view over those stays |
| Bookings.ReservedDaysInMonth | js/model.js:577-616 | the month view of the unit's reservations, keyed by days of that month only |
| ModelStore.RemoveUnbookedKeepsReferences | js/model.js:292-301 | removing a unit no reservation names keeps every reservation's unit stored |
| ModelStore.ReplaceSameKeyKeepsKeys | js/model.js:260-267 | writing a record over one with the same id keeps the set of ids and their uniqueness |
| ModelStore.AppendKeepsKeys | js/model.js:243 | a push keeps every id present, adds the new one, and keeps ids unique when the new id is fresh |
| ModelStore.AppendKeepsReferences | js/model.js:351-354 | pushing a reservation whose unit is stored keeps every reference resolved |
| ModelStore.ReplaceKeepsReferences | js/model.js:435-442 | editing a reservation to a stored unit keeps every reference resolved |
| ModelStore.SubsequenceKeepsUniqueKeys | js/model.js:467 | removing records keeps the ids unique |
| ModelStore.Store.constructor | js/model.js:20-27 | a collection never stored starts empty; an empty store is consistent |
| ModelStore.Store.CreateUnit | js/model.js:213-247 | the trimmed record, with the description defaulting to "", is pushed with no validation; consistency is kept when the id is fresh |
| ModelStore.Store.UpdateUnit | js/model.js:255-283 | none for an unknown id; otherwise only the first unit with the id is edited, keeping its id and creation time, and consistency is kept |
| ModelStore.Store.DeleteUnit | js/model.js:290-320 | refused while any reservation names the id; false when no unit has it; otherwise exactly the units with the id are removed, the rest kept in order, and consistency is kept |
| ModelStore.Store.CreateReservation | js/model.js:349-403 | refused without change when the unit is missing, or check-out is not after check-in, or the range is taken, in that order; otherwise exactly one record, guest trimmed, is pushed, the range is then taken, and consistency is kept when the id is fresh |
| ModelStore.Store.UpdateReservation | js/model.js:411-458 | none for an unknown id; refused without change on bad dates or a range taken by another reservation; the unit is not checked; otherwise only that slot changes, keeping its id and creation time, and consistency is kept when the unit is stored |
| ModelStore.Store.DeleteReservation | js/model.js:465-487 | false for an unknown id; otherwise exactly the reservations with the id are removed, the rest kept in order, and consistency is kept |
| ModelStore.Store.ApplyUnitChange | js/model.js:124-138 | one listener change to the units, as upsert or removal by id |
| ModelStore.Store.ApplyUnitChanges | js/model.js:116-140 | the unit listener applies the batch in order unless a sync is under way, and touches nothing else |
| ModelStore.Store.ApplyReservationChange | js/model.js:158-172 | one listener change to the reservations, as upsert or removal by id |
| ModelStore.Store.ApplyReservationChanges | js/model.js:150-174 | the reservation listener applies the batch in order unless a sync is under way, and touches nothing else |
| ModelStore.Store.Export | js/model.js:672-678 | both collections as stored, stamped with the time given |
| ModelStore.Store.ExportThenImport | js/model.js:672-691 | importing the backup just exported leaves both collections and the sync flag as they were |
| ModelStore.Store.Import | js/model.js:684-691 | each collection present replaces the stored one; a missing one is kept |
| ModelStore.Store.Clear | js/model.js:662-666 | both collections end empty, and the store is consistent |
| Controller.SearchGate | js/controller.js:385-409 | passes exactly when some criterion is given, the dates are given both or neither, and check-out is after check-in; each refusal names its own condition |
| Controller.Search | js/controller.js:385-412 | a refused form reaches no query; a passed one gives an order-preserving selection of exactly the units meeting the criteria, each with its multiplicity |
| Controller.SearchResultsAreFree | js/controller.js:409-412 | a unit offered for a range has enough capacity and shares no night of the range with any of its reservations |
| Controller.UnitFormGate | js/controller.js:109-128 | refuses a name blank after trimming, then a capacity missing or below 1; otherwise updates when the form has an id and creates when not |
| Controller.GatedUnitIsWellFormed | js/controller.js:109-117 | a unit that passes the gate is stored with a non-empty trimmed name and a capacity of at least 1 |
| Controller.OnlyTheGateRefusesBlankNames | js/model.js:213-219 | the data layer stores a blank name, while the gate refuses it and refuses a zero capacity |
| Controller.SaveUnit | js/controller.js:100-128 | a refused form changes nothing; a create pushes the trimmed record; an edit of a known id replaces the first unit with it by its edited copy, and an edit of an unknown id changes nothing; reservations and the sync flag never change |
| Controller.ReservationFormGate | js/controller.js:251-274 | refuses a missing unit, then a guest blank after trimming, then a missing date; otherwise updates when the form has an id and creates when not |
| Controller.GatedReservationHasGuest | js/controller.js:256-259 | a booking that passes the gate is stored with a non-empty trimmed guest name, created or edited |
| Controller.SaveReservation | js/controller.js:241-276 | a refused form reaches no model call and changes nothing; a create is refused for a missing unit, for dates out of order and for a taken range, exactly as the data layer decides, and accepted exactly otherwise; an edit returns null exactly for an unknown id and is refused for dates out of order or a range taken by another reservation, and accepted exactly otherwise; a refusal or a null update changes nothing; an accepted create pushes exactly the new record and an accepted edit replaces exactly the first reservation with the id by its edited copy, in both cases with a non-empty guest; units and the sync flag never change |
| Controller.MonthStep | js/controller.js:520-529 | a month step always lands on a month from 0 to 11 |
| Controller.MonthStepByOne | js/controller.js:520-529 | a step of +1 or -1 moves exactly one month on the running count year * 12 + month, wrapping December to January and back |
| Controller.MonthStepInverse | js/controller.js:520-529 | forward then back, or back then forward, returns to the same month |
| Controller.Calendar.constructor | js/controller.js:483 | no cursor until a unit is shown |
| Controller.Calendar.ShowUnit | js/controller.js:482-491 | the first time a unit is shown the cursor starts at today's month; afterwards only the unit changes |
| Controller.Calendar.ShowToday | js/controller.js:461-474 | with a unit selected, a new cursor on it at today's month; with none, the cursor is left exactly as it was |
| Controller.Calendar.ChangeMonth | js/controller.js:514-532 | nothing moves while no unit is shown; otherwise the month moves by the step, staying in 0 to 11 and moving exactly one month for a step of one |
| Fixtures.NovIsCivil | datos-ejemplo.js:54-55 | November 2025 day numbers agree with the civil calendar, with 1970-01-01 as day 0 |
| Fixtures.SampleIsConsistent | datos-ejemplo.js:11-91 | the sample register has well-formed ranges, no double booking, resolved units and unique ids |
| Fixtures.Res001Availability | datos-ejemplo.js:51-57 | around res001 the days before and the gap to res004 are free, a range reaching into it is not, and its own dates are free when it is excluded but not when the exclusion is the empty string |
| Fixtures.CheckOutDayShownTaken | js/model.js:635 | 15 November is drawn as res001's last day although a stay may start that day |
| Fixtures.FreeFromNov5ToNov7 | datos-ejemplo.js:82-89 | from 5 to 7 November every sample unit is free except Studio A |
| Fixtures.SearchExample | js/controller.js:385-412 | a two-guest search for 5 to 7 November offers every unit except Studio A; reversed dates and a lone date are refused |
| Fixtures.AnaCanBook | js/model.js:349-366 | with only the new studio registered, Ana's booking names an existing unit, is well ordered, is free, and its id is unused |
| Fixtures.AnaNameKept | js/model.js:371 | trimming keeps Ana's name as typed, since it has no padding |
| Fixtures.BookStudio | js/model.js:349-403 | on a fresh store, Ana's booking of the new Studio A succeeds and leaves a consistent store |
| Fixtures.AnaBlocksHerNights | js/model.js:526-530 | with only Ana's stay, the studio is taken for her nights and for ranges reaching into them, and free from her check-out day |
| Fixtures.StudioScenario | js/model.js:361-363 | a second booking reaching into her stay is refused, a search for her nights no longer offers the studio, and one starting on her check-out day does |
| Fixtures.UpdateCanOrphan | js/model.js:411-442 | an update to a unit that does not exist succeeds and leaves a reservation whose unit is missing |
| Fixtures.ReplayedStudio | js/model.js:122-133 | the "added" change of dept004 reported twice over three other units leaves exactly one record with its id |
| Fixtures.StudioRemoved | js/model.js:134-137 | a "removed" change of dept004 leaves no record with its id, whatever the units were |
| Fixtures.ReplayedChange | js/model.js:122-138 | an added document reported twice leaves one record, and its removal leaves none |

## Left out

- The remote database (initialisation, the initial download, the listener subscriptions, and every remote add, update and delete) is not modelled. These are asynchronous network calls. The listener callbacks' bodies are modelled. A remote id that replaces the local one is just "some id" passed in.
- The listener's document is taken to carry its own id. The case where the document's data holds an `id` field that overrides the document id is not modelled.
- The interleaving of a create with the listener's echo of the same create can leave a duplicate entry. This is a concurrency matter and is not modelled. `Sequences.ReplayedUpsertLeavesOne` covers the echo applied after the push.
- Browser storage and JSON are modelled as sequences held in memory. A stored value that fails to parse is not modelled.
- Id generation and timestamps depend on the clock and on randomness, so they are parameters. Preserving unique ids is stated under the hypothesis that the supplied id is fresh.
- Capacity is taken as a number, so the parsing of the form's text is not modelled. The model does not cover non-numeric text, which would compare as NaN in the controller's `< 1` test, because the model has no NaN.
- Dates are day numbers, so invalid date strings (NaN) are not modelled. The model assumes the browser's local time is UTC. The calendar reads local months and days and resets hours in local time, while `new Date("YYYY-MM-DD")` is UTC midnight; these agree only at offset zero.
- Bookings.ReservedDaysInMonth: keys each mark by its day of the month instead of the string `anio-mes-dia`. The year and month are the same for every key of one call, so the keys correspond one to one.
- Controller.Search: a filled capacity field is `Some` whatever its number; a capacity of numeric 0 passed directly to the data layer, which is not truthy, is not modelled.
- The alerts, rendering, view refreshes after each operation, and the calendar's unit lookup and drawing are left out. They are DOM output; a refused form is modelled as a `Failure` naming the alert.
- The rest of the app is not part of this model:
  - js/view.js;
  - sw.js, a service worker;
  - js/firebase-config.js, configuration constants;
  - PROMPT-BASE.js, comments only;
  - the controller's DOM event wiring and file-based export/import.
- The loader in datos-ejemplo.js is not modelled. Its data are the fixtures.
- The clear operation's re-initialisation of the remote database is not modelled. Only the emptying of both collections is.
