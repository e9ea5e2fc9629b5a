# Car reservation overlap rule and slot grid, in Dafny

This project models the core of a car-reservation booking application:
the rule that decides whether a proposed reservation `[start_time, end_time)`
collides with another reservation on the same date, and the grid of one-hour
candidate slots that the booking forms derive from it. The application writes
this rule in five places, and each one is modelled here:

- the server-side `Reservation` model validations (module `ReservationValidation`);
- the in-memory reservation store and the date-keyed response cache of the client
  service layer (module `MockApi`);
- the current booking form, with five-minute slot starts, self-exclusion while editing
  and the submit checks (modules `SlotGrid` and `ReservationForm`);
- the older booking form, with hourly slots and the end-time auto-selection (module
  `LegacyReservationForm`);
- the calendar's day view, which marks the hour rows a reservation covers (module
  `CalendarView`).

Times are the application's own `"HH:MM"` strings. They are compared as the source
compares them, with string `<` (`TimeOfDay.Before`: lexicographic order on character
codes, proved to be a strict total order). Minutes since midnight enter only through
a lemma: on zero-padded times, string order equals time order (`TimeOfDay.BeforeIsEarlier`).

The central result is `Overlap.ThreeClauseIsIntersection`. The source's three-clause
test checks start-within, end-within and spanning. When both intervals start before
they end, it is exactly the half-open test `start < re && rs < end`. Symmetry,
non-conflict of adjacent intervals, and the store's invariant follow from it. The
invariant is that no two reservations of one day intersect: `MockApi.ReservationStore.Valid`
holds across create, update and delete.

State that the source changes in place is kept in classes:
- the ActiveRecord error list (`ReservationValidation.ReservationRecord.errors`);
- the store's array (`MockApi.ReservationStore.reservations`);
- the cache dictionary (`MockApi.ApiCache.entries`).

The slot generator keeps the source's nested loops (`SlotGrid.Generate`).

I/O and the clock are parameters:
- `now` is the current time in milliseconds;
- `fetched` is the server's answer, or `None` for a failed request;
- `dateSelected` says whether the form has a date;
- `userEmail` is the e-mail address kept in local storage.

## Model

| member | source | states |
|---|---|---|
| `TimeOfDay.Before` | backend/app/models/reservation.rb:27-29 | the definition of string `<`: a proper prefix comes first, otherwise the first differing character decides |
| `TimeOfDay.AtMost` | backend/app/models/reservation.rb:27-29 | the definition of string `<=` (and, with its arguments swapped, `>=`): the negation of `>` |
| `TimeOfDay.BeforeIsEarlier` | src/components/ReservationForm.tsx:90-95 | on zero-padded "HH:MM" strings, string `<` holds exactly when the first time is earlier in minutes since midnight |
| `TimeOfDay.AtMostIsNoLater` | src/components/ReservationForm.tsx:109-111 | string `<=` on zero-padded times is `<=` on minutes |
| `TimeOfDay.FormatTime24` | src/components/ReservationForm.tsx:90-92 | `padStart(2,'0')` of hour and minute joined by a colon is a well-formed time with that hour and minute, `60*h+m` minutes after midnight |
| `TimeOfDay.FormatOfParts` | src/components/ReservationForm.tsx:90-95 | a well-formed time is the padded string of its own hour and minute |
| `TimeOfDay.ToMinutesInjective` | src/components/ReservationForm.tsx:90-95 | two well-formed times with the same minute count are the same string |
| `TimeOfDay.AtMostIsBeforeOrEqual` | backend/app/models/reservation.rb:27-29 | `a <= b` on strings holds exactly when `a < b` or `a == b` |
| `TimeOfDay.BeforeTotal` | backend/app/models/reservation.rb:16 | any two distinct strings are ordered one way or the other |
| `TimeOfDay.BeforeTransitive` | backend/app/models/reservation.rb:27-29 | string `<` is transitive |
| `TimeOfDay.Hour12` | src/components/ReservationForm.tsx:198 | `hour % 12 \|\| 12` lies in 1..12 and agrees with the hour modulo 12 |
| `TimeOfDay.Hour12RoundTrip` | src/components/ReservationForm.tsx:196-198 | the 12-hour hour together with the AM/PM marker (PM iff hour >= 12) gives back the 24-hour hour |
| `TimeOfDay.FormatTime12` | app/javascript/components/ReservationForm.tsx:134-140 | `formatTime` begins with the 12-hour hour in decimal with no leading zero, keeps the minutes unchanged, and ends in a space and "AM" or "PM" by the hour |
| `TimeOfDay.FormatTime12RoundTrip` | src/components/ReservationForm.tsx:194-200 | reading the 12-hour display back gives the original "HH:MM": no two times share a display |
| `Overlap.ThreeClause` | backend/app/models/reservation.rb:27-29 | the definition of the three-clause test: the start lies within the other interval, or the end does, or the candidate spans it |
| `Overlap.ThreeClauseIsIntersection` | backend/app/models/reservation.rb:27-29 | for two intervals whose start is before their end, the three-clause test holds iff `start < other.end && other.start < end` |
| `Overlap.IntersectionIsThreeClause` | src/services/api.ts:152-154 | the half-open intersection always implies the three-clause test, whatever the strings |
| `Overlap.ThreeClauseSymmetric` | backend/app/models/reservation.rb:26-30 | for well-ordered intervals the test gives the same answer with the two reservations swapped |
| `Overlap.AdjacentDoNotConflict` | src/services/api.ts:202-204 | intervals that only touch (one's end is the other's start) do not conflict |
| `Overlap.ThreeClauseInMinutes` | src/components/ReservationForm.tsx:108-112 | on well-formed times the test compares minutes: start before the other's end and the other's start before the end |
| `Overlap.MorningBookingExamples` | backend/app/models/reservation.rb:24-30 | against 09:00-12:00, the candidates 12:00-13:00 and 08:00-09:00 pass and 11:00-13:00 conflicts |
| `Overlap.AnyConflict` | src/components/ReservationForm.tsx:98-113 | the `some` scan is true iff some reservation not carrying the skipped id passes the three-clause test |
| `Overlap.OnDate` | src/components/CalendarView.tsx:68-72 | the date filter keeps exactly the reservations of that date, never more than it was given |
| `Overlap.OnDateAppend` | src/services/api.ts:130 | the date filter distributes over concatenation, so it keeps the stored order |
| `Overlap.ConflictOnDate` | src/services/api.ts:150-156 | scanning the day's list equals scanning the whole store with a same-date test in front |
| `Overlap.AnyConflictIsIntersection` | app/javascript/components/ReservationForm.tsx:111-117 | over well-ordered reservations the scan finds a conflict iff some considered reservation intersects the candidate |
| `ReservationValidation.Blank` | backend/app/models/reservation.rb:4-6 | the definition of `blank?`: nil, or made only of white space |
| `ReservationValidation.PresenceErrors` | backend/app/models/reservation.rb:4-6 | one "can't be blank" error on each blank attribute among date, start_time and end_time, and none otherwise; the list holds exactly one error per blank attribute |
| `ReservationValidation.OrderingErrors` | backend/app/models/reservation.rb:13-19 | no error when either time is blank; otherwise exactly one "must be after start time" error on end_time iff start >= end |
| `ReservationValidation.OverlapErrors` | backend/app/models/reservation.rb:21-35 | at most one base error "Reservation overlaps with existing reservation", present iff a same-date row with a different id passes the three-clause test (a new record, with no id, is compared with every row) |
| `ReservationValidation.AllErrors` | backend/app/models/reservation.rb:4-9 | the errors of all validators are empty iff all three attributes are present, start is before end, and no other same-date row passes the three-clause test |
| `ReservationValidation.ValidationGate` | backend/app/models/reservation.rb:4-9 | over well-ordered rows a record is valid iff all three attributes are present, start is before end, and no other same-date row intersects it |
| `ReservationValidation.ResaveAddsNoOverlap` | backend/app/models/reservation.rb:25 | re-saving an unchanged stored row of a consistent table adds no overlap error |
| `ReservationValidation.ReservationRecord.constructor` | backend/app/models/reservation.rb:1-6 | a fresh record holds the given attributes and no errors |
| `ReservationValidation.ReservationRecord.ValidatePresence` | backend/app/models/reservation.rb:4-6 | appends exactly the presence errors to the error list |
| `ReservationValidation.ReservationRecord.EndTimeAfterStartTime` | backend/app/models/reservation.rb:13-19 | appends exactly the ordering errors to the error list |
| `ReservationValidation.ReservationRecord.NoOverlappingReservations` | backend/app/models/reservation.rb:21-35 | appends exactly the overlap errors to the error list |
| `ReservationValidation.ReservationRecord.IsValid` | backend/app/models/reservation.rb:8-9 | the error list becomes the errors of every validator in order, and the record is valid iff it is empty |
| `MockApi.Merge` | src/services/api.ts:194-197 | the spread keeps the id, takes every field the patch supplies (date, times, user name and e-mail) and keeps every field it leaves out |
| `MockApi.MaxId` | src/services/api.ts:164 | the largest stored id: no id exceeds it and some entry carries it |
| `MockApi.NextId` | src/services/api.ts:163-165 | the new id is above every stored id, and 1 for an empty store |
| `MockApi.FindIndex` | src/services/api.ts:187-190 | the index of the first entry with the id, or none when no entry has it |
| `MockApi.InitialReservationsConsistent` | src/services/api.ts:25-56 | the three starting reservations have distinct ids, distinct days and start before they end |
| `MockApi.UpdateAsWritten` | src/services/api.ts:183-221 | `update` as written, on a list value: "not found" iff no entry has the id; when the id is found, rejected with the overlap error iff some schedule field of the patch is truthy and the merged record conflicts with another entry of its date, and otherwise the merged record replaces the found entry and nothing else changes |
| `MockApi.UpdateAsWrittenCanDoubleBook` | src/services/api.ts:193 | starting from a consistent store, a patch whose start time is the empty string skips the check and leaves two intersecting, well-ordered reservations on one day |
| `MockApi.NoConflictKeepsNoDoubleBooking` | src/services/api.ts:199-214 | writing a record that passes the overlap check keeps ids unique and the day's reservations disjoint |
| `MockApi.RemoveKeepsInvariant` | src/services/api.ts:233 | removing one entry keeps ids unique, keeps days disjoint and leaves no entry with the removed id |
| `MockApi.CacheKey` | src/services/api.ts:243 | the key is "reservations_" followed by the date |
| `MockApi.CacheKeyInjective` | src/services/api.ts:242-246 | different dates have different cache keys |
| `MockApi.ReservationStore.constructor` | src/services/api.ts:25-56 | the store starts with the three sample reservations and its invariant holds |
| `MockApi.ReservationStore.GetByDate` | src/services/api.ts:127-131 | returns exactly the stored reservations of that date, in stored order |
| `MockApi.ReservationStore.GetById` | src/services/api.ts:134-142 | returns the first stored reservation with that id, or "not found" exactly when none has it |
| `MockApi.ReservationStore.Create` | src/services/api.ts:145-180 | rejects with the overlap error and changes nothing when a same-date entry passes the test; otherwise appends exactly one entry with id `NextId`; ids stay unique and days stay disjoint |
| `MockApi.ReservationStore.Update` | src/services/api.ts:183-221 | "not found" changes nothing; otherwise the merged record is checked against the other same-date entries and replaces only the found entry; ids stay unique and days stay disjoint |
| `MockApi.ReservationStore.Delete` | src/services/api.ts:224-234 | removes exactly the first entry with the id, or reports "not found" and changes nothing |
| `MockApi.ApiCache.Fresh` | src/services/api.ts:284 | the definition of a cache hit: an entry exists for the date's key and `now - timestamp < 60000` |
| `MockApi.ApiCache.Invalidate` | src/services/api.ts:242-248 | removes the key of that date and no other key |
| `MockApi.ApiCache.GetByDate` | src/services/api.ts:278-333 | serves the cached list only while `now - timestamp < 60000`; otherwise returns the fetched list and caches it stamped `now`, or returns an empty list and caches nothing when the request failed |
| `SlotGrid.Generate` | src/components/ReservationForm.tsx:84-124 | the nested loops produce `720 / step` slots; slot k starts `8*60 + step*k` minutes after midnight, ends one hour later, and is available iff the scan finds no conflict |
| `SlotGrid.GridAscending` | src/components/ReservationForm.tsx:88-89 | grid slot starts strictly increase |
| `SlotGrid.GridSlotAvailability` | src/components/ReservationForm.tsx:98-113 | a slot is available iff every considered reservation ends by the slot's start or starts at or after its end |
| `SlotGrid.CheckInterval` | app/javascript/components/ReservationForm.tsx:100-122 | the submit checks reject a missing time, then start >= end, then an overlap, and accept otherwise |
| `SlotGrid.SubmitGate` | src/components/ReservationForm.tsx:135-159 | over well-ordered reservations, submit is accepted iff both times are chosen, start is before end and no considered reservation intersects |
| `SlotGrid.EndTimeOptions` | src/components/ReservationForm.tsx:440-441 | the end-time list keeps exactly the slots starting after the chosen start |
| `SlotGrid.EndTimeOptionsAfterChosen` | app/javascript/components/ReservationForm.tsx:249-250 | on the grid, choosing slot k's start offers exactly the slots after k as end times |
| `ReservationForm.GenerateAvailableTimeSlots` | src/components/ReservationForm.tsx:86-121 | 144 slots with five-minute starts from 08:00, in ascending order, and the edited reservation skipped |
| `ReservationForm.GridSlotTimes` | src/components/ReservationForm.tsx:90-95 | slot k is `HH:MM` with hour `8 + k/12` and minute `5*(k%12)`, ending at the same minute one hour later |
| `ReservationForm.SkipIsRemoval` | src/components/ReservationForm.tsx:99-102 | skipping the edited id during the scan equals scanning the list with that reservation removed |
| `ReservationForm.WithoutId` | src/components/ReservationForm.tsx:68 | the filter keeps exactly the reservations with another id |
| `ReservationForm.FindUserReservation` | src/components/ReservationForm.tsx:57-58 | the first reservation with the stored e-mail address, or none |
| `ReservationForm.OtherReservations` | src/components/ReservationForm.tsx:67-68 | the conflict set is every reservation when the user has none; a reservation is kept iff its id differs from that of the first reservation made with the user's e-mail address |
| `ReservationForm.OwnReservationNeverBlocks` | src/components/ReservationForm.tsx:67-72 | the user's own reservation never makes a slot unavailable; only reservations with another id count |
| `ReservationForm.EditingOnlyReservationFreesAllSlots` | src/components/ReservationForm.tsx:100-102 | while editing the day's only reservation, every slot is available |
| `ReservationForm.HandleSubmit` | src/components/ReservationForm.tsx:130-159 | "Invalid date" iff no date; with a date, the missing-time error iff a time is empty, the ordering error iff both are chosen and start >= end, the overlap error iff the interval is ordered and a reservation other than the edited one passes the three-clause test, and accepted otherwise |
| `LegacyReservationForm.GenerateAvailableTimeSlots` | app/javascript/components/ReservationForm.tsx:59-94 | exactly 12 slots 08:00-09:00 through 19:00-20:00, ascending, with no self-exclusion |
| `LegacyReservationForm.MorningReservationBlocksThreeSlots` | app/javascript/components/ReservationForm.tsx:73-83 | with one reservation 09:00-12:00, exactly the slots at 09:00, 10:00 and 11:00 are unavailable |
| `LegacyReservationForm.FindSlot` | app/javascript/components/ReservationForm.tsx:217 | the first slot starting at the chosen time, or none |
| `LegacyReservationForm.AutoSelectEnd` | app/javascript/components/ReservationForm.tsx:213-222 | a chosen end time is kept; with none, the end becomes the end of the first slot starting at the chosen time, and stays empty when no slot starts then |
| `LegacyReservationForm.AutoSelectIsOneHourLater` | app/javascript/components/ReservationForm.tsx:216-221 | on the hourly grid the auto-selected end is the slot's own end, one hour after the chosen start |
| `CalendarView.Hours` | src/components/CalendarView.tsx:161 | the day view has twelve hour rows |
| `CalendarView.HoursAreTheDayWindow` | src/components/CalendarView.tsx:161 | the rows are exactly the hours 8..19, ascending |
| `CalendarView.DigitRun` | src/components/CalendarView.tsx:173 | the length of the leading run of digits that `parseInt` reads |
| `CalendarView.ParseHour` | src/components/CalendarView.tsx:173-174 | `parseInt` reads the leading decimal digits, so it stops at ':' just as `split(':')[0]` does; the model gives NaN (`None`) iff the text does not start with a digit (the "0x" prefix is under Left out) |
| `CalendarView.CoversHour` | src/components/CalendarView.tsx:173-175 | the definition of the per-reservation test: both hours parse and `startHour <= hour < endHour` |
| `CalendarView.ParseHourOfTime` | src/components/CalendarView.tsx:173-174 | `parseInt` of the part before ':' of a well-formed time is its hour; the minutes are ignored |
| `CalendarView.HasReservationAtHour` | src/components/CalendarView.tsx:172-176 | an hour row is highlighted iff some reservation of the day has `startHour <= hour < endHour` (a NaN hour never matches) |
| `CalendarView.CoversHourOfTimes` | src/components/CalendarView.tsx:175 | for well-formed times, a reservation covers the hours from its start hour up to, not including, its end hour |
| `CalendarView.MorningReservationRows` | src/components/CalendarView.tsx:172-176 | a 09:00-12:00 reservation highlights rows 9, 10 and 11, and no other row |
| `CalendarView.ReservationsInRow` | src/components/CalendarView.tsx:186-201 | a row shows exactly the day's reservations that cover its hour |
| `CalendarView.HighlightMatchesRowContents` | src/components/CalendarView.tsx:190 | a row is highlighted iff some reservation is drawn in it |
| `CalendarView.HasReservation` | src/components/CalendarView.tsx:62-66 | a day is marked iff some reservation is on that date |
| `CalendarView.HasReservationIffListed` | src/components/CalendarView.tsx:62-72 | a day is marked iff its list of reservations is not empty |

## Findings

| source | as written | input that shows it | evidently intended | confidence | as-written member | corrected member |
|---|---|---|---|---|---|---|
| src/services/api.ts:193 | the overlap check of `update` runs only when `date`, `start_time` or `end_time` is truthy, yet the merge on line 194-197 applies any field that is present, empty strings included | store `[{id 1, 2023-10-15, 09:00-12:00}, {id 2, 2023-10-15, 12:00-13:00}]`, `update(2, {start_time: ""})`: the check is skipped, and reservation 2 becomes ""-13:00, which intersects 09:00-12:00 because "" sorts before every time (latent: the in-memory store is switched off at src/services/api.ts:59) | the check runs whenever one of the three fields is supplied, so an update can never double-book a day | medium; not executed | `MockApi.UpdateAsWrittenCanDoubleBook` | `MockApi.ReservationStore.Update` |

`MockApi.UpdateAsWritten` is the code as written, on a list value. The class method
`MockApi.ReservationStore.Update` uses the corrected guard (`MockApi.SuppliesSchedule`).
Its postcondition `Valid()` proves that no two reservations of a day intersect after any update.

## Behaviour of the source worth knowing

- Every copy of the rule uses the three-clause test. The model proves it equal to the half-open intersection test for intervals that start before they end (`Overlap.ThreeClauseIsIntersection`).
- The slot step is fixed in each form: 5 minutes in the current form, 60 in the older one. Slot starts lie in 08:00-20:00: the current form's last slot starts at 19:55 and ends at 20:55. `SlotGrid.Generate` takes the step as a parameter that must divide 60.
- No component reports which reservations conflict. Each reports only that some reservation does.
- The in-memory store accepts an interval whose start is not before its end. `Create` and `Update` keep the stored intervals well-ordered only when the written record is well-ordered, and their postconditions say so.
- The in-memory store's `update` skips the overlap check when no schedule field is supplied.
- The in-memory store is switched off in the shipped configuration (`USE_MOCK_API = false`, src/services/api.ts:59), so the defect under Findings is latent.

## Left out

- React rendering, state setters, effects, `window.confirm`, redirects and navigation are UI and not modelled. The forms' `editing` and `dateSelected` parameters stand for the component state that the source functions read.
- `ReservationForm.GenerateAvailableTimeSlots`: the source reads `isEditing` and `currentReservation` from the render in which the fetch effect started, which can be stale. The model takes the editing id as a parameter and does not model React's state timing.
- Local-storage token and user handling, authentication, the `User` model, and the `belongs_to :user` existence check are authentication and not modelled.
- axios clients and interceptors are not modelled. The real server's `getAll`, `getById`, `create`, `update` and `delete` are network calls, and so is the choice between the query-parameter and path-parameter requests. The JSON/JSONAPI response-shape handling is left out too. Only the cache key, the TTL test, the cache write and `invalidateCache` are modelled.
- `mockApi.getAll` is not modelled. It returns a copy of the whole store.
- Timers (`setTimeout` delays), `Date.now()` and the `created_at`/`updated_at` time stamps are clock effects. `now` is a parameter, and the time stamps are not stored.
- Rails controllers, routes, GraphQL types and mutations, migrations, the serializer and configuration only call `save`/`update` or describe the schema, so they are not modelled.
- Calendar dates are opaque strings compared for equality. `parseISO`, `isSameDay` and `format` from date-fns are not modelled. A date attribute of the server model is `None` when nil and is otherwise never blank.
- The check-then-write race between concurrent saves in the server model is a storage-layer concurrency issue and is not modelled.
- `TimeOfDay.FormatTime12`: requires a well-formed "HH:MM"; `parseInt` of a malformed hour (NaN) is not modelled.
- `CalendarView.DigitRun`: `parseInt` is modelled as reading the leading decimal digits; leading white space and a sign are not modelled.
- `CalendarView.ParseHour`: `parseInt` without a radix reads a "0x"/"0X" prefix as hexadecimal ("0x10" gives 16, "0x" alone gives NaN). The model reads such text as the decimal 0. Well-formed "HH:MM" times never carry the prefix (`CalendarView.ParseHourOfTime`).
- `MockApi.ApiCache.GetByDate`: one call is modelled as atomic. In the source the freshness test and the cache write are separated by an awaited request, and the write uses the earlier `now`. An `invalidateCache` that runs during the await (for example from `create`) can be undone by a stale list, which is then served for up to 60 seconds. That interleaving is not modelled.
- `TimeOfDay.Before`: string order is by Unicode code point. JavaScript compares UTF-16 code units, and the two orders agree on every character below U+D800, which includes all "HH:MM" strings.
- The error texts shown to the user by the in-memory store and by the forms are not modelled. Those errors are the values of `MockApi.StoreError`, `SlotGrid.FormError` and `ReservationForm.SubmitError`. The server model's messages are modelled.
- `ReservationValidation.Blank`: Ruby's `blank?` is modelled with the ASCII white-space characters only.
