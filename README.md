# Restaurant reservation system — verified model

This project models the deterministic core of a restaurant/event-hall booking
system. Staff take reservations for a table ("Masa n") in one of five salons.
Two single-table VIP salons sell one midday session and one evening session per
day. Every other table is held for a 120-minute window, and a new booking clashes
with an existing one whenever their start times are at most 120 minutes apart.
Each reservation carries an append-only change log, and staff accounts have four
roles (superadmin, admin, editor, reader) with permission rules. A one-off
migration merges the old `users` collection into `administrators`, and a sync
writes every reservation as a 15-column spreadsheet row sorted by date and time.

The model is split into one module per source file:

- `Availability` (`src/utils/reservation.ts`) holds:
  - the two availability policies and their dispatcher;
  - the end-time rule;
  - the next-free-time finder.
- `ReservationList` (`src/pages/ReservationList.tsx`) holds:
  - the three history-building handlers;
  - the list filter;
  - the statistics loop;
  - the filter toggle.
- `SalonAvailability` holds the salon catalog, the occupancy grid and table selection.
- `TimePicker` holds the half-hour slot generator and slot choice.
- `EditReservation` holds the edit form, its input guards and its submit payload.
- `HistoryView` holds the rendering of the change log.
- `Lookup` holds the reservation-code lookup dialog.
- `Phone` normalises Turkish numbers to E.164 (ITU-T Recommendation E.164, clause 6) and validates them.
- `ReservationUtils` applies the record defaults.
- `Helpers` holds time padding and the reservation code.
- `Sheets` holds the spreadsheet row, the in-place sort and the value assembly.
- `Migration` holds the users→administrators merge and its batch.
- `Users` holds the role hierarchy and the create/update guards.
- `Types` holds the record shapes and the role permission table.
- `EditUser`, `AddUser` and `UserManagement` hold the three user-administration screens.
- Shared modules:
  - `Clock` handles "HH:mm" strings and minutes since midnight, wrapping modulo 1440;
  - `JsValues` holds JavaScript values, truthiness, `||`, `??`, `parseInt`, trimming, ASCII case mapping and string order;
  - `Notices` holds toast messages.

Database reads become input snapshots (`Snapshot`, `QueryResult`, `Result` of a
sequence of documents), and each of them can be a failure. Database writes
become output values, either a document update or a list of batch operations.
Where a screen or the migration reacts to a failed write, that failure is an
input flag or error value. The clock (`now`, `today`), `Math.random` picks, generated ids and
the date-fns/`toISOString` formatting functions are parameters. State that a
component updates in place is a class with `modifies` clauses:
- the edit form;
- the lookup dialog;
- the time picker;
- the salon grid;
- the user forms.

Loops in the source are methods with loop invariants, each proved against a
specification function:
- the regular check's early-return loop;
- the next-time probe;
- the statistics accumulator;
- the grid construction;
- the slot generator;
- the migration's merge loops;
- the in-place insertion sort of the sheet rows.

## Model

| member | source | states |
|---|---|---|
| Sheets.HeadersFillTheRange | src/utils/sheets-sync.ts:22-38 | the fifteen headers exactly fill the cleared columns A to O, one header per column |
| Sheets.TextOrEmpty | src/utils/sheets-sync.ts:51-54 | a missing optional text prints as the empty cell and a present one prints as itself |
| Sheets.ChildCell | src/utils/sheets-sync.ts:49 | a falsy child count prints as "0" and a numeric one as its decimal numeral |
| Sheets.TotalCell | src/utils/sheets-sync.ts:50 | with a falsy child count the total prints as the guests, and with a numeric one as the sum of both |
| Sheets.FormatRow | src/utils/sheets-sync.ts:41-59 | a row has exactly one cell per header |
| Sheets.RowCells | src/utils/sheets-sync.ts:22-47 | under the headers 'Rezervasyon Kodu', 'Müşteri Adı', 'Telefon', 'Tarih' and 'Saat', cells 0 to 4 are the code, name, phone, date and time of the reservation |
| Sheets.RowCounts | src/utils/sheets-sync.ts:22-50 | under 'Yetişkin Sayısı', 'Çocuk Sayısı' and 'Toplam Misafir', cells 5 to 7 are the adults, the children and the total |
| Sheets.RowCellsRest | src/utils/sheets-sync.ts:22-57 | under 'Salon', 'Masa', 'Durum', 'Notlar', 'Oluşturulma Tarihi', 'Son Güncelleme' and 'Güncelleyen', cells 8 to 14 are salon, table, status name, notes, both formatted stamps and the author, with missing texts empty |
| Sheets.TotalIsAdultsPlusChildren | src/utils/sheets-sync.ts:48-50 | for a numeric or missing child count, the three count cells are the numerals of guests, children (0 when missing) and their sum |
| Sheets.MissingPropertiesAreEmpty | src/utils/sheets-sync.ts:51-57 | missing salon, table, notes and author print as empty cells, never as "undefined" |
| Sheets.InOrder | src/utils/sheets-sync.ts:103-107 | the comparator `a.date.localeCompare(b.date) || a.time.localeCompare(b.time)` returns at most 0: the earlier date, or on the same date the time not after; its order properties are Sheets.InOrderTotal, Sheets.InOrderTransitive and Sheets.SortedMeansDateThenTime |
| Sheets.InOrderTotal | src/utils/sheets-sync.ts:103-107 | the date-then-time comparator orders any two reservations one way or the other |
| Sheets.InOrderTransitive | src/utils/sheets-sync.ts:103-107 | the comparator's order is transitive |
| Sheets.SortedMeansDateThenTime | src/utils/sheets-sync.ts:103-107 | in a sorted listing the dates never decrease, and on one date the times never decrease |
| Sheets.InsertLast | src/utils/sheets-sync.ts:103-107 | one step of the stable sort: the document goes behind the last earlier one the comparator does not put after it; Sheets.InsertLastPermutes and Sheets.InsertLastSorted state what it keeps |
| Sheets.InsertLastPermutes | src/utils/sheets-sync.ts:103-107 | a stable insertion adds exactly the inserted document |
| Sheets.InsertLastSorted | src/utils/sheets-sync.ts:103-107 | inserting into a listing sorted by date then time keeps it sorted |
| Sheets.SortedListing | src/utils/sheets-sync.ts:103-107 | the listing a stable sort by the comparator gives, as many documents as its input; Sheets.SortedListingSorted, Sheets.SortedListingPermutes and Sheets.SortedListingOfSorted prove it sorted, a permutation and stable |
| Sheets.SortedListingSorted | src/utils/sheets-sync.ts:103-107 | the stable listing is ordered by date, then by time |
| Sheets.SortedListingPermutes | src/utils/sheets-sync.ts:103-107 | the stable listing holds exactly the snapshot's documents |
| Sheets.SortedListingOfSorted | src/utils/sheets-sync.ts:103-107 | a listing already in order, ties included, is left exactly as it is |
| Sheets.SortByDateTime | src/utils/sheets-sync.ts:103-107 | sorting in place leaves the array equal to the stable listing of what it held: sorted by date then time, a permutation, and documents with the same date and time in their original order, as the stable `Array.prototype.sort` leaves them |
| Sheets.Insert | src/utils/sheets-sync.ts:103-107 | one insertion pass turns the first i + 1 cells into the stable insertion of cell i behind the earlier cells, and leaves the rest of the array alone |
| Sheets.SheetValues | src/utils/sheets-sync.ts:71-74 | the written values are the header row followed by one formatted row per reservation, in order, each fifteen cells wide |
| Sheets.Rows | src/utils/sheets-sync.ts:73 | one formatted row per reservation, in listing order |
| Sheets.SheetRowsKeepCodes | src/utils/sheets-sync.ts:71-74 | reading the code column below the headers gives back the reservation codes in order |
| Sheets.SyncValues | src/utils/sheets-sync.ts:96-109 | one snapshot yields its stable listing, which is a sorted permutation of its documents, and the sheet values of that listing |
| Migration.Prop | src/utils/migration.ts:28-29 | a property read gives its value when present and undefined when missing |
| Migration.NormalisedRecord | src/utils/migration.ts:26-32 | a normalised record keeps every other property, has a truthy role (a falsy one becomes 'admin'), replaces a null or undefined `isActive` by true, and carries the migration's stamp |
| Migration.MergedRecordProperties | src/utils/migration.ts:42-48 | a merged record has the user's properties over the held ones, except that a truthy held role wins, and it carries the stamp |
| Migration.MergeKeepsAdministratorRole | src/utils/migration.ts:24-48 | a user merged onto an administrator keeps the administrator's role (defaulted to 'admin'); `isActive` is the user's whenever the user has one, even null |
| Migration.SetEntry | src/utils/migration.ts:21 | setting a Map key replaces its entry; a new key goes last in insertion order and an existing key keeps its place |
| Migration.SetEntryWellFormed | src/utils/migration.ts:21 | setting an entry keeps the Map's keys distinct and in step with its entries |
| Migration.Ids | src/utils/migration.ts:24 | the ids of a snapshot are exactly those of its documents |
| Migration.Writes | src/utils/migration.ts:62-65 | one administrator write per Map entry, in insertion order, with that entry's record |
| Migration.Deletes | src/utils/migration.ts:68-71 | one delete of a users document per users document, in snapshot order |
| Migration.MigrateUsersToAdministrators | src/utils/migration.ts:11-87 | a failed read or commit is rethrown; otherwise the batch is the merged writes followed by the deletes, and the count is the Map's size |
| Migration.CollectAdministrators | src/utils/migration.ts:24-33 | the first loop leaves the Map of every administrator, normalised, in snapshot order |
| Migration.MergeUsers | src/utils/migration.ts:36-59 | the second loop merges each user onto the entry held for its id, or sets it normalised when there is none |
| Migration.QueueWrites | src/utils/migration.ts:62-65 | the loop over the Map queues exactly its writes |
| Migration.QueueDeletes | src/utils/migration.ts:68-71 | the last loop appends exactly the deletes after the writes |
| Migration.AddAdminsWellFormed | src/utils/migration.ts:24-33 | the administrators loop keeps the Map well formed and adds exactly the administrators' ids |
| Migration.AddUsersWellFormed | src/utils/migration.ts:36-59 | the users loop keeps the Map well formed and adds exactly the users' ids |
| Migration.UserStepWellFormed | src/utils/migration.ts:37-58 | one users turn keeps the Map well formed and adds the user's id |
| Migration.MergeAll | src/utils/migration.ts:21-59 | the `mergedUsers` Map after the administrators pass and then the users pass; Migration.MergeAllWellFormed, Migration.FinalRecords and Migration.MigratedCountIsDistinctIds state its keys, records and size |
| Migration.MergeAllWellFormed | src/utils/migration.ts:21-59 | the merged Map is well formed and holds exactly the ids of both collections |
| Migration.MigratedCountIsDistinctIds | src/utils/migration.ts:77-81 | the reported count is the number of distinct ids across both collections, with one administrator write for each |
| Migration.AddAdminsStamped | src/utils/migration.ts:24-33 | after the administrators loop every record has a truthy role and the migration's stamp |
| Migration.AddUsersStamped | src/utils/migration.ts:36-59 | the users loop keeps every record stamped and with a truthy role |
| Migration.UserStepStamped | src/utils/migration.ts:40-58 | both branches of one users turn write a stamped record with a truthy role |
| Migration.EveryWriteStamped | src/utils/migration.ts:62-65 | every write goes to 'administrators' with a truthy role and `updatedBy` 'system_migration' |
| Migration.EveryUserDeleted | src/utils/migration.ts:68-71 | every users document is deleted, and every delete is of a users document |
| Migration.DeletesCoverUsers | src/utils/migration.ts:68-71 | the deletes are exactly one per users document, all in 'users' |
| Migration.AdminEntries | src/utils/migration.ts:24-33 | with distinct administrator ids, each administrator's entry is its normalised data |
| Migration.UserEntries | src/utils/migration.ts:36-59 | with distinct user ids, each user's entry is its data merged onto what was held for the id (or normalised), and every other entry is unchanged |
| Migration.UserEntriesStep | src/utils/migration.ts:37-58 | one users turn sets the new user's record and leaves the other entries as they were |
| Migration.FinalRecords | src/utils/migration.ts:24-59 | an administrator alone keeps its normalised data, a user alone gets the same defaults, and an id in both has the user merged onto the administrator's normalised record |
| TimePicker.GenerateTimeSlots | src/components/CustomTimePicker.tsx:20-34 | the two nested loops return exactly the slot list `Slots` of the bounds, whose properties the lemmas below prove |
| TimePicker.PushHourSlots | src/components/CustomTimePicker.tsx:26-31 | the inner loop appends exactly the kept slots of one hour, the whole hour before the half hour |
| TimePicker.FormatSlot | src/components/CustomTimePicker.tsx:27 | the padded label of hour and minute is the "HH:mm" string of that time |
| TimePicker.PaddedSlot | src/components/CustomTimePicker.tsx:27 | `padStart(2, '0')` of both numerals around a colon gives the "HH:mm" string of the time |
| TimePicker.KeepByMinutes | src/components/CustomTimePicker.tsx:28 | for well-formed bounds, the string comparison keeps a slot exactly when its minutes lie between those of the bounds |
| TimePicker.Slots | src/components/CustomTimePicker.tsx:20-34 | the slot list of the bounds: for each hour from the lower bound's to the upper bound's, the :00 and :30 strings that lie within the bounds; TimePicker.SlotsShape, TimePicker.SlotsAreTheHalfHoursInRange and TimePicker.DefaultSlots state what it holds |
| TimePicker.SlotsFromShape | src/components/CustomTimePicker.tsx:25-32 | every slot from an hour on is a whole or half hour of that hour or later, and lies within the bounds |
| TimePicker.SlotsFromLowerBound | src/components/CustomTimePicker.tsx:25-32 | every slot generated from hour h on is at h:00 or later |
| TimePicker.HourSlots | src/components/CustomTimePicker.tsx:26-31 | the slots of one hour ascend and all come before the next hour |
| TimePicker.SlotsFromAscending | src/components/CustomTimePicker.tsx:25-32 | the slots strictly ascend in clock order |
| TimePicker.SlotsShape | src/components/CustomTimePicker.tsx:20-34 | every slot is a zero-padded "HH:mm" ending in "00" or "30" within the bounds, and the list strictly ascends as strings, so no slot repeats |
| TimePicker.SlotsFromMembers | src/components/CustomTimePicker.tsx:25-32 | every whole or half hour from hour h on that lies within the bounds is generated |
| TimePicker.SlotsAreTheHalfHoursInRange | src/components/CustomTimePicker.tsx:20-34 | a string is offered if and only if it is a whole or half hour whose minutes lie between those of the bounds |
| TimePicker.SlotsFromCount | src/components/CustomTimePicker.tsx:25-32 | between two whole-hour bounds there are two slots per hour plus the last whole hour, starting at the first hour and ending at the maximum |
| TimePicker.LastHour | src/components/CustomTimePicker.tsx:25-31 | the hour of a whole-hour maximum offers only the maximum itself |
| TimePicker.FullHour | src/components/CustomTimePicker.tsx:25-31 | an hour strictly between whole-hour bounds offers both of its slots |
| TimePicker.DefaultSlots | src/components/CustomTimePicker.tsx:14-15 | with the defaults 06:00 and 22:00 there are 33 slots, from "06:00" to "22:00", and "22:30" is not offered |
| TimePicker.TimePickerState.constructor | src/components/CustomTimePicker.tsx:17 | the list starts closed |
| TimePicker.TimePickerState.Toggle | src/components/CustomTimePicker.tsx:56 | clicking the field flips whether the list is open |
| TimePicker.TimePickerState.HandleTimeClick | src/components/CustomTimePicker.tsx:36-39 | the chosen slot goes to `onChange` unchanged and the list closes |
| Availability.IsVipTable | src/utils/reservation.ts:19-21 | `VIP_TABLES[salon]?.includes(masa) || false`: the salon is listed and the table is in its list; Availability.VipTablesAreTheTwoSingleTables names the two tables |
| Availability.VipTablesAreTheTwoSingleTables | src/utils/reservation.ts:5-8 | a table follows the two-session policy exactly when it is "Masa 1" of one of the two VIP salons (`isVIPTable`, lines 19-21) |
| Availability.CheckVipTableAvailability | src/utils/reservation.ts:35-85 | a failed query refuses with the check-failed message; a verdict is available exactly when it carries no message |
| Availability.VipEveningCandidate | src/utils/reservation.ts:63-68 | an evening candidate is refused exactly when some existing reservation of that table and date is at an evening hour, and then with the evening-full message |
| Availability.VipOtherCandidate | src/utils/reservation.ts:70-75 | every candidate outside the evening hours, listed midday or not, is refused exactly when some existing reservation is at a midday hour, with the midday-full message |
| Availability.VipUnlistedExistingNeverBlocks | src/utils/reservation.ts:56-61 | an existing reservation at a time in neither session list never changes the verdict |
| Availability.RegularAvailability | src/utils/reservation.ts:87-135 | the regular policy's verdict: a failed query refuses with the check-failed message, the first conflicting reservation refuses with its end plus one minute, and otherwise the table is available; Availability.RegularAvailableIffNoConflict, Availability.RegularRejectsIffWithin120 and Availability.RegularSuggestionIsFirstConflictEnd prove this |
| Availability.ConflictIsDistanceAtMost120 | src/utils/reservation.ts:114-118 | the three interval tests together hold exactly when the two starts are at most 120 minutes apart, either side, bounds included |
| Availability.Starts | src/utils/reservation.ts:111 | the start minutes of the existing reservations, one per reservation, in query order |
| Availability.FirstConflict | src/utils/reservation.ts:110-125 | the index found conflicts and no earlier one does; none is found exactly when no reservation conflicts |
| Availability.RegularVerdictAt | src/utils/reservation.ts:119-123 | a first conflict at index k refuses with the end of reservation k plus one minute as the next free time |
| Availability.RegularAvailableIffNoConflict | src/utils/reservation.ts:110-127 | the regular policy accepts exactly when no existing reservation conflicts |
| Availability.RegularVerdictNone | src/utils/reservation.ts:127 | with no conflicting reservation the verdict is an acceptance without message |
| Availability.RegularRejectsIffWithin120 | src/utils/reservation.ts:87-135 | a failed query refuses with the check-failed message; otherwise the candidate is refused exactly when some reservation starts within 120 minutes of it, either side; available exactly when no message |
| Availability.FirstConflictIsFirst | src/utils/reservation.ts:110-125 | a conflict preceded by none is the one the scan stops at |
| Availability.RegularSuggestionIsFirstConflictEnd | src/utils/reservation.ts:119-123 | on a refusal the suggested time is the end of the first conflicting reservation in query order plus one minute |
| Availability.CheckRegularTableAvailability | src/utils/reservation.ts:87-135 | the loop that stops at the first conflict returns the regular policy's verdict |
| Availability.CheckTableAvailability | src/utils/reservation.ts:23-33 | VIP tables get the two-session verdict and every other table the regular verdict |
| Availability.TableAvailability | src/utils/reservation.ts:23-33 | the verdict of the table's own policy: two sessions for a VIP table, the 120-minute rule otherwise; Availability.EmptyAcceptsFailureRejects, Availability.AcceptedRegularBookingsKeepApart and Availability.AcceptedVipBookingsOnePerSession state its properties |
| Availability.EmptyAcceptsFailureRejects | src/utils/reservation.ts:23-33 | with no reservation every candidate is accepted; with a failed query every candidate is refused |
| Availability.CalculateEndTime | src/utils/reservation.ts:137-151 | VIP evening ends at 20:00 and every other VIP time at 16:00; a regular booking ends 120 minutes later on the clock, wrapping past midnight |
| Availability.EndTimeDependsOnTimeAndPolicyOnly | src/utils/reservation.ts:137-151 | the end time does not depend on the date nor on which table of a policy is booked |
| Availability.Insert | src/utils/reservation.ts:170-172 | inserting into a sorted sequence keeps it sorted and adds exactly that element |
| Availability.SortAscending | src/utils/reservation.ts:170-172 | the reservations sorted by time: ascending and a permutation of the input |
| Availability.ProbeAfterIsFree | src/utils/reservation.ts:179-188 | over sorted starts, one pass leaves the probe no earlier than the request and inside no existing window |
| Availability.ProbeAfterKeepsFreeRequest | src/utils/reservation.ts:179-188 | a probe inside no window is never moved |
| Availability.GetNextAvailableTime | src/utils/reservation.ts:153-195 | a failed query or no reservation returns the requested time; otherwise the formatted result of the one-pass scan over the sorted starts |
| Availability.NextAvailableMinute | src/utils/reservation.ts:170-189 | the probe after one pass over the stored start times sorted ascending, before formatting; Availability.NextAvailableMinuteIsFree, Availability.NextAvailableKeepsFreeRequest and Availability.NextAvailableCanBeRejected state what it returns |
| Availability.NextAvailableMinuteIsFree | src/utils/reservation.ts:170-190 | the suggested minute is not before the request and lies inside no window [start, start + 120] of an existing reservation |
| Availability.NextAvailableKeepsFreeRequest | src/utils/reservation.ts:179-190 | a request inside no existing window is returned unchanged |
| Availability.NextAvailableCanBeRejected | src/utils/reservation.ts:185-187 | as written the finder suggests 18:00 next to a 19:00 reservation, which the regular check refuses |
| Availability.BookableProbeAfterIsFree | src/utils/reservation.ts:179-188 | with the regular check's conflict test, one pass over sorted starts leaves the probe no earlier than the request and in conflict with none |
| Availability.NextBookableIsFree | src/utils/reservation.ts:153-195 | the corrected finder's slot is not before the request and conflicts with no existing reservation |
| Availability.NextBookableIsAccepted | src/utils/reservation.ts:87-135 | a corrected suggestion that falls on the same day is accepted by the regular check |
| Availability.FreeMinuteIsAccepted | src/utils/reservation.ts:110-127 | a minute of the day conflicting with no reservation is accepted |
| Availability.AcceptedRegularBookingsKeepApart | src/utils/reservation.ts:87-135 | on a regular table, bookings each accepted against the earlier ones start more than 120 minutes apart pairwise |
| Availability.AcceptedVipBookingsOnePerSession | src/utils/reservation.ts:35-85 | on a VIP table, bookings accepted one at a time hold at most one evening and at most one midday reservation |
| Availability.ScenarioRegularTableRejects | src/utils/reservation.ts:114-123 | next to a 19:00 reservation, 20:00 is refused suggesting 21:01, and 21:00 is refused too |
| Availability.ScenarioRegularTableNextSlot | src/utils/reservation.ts:179-190 | the finder answers 21:01 for 20:00 next to a 19:00 reservation |
| Availability.ScenarioVipTable | src/utils/reservation.ts:63-77 | with a 13:00 reservation on a VIP table, 15:00 is refused as midday-full and 18:00 is accepted |
| SalonAvailability.SalonNamesDistinct | src/components/SalonAvailabilityModal.tsx:15-21 | the five salons of the catalog have distinct names, so none overwrites another in the grid |
| SalonAvailability.TableKey | src/components/SalonAvailabilityModal.tsx:82 | every table key begins with "Masa " |
| SalonAvailability.TableKeyInjective | src/components/SalonAvailabilityModal.tsx:81-83 | distinct table numbers give distinct keys |
| SalonAvailability.FreeTablesShape | src/components/SalonAvailabilityModal.tsx:80-83 | a salon of n tables starts with exactly the keys "Masa 1" to "Masa n", n of them, each free |
| SalonAvailability.FreeTablesKeys | src/components/SalonAvailabilityModal.tsx:81-83 | the keys are exactly "Masa i" for 1 <= i <= n |
| SalonAvailability.FreeTablesFree | src/components/SalonAvailabilityModal.tsx:82 | every table starts free |
| SalonAvailability.KeyAbsentBeyond | src/components/SalonAvailabilityModal.tsx:81 | no table numbered beyond n is created |
| SalonAvailability.FreeTablesSize | src/components/SalonAvailabilityModal.tsx:81-83 | a salon of n tables has n entries |
| SalonAvailability.InitialGridShape | src/components/SalonAvailabilityModal.tsx:79-84 | the initial grid has exactly the catalog's salons, each mapped to its own free tables |
| SalonAvailability.GridOfKeys | src/components/SalonAvailabilityModal.tsx:79-80 | the grid of a catalog prefix has exactly that prefix's salon names |
| SalonAvailability.GridOfValues | src/components/SalonAvailabilityModal.tsx:79-84 | with distinct names each salon of the prefix maps to its free tables |
| SalonAvailability.CatalogTableCounts | src/components/SalonAvailabilityModal.tsx:15-21 | the grid holds five salons with 50, 50, 1, 1 and 50 free tables |
| SalonAvailability.InRange | src/components/SalonAvailabilityModal.tsx:61-63 | `t >= start && t <= end` on strings; SalonAvailability.InRangeIsInclusive shows both ends included and, on "HH:mm", clock order |
| SalonAvailability.InRangeIsInclusive | src/components/SalonAvailabilityModal.tsx:61-63 | the string range test includes both ends, and on "HH:mm" times it is the clock interval [start, end] |
| SalonAvailability.MarkAll | src/components/SalonAvailabilityModal.tsx:86-101 | the marking `forEach` in query order: each reservation with a salon, a table and an in-range time overwrites its table with its details, and a salon missing from the grid fails the pass; SalonAvailability.MarkAllResult and SalonAvailability.MarkAllFailure state its result |
| SalonAvailability.LastMarkIsLast | src/components/SalonAvailabilityModal.tsx:87-101 | the reservation a table ends up showing marks it and no later one in query order does; there is none exactly when none marks it |
| SalonAvailability.MarkAllResult | src/components/SalonAvailabilityModal.tsx:87-101 | a marking pass that completes keeps the salons, and every table holds the last reservation marking it or its old state |
| SalonAvailability.MarkAllFailure | src/components/SalonAvailabilityModal.tsx:89-90 | the pass fails exactly when a marking reservation names a salon the grid lacks (the assignment into `undefined` throws) |
| SalonAvailability.BuildGrid | src/components/SalonAvailabilityModal.tsx:79-84 | the outer loop builds the grid of the whole catalog, every table free |
| SalonAvailability.BuildFreeTables | src/components/SalonAvailabilityModal.tsx:81-83 | the inner loop builds tables 1 to n, each free |
| SalonAvailability.MarkReservations | src/components/SalonAvailabilityModal.tsx:87-101 | the `forEach` over the documents gives the marking pass's result, failing on an unknown salon |
| SalonAvailability.MarkStep | src/components/SalonAvailabilityModal.tsx:88-100 | the pass from a document on is that document's step followed by the pass over the rest |
| SalonAvailability.SalonAvailabilityModal.constructor | src/components/SalonAvailabilityModal.tsx:44-53 | the dialog opens on the given day, 06:00 to 22:00, not loading, with an empty grid and nothing selected |
| SalonAvailability.SalonAvailabilityModal.FetchTableStatus | src/components/SalonAvailabilityModal.tsx:65-109 | the stored grid becomes the freshly marked grid, or stays as it was when the query fails or a salon is unknown; loading ends false; nothing else changes |
| SalonAvailability.Lookup | src/components/SalonAvailabilityModal.tsx:112 | `tableStatus[salon]?.[masa]`: the table's state when both keys exist, and nothing otherwise; SalonAvailability.SalonAvailabilityModal.HandleTableClick states what a click does with it |
| SalonAvailability.SalonAvailabilityModal.HandleTableClick | src/components/SalonAvailabilityModal.tsx:111-120 | a reserved table becomes the selection with its reservation; clicking a free or unknown table changes nothing |
| ReservationList.EntryAuthor | src/pages/ReservationList.tsx:87 | the entry's author is never empty: the signed-in e-mail when there is one, otherwise 'unknown' |
| ReservationList.StatusChange | src/pages/ReservationList.tsx:82-110 | the write keeps the old log and appends one entry with the status change from old to new, sets the new status and marks the write 'durum' |
| ReservationList.TableAssignment | src/pages/ReservationList.tsx:117-155 | no write without a reservation; otherwise one appended entry with the salon then the table change, a missing old value logged as '', and the write marked 'masa' |
| ReservationList.FieldValue | src/pages/ReservationList.tsx:168 | `selectedReservation[field]`: the stored property of that name, undefined for a missing optional property or an unknown name; ReservationList.FieldValuesOfPayloadKeys and ReservationList.Diff use it |
| ReservationList.FieldValuesOfPayloadKeys | src/pages/ReservationList.tsx:168 | reading a stored property by name gives the stored value; a missing optional property reads as undefined |
| ReservationList.Diff | src/pages/ReservationList.tsx:166-170 | every change names an entry of the update, holds the stored value as old, and differs under `!==`; an entry is a change exactly when it differs |
| ReservationList.DiffKeepsEntryOrder | src/pages/ReservationList.tsx:166-170 | the changes keep the order of the update's entries |
| ReservationList.DiffEmptyIffAllEqual | src/pages/ReservationList.tsx:170-172 | there is no change exactly when every entry is `===` the stored value |
| ReservationList.DiffEmptyByIndex | src/pages/ReservationList.tsx:170-172 | every entry `===` its stored value leaves no change |
| ReservationList.Without | src/pages/ReservationList.tsx:182-188 | an entry survives exactly when its key is not one the write sets itself |
| ReservationList.WithoutKeepsOthers | src/pages/ReservationList.tsx:182-188 | removing keys that only trailing entries carry keeps the leading entries |
| ReservationList.SaveInfo | src/pages/ReservationList.tsx:162-196 | a write happens exactly when a reservation is selected and some entry differs; it appends one entry holding exactly the changes and spreads the update, marked 'bilgi' |
| ReservationList.Step | src/pages/ReservationList.tsx:82-196 | the reservation as stored after one handler: its new log and stamp, and the new status or table for those handlers; ReservationList.StepAppendsAtMostOne and ReservationList.HistoryIsAppendOnly state what it does to the log |
| ReservationList.StepAppendsAtMostOne | src/pages/ReservationList.tsx:95-102 | each handler keeps the log as a prefix and adds at most one entry; status and table writes add exactly one, a save adds one exactly when something changed |
| ReservationList.HistoryIsAppendOnly | src/pages/ReservationList.tsx:82-196 | over any run of handlers the old log stays a prefix, and the log grows by at least the number of status and table writes and at most the number of handlers |
| ReservationList.ToggleFilterState | src/pages/ReservationList.tsx:249-254 | the next filter state in the cycle; ReservationList.ToggleCycles gives the cycle active, cancelled, all |
| ReservationList.IndexOfState | src/pages/ReservationList.tsx:250-251 | every filter state has its place in the cycle |
| ReservationList.ToggleCycles | src/pages/ReservationList.tsx:249-254 | the toggle goes active, cancelled, all and back; it always changes the state and returns to it after three presses |
| ReservationList.MatchesSearch | src/pages/ReservationList.tsx:279-282 | the name or the code contains the search text, both lower-cased, or the phone contains it as typed; ReservationList.FilteredReservations and ReservationList.EmptySearchKeepsAll use it |
| ReservationList.FilteredReservations | src/pages/ReservationList.tsx:278-291 | a reservation is kept exactly when it matches the search, the date filter and the status filter |
| ReservationList.FilterKeepsOrder | src/pages/ReservationList.tsx:278-291 | filtering keeps the list order |
| ReservationList.EmptySearchKeepsAll | src/pages/ReservationList.tsx:279-290 | an empty search with no date filter in the 'all' state keeps the whole list |
| ReservationList.ChildrenOf | src/pages/ReservationList.tsx:228 | `childCount || 0`: the number when there is one, zero otherwise |
| ReservationList.ActiveOnly | src/pages/ReservationList.tsx:239 | exactly the active reservations |
| ReservationList.StatsCountOnlyActive | src/pages/ReservationList.tsx:238-244 | the statistics depend only on the active reservations; a list of cancelled ones gives zeros |
| ReservationList.ActiveSumsStep | src/pages/ReservationList.tsx:238-244 | one more reservation adds its guests and children when it is active and nothing otherwise |
| ReservationList.AdultsSplit | src/pages/ReservationList.tsx:240 | the adults of a concatenation are the sum over its parts |
| ReservationList.ChildrenSplit | src/pages/ReservationList.tsx:241 | the children of a concatenation are the sum over its parts |
| ReservationList.GetReservationStats | src/pages/ReservationList.tsx:231-247 | the accumulation gives the adults and children of the active reservations, and the total is their sum |
| EditReservation.ChildCountText | src/components/EditReservationModal.tsx:44 | a missing child count shows as '', a number as its decimal numeral |
| EditReservation.InitialForm | src/components/EditReservationModal.tsx:36-48 | the form opens with guests as a non-empty numeral that parses back to the stored count, and an empty child count or notes when those are missing |
| EditReservation.Payload | src/components/EditReservationModal.tsx:56-62 | the save argument has the seven form properties then `updatedAt`, in that order, with guests parsed, the child count parsed or 0 when empty, the date as its ISO day and the current time |
| EditReservation.Fields | src/components/EditReservationModal.tsx:56-62 | the eight properties in spread order carry the computed values |
| EditReservation.EditReservationForm.constructor | src/components/EditReservationModal.tsx:26-48 | the form is empty, or filled from the reservation when one is given |
| EditReservation.EditReservationForm.HandleGuestChange | src/components/EditReservationModal.tsx:71-81 | '' or a value parsing into [1, 100] replaces the guests field alone; anything else changes nothing |
| EditReservation.EditReservationForm.HandleChildCountChange | src/components/EditReservationModal.tsx:83-93 | '' or a value parsing into [0, 50] replaces the child-count field alone; anything else changes nothing |
| EditReservation.EditReservationForm.SubmitPayload | src/components/EditReservationModal.tsx:50-62 | nothing is handed on exactly when there is no reservation or the guests field is empty; otherwise the payload of the current form |
| EditReservation.EditReservationForm.CanCancel | src/components/EditReservationModal.tsx:261 | cancelling is offered exactly for an active reservation |
| EditReservation.UnchangedFormStillLogs | src/pages/ReservationList.tsx:166-172 | saving the form exactly as it opened still writes, logging the fresh `updatedAt` as a change |
| EditReservation.PayloadHoldsStamp | src/components/EditReservationModal.tsx:61 | every payload carries the fresh `updatedAt` |
| EditReservation.StampIsLogged | src/pages/ReservationList.tsx:166-188 | a fresh `updatedAt` in an update always causes a write whose entry lists it |
| EditReservation.StampIsAChange | src/pages/ReservationList.tsx:166-170 | a fresh `updatedAt` is always among the changes |
| EditReservation.PayloadOfUnchangedForm | src/components/EditReservationModal.tsx:36-62 | for a record with notes, a numeric child count and a date that reads back unchanged, the unchanged form's payload is the stored values followed by the stamp |
| EditReservation.OwnDataOfUnchangedForm | src/pages/ReservationList.tsx:182-188 | leaving out the properties the write sets itself leaves exactly the stored values |
| EditReservation.StoredPartIsUnchanged | src/pages/ReservationList.tsx:166-170 | the stored values compared with the record give no change |
| EditReservation.UnchangedFormLogsNothing | src/pages/ReservationList.tsx:166-172 | with the properties the write sets itself left out of the diff, saving the unchanged form writes nothing |
| ReservationUtils.Normalise | src/utils/reservation-utils.ts:6-19 | the value of each of the twelve properties of `cleanData`; ReservationUtils.NormaliseDefaults, ReservationUtils.NormaliseNumbers, ReservationUtils.NormaliseDefinesEveryValue and ReservationUtils.NormaliseIsIdempotentUpToTimestamp state them |
| ReservationUtils.Fields | src/utils/reservation-utils.ts:6-19 | the record has the twelve properties in the literal's key order |
| ReservationUtils.NormaliseDefinesEveryValue | src/utils/reservation-utils.ts:6-19 | no property of the normalised record is undefined |
| ReservationUtils.TextValuesDefined | src/utils/reservation-utils.ts:7-13 | name, phone, time and notes are never undefined |
| ReservationUtils.OtherValuesDefined | src/utils/reservation-utils.ts:11-17 | guests, child count, status, salon and table are never undefined |
| ReservationUtils.FieldsDefined | src/utils/reservation-utils.ts:6-19 | a record whose values are defined has no undefined property |
| ReservationUtils.CleanReservationData | src/utils/reservation-utils.ts:4-29 | the result is the normalised record with all twelve properties, none undefined: the deletion pass removes nothing |
| ReservationUtils.GetOfDefinedValues | src/utils/reservation-utils.ts:22-23 | a present key of an object without undefined values never reads as undefined |
| ReservationUtils.NormaliseDefaults | src/utils/reservation-utils.ts:7-18 | falsy inputs get their defaults ('' for text, '19:00', 'aktif', today's date), a truthy code is upper-cased, and the stamp is the current time |
| ReservationUtils.NormaliseNumbers | src/utils/reservation-utils.ts:11-12 | guests is always a number, 0 when it does not parse; a falsy child count is 0 and a truthy one is parsed, so "iki" is stored as NaN |
| ReservationUtils.NoDigitsParseToNaN | src/utils/reservation-utils.ts:12 | `parseInt("iki")` is NaN |
| ReservationUtils.NoLeadingDigitIsNaN | src/utils/reservation-utils.ts:11-12 | text starting with neither white space, a sign nor a digit parses to NaN |
| ReservationUtils.ReadBack | src/utils/reservation-utils.ts:6-19 | the input the normaliser reads from its own output object |
| ReservationUtils.OrDefaultIdempotent | src/utils/reservation-utils.ts:7-17 | a `|| default` applied twice is applied once |
| ReservationUtils.ParseIntOfNum | src/utils/reservation-utils.ts:11-12 | `parseInt` of a stored integer gives it back |
| ReservationUtils.PhoneNormalIdempotent | src/utils/reservation-utils.ts:8 | the phone normal form is a string that normalises to itself |
| ReservationUtils.CodeNormalIdempotent | src/utils/reservation-utils.ts:14 | the upper-cased code normalises to itself |
| ReservationUtils.NormaliseIsIdempotentUpToTimestamp | src/utils/reservation-utils.ts:4-29 | normalising a normalised record changes only `updatedAt`, for a numeric child count and a stable date formatter |
| ReservationUtils.GuestsNormalIdempotent | src/utils/reservation-utils.ts:11 | the normalised guests value reads back as itself |
| ReservationUtils.ChildCountNormalIdempotent | src/utils/reservation-utils.ts:12 | a normalised child count other than NaN reads back as itself |
| ReservationUtils.DateNormalIdempotent | src/utils/reservation-utils.ts:9 | a date the formatter keeps reads back as itself |
| HistoryView.FieldLabel | src/components/ReservationHistoryModal.tsx:14-28 | a field outside the ten labelled ones is shown as its own name; a non-empty name never gets an empty label |
| HistoryView.FieldLabelRenamesExactlyTheKnownFields | src/components/ReservationHistoryModal.tsx:15-27 | the label differs from the name exactly for the ten labelled fields |
| HistoryView.StatusText | src/components/ReservationHistoryModal.tsx:35 | a status shows as "Aktif" exactly when it is 'aktif', and as "İptal" otherwise |
| HistoryView.ShownValue | src/components/ReservationHistoryModal.tsx:37 | a missing or empty value shows as '-', a non-empty string as itself, a number as its numeral; never empty |
| HistoryView.FormatValue | src/components/ReservationHistoryModal.tsx:30-38 | dates go through the day formatter, statuses through the status text, every other field through the plain rendering |
| HistoryView.FormatValueNeverEmpty | src/components/ReservationHistoryModal.tsx:34-37 | apart from dates, a rendered value is never empty |
| HistoryView.ChangeDescription | src/components/ReservationHistoryModal.tsx:40-60 | a status change names both statuses as "Aktif"/"İptal"; a salon or table change is an assignment, a removal or a replacement according to which values are truthy |
| HistoryView.OtherFieldsIgnoreValues | src/components/ReservationHistoryModal.tsx:57-58 | the fields without their own case are described by their label alone, whatever the values |
| HistoryView.ChildCountFalsyIsZero | src/components/ReservationHistoryModal.tsx:48-49 | a falsy child count, old or new, reads as 0 |
| HistoryView.StatusOnlyTellsActive | src/components/ReservationHistoryModal.tsx:50-51 | every status value other than 'aktif' gives the same description |
| HistoryView.TableOutcomesAreDistinct | src/components/ReservationHistoryModal.tsx:52-56 | a salon or table description starts with the label, ends in " atandı" exactly for an assignment and in " kaldırıldı" exactly for a removal |
| HistoryView.Shape | src/components/ReservationHistoryModal.tsx:54-56 | the three endings are told apart by their final words |
| HistoryView.Lines | src/components/ReservationHistoryModal.tsx:127-131 | one description per change, in order |
| HistoryView.RenderHistory | src/components/ReservationHistoryModal.tsx:62-135 | a missing or empty log shows the placeholder and nothing else does; otherwise one view per entry, in stored order |
| HistoryView.RenderAppend | src/components/ReservationHistoryModal.tsx:113-134 | appending an entry to the log appends its view and leaves the earlier views as they were |
| Lookup.ErrorMessage | src/components/ReservationLookupModal.tsx:27-63 | every refusal shows a non-empty toast |
| Lookup.Decide | src/components/ReservationLookupModal.tsx:22-67 | an empty key is refused; a failed query, no match and a cancelled first match each give their own error exactly in those cases; otherwise the path of the normalised key |
| Lookup.EmptyKeyNeedsNoQuery | src/components/ReservationLookupModal.tsx:26-29 | an empty key is refused whatever the store would return |
| Lookup.EmptyKeyIffBlank | src/components/ReservationLookupModal.tsx:24-26 | exactly a code of white space only normalises to the empty key |
| Lookup.UpperKeepsSpace | src/components/ReservationLookupModal.tsx:24 | upper-casing maps white space to white space and nothing else to it |
| Lookup.TrimStartOfClean | src/components/ReservationLookupModal.tsx:24 | a string starting with a non-space is unchanged by trimming its start |
| Lookup.TrimEndOfClean | src/components/ReservationLookupModal.tsx:24 | a string ending with a non-space is unchanged by trimming its end |
| Lookup.NormaliseKey | src/components/ReservationLookupModal.tsx:24 | `code.trim().toUpperCase()`; Lookup.EmptyKeyIffBlank, Lookup.KeyHasNoOuterSpace, Lookup.KeyIsTrimmed and Lookup.NormaliseKeyIdempotent state its properties |
| Lookup.KeyHasNoOuterSpace | src/components/ReservationLookupModal.tsx:24 | a trimmed code starts and ends with a non-space |
| Lookup.NormaliseKeyIdempotent | src/components/ReservationLookupModal.tsx:24 | normalising a key again gives the same key |
| Lookup.KeyIsTrimmed | src/components/ReservationLookupModal.tsx:24 | a normalised key has nothing to trim |
| Lookup.NavigationTargetIsNormal | src/components/ReservationLookupModal.tsx:57-59 | a navigation goes to the reservation path followed by a non-empty key that is already normal |
| Lookup.Limit | src/components/ReservationLookupModal.tsx:121 | the field holds the first six characters typed, or all of them when there are fewer |
| Lookup.LookupDialog.constructor | src/components/ReservationLookupModal.tsx:18-19 | the dialog opens with an empty code, not loading |
| Lookup.LookupDialog.HandleCodeChange | src/components/ReservationLookupModal.tsx:115-122 | the code becomes the typed text, cut to six characters and upper-cased; nothing else changes |
| Lookup.LookupDialog.HandleSubmit | src/components/ReservationLookupModal.tsx:22-67 | the outcome is the decision on the current code; an empty key leaves the loading flag alone, any other ends with it cleared; only a navigation closes the dialog |
| Phone.Strip | src/utils/phone-utils.ts:5 | a global replace by '' leaves no character of the class and never lengthens the text |
| Phone.StripConcat | src/utils/phone-utils.ts:5 | removing a class from a concatenation removes it from each part |
| Phone.StripKeepsClean | src/utils/phone-utils.ts:5 | text without a character of the class is unchanged |
| Phone.Clean | src/utils/phone-utils.ts:5 | the cleaned number holds no white space, '-', '(', ')' nor '+' |
| Phone.StripMembers | src/utils/phone-utils.ts:5 | removing characters introduces none |
| Phone.CleanedNeverStartsWithPlus | src/utils/phone-utils.ts:5-8 | a cleaned number never starts with "+90", so the first test always passes |
| Phone.FormatPhoneToE164 | src/utils/phone-utils.ts:1-24 | '' stays ''; any other input comes out starting with "+90", with no white space, '-', '(' or ')' and no '+' after the first character |
| Phone.FormatBranches | src/utils/phone-utils.ts:8-21 | after cleaning, a leading "90" gets a '+', a leading "0" is replaced by "+90", anything else gets "+90" in front |
| Phone.FormattedShape | src/utils/phone-utils.ts:1-24 | a formatted number is "+90" followed by characters that cleaning keeps |
| Phone.FormatIdempotent | src/utils/phone-utils.ts:1-24 | formatting a formatted number changes nothing |
| Phone.CleanBehindPrefix | src/utils/phone-utils.ts:5 | a national number is untouched by cleaning, also behind a prefix |
| Phone.FormatWithPrefix | src/utils/phone-utils.ts:8-21 | a national number behind a prefix cleaning to "0" or "90" formats to "+90" and the number |
| Phone.IsTurkishE164 | src/utils/phone-utils.ts:29 | the pattern `/^\+90[1-9][0-9]{9}$/`: thirteen characters, "+90", a digit from 1 to 9, then nine decimal digits |
| Phone.ValidatePhoneNumber | src/utils/phone-utils.ts:26-30 | a non-empty number whose E.164 form matches the pattern; Phone.ValidWithPrefix, Phone.ValidBare and Phone.ValidateAcceptsNationalForms state which inputs pass |
| Phone.ValidWithPrefix | src/utils/phone-utils.ts:26-30 | such a number is valid |
| Phone.CleanPrefixes | src/utils/phone-utils.ts:5 | "0" and "90" clean to themselves, "+90" and "+90 " to "90" |
| Phone.ValidBare | src/utils/phone-utils.ts:26-30 | a bare national number is valid exactly when it does not begin with "90" |
| Phone.ValidateAcceptsNationalForms | src/utils/phone-utils.ts:26-30 | '' is never valid; a national number is valid after "0", "90", "+90" and "+90 ", and bare exactly when it does not begin with "90" |
| Helpers.FormatTime | src/utils/helpers.ts:10-12 | `time.padStart(5, '0')`; Helpers.FormatTimePadsToFive and Helpers.FormatTimeOfShortHour state its result |
| Helpers.FormatTimePadsToFive | src/utils/helpers.ts:10-12 | a time of five or more characters is unchanged; a shorter one is left-padded with '0' to five; padding twice is padding once |
| Helpers.FormatTimeOfShortHour | src/utils/helpers.ts:10-12 | a one-digit-hour time such as "9:30" becomes the "HH:mm" string of the same hour and minute |
| Helpers.Digit36 | src/utils/helpers.ts:16 | a base-36 digit is 0-9 or a-z |
| Helpers.ToBase36 | src/utils/helpers.ts:16 | `toString(36)` is a non-empty string of base-36 digits |
| Helpers.SliceLast | src/utils/helpers.ts:20 | `slice(-k)` is the last k characters, or the whole of a shorter string |
| Helpers.Value36OfDigit | src/utils/helpers.ts:15-16 | every upper-cased base-36 digit is in the code alphabet and reads back as its value |
| Helpers.GenerateReservationCode | src/utils/helpers.ts:14-21 | the code is the clock's last base-36 characters followed by the three picked alphabet characters |
| Helpers.CodeShape | src/utils/helpers.ts:14-21 | every character of a code is in A-Z0-9, and a code has six characters once the clock has three base-36 digits |
| Helpers.DivDiv36 | src/utils/helpers.ts:16 | dividing by 36 twice divides by 1296 |
| Helpers.LastBase36Digit | src/utils/helpers.ts:16 | the last base-36 digit is the value modulo 36 |
| Helpers.LastThreeBase36Digits | src/utils/helpers.ts:16-20 | the last three base-36 digits are the value's three lowest digits |
| Helpers.QuotientsOfLargeClock | src/utils/helpers.ts:16 | a clock of at least 1296 has at least three base-36 digits |
| Helpers.LastThree | src/utils/helpers.ts:20 | the last three characters of a string extended by two |
| Helpers.ThreeDigitArithmetic | src/utils/helpers.ts:16-20 | the three lowest base-36 digits make up the value modulo 46656 |
| Helpers.CodeHeadEncodesClock | src/utils/helpers.ts:14-21 | the first three characters of a code, read in base 36, are the clock modulo 46656 ms |
| Helpers.CloseClocksGiveDistinctHeads | src/utils/helpers.ts:14-21 | codes made at different clock readings less than 46656 ms apart differ in their first three characters, whatever the random picks |
| Clock.Hours | src/utils/reservation.ts:14-17 | the hour of a well-formed time is below 24 |
| Clock.MinuteOfHour | src/utils/reservation.ts:14-17 | the minute of a well-formed time is below 60 |
| Clock.Minutes | src/utils/reservation.ts:14-17 | a parsed "HH:mm" time is a minute of its day |
| Clock.Pad2 | src/components/CustomTimePicker.tsx:27 | a two-character numeral of the number |
| Clock.Pad2IsPaddedNumeral | src/components/CustomTimePicker.tsx:27 | it is the decimal numeral padded with '0' to two characters |
| Clock.TimeString | src/components/CustomTimePicker.tsx:27 | the "HH:mm" string with exactly the given hour and minute |
| Clock.FormatHHmm | src/utils/reservation.ts:119 | `format(t, 'HH:mm')` is a well-formed time whose minutes are those of t's time of day, wrapping past midnight |
| Clock.HHmmDeterminedByFields | src/utils/reservation.ts:14-17 | hour and minute determine a well-formed time string |
| Clock.FormatOfMinutes | src/utils/reservation.ts:190 | formatting the minutes of a well-formed time gives that time back |
| Clock.FormatIsTimeString | src/utils/reservation.ts:190 | formatting is the time string of quotient and remainder by 60 |
| Clock.SplitMinutes | src/utils/reservation.ts:14-17 | hours and minutes are recovered from the minutes of the day |
| Clock.MinutesInjective | src/utils/reservation.ts:14-17 | two well-formed times with the same minutes are the same string |
| Clock.DigitOrder | src/utils/reservation.ts:172 | digit characters compare as their values |
| Clock.LexOrderIsClockOrder | src/utils/reservation.ts:170-172 | on well-formed times the string order is the clock order |
| Clock.LexLessEqIsClockOrder | src/components/SalonAvailabilityModal.tsx:61-63 | the string `<=` on well-formed times is the clock's `<=` |
| JsValues.Keys | src/utils/reservation-utils.ts:22 | `Object.keys`: one key per property, in insertion order |
| JsValues.Get | src/utils/reservation-utils.ts:23 | a missing key reads as undefined; the first property with the key gives its value |
| JsValues.Delete | src/utils/reservation-utils.ts:24 | no property with the key remains; an object without it is unchanged |
| JsValues.Truthy | src/utils/reservation-utils.ts:7-17 | ToBoolean: undefined, null, false, 0, NaN and '' are falsy and every other value truthy; JsValues.Or and ReservationUtils.NormaliseDefaults use it |
| JsValues.Or | src/utils/reservation-utils.ts:7-17 | `a || d` is a when a is truthy and d otherwise |
| JsValues.Coalesce | src/utils/migration.ts:29 | `a ?? d` replaces exactly undefined and null |
| JsValues.StrictEquals | src/pages/ReservationList.tsx:170 | `a === b`; JsValues.StrictEqualsMeansEqualOtherThanNaN states it |
| JsValues.StrictEqualsMeansEqualOtherThanNaN | src/pages/ReservationList.tsx:170 | `===` is equality of values except that NaN is unequal to itself |
| JsValues.ToJsString | src/components/EditReservationModal.tsx:43-44 | `String(v)` for each kind of value, the numeral for a number; JsValues.ParseIntOfIntToString reads a number's string back |
| JsValues.IntToString | src/components/EditReservationModal.tsx:43 | `String(n)` is never empty |
| JsValues.DecimalValueOfNatToDecimal | src/components/EditReservationModal.tsx:43 | the numeral of a natural number reads back as it |
| JsValues.TrimStart | src/components/ReservationLookupModal.tsx:24 | removes exactly the leading white space |
| JsValues.TrimEnd | src/components/ReservationLookupModal.tsx:24 | removes exactly the trailing white space |
| JsValues.TrimIsEmptyIffAllSpace | src/components/ReservationLookupModal.tsx:24-26 | `trim()` is empty exactly for a string of white space only |
| JsValues.ParseInt | src/utils/reservation-utils.ts:11-12 | `parseInt(v)` gives a number or NaN, after converting v with `String`; JsValues.ParseIntString, JsValues.ParseIntOfDigits and ReservationUtils.NormaliseNumbers state which |
| JsValues.ParseIntString | src/components/EditReservationModal.tsx:76 | `parseInt` gives a number or NaN |
| JsValues.ParseUnsigned | src/utils/reservation-utils.ts:11 | an unsigned parse is NaN or a non-negative number |
| JsValues.ParseIntOfDigits | src/components/EditReservationModal.tsx:58 | a plain numeral parses to its decimal value |
| JsValues.ParseIntOfNegatedDigits | src/components/EditReservationModal.tsx:58 | a minus sign before a numeral negates its value |
| JsValues.ParseIntOfIntToString | src/components/EditReservationModal.tsx:43-58 | `parseInt(String(n))` is n for every integer |
| JsValues.ToUpper | src/components/ReservationLookupModal.tsx:24 | each character upper-cased, length kept |
| JsValues.ToLower | src/pages/ReservationList.tsx:280-281 | each character lower-cased, length kept |
| JsValues.ToUpperIdempotent | src/utils/reservation-utils.ts:14 | upper-casing twice is upper-casing once |
| JsValues.ContainsAt | src/pages/ReservationList.tsx:280-282 | `includes` holds exactly when the text occurs at some position |
| JsValues.PadStart | src/utils/helpers.ts:11 | a long enough string is kept; a shorter one is padded on the left to the length, keeping it as a suffix |
| JsValues.LexLessTrichotomy | src/components/CustomTimePicker.tsx:28 | of two different strings exactly one is smaller |
| JsValues.LexLessTransitive | src/components/CustomTimePicker.tsx:28 | the string order is transitive |
| JsValues.LexLessEqIsLessOrEqual | src/components/SalonAvailabilityModal.tsx:62 | `a <= b` on strings is equality or `<` |
| Types.StatusName | src/types.ts:12 | a status is stored as 'aktif' or 'iptal' |
| Types.ParseStatus | src/types.ts:12 | exactly 'aktif' and 'iptal' denote a status, and the status they denote is stored as that string |
| Types.StatusNameRoundTrip | src/types.ts:12 | a stored status reads back as itself |
| Types.UpdateTypeName | src/types.ts:16 | a write is marked 'bilgi', 'masa' or 'durum' |
| Types.UpdateTypeNamesDistinct | src/types.ts:16 | the three marks are distinct |
| Types.RoleName | src/types.ts:71 | the four role strings; Types.ParseRole and Types.RoleNameRoundTrip read them back |
| Types.ParseRole | src/types.ts:71 | a role string denotes a role only when it is one of the four names, and then the role stored as it |
| Types.RoleNameRoundTrip | src/types.ts:71 | a stored role reads back as itself |
| Types.RolePermissions | src/types.ts:81-110 | everyone may view reservations; only superadmins manage the system; superadmins and admins manage users; everyone but readers creates and edits reservations |
| Types.RoleLabel | src/types.ts:112-117 | `USER_ROLE_LABELS`: the Turkish label of each role; Types.RoleLabelsDistinct |
| Types.RoleLabelsDistinct | src/types.ts:112-117 | each role has its own label |
| Users.Level | src/utils/user.ts:78-83 | `ROLE_HIERARCHY`: superadmin 4, admin 3, editor 2, reader 1; Users.HierarchyIsStrict |
| Users.HierarchyIsStrict | src/utils/user.ts:78-83 | superadmin 4 > admin 3 > editor 2 > reader 1, and distinct roles have distinct levels |
| Users.PermissionsAreMonotone | src/types.ts:81-110 | every permission of a role is held by every role at least as high in the hierarchy |
| Users.CanUpdateRole | src/utils/user.ts:85-105 | a superadmin may make any role change; an admin exactly those between editor and reader; editors and readers none |
| Users.CreateUser | src/utils/user.ts:5-42 | no session or a failed collection query throws its error; otherwise the account of the signed-in uid, active, stamped now, created by the session's e-mail, with superadmin as the role of the first account and the requested role (reader by default) afterwards |
| Users.UpdateUser | src/utils/user.ts:44-75 | a failed read of the account is rethrown; a missing account and a role change the actor may not make are refused with their messages; the update is written exactly when none of these holds, as the patch (which may name any property of the account) plus the stamp and the actor's e-mail |
| Users.ApplyUpdate | src/utils/user.ts:64-70 | the stored account after `updateDoc` with `{ ...updates, updatedAt, updatedBy }`: each property the patch names is overwritten, and the handler's stamp follows; Users.UpdatedRoleNeedsPermission states what it keeps |
| Users.UpdatedRoleNeedsPermission | src/utils/user.ts:59-70 | through the account service only a superadmin, or an admin moving between editor and reader, changes a role; the service does not protect `id` or `createdAt`, which a patch naming them overwrites and a patch leaving them out keeps; the stamp is always the handler's own |
| UserManagement.CanAccessPage | src/pages/UserManagement.tsx:32-37 | the page opens exactly for a signed-in admin or superadmin |
| UserManagement.CanManageUser | src/pages/UserManagement.tsx:79-85 | a superadmin manages everyone, an admin exactly the editors and readers, nobody else anyone |
| UserManagement.ManageRuleAgainstOtherRules | src/pages/UserManagement.tsx:79-85 | the page's rule agrees with the account service's role-change rule, while the account editor lets an admin edit an admin |
| UserManagement.HandleStatusChange | src/pages/UserManagement.tsx:58-77 | a write happens exactly when the viewer has a role that may manage the account; it flips `isActive` in the `users` collection with the stamp and the viewer's e-mail; the toast names the new state, or the failure |
| UserManagement.StatusChangeTwiceRestores | src/pages/UserManagement.tsx:65 | flipping the flag twice restores it |
| UserManagement.HandleDeleteUser | src/pages/UserManagement.tsx:87-111 | an account is deleted exactly when a superadmin confirms deleting an account not its own; a non-superadmin and a self-delete get their error toasts; a declined confirmation shows nothing; a confirmed delete shows the success toast, or the delete-failed error when the delete throws |
| EditUser.AvailableRoles | src/components/EditUserModal.tsx:31-40 | a superadmin or an admin is offered exactly the roles up to its own level, highest first; anyone else only reader |
| EditUser.CanUpdateUserRole | src/components/EditUserModal.tsx:42-51 | the actor's level is at least the target's; EditUser.CanUpdateUserRoleIsTotalOrder and EditUser.EditorAndServiceDisagreeOnAdmins state what it allows |
| EditUser.CanUpdateUserRoleIsTotalOrder | src/components/EditUserModal.tsx:42-51 | the editor's rule is reflexive, total, transitive and antisymmetric: an admin may edit an admin |
| EditUser.EditorAndServiceDisagreeOnAdmins | src/components/EditUserModal.tsx:42-51 | the editor lets an admin change an admin's role, which the account service refuses for every new role |
| EditUser.EditUserForm.constructor | src/components/EditUserModal.tsx:23-29 | the form opens on the account's name, e-mail and role, with the password fields empty and hidden |
| EditUser.EditUserForm.HandleSubmit | src/components/EditUserModal.tsx:53-119 | a refused role change or a rejected password shows its error and writes nothing; otherwise the profile is written first; a failed write, or an admin changing a superadmin's password, stops there with its error; the password is changed exactly when the fields are shown and filled and neither of those happened; a failed password change ends with the update-failed error and leaves the form as it was; a profile-only success adds the updated toast and closes, and a success with a password adds the password toast, the updated toast and closes; only a full success closes and clears the password fields |
| AddUser.AvailableRoles | src/components/AddUserModal.tsx:29-38 | superadmin is never offered; a superadmin or an admin is offered exactly the roles strictly below its own, highest first; anyone else only reader |
| AddUser.DefaultPermissions | src/components/AddUserModal.tsx:40-51 | only superadmins get 'manage:admins'; superadmins and admins get 'manage:users'; every role but reader gets 'read:all'; a reader gets 'read:reservations' alone |
| AddUser.FailureMessage | src/components/AddUserModal.tsx:90-94 | the e-mail-in-use message is shown exactly for the identity service's e-mail-in-use code |
| AddUser.AddUserForm.constructor | src/components/AddUserModal.tsx:23-26 | the form opens empty with the reader role |
| AddUser.AddUserForm.HandleSubmit | src/components/AddUserModal.tsx:53-98 | a password under six characters is refused before any effect; otherwise the account is created first, then the record of the new uid is written with the role's default permissions; any thrown error shows its message and leaves the form as it was; only success closes and resets the form |

## Left out

- Database, subscription, authentication and spreadsheet API calls: they are I/O. Reads become input snapshots, each of which may be a failure, and writes become output values.
- Failed writes in the reservation-list handlers: those handlers only show an error toast when `updateDoc` throws, and the model returns the write without that toast.
- Users.CreateUser and Users.UpdateUser: the `setDoc`/`updateDoc` call at the end can throw, and the source rethrows it. The model returns the record or update to write, and a failed write is not an input.
- Concurrent clients. Availability is checked and then written without a transaction, so two clients can race. This is concurrency, which is outside a sequential model.
- Toast and console output: toasts are returned as `Notices.Toast` values, and console logging has no effect on state.
- Navigation delays:
  - the 100 ms timer before navigating is an immediate `Lookup.Outcome.Navigate`;
  - React re-rendering is not modelled.
- date-fns parsing, time zones and `Invalid Date`: each `"date time"` string stands for minutes on one day.
- The locale-dependent date formatting functions are opaque parameters.
- `new Date(...).toISOString().split('T')[0]` in the edit form is the parameter `isoDay`. The form's date field is kept as a string.
- Availability.CheckTableAvailability: for regular tables only, requires the requested time and the stored times to be well-formed "HH:mm". The regular check feeds them to date-fns, whose behaviour on strings that are not "HH:mm" is not modelled: some, such as "9:30", still parse to a valid time, and the rest become Invalid Date and compare as NaN. The VIP check only tests list membership, so it accepts any string.
- Availability.CheckRegularTableAvailability: requires well-formed "HH:mm", for the same reason as above.
- Availability.GetNextAvailableTime: requires well-formed "HH:mm", for the same reason. The probe is an unbounded minute count, and only the formatted result wraps past midnight.
- Availability.GetNextAvailableTime sorts with `localeCompare` on "HH:mm" strings. The model sorts the same times numerically, which gives the same order for well-formed times.
- Sheets.InOrder and Sheets.SortByDateTime: the comparator `a.date.localeCompare(b.date) || a.time.localeCompare(b.time)` is modelled as code-unit order on both strings. `localeCompare` follows the locale's collation, which agrees with code-unit order on "yyyy-MM-dd" dates and "HH:mm" times but may differ on other strings.
- Availability.CalculateEndTime: requires a well-formed "HH:mm" time for regular tables, for the same reason.
- TimePicker.GenerateTimeSlots: requires `minTime` and `maxTime` to be well-formed "HH:mm". `parseInt` of a malformed hour part (NaN bounds, which make the loop run zero times) is not modelled.
- ReservationUtils.CleanReservationData: requires a truthy `phone` or `code` to be a string. The source calls string methods on them, which throws for other values, and an exception is outside the model.
- ReservationList.GetReservationStats: requires each `childCount` to be a number, NaN, null or missing, as its type declares. The string concatenation that `+` would perform on a string count is not modelled.
- Firestore's treatment of `undefined` field values: a payload that carries `undefined` is passed on unchanged.
- String comparison and case:
  - comparisons are by code unit;
  - `toUpperCase`/`toLowerCase` map ASCII letters only;
  - Turkish and other Unicode case rules are not modelled.
- String length: JavaScript `length` counts UTF-16 code units, and the model counts characters. The two differ only outside the Basic Multilingual Plane.
- `parseInt` and numbers: the model reads an integer only. There are no floating-point numbers, so `"1.5"` reads as 1, as in JavaScript.
- HistoryView.FieldLabel: covers the ten listed labels and returns any other field name. The `labels[field] || field` lookup also inherits `Object.prototype` member names such as "constructor", and those are not modelled.
- HistoryView: `formatValue` is modelled with its properties, although nothing in the modal calls it. The modal renders each change through `getChangeDescription`.
- Migration: one `now` value stands for every `toISOString()` call in a run. The source reads the clock once per record.
- EditUser: the `!currentUserRole` guard at src/components/EditUserModal.tsx:56 is dropped. It can never fire, because the property defaults to 'reader' and `Types.Role` has no empty value.
- UserManagement: the status handler writes the `isActive` flag to the `users` collection, while the page lists `administrators`. The model records the write as the source addresses it.
- Roles: role strings outside the four roles cannot occur, because `Types.Role` is a closed datatype. So `getDefaultPermissions` of an unknown role is represented only by the reader case.
- Refusal messages: they are the `Availability.Refusal` datatype, rendered by `Availability.Text`.
- fetchTableStatus and generateTimeSlots: each is split into helper methods, one per loop.
- The SMS transport, the offline store, the network retry logic, and the authentication and user-settings screens are not part of this model.

Three behaviours one might expect do not hold; the model follows the code:

- `getNextAvailableTime` makes a single pass over the sorted reservations and never rescans from the start.
- Its result is not a fixed point: applying it again can move it further, because of Finding 1 below.
- Saving the edit form unchanged still appends a history entry, because of Finding 2 below.

## Findings

| source | as written | input that shows it | evidently intended | confidence | as-written member | corrected member |
|---|---|---|---|---|---|---|
| src/utils/reservation.ts:185-187 | the next-time finder moves the probe only when the probe itself lies inside an existing window | an existing booking at 19:00 and a request for 18:00 on a regular table: the finder returns "18:00", and the regular check refuses it because 20:00 lies in [19:00, 21:00] | suggest a time that the regular check accepts, by moving past every reservation within 120 minutes of the probe | not executed | Availability.NextAvailableCanBeRejected | Availability.NextBookableIsAccepted |
| src/pages/ReservationList.tsx:166-172 | the edit modal always adds a fresh `updatedAt` to its payload, and the save handler diffs that field too, so the "no changes" branch never fires for a modal save | open the edit form for a stored reservation and save it without touching anything: a write happens, and the history gains an entry whose changes include `updatedAt`. When the stored reservation has `notes`, a numeric `childCount` and a date already in ISO form, `updatedAt` is its only change; otherwise the form's `''`, parsed count or reformatted date differ under `!==` too | an unchanged form writes nothing and logs nothing; proved for a stored reservation that has `notes`, a numeric `childCount` and an ISO date, the case in which the stamp is the only difference | not executed | EditReservation.UnchangedFormStillLogs | EditReservation.UnchangedFormLogsNothing |
