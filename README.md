# ZenBook booking core in Dafny

ZenBook is a salon booking product. It has a React web app backed by
Supabase, plus three HTTP functions that a voice agent calls with an API key:

- list the free appointment slots of a date;
- book a slot;
- cancel a booking.

This project models those three functions and the parts of the web app they
interact with:

- the local demo store;
- the staff-shift hook;
- the insights screen;
- the salon registration wizard.

It also proves what each of them guarantees.

The model is split into these modules:

- **Wrappers, JsText, Clock, Seqs, TimeSort**:
  - the JavaScript primitives the handlers rely on: truthiness of an optional string, `parseInt` with radix 10, `toString`, `padStart(2, "0")`, the truncating `%`;
  - `HH:MM` clock text and its round trip with minutes;
  - the order `localeCompare` gives clock strings;
  - `Array.prototype.filter` and `find`;
  - the stable library sort, modelled as a stable insertion sort.
- **Schema**: the database rows the handlers read and write, and a `Database` class holding the six tables.
  - Time-of-day columns hold minutes since midnight.
  - The handler's `split(":")`/`parseInt` reading of the database's `HH:MM[:SS]` output is justified by `Clock.ClockRoundTrip`.
  - The SQL filters are modelled with their NULL semantics:
    - `.neq("status", "cancelled")` drops rows whose status is NULL;
    - `.gte("end_time", …)` never matches a NULL end time;
    - `maybeSingle()` on more than one row fails and yields no row.
- **AvailableSlots** (`get-available-slots`):
  - The handler is a method with its two loops. It is proved equal to the function `AvailableSlotsFor`.
  - Soundness and completeness are proved against `Bookable`, a reference definition stated on the raw table rows.
  - Also proved: the clock order of the answer and the stability of the sort.
- **CreateReservation** (`create-reservation`):
  - The checks run in the handler's order: required fields, then the product length, then staff ownership, then the closed-interval conflict query, then the insert.
  - After a booking, a contact is created or refreshed.
- **CancelReservation** (`cancel-reservation`):
  - Selection is by id, or else by phone and date.
  - Every open row found is cancelled.
- **BookingAgreement**: where the slot list and the booking handler agree and where they differ.
  - An overlap the slot list excludes is refused when booked.
  - An offered time can still be refused, but only by a booking that touches its edges.
  - A booking without an end time blocks an hour in the slot list and nothing in the booking handler.
  - Cancelling frees the time again.
- **AppTypes, Seeds, StorageService**: the browser-side store of the demo calendar. It holds four JSON lists under fixed keys.
  - The store is a class over a `map` from key to stored text, with its four seed lists.
  - Saving under an empty key edits the seed array in place, because the getter hands that array out.
- **StaffShifts** (`useStaffShifts`):
  - the shift table and the hook's copy of it;
  - the upsert keyed on (staff member, weekday);
  - delete by id;
  - the day filter and the "works on day" test.
- **Insights**: the counted appointments, the revenue, the most booked service and the top performer, each modelled with the first-maximum tie rule of `reduce`.
- **SalonRegistration**: the five-step onboarding wizard.
  - It is a class with the step counter, the service and staff lists and the two add-form drafts.
  - Its handlers are methods.
  - The rows inserted into `products` and `staff_members` are functions of the lists.

Values supplied by the runtime are parameters:

- the weekday of the requested date;
- the ids the database or `Math.random` chooses;
- the load-time timestamp of 09:00 today;
- the account id that the API key resolves to.

## Model

| member | source | states |
|---|---|---|
| Clock.ClockRoundTrip | supabase/functions/get-available-slots/index.ts:139-152 | Writing a non-negative minute count as zero-padded `HH:MM` and reading it back with `split(":")` and `parseInt` gives the same count, also with a trailing `:SS`. |
| Clock.FormatClockInjective | supabase/functions/get-available-slots/index.ts:146-148 | Different non-negative minute counts produce different slot times. |
| Clock.ClockOrderIsNumeric | supabase/functions/get-available-slots/index.ts:189 | For hours below 100, `localeCompare` orders formatted times exactly by their minutes. |
| Clock.CollatesTransitive | supabase/functions/get-available-slots/index.ts:189 | The comparator's string order is transitive. |
| Clock.CollatesTotal | supabase/functions/get-available-slots/index.ts:189 | Any two different strings are ordered one way or the other. |
| JsText.ParseInt | supabase/functions/get-available-slots/index.ts:59 | `parseInt` yields a number exactly when the text after an optional sign starts with a decimal digit. |
| JsText.ParsePadded | supabase/functions/get-available-slots/index.ts:141 | `parseInt` reads back a zero-padded number followed by a non-digit. |
| JsText.PadStart2 | supabase/functions/get-available-slots/index.ts:148 | `padStart(2, "0")` keeps strings of length two or more, and left-fills shorter ones with '0' to length two. |
| JsText.JsRemainder | supabase/functions/get-available-slots/index.ts:147 | JavaScript's `%` agrees with the mathematical remainder for non-negative operands, and takes the dividend's sign otherwise. |
| Seqs.FilterMember | supabase/functions/get-available-slots/index.ts:73-120 | An element is in the filtered list exactly when it is in the input and passes the test. |
| Seqs.FilterIsSubsequence | src/hooks/useStaffShifts.ts:89 | Filtering keeps the relative order of the elements that remain. |
| Seqs.FirstIndexOf | src/services/storageService.ts:59 | `findIndex` gives the first index whose key matches, or none when no element matches. |
| TimeSort.SortSortsAndPermutes | supabase/functions/get-available-slots/index.ts:189 | The sort returns its input, rearranged so that no key collates before an earlier one. |
| TimeSort.SortStable | supabase/functions/get-available-slots/index.ts:189 | Elements with equal keys keep their relative order. |
| AvailableSlots.FindShift | supabase/functions/get-available-slots/index.ts:129 | The shift found belongs to the staff member and is the first such row; none is found only when no row of that staff member exists. |
| AvailableSlots.GridCountFits | supabase/functions/get-available-slots/index.ts:145 | Candidate `k` runs while start + 30k + duration stays at or before the shift end. |
| AvailableSlots.ShiftSlots | supabase/functions/get-available-slots/index.ts:145-185 | The inner loop yields the free candidates of the 30-minute grid, in order. Free means no two-sided exception and no reservation overlap, both as half-open ranges. |
| AvailableSlots.StaffMemberSlots | supabase/functions/get-available-slots/index.ts:128-186 | One staff member contributes nothing without a shift of the weekday, on a full day off, or for a `NaN` duration, and otherwise the free candidates of the first shift found. |
| AvailableSlots.CollectSlots | supabase/functions/get-available-slots/index.ts:128-186 | The outer loop collects the staff members' slots one staff member after the other, in the order of the staff query. |
| AvailableSlots.GetAvailableSlots | supabase/functions/get-available-slots/index.ts:55-194 | The handler answers 400 without a date, an empty list without selected staff, and otherwise the staff members' slots in staff order, sorted by time text. |
| AvailableSlots.AvailableSlotsFor | supabase/functions/get-available-slots/index.ts:55-194 | The answer is 400 exactly when the date is missing or empty. Otherwise it carries the requested date, and it lists no slot when no active staff member of the account (with the requested `staff_id`, if one is given) exists. |
| AvailableSlots.BookableShorter | supabase/functions/get-available-slots/index.ts:128-186 | `Bookable`, the reference definition on the raw rows, holds for a shorter service wherever it holds for a longer one. |
| AvailableSlots.OfferedSlotIsBookable | supabase/functions/get-available-slots/index.ts:128-186 | Every offered slot belongs to an active staff member of the account and is bookable on the raw rows: it lies on the grid of a working shift of that weekday, no exception of the date takes the day off or overlaps it, and no open reservation of the account on the date overlaps it. |
| AvailableSlots.BookableSlotIsOffered | supabase/functions/get-available-slots/index.ts:128-186 | With one shift per staff member and weekday, every bookable time of a selected staff member is offered. |
| AvailableSlots.DefaultDurationIsAnHour | supabase/functions/get-available-slots/index.ts:59 | A missing or empty `duration` means 60 minutes. |
| AvailableSlots.NoDurationNoStaffSlots | supabase/functions/get-available-slots/index.ts:145 | A `NaN` duration fails the loop test at once, so no staff member contributes a slot. |
| AvailableSlots.UnparsableDurationNoSlots | supabase/functions/get-available-slots/index.ts:59-145 | A `duration` that is not a number gives an empty slot list for any date. |
| AvailableSlots.SlotsInClockOrder | supabase/functions/get-available-slots/index.ts:189 | For times below 100 hours, slots earlier in the answer start no later than slots after them. |
| AvailableSlots.SameTimeKeepsStaffOrder | supabase/functions/get-available-slots/index.ts:128-189 | Slots with the same time appear in the order of the staff query. |
| AvailableSlots.WholeShiftSingleSlot | supabase/functions/get-available-slots/index.ts:145 | A service exactly as long as a free shift is offered once, at the shift start. |
| CreateReservation.ServiceLength | supabase/functions/create-reservation/index.ts:78-92 | The service length differs from 60 minutes only when a product id was given and the account owns a matching product of that length. |
| CreateReservation.Admit | supabase/functions/create-reservation/index.ts:70-157 | 400 for missing fields exactly when a name, date or time is missing. A 400 for the staff member comes exactly when the account does not own it exactly once. A 409 comes exactly when the staff member is owned, the time parses, and the closed-interval query finds an open booking of that staff member over the time and the service length. A request is admitted exactly when its fields are complete, its time parses, its references exist and, when it names a staff member, the account owns it and no conflict is found. An admitted request starts at the parsed time and ends after the service length. |
| CreateReservation.ContactsAfter | supabase/functions/create-reservation/index.ts:161-191 | Without phone and e-mail the contacts stay. Otherwise every existing contact keeps its id and account, and at most one new contact, the request's, is appended. |
| CreateReservation.UnknownProductNotStored | supabase/functions/create-reservation/index.ts:81-159 | A `product_id` that names no product is never stored: the request is refused. |
| CreateReservation.ReservationIdsStayUnique | supabase/functions/create-reservation/index.ts:139-157 | Appending a reservation under an id that is not yet taken keeps reservation ids unique. |
| CreateReservation.CreateReservation | supabase/functions/create-reservation/index.ts:67-191 | The refusals run in order: missing fields (400), a staff id the account does not own exactly once (400), an unparsable time (500), an overlapping booking found by the closed-interval query (409), and a `staff_id` or `product_id` that names no row, which the insert's foreign keys reject (500). A refused request leaves the tables as they were. An admitted request appends one confirmed voice-agent reservation with the computed end time, and updates the contacts as `ContactsAfter` says. Ids stay unique. |
| CreateReservation.ContactIdsStayUnique | supabase/functions/create-reservation/index.ts:161-191 | Creating or refreshing a contact keeps contact ids unique and adds no id other than the new one. |
| CreateReservation.ProductSetsServiceLength | supabase/functions/create-reservation/index.ts:81-92 | A product the account owns, with a unique id, sets the service length to its `duration_minutes`. |
| CreateReservation.NoStaffAdmitted | supabase/functions/create-reservation/index.ts:103-157 | A complete request without a staff member skips the staff and conflict checks and is admitted whenever its time parses and its references exist. |
| CreateReservation.ForeignStaffRefused | supabase/functions/create-reservation/index.ts:103-117 | A staff id with no row of the account, such as another account's staff member or an unknown id, is refused as invalid staff. |
| CreateReservation.DuplicateStaffRefused | supabase/functions/create-reservation/index.ts:103-117 | Two staff rows with the requested id make `maybeSingle` fail, so the request is refused as invalid staff. |
| CreateReservation.OpenEndedRowNeverConflicts | supabase/functions/create-reservation/index.ts:119-137 | A stored reservation without an end time never changes the admission decision. |
| CreateReservation.RepeatedBookingRefused | supabase/functions/create-reservation/index.ts:119-157 | After an admitted booking for a staff member with a non-negative service length, the same request is refused with 409. |
| CreateReservation.StoredEndTimeReadsBack | supabase/functions/create-reservation/index.ts:94-100 | The `HH:MM` end time the handler writes reads back as start plus service length. |
| CreateReservation.ReturningCustomerCounted | supabase/functions/create-reservation/index.ts:162-180 | For a request with phone or e-mail and exactly one matching contact: that contact's booking count goes up by one, its last visit becomes the date, and every other contact stays as it was. |
| CreateReservation.NewCustomerAdded | supabase/functions/create-reservation/index.ts:181-190 | Without a matching contact, one new contact with one booking is appended. |
| CreateReservation.AmbiguousContactAdded | supabase/functions/create-reservation/index.ts:161-191 | Two or more matching contacts make `maybeSingle` fail, so a fresh contact is appended and the others stay. |
| CancelReservation.CriteriaOf | supabase/functions/cancel-reservation/index.ts:71-82 | An id selects by id. Otherwise phone plus date select by both. Otherwise the request lacks criteria. |
| CancelReservation.CancelOutcomeFor | supabase/functions/cancel-reservation/index.ts:65-118 | 400 exactly without criteria. 404 exactly when no open reservation of the account meets the criteria. A 200 reports at least one row, and its first row is an open, selected reservation of the table. |
| CancelReservation.CountIsSelectedRows | supabase/functions/cancel-reservation/index.ts:84-114 | `cancelled_count` is the number of open reservations selected, at least one, and the reported reservation is one of them. With unique ids the count is the number of rows the update turns to cancelled (`ChangedRows`), and the reported reservation is the first of them. |
| CancelReservation.IdTakesPrecedence | supabase/functions/cancel-reservation/index.ts:71-76 | With a reservation id in the body, phone and date do not change the answer. |
| CancelReservation.CancelReservation | supabase/functions/cancel-reservation/index.ts:63-118 | The handler answers 400 without criteria, 404 when no open reservation of the account matches, and otherwise the count and the first match. It marks exactly the matched ids as cancelled and changes no other table. |
| CancelReservation.CancelKeepsIds | supabase/functions/cancel-reservation/index.ts:97-100 | The update changes statuses only: ids, and with them id uniqueness, stay. |
| CancelReservation.ExactlySelectedRowsCancelled | supabase/functions/cancel-reservation/index.ts:65-100 | With unique ids, a row becomes cancelled exactly when it was selected; all other rows, including other accounts' rows, stay unchanged. |
| CancelReservation.SecondCancelNotFound | supabase/functions/cancel-reservation/index.ts:69-93 | Cancelling the same id a second time answers 404. |
| BookingAgreement.OverlapIsConflict | supabase/functions/create-reservation/index.ts:120-129 | When a booking with an end time blocks a range in the slot list, the booking handler's query sees a conflict for that range. |
| BookingAgreement.ExcludedTimeIsRefused | supabase/functions/create-reservation/index.ts:119-137 | A time the slot list leaves out because of a booking with an end time is refused with 409. |
| BookingAgreement.OfferedTimeConflictsOnlyAtEdges | supabase/functions/get-available-slots/index.ts:167-177 | An offered time conflicts in the booking handler only with a booking that ends exactly at its start or starts exactly at its end. |
| BookingAgreement.TouchingBookingOffered | supabase/functions/get-available-slots/index.ts:176 | With 09:00-10:00 taken, 10:00 is not blocked for an hour's service. |
| BookingAgreement.AdmitParsed | supabase/functions/create-reservation/index.ts:94-137 | A complete request for an owned staff member at any time that parses is refused with 409 exactly when the closed-interval query finds a booking over that time and the service length, and is admitted otherwise. |
| BookingAgreement.TouchingBookingRefused | supabase/functions/create-reservation/index.ts:128-136 | With 09:00-10:00 taken, a one-hour booking at 10:00 is refused with 409. |
| BookingAgreement.OpenEndedBookingBlocksOnlyOffers | supabase/functions/get-available-slots/index.ts:171-175 | A booking at 09:00 without an end time blocks 09:00 in the slot list, yet a request for 09:00 is admitted. |
| BookingAgreement.CancellationFreesTime | supabase/functions/cancel-reservation/index.ts:95-100 | When every open booking blocking a range was cancelled, the slot list sees the range free. |
| Seeds.SeedAppointments | src/constants/index.ts:31-51 | There are two demo appointments with distinct ids, one hour and three hours after 09:00 today; the first is confirmed and the second pending, and each names a seeded service and staff member. |
| StorageService.FourDistinctKeys | src/services/storageService.ts:4-9 | There are four distinct storage keys, each with the `zenbook_db_` prefix. |
| StorageService.FindIndex | src/services/storageService.ts:59 | The `findIndex` loop returns the first index with the id, or -1. |
| StorageService.UpsertReplacesFirst | src/services/storageService.ts:57-66 | Saving an item whose id is present replaces the first element with that id and nothing else. |
| StorageService.UpsertAppendsNew | src/services/storageService.ts:60-64 | Saving an item with a new id appends it. |
| StorageService.UpsertThenFind | src/services/storageService.ts:57-66 | After a save, a lookup of the item's id finds the item, and any other id finds what it found before. |
| StorageService.DeleteRemovesExactlyId | src/services/storageService.ts:68-71 | Delete leaves exactly the elements with other ids. |
| StorageService.DeleteKeepsOrder | src/services/storageService.ts:121-124 | Delete keeps the order of what remains. |
| StorageService.DeleteAbsentId | src/services/storageService.ts:68-71 | Deleting an id that nobody has changes nothing. |
| StorageService.InitKeepsHeldKeys | src/services/storageService.ts:37-50 | `init` writes a seed only under an empty key. |
| StorageService.InitIdempotent | src/services/storageService.ts:37-50 | After `init` all four keys hold text, and a second `init` changes nothing. |
| StorageService.InitSeedsEmptyKeys | src/services/storageService.ts:37-50 | Each key that held no text gets its own seed list. |
| StorageService.InitKeepsReads | src/services/storageService.ts:11-108 | `init` changes no getter's answer: a key that held text keeps it, and an empty key gets the very seed its getter fell back on. |
| StorageService.LocalStorage.Init | src/services/storageService.ts:37-50 | The store becomes `Initialized` of the old store and the seeds: each empty key gets its seed, every other entry stays (InitKeepsHeldKeys, InitIdempotent), each key keeps its own kind of list, and the seeds stay. Afterwards all four keys hold text, and every getter answers what it answered before. |
| StorageService.LocalStorage.SaveAppointment | src/services/storageService.ts:57-66 | The key gets the upserted list, and the getter answers it. When the key was empty, the seed array itself becomes that list. |
| StorageService.LocalStorage.SaveStaff | src/services/storageService.ts:78-87 | Saving succeeds exactly when the stored list parses, and then writes the upserted list. On failure nothing is written. |
| StorageService.LocalStorage.SaveService | src/services/storageService.ts:94-103 | The same as `SaveStaff`, for services. |
| StorageService.LocalStorage.SaveCustomer | src/services/storageService.ts:110-119 | The key gets the upserted customer list, and the getter answers it. |
| StorageService.LocalStorage.DeleteAppointment | src/services/storageService.ts:68-71 | The key gets the list without the id. |
| StorageService.LocalStorage.DeleteCustomer | src/services/storageService.ts:121-124 | The key gets the customer list without the id. |
| StorageService.LocalStorage.ClearAll | src/services/storageService.ts:126-128 | Exactly the four keys are removed. Afterwards every getter falls back on its seed. |
| StorageService.LocalStorage.ClearedSaveEditsSeed | src/services/storageService.ts:52-66 | Clear, then save with a new id, then clear again: the getter now answers the seed with the appointment appended. |
| StaffShifts.StaffWorksOnDay | src/hooks/useStaffShifts.ts:93-97 | True exactly when some fetched shift of the staff member is a working shift of that weekday. |
| StaffShifts.ShiftsByDayExact | src/hooks/useStaffShifts.ts:88-90 | The day's list holds exactly the working shifts of the weekday. |
| StaffShifts.ShiftsByDayKeepsOrder | src/hooks/useStaffShifts.ts:88-90 | The day's list keeps the fetch order. |
| StaffShifts.WorksOnDayIffListed | src/hooks/useStaffShifts.ts:88-97 | The two helpers agree: a staff member works on a day exactly when the day's list has a shift of theirs. |
| StaffShifts.UpsertShiftKeyed | src/hooks/useStaffShifts.ts:54-75 | With one row per key before, exactly one row has the key afterwards and it carries the new values. Other keys' rows are unchanged, and keys stay unique. |
| StaffShifts.UpsertKeepsId | src/hooks/useStaffShifts.ts:59-70 | Upserting an existing key keeps that row's id. |
| StaffShifts.ShiftsHook.UpsertShift | src/hooks/useStaffShifts.ts:54-75 | The table gets the keyed upsert, the hook's copy is refetched, and the upserted row is returned. |
| StaffShifts.ShiftsHook.DeleteShift | src/hooks/useStaffShifts.ts:77-85 | The table loses exactly the rows with the id, and the hook's copy is refetched. |
| StaffShifts.ShiftsHook.Refetch | src/hooks/useStaffShifts.ts:21-48 | The hook's copy is the table, narrowed to the hook's staff member when one was given. |
| StaffShifts.DeleteKeepsKeysUnique | src/hooks/useStaffShifts.ts:77-85 | Deleting rows keeps one row per (staff member, weekday). |
| Insights.ConfirmedAreExactlyCounting | src/components/zenbook/Insights.tsx:12-14 | The counted list has exactly the confirmed and completed appointments, in their order. |
| Insights.FindService | src/components/zenbook/Insights.tsx:17 | The service found is the first service with the id, and none is found only when no service has it. |
| Insights.FoldIsSum | src/components/zenbook/Insights.tsx:16-19 | The `reduce` adds the price sum to its starting value. |
| Insights.RevenueIsAdditive | src/components/zenbook/Insights.tsx:12-19 | The revenue of two appointment lists joined is the sum of their revenues. |
| Insights.RevenueOfOne | src/components/zenbook/Insights.tsx:12-19 | One appointment adds its service's price when confirmed or completed, and nothing otherwise. |
| Insights.UnknownServiceAddsNothing | src/components/zenbook/Insights.tsx:18 | An appointment whose service is unknown leaves the revenue as it was. |
| Insights.PriceSumNonNegative | src/components/zenbook/Insights.tsx:16-19 | With non-negative prices the revenue is non-negative. |
| Insights.ArgMaxFoldIsFirstMax | src/components/zenbook/Insights.tsx:23-37 | The `count > best.count` reduction returns one of two things. Either the start value stands when nothing beats it, or it returns the first element with the largest count; no element counts more than the result. |
| Insights.MostBookedServiceIsFirstMax | src/components/zenbook/Insights.tsx:23-29 | The most booked service has the largest booking count over all statuses, and is the first service with that count. With no bookings it is the first service. |
| Insights.TopPerformerIsFirstMax | src/components/zenbook/Insights.tsx:31-37 | The same for staff, counting appointments by staff id. |
| SalonRegistration.NextStepOf | src/components/zenbook/SalonRegistration.tsx:73 | Forward never goes past step 5, and moves up one below it. |
| SalonRegistration.PrevStepOf | src/components/zenbook/SalonRegistration.tsx:74 | Back never goes below step 1, and moves down one above it. |
| SalonRegistration.StepsStayInRange | src/components/zenbook/SalonRegistration.tsx:73-74 | From any step 1 to 5, both buttons stay within 1 to 5, and back undoes forward below the last step. |
| SalonRegistration.UpdateChangesOnlyField | src/components/zenbook/SalonRegistration.tsx:99-101 | Editing a field changes only that field of the entries with the id. Every other entry and field, and every id, stays. |
| SalonRegistration.RemoveLeavesOne | src/components/zenbook/SalonRegistration.tsx:94-97 | With unique ids, removing by id drops at most one staff entry. |
| SalonRegistration.RemoveKeepsIdsUnique | src/components/zenbook/SalonRegistration.tsx:94-97 | Removing keeps staff ids unique. |
| SalonRegistration.ProductRowsOfNamedServices | src/components/zenbook/SalonRegistration.tsx:112-126 | There is one active product row per named service, in list order, with a sort order equal to its index. An empty category takes the salon's category, a zero duration becomes 30, and unnamed services are not saved. |
| SalonRegistration.StaffRowsOfNamedStaff | src/components/zenbook/SalonRegistration.tsx:131-143 | There is one active staff row per named staff member, in list order, with a sort order equal to its index. |
| SalonRegistration.Registration.constructor | src/components/zenbook/SalonRegistration.tsx:50-71 | The wizard opens at step 1 with category `Haare` and one demo service. Its one staff entry is unnamed, in the first colour, and the drafts are empty. |
| SalonRegistration.Registration.NextStep | src/components/zenbook/SalonRegistration.tsx:73 | The step moves forward and stays within 1 to 5. |
| SalonRegistration.Registration.PrevStep | src/components/zenbook/SalonRegistration.tsx:74 | The step moves back and stays within 1 to 5. |
| SalonRegistration.Registration.SetServiceDuration | src/components/zenbook/SalonRegistration.tsx:314 | The draft duration becomes `parseInt` of the input, or 0. |
| SalonRegistration.Registration.SetServicePrice | src/components/zenbook/SalonRegistration.tsx:322 | The draft price becomes `parseInt` of the input, or 0. |
| SalonRegistration.Registration.AddService | src/components/zenbook/SalonRegistration.tsx:76-81 | An unnamed draft changes nothing. Otherwise the draft is appended under the new id with the salon's category, and the draft is reset. |
| SalonRegistration.Registration.RemoveService | src/components/zenbook/SalonRegistration.tsx:83-85 | The list loses exactly the services with the id. |
| SalonRegistration.Registration.AddStaffMember | src/components/zenbook/SalonRegistration.tsx:87-92 | An unnamed draft changes nothing. Otherwise it is appended under a fresh id, and the next draft takes colour (old length + 1) mod 9. The list stays non-empty with unique ids. |
| SalonRegistration.Registration.RemoveStaffMember | src/components/zenbook/SalonRegistration.tsx:94-97 | A single staff member is never removed. Otherwise the entries with the id go. The list stays non-empty with unique ids. |
| SalonRegistration.Registration.UpdateStaffMember | src/components/zenbook/SalonRegistration.tsx:99-101 | The list becomes its field-wise update, with unique ids kept. |

## Left out

- Authentication: the API-key header, the SHA-256 hash and the `get_user_id_from_api_key` lookup, with its 401 answer. The account id is a parameter. The call to `update_api_key_last_used` is a side effect on another table.
- HTTP framing, CORS and the JSON encoding of answers. The German confirmation messages are also out, because `toLocaleDateString` formatting is a runtime library.
- The weekday of the requested date (`new Date(dateStr).getDay()`): it is a parameter, because date parsing and the time zone belong to the runtime.
- Database errors other than the ones named: a failing query throws and answers 500. Only the unparsable-time insert failure is modelled.
- Database column validation. The `time` type rejects values such as minutes of 60 or more, and `uuid` columns reject malformed ids. The model accepts any integer minute count and any id text. The foreign keys of `staff_member_id` and `product_id` are modelled.
- Where `parseInt` and the Postgres `time` and `date` types disagree, the model follows `parseInt`:
  - An end time past 24:00, such as "24:30" for an hour's booking at 23:30, fails the insert, so the handler answers 500 where the model answers `Created`.
  - A request time with trailing text reads as its hours and minutes in the model. Postgres reads "09:00:30" with its seconds and "9:00 pm" as 21:00, and rejects "09:00abc" (a 500 where the model can answer `Created`).
  - `date` is compared as text in the model and as a date in SQL, where "2024-3-5" equals "2024-03-05".
- JSON `null` in a request body: a field is either present or absent. `null` and `""` are falsy exactly like absence, except in the contact update, where a `null` would clear a column.
- The PostgREST parsing of the contact `or` filter: a phone or e-mail containing ',' or ')' would change the filter.
- `parseInt` of hexadecimal prefixes and of leading whitespace; the model reads an optional sign and decimal digits only.
- AvailableSlots.GetAvailableSlots: `parseInt` returns a double, and the model's integers are unbounded. A `duration` of '-' followed by 309 nines parses to `-Infinity`, so the loop test never fails and the handler never answers. The model returns a list for it, and it does not model other precision losses of large numbers either.
- Insights.RevenueIsAdditive: `Service.price` is a JavaScript number, but the model's prices are integers. Fractional prices and the rounding of the floating-point sum are out, and floating-point addition is not associative, so additivity holds for the integer model only.
- Clock.CollationKey: locale collation is modelled only for the characters of clock text: digits, ':' and '-'. Every other character is ranked by code point.
- AvailableSlots.SlotsInClockOrder and Clock.ClockOrderIsNumeric: both are stated for times below 100 hours. Above that, text order and numeric order differ in the source too.
- AvailableSlots.BookableSlotIsOffered assumes one shift per staff member and weekday, which is the key the shift upsert enforces. With duplicate rows the handler uses the first one only.
- Concurrency: two bookings racing past the conflict check are out of scope. Each handler is modelled as one atomic step.
- StorageService: the `Date` revival of `startTime` and `lastVisit` is out; times are integers. A key holding JSON of the wrong kind is excluded by the store's invariant.
- StaffShifts: the `.order('day_of_week')` of the fetch is left out, because the database leaves the order of equal days unspecified. The hook's copy is the table in its stored order, narrowed.
- StaffShifts: the signed-out branch of `fetchShifts`, the `loading` and `error` state, and thrown errors.
- Insights: `avgAppointmentsPerDay` is out. It is `toFixed(1)` of a floating-point division.
- Insights: the `toLocaleString` display of the revenue and the fixed "change" labels.
- SalonRegistration: the save of `handleComplete` to the database, with its toasts, the `saving` flag and the sign-in check. The rows it inserts are modelled.
- SalonRegistration: the form fields that only the screen uses: name, location, description, image URL, and the `showAdd…` flags.
- SalonRegistration: `Math.random` ids are parameters, and `AddStaffMember` requires a fresh one.
- SalonRegistration: a service `duration` that is `NaN` is out, because the draft setter stores `parseInt(...) || 0`.
