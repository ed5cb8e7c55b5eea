# Ocean View hotel reservations — a Dafny model of the booking core

This project models the booking core of the Ocean View Resort reservation system, together with the staff
user registry:

- the room types and their nightly rates;
- the reservation entity and its persistence hooks, which stamp timestamps, draw a reservation number from
  the clock and price the stay;
- the reservation store and its queries;
- the booking request and its field constraints;
- the reservation service:
  - creating a booking with a date check and a capacity check;
  - looking bookings up and searching them by guest name;
  - changing a booking's status and cancelling it;
  - editing a confirmed booking;
- creating and finding staff users.

Representation choices:

- Dates are whole day numbers (`Date`). Timestamps are abstract instants (`Instant`).
- The calendar day, the timestamp and the millisecond clock a call observes are passed in as a `Clock`
  value. They are not read from a system clock.
- Money is a whole number of rupees. The rates have no fractional part, so no rounding is involved.
- Nullable Java fields are `Option` values.
- A null date or room type that the service dereferences becomes the error `NullPointer`. The model does not
  exclude it by a precondition.
- The entity is a `class` whose fields the hooks update in place.
- The store holds value snapshots of rows in a `seq`, and rows are never deleted. The model's identity
  column numbers the rows from 1 in insertion order with no gaps; see "Left out" for the ids a refused
  insert consumes.
- `Save` follows the persistence provider's rules:
  - a new entity runs the pre-persist hook and is inserted;
  - a loaded entity is compared with its stored row, and an unchanged one writes nothing and runs no hook;
  - a changed one runs the pre-update hook and is rewritten;
  - the unique reservation-number column rejects a clash, and the `DECIMAL(10, 2)` total column rejects a
    total of 10^8 rupees or more; after either refusal the store is unchanged.
- The store keeps five invariants: positional ids, present and unique reservation numbers, and every total
  both fitting its column and consistent with its room type and nights.

## Model

| member | source | states |
|---|---|---|
| RoomTypes.Ordinal | src/main/java/com/oceanview/model/RoomType.java:10-14 | each room type has one of the five declaration positions |
| RoomTypes.Values | src/main/java/com/oceanview/model/RoomType.java:10-14 | the five room types, each at its declaration position and each exactly once |
| RoomTypes.RatePerNight | src/main/java/com/oceanview/model/RoomType.java:10-26 | every room type has a positive nightly rate (5000, 8000, 12000, 15000, 25000) |
| RoomTypes.RatesIncreaseInDeclarationOrder | src/main/java/com/oceanview/model/RoomType.java:10-14 | a room type declared later costs strictly more per night |
| RoomTypes.PositiveStayHasPositivePrice | src/main/java/com/oceanview/model/RoomType.java:24-26 | a stay of at least one night in any room type has a positive price |
| Reservations.DecimalString | src/main/java/com/oceanview/model/Reservation.java:228-230 | the decimal rendering of a number is non-empty, all digits, and has a leading zero only for zero |
| Reservations.DecimalStringDenotes | src/main/java/com/oceanview/model/Reservation.java:228-230 | reading the rendered digits back as a decimal number gives the number that was rendered |
| Reservations.DecimalStringInjective | src/main/java/com/oceanview/model/Reservation.java:228-230 | two different numbers never render to the same digits |
| Reservations.GenerateReservationNumber | src/main/java/com/oceanview/model/Reservation.java:228-230 | a generated number is "RES" followed by digits only, and those digits denote the millisecond clock reading |
| Reservations.GeneratedNumbersDifferIffClocksDiffer | src/main/java/com/oceanview/model/Reservation.java:228-230 | two generated numbers are equal exactly when the millisecond clock readings are equal |
| Reservations.ReservationRow.NumberOfNights | src/main/java/com/oceanview/model/Reservation.java:247-252 | the number of nights is the day difference from check-in to check-out, and 0 when either date is missing |
| Reservations.ReservationRow.RecalculatedTotal | src/main/java/com/oceanview/model/Reservation.java:235-242 | with both dates and a room type and a positive stay, the total is rate times nights and positive; otherwise the old total is kept |
| Reservations.ReservationRow.Created | src/main/java/com/oceanview/model/Reservation.java:209-217 | the pre-persist hook sets both timestamps to now, keeps a preset number or draws one from the clock, reprices, and changes no booking field |
| Reservations.ReservationRow.Updated | src/main/java/com/oceanview/model/Reservation.java:219-223 | the pre-update hook sets the update time, reprices, and keeps id, number, creation time and booking fields |
| Reservations.HooksPriceConsistently | src/main/java/com/oceanview/model/Reservation.java:209-223 | after either hook, the total of a priceable stay is its rate times its nights |
| Reservations.RecalculationIsIdempotent | src/main/java/com/oceanview/model/Reservation.java:235-242 | repricing twice gives the same total as repricing once |
| Reservations.HooksKeepPresetNumber | src/main/java/com/oceanview/model/Reservation.java:209-223 | a number set before the insert survives the insert and later updates, and so does the creation time |
| Reservations.Reservation.constructor | src/main/java/com/oceanview/model/Reservation.java:50-66 | a new entity has every field null except the status, which is CONFIRMED |
| Reservations.Reservation.Load | src/main/java/com/oceanview/model/Reservation.java:68-84 | an entity loaded from a row holds exactly that row |
| Reservations.Reservation.CalculateTotalAmount | src/main/java/com/oceanview/model/Reservation.java:235-242 | the entity's total becomes the recalculated total; no other field changes |
| Reservations.Reservation.OnCreate | src/main/java/com/oceanview/model/Reservation.java:209-217 | the entity becomes the pre-persist image of its old state |
| Reservations.Reservation.OnUpdate | src/main/java/com/oceanview/model/Reservation.java:219-223 | the entity becomes the pre-update image of its old state |
| ReservationRequests.TrimLeading | src/main/java/com/oceanview/dto/ReservationRequest.java:13-22 | the result is a suffix of the input that is empty or starts with a visible character, and every character cut off is at or below U+0020 |
| ReservationRequests.TrimTrailing | src/main/java/com/oceanview/dto/ReservationRequest.java:13-22 | the result is a prefix of the input that is empty or ends with a visible character, and every character cut off is at or below U+0020 |
| ReservationRequests.Trim | src/main/java/com/oceanview/dto/ReservationRequest.java:13-22 | the trimmed text is empty exactly when every character is at or below U+0020, and otherwise starts and ends with a visible character |
| ReservationRequests.TrimEnds | src/main/java/com/oceanview/dto/ReservationRequest.java:13-22 | what trimming leaves starts with a visible character, and is empty exactly for text with no visible character |
| ReservationRequests.NotBlank | src/main/java/com/oceanview/dto/ReservationRequest.java:13-22 | a value meets `@NotBlank` exactly when it is present and contains a character above U+0020 |
| ReservationRequests.TrimLeadingEmptyIffAllBlank | src/main/java/com/oceanview/dto/ReservationRequest.java:13-22 | trimming from the left leaves nothing exactly when every character is a space or control character |
| ReservationRequests.TrimTrailingKeepsVisible | src/main/java/com/oceanview/dto/ReservationRequest.java:13-22 | trimming from the right keeps a text that starts with a visible character non-empty |
| ReservationRequests.TenDigits | src/main/java/com/oceanview/dto/ReservationRequest.java:20-22 | a contact number matching the ten-digit pattern has length 10 and also meets the not-blank constraint |
| ReservationRequests.Valid | src/main/java/com/oceanview/dto/ReservationRequest.java:13-40 | a valid request has a guest name, address and contact number with a visible character each, a ten-character contact number, a room type, and both dates, with check-in not before today and check-out after today |
| ReservationRequests.ValidityDoesNotOrderDates | src/main/java/com/oceanview/dto/ReservationRequest.java:30-36 | a request can be valid although its check-out is before its check-in; field validation alone does not order the dates |
| ReservationRepositories.Filter | src/main/java/com/oceanview/repository/ReservationRepository.java:24-36 | a query result holds exactly the stored rows that meet its condition, and no more rows than the store |
| ReservationRepositories.FilterAppend | src/main/java/com/oceanview/repository/ReservationRepository.java:24-36 | a new row extends a query result exactly when the row meets the condition |
| ReservationRepositories.FilterMonotone | src/main/java/com/oceanview/repository/ReservationRepository.java:28-40 | a stricter condition never selects more rows |
| ReservationRepositories.FilterReplace | src/main/java/com/oceanview/repository/ReservationRepository.java:38-45 | rewriting one row changes a query's size only by whether the old and the new row meet the condition |
| ReservationRepositories.FindByRoomType | src/main/java/com/oceanview/repository/ReservationRepository.java:28 | exactly the rows of that room type |
| ReservationRepositories.FindByStatus | src/main/java/com/oceanview/repository/ReservationRepository.java:26 | exactly the rows in that status |
| ReservationRepositories.CountOverlapping | src/main/java/com/oceanview/repository/ReservationRepository.java:38-45 | the overlap count never exceeds the number of rows of that room type |
| ReservationRepositories.CountedRowsHoldARoom | src/main/java/com/oceanview/repository/ReservationRepository.java:38-40 | every counted row is stored, is of the requested room type, and is CONFIRMED or CHECKED_IN |
| ReservationRepositories.CountAppend | src/main/java/com/oceanview/repository/ReservationRepository.java:38-45 | inserting a row raises the count by one exactly when the row meets the overlap condition |
| ReservationRepositories.TouchingStaysCount | src/main/java/com/oceanview/repository/ReservationRepository.java:40 | a held stay that ends on the requested check-in day, or starts on the requested check-out day, counts as overlapping |
| ReservationRepositories.StayCountsAgainstItself | src/main/java/com/oceanview/repository/ReservationRepository.java:38-40 | a held stay overlaps its own dates |
| ReservationRepositories.ReleasingNeverRaisesCount | src/main/java/com/oceanview/repository/ReservationRepository.java:39 | moving a row to a status other than CONFIRMED or CHECKED_IN never raises any overlap count |
| ReservationRepositories.UpperCase | src/main/java/com/oceanview/repository/ReservationRepository.java:24 | the upper-cased text equals the input up to the case of ASCII letters and holds no lower-case letter |
| ReservationRepositories.UpperCaseIsTheOnlyUpperVariant | src/main/java/com/oceanview/repository/ReservationRepository.java:24 | any text equal to the input up to case and free of lower-case letters is the upper-cased text |
| ReservationRepositories.UpperCaseIdempotent | src/main/java/com/oceanview/repository/ReservationRepository.java:24 | upper-casing twice gives the same text as upper-casing once |
| ReservationRepositories.UpperCaseIgnoresCase | src/main/java/com/oceanview/repository/ReservationRepository.java:24 | texts that differ only in the case of letters upper-case to the same text |
| ReservationRepositories.ContainsIffOccursAt | src/main/java/com/oceanview/repository/ReservationRepository.java:24 | the containment test holds exactly when the fragment occurs at some position of the text |
| ReservationRepositories.FindByGuestNameContainingIgnoreCase | src/main/java/com/oceanview/repository/ReservationRepository.java:24 | exactly the rows whose guest name contains the fragment, ignoring case |
| ReservationRepositories.FilterCongruent | src/main/java/com/oceanview/repository/ReservationRepository.java:24 | two conditions that agree on every row select the same rows in the same order |
| ReservationRepositories.SearchIgnoresCaseOfText | src/main/java/com/oceanview/repository/ReservationRepository.java:24 | search texts that differ only in case select exactly the same rows |
| ReservationRepositories.SearchIgnoresCaseOfName | src/main/java/com/oceanview/repository/ReservationRepository.java:24 | a row matches a search exactly when it would with its guest name written in any other case |
| ReservationRepositories.EmptySearchMatchesEveryName | src/main/java/com/oceanview/repository/ReservationRepository.java:24 | an empty search fragment matches every row that has a guest name |
| ReservationRepositories.FindActiveReservationsOnDate | src/main/java/com/oceanview/repository/ReservationRepository.java:32-36 | exactly the rows in that status whose stay covers the date, both ends included |
| ReservationRepositories.FindByCheckInDateBetween | src/main/java/com/oceanview/repository/ReservationRepository.java:30 | exactly the rows whose check-in lies between the two dates, both ends included |
| ReservationRepositories.FindIndexFrom | src/main/java/com/oceanview/repository/ReservationRepository.java:22 | the first position at or after the start that holds the number, or none when no later row holds it |
| ReservationRepositories.FindByReservationNumber | src/main/java/com/oceanview/repository/ReservationRepository.java:22 | a stored row with that number, or none when no row holds it |
| ReservationRepositories.FindIndexIsTheOnlyMatch | src/main/java/com/oceanview/model/Reservation.java:23-24 | with unique numbers, the lookup finds the one row that holds the number |
| ReservationRepositories.Merged | src/main/java/com/oceanview/model/Reservation.java:219-223 | flushing an unchanged entity writes the stored row back; a changed one keeps its edits, takes the update time and is repriced |
| ReservationRepositories.AppendKeepsInvariant | src/main/java/com/oceanview/model/Reservation.java:19-24 | inserting a row with the next id, a free number and a consistent total that fits its column keeps the store invariants |
| ReservationRepositories.ReplaceKeepsInvariant | src/main/java/com/oceanview/model/Reservation.java:19-24 | rewriting a row with its own id, a number no other row holds and a consistent fitting total keeps the store invariants |
| ReservationRepositories.ReservationRepository.constructor | src/main/java/com/oceanview/model/Reservation.java:19-24 | an empty store meets the store invariants |
| ReservationRepositories.ReservationRepository.FindAll | src/main/java/com/oceanview/service/ReservationService.java:69-70 | every stored row and nothing else; in a store that keeps its invariants, listed in id order |
| ReservationRepositories.ReservationRepository.Save | src/main/java/com/oceanview/model/Reservation.java:19-24 | keeps the store invariants; a new entity is persisted and a loaded one merged, as the next two rows state |
| ReservationRepositories.ReservationRepository.Persist | src/main/java/com/oceanview/model/Reservation.java:209-217 | runs the pre-persist hook; a total that does not fit its column stores nothing and fails as out of range; otherwise inserts the row with the next id when its number is free, and fails with a constraint violation when it is not |
| ReservationRepositories.ReservationRepository.Merge | src/main/java/com/oceanview/model/Reservation.java:219-223 | an unchanged entity writes nothing and runs no hook; a changed one is repriced and replaces its row unless its total does not fit or its number belongs to another row |
| ReservationServices.MapToResponse | src/main/java/com/oceanview/service/ReservationService.java:199-216 | the response copies every column but the timestamps and adds the number of nights |
| ReservationServices.Responses | src/main/java/com/oceanview/service/ReservationService.java:69-73 | one response per row, in row order |
| ReservationServices.ValidateReservationDates | src/main/java/com/oceanview/service/ReservationService.java:143-151 | passes exactly when check-in is before check-out and not before today; otherwise fails with the matching message, and with a null dereference when a date is missing |
| ReservationServices.ValidRequestPassesFutureCheck | src/main/java/com/oceanview/service/ReservationService.java:143-151 | for a request that passed field validation, the date check fails only if the stay does not end after it starts |
| ReservationServices.MaxRoomsForType | src/main/java/com/oceanview/service/ReservationService.java:168-176 | every room type has at least one room (20, 15, 10, 8, 3) |
| ReservationServices.CheckRoomAvailability | src/main/java/com/oceanview/service/ReservationService.java:156-163 | passes exactly when the overlap count is below the type's capacity; otherwise fails with "No rooms available"; a missing type is a null dereference |
| ReservationServices.FullTypeIsRejected | src/main/java/com/oceanview/service/ReservationService.java:156-163 | once the overlapping held bookings reach the capacity, the check rejects |
| ReservationServices.WithRequest | src/main/java/com/oceanview/service/ReservationService.java:181-194 | the request's nine booking fields overwrite the row's; id, number, status, total and timestamps are kept |
| ReservationServices.BookedRow | src/main/java/com/oceanview/service/ReservationService.java:44-46 | the row a create inserts: status CONFIRMED, the next id, the clock-drawn number, both timestamps at now, and the request's fields |
| ReservationServices.BookedRowContents | src/main/java/com/oceanview/service/ReservationService.java:39-50 | a booked row holds the request's fields, status CONFIRMED, the next id, a clock-drawn number, both timestamps at now, a positive stay, and rate times nights as its total |
| ReservationServices.BookingStaysWithinCapacity | src/main/java/com/oceanview/service/ReservationService.java:39-50 | a booking that passed both checks raises its window's count by exactly one, and to no more than the capacity |
| ReservationServices.LongStayOverflowsTotal | src/main/java/com/oceanview/model/Reservation.java:56-57 | 4000 nights in the PRESIDENTIAL suite price at 10^8, which the total column does not hold |
| ReservationServices.StatusChanged | src/main/java/com/oceanview/service/ReservationService.java:88-98 | the row gets the new status; setting the status it already has writes nothing; otherwise it is stamped and repriced |
| ReservationServices.StatusChangeKeepsTotal | src/main/java/com/oceanview/service/ReservationService.java:88-98 | a status change leaves a consistent total as it was |
| ReservationServices.CancelIsIdempotent | src/main/java/com/oceanview/service/ReservationService.java:103-105 | cancelling a cancelled booking changes nothing |
| ReservationServices.AnyStatusReachable | src/main/java/com/oceanview/service/ReservationService.java:88-98 | any status can be set from any status, and no booking field changes |
| ReservationServices.ReactivationRaisesCount | src/main/java/com/oceanview/service/ReservationService.java:88-98 | confirming a cancelled booking again adds it to every overlap count it meets, with no capacity check |
| ReservationServices.Edited | src/main/java/com/oceanview/service/ReservationService.java:123-134 | an edit keeps id, number, status and creation time and takes the request's fields; an edit that changes nothing writes the row back as it was, and any other is stamped with the update time |
| ReservationServices.EditKeepsIdentityAndPrices | src/main/java/com/oceanview/service/ReservationService.java:110-138 | an edit keeps id, number, status and creation time, takes the new room type and dates, and keeps the total consistent with them |
| ReservationServices.DeluxeTwoNightBooking | src/main/java/com/oceanview/service/ReservationService.java:39-50 | two DELUXE nights from tomorrow come back CONFIRMED, for 2 nights and 16000 |
| ReservationServices.UpdateResponseAsWritten | src/main/java/com/oceanview/service/ReservationService.java:123-137 | the response built before the flush carries the old total with the new dates |
| ReservationServices.UpdateResponseAsWrittenIsStale | src/main/java/com/oceanview/service/ReservationService.java:123-137 | lengthening a two-night DELUXE stay to three nights: the response says 16000 while the row holds 24000 |
| ReservationServices.ReservationService.constructor | src/main/java/com/oceanview/service/ReservationService.java:32-34 | the service uses the given store |
| ReservationServices.ReservationService.MapToEntity | src/main/java/com/oceanview/service/ReservationService.java:181-194 | a fresh entity holding the request's fields over a new entity, so its status is CONFIRMED |
| ReservationServices.ReservationService.CreateReservation | src/main/java/com/oceanview/service/ReservationService.java:39-50 | a date failure or a full room type is returned and stores nothing; otherwise the booked row is inserted unless its total does not fit its column or its number clashes; a success raises the window's count by one, to at most the capacity |
| ReservationServices.ReservationService.GetReservationByNumber | src/main/java/com/oceanview/service/ReservationService.java:56-63 | the response of a stored row with that number, or "Reservation not found" exactly when no row holds it |
| ReservationServices.ReservationService.GetAllReservations | src/main/java/com/oceanview/service/ReservationService.java:69-73 | one response per stored row, in store order |
| ReservationServices.ReservationService.SearchByGuestName | src/main/java/com/oceanview/service/ReservationService.java:79-83 | the responses of exactly the rows whose guest name contains the fragment, ignoring case |
| ReservationServices.ReservationService.UpdateReservationStatus | src/main/java/com/oceanview/service/ReservationService.java:88-98 | unknown number: not found, store unchanged; otherwise the row with that number is replaced by its status change and its response returned |
| ReservationServices.ReservationService.CancelReservation | src/main/java/com/oceanview/service/ReservationService.java:103-105 | as the status update to CANCELLED; the row ends CANCELLED |
| ReservationServices.ReservationService.UpdateReservation | src/main/java/com/oceanview/service/ReservationService.java:110-138 | not found, a booking that is not CONFIRMED, bad dates and a total that does not fit its column each fail and store nothing; otherwise the edited row replaces the stored one. The response carries the stored, repriced total: this is the corrected behaviour of the finding below, whereas the code as written returns the total from before the flush |
| Users.FindUser | src/main/java/com/oceanview/service/UserService.java:52-56 | a stored user with that name, or none exactly when no user has it |
| Users.ExistsByUsername | src/main/java/com/oceanview/service/UserService.java:35 | some stored user has exactly that username |
| Users.FindUserIsTheOnlyMatch | src/main/java/com/oceanview/model/User.java:21 | with distinct usernames, the lookup finds the one user of that name |
| Users.UserRepository.Save | src/main/java/com/oceanview/model/User.java:21-34 | a user with a free username is stored with the next id and a creation time; a missing or taken username stores nothing and fails |
| Users.UserService.CreateUser | src/main/java/com/oceanview/service/UserService.java:32-47 | a taken username fails with "Username already exists" and stores nothing; otherwise one active user with the encoded password, the name and the role is stored |
| Users.UserService.FindByUsername | src/main/java/com/oceanview/service/UserService.java:52-56 | the stored user of that name, or "User not found: " and the name exactly when there is none |

## Left out

- HTTP controllers, authentication tokens, the web front end, configuration and seeding data are not part of this model.
- Logging is left out, because it does not affect any result.
- Transactions and concurrency are left out; each service call runs alone and to completion. Two bookings racing past the capacity check cannot be expressed.
- The clocks are parameters. The model also collapses the two separate `now()` reads of the pre-persist hook into one instant.
- ReservationRequests.Valid: the `@Email` format check is an abstract predicate `isEmail`, because the validator's grammar is not part of this model.
- Bean validation of the entity at flush time is left out; the model's store accepts any row that meets its own invariants.
- Ids consumed by refused inserts are not modelled. An identity value is normally used up by an insert that the database then refuses, so after a DataIntegrityViolation the next id is not one more than the number of rows. Both stores instead number their rows without gaps, so the next id is always one more than the row count. This affects the ids promised by `ReservationRepository.Persist`, `ReservationService.CreateReservation`, `UserRepository.Save` and `UserService.CreateUser`.
- When an insert breaks both the total column's range and the unique number, the model reports the range; which of the two the database reports is not modelled.
- The store holds snapshots, not managed entities, so object identity and aliasing between an entity and its row are not modelled. A `save` of an entity with an id that is not stored is not modelled, because the service never makes one.
- ReservationRepositories.UpperCase: maps only the ASCII letters a to z, not the full Unicode case mapping of the database or the JVM.
- The room types' description strings are left out, because no operation of the core reads them.
- The status column is assumed never null, since the entity defaults it to CONFIRMED and no operation clears it.
- The overlap query compares both ends inclusively: it tests check-in with `<=` and check-out with `>=` (ReservationRepository.java:40). A half-open reading of stays would not count a stay that ends on the new check-in day; the query does count it, and so does the model (see `TouchingStaysCount`).
- ReservationServices.MaxRoomsForType: its contract states only that every capacity is positive; the five totals are fixed by its definition.
- Users.UserService.CreateUser: the password encoder is an uninterpreted function `encode`, because the hashing algorithm is not part of this model.
- User roles and account activation are stored but never consulted by the core; login is not modelled.

## Findings

| source | as written | input that shows it | evidently intended | confidence | as-written member | corrected member |
|---|---|---|---|---|---|---|
| src/main/java/com/oceanview/service/ReservationService.java:123-137 | `updateReservation` builds its response inside the transaction, before the flush that runs the pre-update hook, so the response's total is the old one | a CONFIRMED DELUXE booking for days 1 to 3 (total 16000) edited to days 1 to 4: the response says 16000; the stored row says 24000 | the response reports the total that is stored | not executed; medium (depends on the provider flushing at commit) | ReservationServices.UpdateResponseAsWrittenIsStale | ReservationServices.ReservationService.UpdateReservation |
