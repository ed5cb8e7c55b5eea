/**
 * The booking engine and lifecycle operations: create with date and capacity checks,
 * status changes, cancellation, editing a confirmed booking, lookup and search.
 */
module ReservationServices {
  import opened Wrappers
  import opened RoomTypes
  import opened ReservationStatuses
  import opened Reservations
  import opened ReservationRequests
  import opened ReservationRepositories

  /** The exceptions the operations raise. */
  datatype ServiceError =
    | ValidationError(message: string)
    | ResourceNotFound(message: string)
    /** A null date or room type dereferenced by the checks. */
    | NullPointer
    /** A store failure passed on unchanged. */
    | DataIntegrityViolation(cause: StoreError)

  const CheckOutNotAfterCheckIn: string := "Check-out date must be after check-in date"
  const CheckInInPast: string := "Check-in date cannot be in the past"
  const NoRoomsAvailable: string := "No rooms available for selected dates"
  const OnlyConfirmedUpdatable: string := "Can only update CONFIRMED reservations"

  function NotFoundMessage(number: string): string {
    "Reservation not found: " + number
  }

  /** What a caller receives for a reservation: its columns and the night count. */
  datatype ReservationResponse = ReservationResponse(
    id: Option<int>,
    reservationNumber: Option<string>,
    guestName: Option<string>,
    address: Option<string>,
    contactNumber: Option<string>,
    email: Option<string>,
    roomType: Option<RoomType>,
    checkInDate: Option<Date>,
    checkOutDate: Option<Date>,
    status: ReservationStatus,
    numberOfGuests: Option<int>,
    specialRequests: Option<string>,
    totalAmount: Option<int>,
    numberOfNights: int)

  /** The response for a row: every column but the timestamps, and the derived night count. */
  function MapToResponse(r: ReservationRow): (resp: ReservationResponse)
    ensures resp.id == r.id && resp.reservationNumber == r.reservationNumber
    ensures resp.guestName == r.guestName && resp.address == r.address
    ensures resp.contactNumber == r.contactNumber && resp.email == r.email
    ensures resp.roomType == r.roomType && resp.checkInDate == r.checkInDate
    ensures resp.checkOutDate == r.checkOutDate && resp.status == r.status
    ensures resp.numberOfGuests == r.numberOfGuests && resp.specialRequests == r.specialRequests
    ensures resp.totalAmount == r.totalAmount
    ensures r.checkInDate.Some? && r.checkOutDate.Some? ==> resp.numberOfNights == r.checkOutDate.value - r.checkInDate.value
    ensures r.checkInDate.None? || r.checkOutDate.None? ==> resp.numberOfNights == 0
  {
    ReservationResponse(r.id, r.reservationNumber, r.guestName, r.address, r.contactNumber, r.email,
                        r.roomType, r.checkInDate, r.checkOutDate, r.status, r.numberOfGuests,
                        r.specialRequests, r.totalAmount, r.NumberOfNights())
  }

  function Responses(rows: seq<ReservationRow>): (rs: seq<ReservationResponse>)
    ensures |rs| == |rows| && forall i :: 0 <= i < |rows| ==> rs[i] == MapToResponse(rows[i])
  {
    seq(|rows|, i requires 0 <= i < |rows| => MapToResponse(rows[i]))
  }

  /**
   * The date check: check-out strictly after check-in, then check-in not before `today`;
   * a missing date fails on dereference.
   */
  function ValidateReservationDates(checkIn: Option<Date>, checkOut: Option<Date>, today: Date): (o: Outcome<ServiceError>)
    ensures o == Pass <==> checkIn.Some? && checkOut.Some? && checkIn.value < checkOut.value && today <= checkIn.value
    ensures checkIn.None? || checkOut.None? ==> o == Fail(NullPointer)
    ensures checkIn.Some? && checkOut.Some? && checkOut.value <= checkIn.value ==>
              o == Fail(ValidationError(CheckOutNotAfterCheckIn))
    ensures checkIn.Some? && checkOut.Some? && checkIn.value < checkOut.value && checkIn.value < today ==>
              o == Fail(ValidationError(CheckInInPast))
  {
    if checkIn.None? || checkOut.None? then Fail(NullPointer)
    else if checkOut.value < checkIn.value || checkOut.value == checkIn.value then
      Fail(ValidationError(CheckOutNotAfterCheckIn))
    else if checkIn.value < today then Fail(ValidationError(CheckInInPast))
    else Pass
  }

  /**
   * For a request that passed its own validation against the same date, the service's date
   * check fails only for a stay that does not end after it starts.
   */
  lemma ValidRequestPassesFutureCheck(req: ReservationRequest, today: Date, isEmail: string -> bool)
    requires ReservationRequests.Valid(req, today, isEmail)
    ensures ValidateReservationDates(req.checkInDate, req.checkOutDate, today) == Pass
        <==> req.checkInDate.value < req.checkOutDate.value
  {
  }

  /** `getMaxRoomsForType`: the fixed number of rooms of each type. */
  function MaxRoomsForType(t: RoomType): (n: nat)
    ensures n > 0
  {
    match t
    case STANDARD => 20
    case DELUXE => 15
    case SUITE => 10
    case FAMILY => 8
    case PRESIDENTIAL => 3
  }

  /**
   * The availability check: rejects once the overlapping bookings of the type reach its
   * capacity; a missing room type fails on the capacity lookup.
   */
  function CheckRoomAvailability(rows: seq<ReservationRow>, roomType: Option<RoomType>, checkIn: Date, checkOut: Date)
    : (o: Outcome<ServiceError>)
    ensures roomType.None? ==> o == Fail(NullPointer)
    ensures roomType.Some? ==> (o == Pass <==> CountOverlapping(rows, roomType.value, checkIn, checkOut) < MaxRoomsForType(roomType.value))
    ensures roomType.Some? && o != Pass ==> o == Fail(ValidationError(NoRoomsAvailable))
  {
    match roomType
    case None => Fail(NullPointer)
    case Some(t) =>
      if CountOverlapping(rows, t, checkIn, checkOut) >= MaxRoomsForType(t) then Fail(ValidationError(NoRoomsAvailable))
      else Pass
  }

  /** Capacity reached: with as many overlapping held bookings as rooms, the check rejects. */
  lemma FullTypeIsRejected(rows: seq<ReservationRow>, t: RoomType, checkIn: Date, checkOut: Date)
    requires |Overlapping(rows, t, checkIn, checkOut)| >= MaxRoomsForType(t)
    ensures CheckRoomAvailability(rows, Some(t), checkIn, checkOut) == Fail(ValidationError(NoRoomsAvailable))
  {
  }

  /** A request's nine booking fields written over `r`; every other column is kept. */
  function WithRequest(r: ReservationRow, req: ReservationRequest): (w: ReservationRow)
    ensures w.guestName == req.guestName && w.address == req.address
    ensures w.contactNumber == req.contactNumber && w.email == req.email
    ensures w.roomType == req.roomType && w.checkInDate == req.checkInDate
    ensures w.checkOutDate == req.checkOutDate && w.numberOfGuests == req.numberOfGuests
    ensures w.specialRequests == req.specialRequests
    ensures w.id == r.id && w.reservationNumber == r.reservationNumber && w.status == r.status
    ensures w.totalAmount == r.totalAmount && w.createdAt == r.createdAt && w.updatedAt == r.updatedAt
  {
    r.(guestName := req.guestName, address := req.address, contactNumber := req.contactNumber,
       email := req.email, roomType := req.roomType, checkInDate := req.checkInDate,
       checkOutDate := req.checkOutDate, numberOfGuests := req.numberOfGuests,
       specialRequests := req.specialRequests)
  }

  /** The row a successful create inserts into a store holding `rows`. */
  function BookedRow(rows: seq<ReservationRow>, req: ReservationRequest, clock: Clock): (row: ReservationRow)
    ensures row.status == CONFIRMED && row.id == Some(|rows| + 1)
    ensures row.reservationNumber == Some(GenerateReservationNumber(clock.millis))
    ensures row.createdAt == Some(clock.now) && row.updatedAt == Some(clock.now)
    ensures row.SameDetails(WithRequest(FreshRow, req).(status := CONFIRMED))
  {
    WithRequest(FreshRow, req).Created(clock.now, clock.millis).(id := Some(|rows| + 1))
  }

  /**
   * What a booked row holds: the request's fields unchanged, status CONFIRMED, the next id,
   * a number drawn from the clock, both timestamps at `now`, and the priced total.
   */
  lemma BookedRowContents(rows: seq<ReservationRow>, req: ReservationRequest, clock: Clock)
    requires ValidateReservationDates(req.checkInDate, req.checkOutDate, clock.today) == Pass
    requires req.roomType.Some?
    ensures var row := BookedRow(rows, req, clock);
      && row.status == CONFIRMED && row.id == Some(|rows| + 1)
      && row.guestName == req.guestName && row.address == req.address
      && row.contactNumber == req.contactNumber && row.email == req.email
      && row.roomType == req.roomType && row.checkInDate == req.checkInDate
      && row.checkOutDate == req.checkOutDate && row.numberOfGuests == req.numberOfGuests
      && row.specialRequests == req.specialRequests
      && row.reservationNumber == Some(GenerateReservationNumber(clock.millis))
      && row.createdAt == Some(clock.now) && row.updatedAt == Some(clock.now)
      && row.NumberOfNights() == req.checkOutDate.value - req.checkInDate.value > 0
      && row.totalAmount == Some(RatePerNight(req.roomType.value) * row.NumberOfNights())
  {
    var w := WithRequest(FreshRow, req);
    assert w.Priceable();
  }

  /**
   * The capacity guarantee at the moment of booking: once the check passed, the new booking
   * brings the window's count up by exactly one, and no higher than the capacity.
   */
  lemma {:induction false} BookingStaysWithinCapacity(rows: seq<ReservationRow>, req: ReservationRequest, clock: Clock)
    requires ValidateReservationDates(req.checkInDate, req.checkOutDate, clock.today) == Pass
    requires CheckRoomAvailability(rows, req.roomType, req.checkInDate.value, req.checkOutDate.value) == Pass
    ensures var t, ci, co := req.roomType.value, req.checkInDate.value, req.checkOutDate.value;
      && CountOverlapping(rows + [BookedRow(rows, req, clock)], t, ci, co) == CountOverlapping(rows, t, ci, co) + 1
      && CountOverlapping(rows + [BookedRow(rows, req, clock)], t, ci, co) <= MaxRoomsForType(t)
  {
    var row := BookedRow(rows, req, clock);
    BookedRowContents(rows, req, clock);
    StayCountsAgainstItself(row);
    CountAppend(rows, row, req.roomType.value, req.checkInDate.value, req.checkOutDate.value);
  }

  /**
   * No request rule bounds the length of a stay, so a long enough one prices above what the
   * total column holds: 4000 nights in the PRESIDENTIAL suite come to 10^8, and the insert fails.
   */
  lemma LongStayOverflowsTotal(rows: seq<ReservationRow>, req: ReservationRequest, clock: Clock)
    requires req.roomType == Some(PRESIDENTIAL)
    requires req.checkInDate == Some(clock.today + 1) && req.checkOutDate == Some(clock.today + 4001)
    ensures BookedRow(rows, req, clock).totalAmount == Some(TotalLimit)
    ensures !TotalFits(BookedRow(rows, req, clock))
  {
    BookedRowContents(rows, req, clock);
  }

  /** The status change a flush writes: nothing when the status is already the requested one. */
  function StatusChanged(r: ReservationRow, status: ReservationStatus, now: Instant): (w: ReservationRow)
    ensures w.status == status
    ensures r.status == status ==> w == r
    ensures r.status != status ==> w == r.(status := status, updatedAt := Some(now), totalAmount := r.RecalculatedTotal())
  {
    Merged(r, r.(status := status), now)
  }

  /** A status change keeps a consistent total as it is: repricing finds nothing to change. */
  lemma StatusChangeKeepsTotal(r: ReservationRow, status: ReservationStatus, now: Instant)
    requires PriceConsistent(r)
    ensures StatusChanged(r, status, now).totalAmount == r.totalAmount
  {
  }

  /** Cancelling twice leaves the row exactly as the first cancellation left it. */
  lemma CancelIsIdempotent(r: ReservationRow, now: Instant, later: Instant)
    ensures StatusChanged(StatusChanged(r, CANCELLED, now), CANCELLED, later) == StatusChanged(r, CANCELLED, now)
  {
  }

  /** Any status can be set from any status; a cancelled booking can become confirmed again. */
  lemma AnyStatusReachable(r: ReservationRow, status: ReservationStatus, now: Instant)
    ensures StatusChanged(r, status, now).status == status
    ensures StatusChanged(r, status, now).SameDetails(r.(status := status))
  {
  }

  /**
   * The capacity guarantee is per booking only: reviving a cancelled booking by a status change
   * adds it back to the count of every window it meets, with no availability check, so a full
   * room type goes over capacity.
   */
  lemma ReactivationRaisesCount(rows: seq<ReservationRow>, i: nat, now: Instant, t: RoomType, checkIn: Date, checkOut: Date)
    requires i < |rows| && rows[i].status == CANCELLED
    requires CountsAgainst(rows[i].(status := CONFIRMED), t, checkIn, checkOut)
    ensures CountOverlapping(rows[i := StatusChanged(rows[i], CONFIRMED, now)], t, checkIn, checkOut)
         == CountOverlapping(rows, t, checkIn, checkOut) + 1
  {
    FilterReplace(rows, i, StatusChanged(rows[i], CONFIRMED, now), r => CountsAgainst(r, t, checkIn, checkOut));
  }

  /** The row an edit of a confirmed booking writes: the request's fields over the stored row, flushed. */
  function Edited(r: ReservationRow, req: ReservationRequest, now: Instant): (w: ReservationRow)
    ensures w.id == r.id && w.reservationNumber == r.reservationNumber
    ensures w.status == r.status && w.createdAt == r.createdAt
    ensures w.SameDetails(WithRequest(r, req))
    ensures WithRequest(r, req) == r ==> w == r
    ensures WithRequest(r, req) != r ==> w.updatedAt == Some(now)
  {
    Merged(r, WithRequest(r, req), now)
  }

  /**
   * An edit keeps the row's identity, number, status and creation time, takes the request's
   * room type and dates, and keeps the total consistent with them.
   */
  lemma EditKeepsIdentityAndPrices(r: ReservationRow, req: ReservationRequest, now: Instant)
    requires PriceConsistent(r)
    ensures var w := Edited(r, req, now);
      && w.id == r.id && w.reservationNumber == r.reservationNumber
      && w.status == r.status && w.createdAt == r.createdAt
      && w.roomType == req.roomType && w.checkInDate == req.checkInDate && w.checkOutDate == req.checkOutDate
      && PriceConsistent(w)
  {
  }

  /** Two nights in a DELUXE room booked from tomorrow cost 16000 and come back CONFIRMED. */
  lemma DeluxeTwoNightBooking(rows: seq<ReservationRow>, req: ReservationRequest, clock: Clock)
    requires req.roomType == Some(DELUXE)
    requires req.checkInDate == Some(clock.today + 1) && req.checkOutDate == Some(clock.today + 3)
    ensures var resp := MapToResponse(BookedRow(rows, req, clock));
      resp.totalAmount == Some(16000) && resp.numberOfNights == 2 && resp.status == CONFIRMED
      && resp.reservationNumber == Some(GenerateReservationNumber(clock.millis))
  {
    BookedRowContents(rows, req, clock);
  }

  /**
   * The response `updateReservation` builds as written: it maps the entity after the setters
   * but before the flush that runs the pre-update hook, so it carries the old total.
   */
  function UpdateResponseAsWritten(stored: ReservationRow, req: ReservationRequest): (resp: ReservationResponse)
    ensures resp.totalAmount == stored.totalAmount
    ensures resp.checkInDate == req.checkInDate && resp.checkOutDate == req.checkOutDate
  {
    MapToResponse(WithRequest(stored, req))
  }

  /** Lengthening a two-night DELUXE stay to three nights: the response says 16000, the row holds 24000. */
  lemma UpdateResponseAsWrittenIsStale(now: Instant)
    ensures var stored := FreshRow.(id := Some(1), reservationNumber := Some("RES1"), roomType := Some(DELUXE),
                                    checkInDate := Some(1), checkOutDate := Some(3), totalAmount := Some(16000));
            var req := ReservationRequest(None, None, None, None, Some(DELUXE), Some(1), Some(4), None, None);
            && UpdateResponseAsWritten(stored, req).totalAmount == Some(16000)
            && Edited(stored, req, now).totalAmount == Some(24000)
  {
    var stored := FreshRow.(id := Some(1), reservationNumber := Some("RES1"), roomType := Some(DELUXE),
                            checkInDate := Some(1), checkOutDate := Some(3), totalAmount := Some(16000));
    var req := ReservationRequest(None, None, None, None, Some(DELUXE), Some(1), Some(4), None, None);
    assert WithRequest(stored, req) != stored by {
      assert WithRequest(stored, req).checkOutDate != stored.checkOutDate;
    }
  }

  class ReservationService {
    const repository: ReservationRepository

    constructor (repository: ReservationRepository)
      ensures this.repository == repository
    {
      this.repository := repository;
    }

    /** `mapToEntity`: a new entity carrying the request's fields and status CONFIRMED. */
    method MapToEntity(request: ReservationRequest) returns (entity: Reservation)
      ensures fresh(entity)
      ensures entity.Row() == WithRequest(FreshRow, request)
    {
      entity := new Reservation();
      entity.guestName := request.guestName;
      entity.address := request.address;
      entity.contactNumber := request.contactNumber;
      entity.email := request.email;
      entity.roomType := request.roomType;
      entity.checkInDate := request.checkInDate;
      entity.checkOutDate := request.checkOutDate;
      entity.numberOfGuests := request.numberOfGuests;
      entity.specialRequests := request.specialRequests;
      entity.status := CONFIRMED;
    }

    /**
     * `createReservation`: the date check, then the availability check against the store,
     * then one save. Any failure leaves the store as it was.
     */
    method CreateReservation(request: ReservationRequest, clock: Clock)
      returns (result: Result<ReservationResponse, ServiceError>)
      requires repository.Valid()
      modifies repository
      ensures repository.Valid()
      ensures result.Failure? ==> repository.rows == old(repository.rows)
      ensures var dates := ValidateReservationDates(request.checkInDate, request.checkOutDate, clock.today);
        dates.Fail? ==> result == Failure(dates.error)
      ensures ValidateReservationDates(request.checkInDate, request.checkOutDate, clock.today) == Pass ==>
        var avail := CheckRoomAvailability(old(repository.rows), request.roomType, request.checkInDate.value, request.checkOutDate.value);
        && (avail.Fail? ==> result == Failure(avail.error))
        && (avail == Pass ==>
             var row := BookedRow(old(repository.rows), request, clock);
             if !TotalFits(row) then
               result == Failure(DataIntegrityViolation(ValueOutOfRange))
             else if NumberFree(old(repository.rows), row.reservationNumber, None) then
               result == Success(MapToResponse(row)) && repository.rows == old(repository.rows) + [row]
             else
               result == Failure(DataIntegrityViolation(ConstraintViolation)))
      ensures result.Success? ==>
        && request.roomType.Some? && request.checkInDate.Some? && request.checkOutDate.Some?
        && var t, ci, co := request.roomType.value, request.checkInDate.value, request.checkOutDate.value;
           CountOverlapping(repository.rows, t, ci, co) == CountOverlapping(old(repository.rows), t, ci, co) + 1
           && CountOverlapping(repository.rows, t, ci, co) <= MaxRoomsForType(t)
    {
      var dates := ValidateReservationDates(request.checkInDate, request.checkOutDate, clock.today);
      if dates.Fail? {
        return Failure(dates.error);
      }
      var avail := CheckRoomAvailability(repository.rows, request.roomType, request.checkInDate.value, request.checkOutDate.value);
      if avail.Fail? {
        return Failure(avail.error);
      }
      var entity := MapToEntity(request);
      BookingStaysWithinCapacity(repository.rows, request, clock);
      var saved := repository.Save(entity, clock);
      match saved
      case Success(row) => result := Success(MapToResponse(row));
      case Failure(e) => result := Failure(DataIntegrityViolation(e));
    }

    /** `getReservationByNumber`. */
    function GetReservationByNumber(number: string): (result: Result<ReservationResponse, ServiceError>)
      reads repository
      ensures result.Success? ==>
        exists r :: r in repository.rows && r.reservationNumber == Some(number) && result.value == MapToResponse(r)
      ensures result.Failure? ==>
        result.error == ResourceNotFound(NotFoundMessage(number))
        && forall r :: r in repository.rows ==> r.reservationNumber != Some(number)
    {
      match FindByReservationNumber(repository.rows, number)
      case None => Failure(ResourceNotFound(NotFoundMessage(number)))
      case Some(r) => Success(MapToResponse(r))
    }

    /** `getAllReservations`: one response per stored row, in store order. */
    function GetAllReservations(): (responses: seq<ReservationResponse>)
      reads repository
      ensures |responses| == |repository.rows|
      ensures forall i :: 0 <= i < |responses| ==> responses[i] == MapToResponse(repository.rows[i])
    {
      Responses(repository.FindAll())
    }

    /** `searchByGuestName`: the responses of exactly the rows whose guest name contains `name`, ignoring case. */
    function SearchByGuestName(name: string): (responses: seq<ReservationResponse>)
      reads repository
      ensures forall resp :: resp in responses ==>
        exists r :: r in repository.rows && NameMatches(r, name) && resp == MapToResponse(r)
      ensures forall r :: r in repository.rows && NameMatches(r, name) ==> MapToResponse(r) in responses
    {
      var found := FindByGuestNameContainingIgnoreCase(repository.rows, name);
      var responses := Responses(found);
      assert forall i :: 0 <= i < |found| ==> found[i] in found;
      assert forall r :: r in found ==> MapToResponse(r) in responses by {
        forall r | r in found ensures MapToResponse(r) in responses {
          var i :| 0 <= i < |found| && found[i] == r;
          assert responses[i] == MapToResponse(r);
        }
      }
      responses
    }

    /**
     * `updateReservationStatus`: sets the status of the booking with that number, whatever its
     * current status, and saves it; an unknown number changes nothing.
     */
    method UpdateReservationStatus(number: string, status: ReservationStatus, clock: Clock)
      returns (result: Result<ReservationResponse, ServiceError>)
      requires repository.Valid()
      modifies repository
      ensures repository.Valid()
      ensures FindIndex(old(repository.rows), number).None? ==>
        result == Failure(ResourceNotFound(NotFoundMessage(number))) && repository.rows == old(repository.rows)
      ensures FindIndex(old(repository.rows), number).Some? ==>
        var i := FindIndex(old(repository.rows), number).value;
        var row := StatusChanged(old(repository.rows)[i], status, clock.now);
        result == Success(MapToResponse(row)) && repository.rows == old(repository.rows)[i := row]
    {
      var k := FindIndex(repository.rows, number);
      if k.None? {
        return Failure(ResourceNotFound(NotFoundMessage(number)));
      }
      var i := k.value;
      var entity := new Reservation.Load(repository.rows[i]);
      StatusChangeKeepsTotal(repository.rows[i], status, clock.now);
      entity.status := status;
      var saved := repository.Save(entity, clock);
      match saved
      case Success(row) => result := Success(MapToResponse(row));
      case Failure(e) => result := Failure(DataIntegrityViolation(e));
    }

    /** `cancelReservation`: the status update to CANCELLED. */
    method CancelReservation(number: string, clock: Clock)
      returns (result: Result<ReservationResponse, ServiceError>)
      requires repository.Valid()
      modifies repository
      ensures repository.Valid()
      ensures FindIndex(old(repository.rows), number).None? ==>
        result == Failure(ResourceNotFound(NotFoundMessage(number))) && repository.rows == old(repository.rows)
      ensures FindIndex(old(repository.rows), number).Some? ==>
        var i := FindIndex(old(repository.rows), number).value;
        var row := StatusChanged(old(repository.rows)[i], CANCELLED, clock.now);
        && result == Success(MapToResponse(row)) && repository.rows == old(repository.rows)[i := row]
        && repository.rows[i].status == CANCELLED
    {
      result := UpdateReservationStatus(number, CANCELLED, clock);
    }

    /**
     * `updateReservation`: only a CONFIRMED booking may be edited; the new dates are checked
     * as on creation but availability is not; the nine request fields overwrite the stored ones.
     */
    method UpdateReservation(number: string, request: ReservationRequest, clock: Clock)
      returns (result: Result<ReservationResponse, ServiceError>)
      requires repository.Valid()
      modifies repository
      ensures repository.Valid()
      ensures result.Failure? ==> repository.rows == old(repository.rows)
      ensures FindIndex(old(repository.rows), number).None? ==>
        result == Failure(ResourceNotFound(NotFoundMessage(number)))
      ensures FindIndex(old(repository.rows), number).Some? ==>
        var i := FindIndex(old(repository.rows), number).value;
        var dates := ValidateReservationDates(request.checkInDate, request.checkOutDate, clock.today);
        && (old(repository.rows)[i].status != CONFIRMED ==> result == Failure(ValidationError(OnlyConfirmedUpdatable)))
        && (old(repository.rows)[i].status == CONFIRMED && dates.Fail? ==> result == Failure(dates.error))
        && (old(repository.rows)[i].status == CONFIRMED && dates == Pass ==>
              var row := Edited(old(repository.rows)[i], request, clock.now);
              if TotalFits(row) then
                result == Success(MapToResponse(row)) && repository.rows == old(repository.rows)[i := row]
                && result.value.totalAmount == repository.rows[i].totalAmount
              else
                result == Failure(DataIntegrityViolation(ValueOutOfRange)))
    {
      var k := FindIndex(repository.rows, number);
      if k.None? {
        return Failure(ResourceNotFound(NotFoundMessage(number)));
      }
      var i := k.value;
      var entity := new Reservation.Load(repository.rows[i]);
      if entity.status != CONFIRMED {
        return Failure(ValidationError(OnlyConfirmedUpdatable));
      }
      var dates := ValidateReservationDates(request.checkInDate, request.checkOutDate, clock.today);
      if dates.Fail? {
        return Failure(dates.error);
      }
      entity.guestName := request.guestName;
      entity.address := request.address;
      entity.contactNumber := request.contactNumber;
      entity.email := request.email;
      entity.roomType := request.roomType;
      entity.checkInDate := request.checkInDate;
      entity.checkOutDate := request.checkOutDate;
      entity.numberOfGuests := request.numberOfGuests;
      entity.specialRequests := request.specialRequests;
      assert entity.Row() == WithRequest(repository.rows[i], request);
      var saved := repository.Save(entity, clock);
      match saved
      case Success(row) => result := Success(MapToResponse(row));
      case Failure(e) => result := Failure(DataIntegrityViolation(e));
    }
  }
}
