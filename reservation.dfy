/**
 * The reservation entity: its persisted columns, the derived night count and price,
 * the generated reservation number, and the persistence hooks that fill in the
 * timestamps, the number and the total before a row is written.
 */
module Reservations {
  import opened Wrappers
  import opened RoomTypes
  import opened ReservationStatuses

  /** A calendar date as a day number; the days between two dates is their difference. */
  type Date = int

  /** A point on the wall clock, kept abstract. */
  type Instant = int

  /**
   * The clock readings an operation takes: the current date, the current date and time,
   * and the milliseconds since the epoch.
   */
  datatype Clock = Clock(today: Date, now: Instant, millis: nat)

  function DigitChar(d: nat): (c: char)
    requires d < 10
    ensures '0' <= c <= '9'
  {
    ['0', '1', '2', '3', '4', '5', '6', '7', '8', '9'][d]
  }

  /** Decimal text of a non-negative number, as Java prints a `long`. */
  function DecimalString(n: nat): (s: string)
    ensures |s| >= 1
    ensures forall i :: 0 <= i < |s| ==> '0' <= s[i] <= '9'
    ensures s[0] == '0' ==> n == 0
  {
    if n < 10 then [DigitChar(n)] else DecimalString(n / 10) + [DigitChar(n % 10)]
  }

  lemma DigitCharInjective(a: nat, b: nat)
    requires a < 10 && b < 10 && DigitChar(a) == DigitChar(b)
    ensures a == b
  {
  }

  /** Different numbers print differently. */
  lemma {:induction false} DecimalStringInjective(a: nat, b: nat)
    requires DecimalString(a) == DecimalString(b)
    ensures a == b
  {
    if a < 10 && b < 10 {
      DigitCharInjective(a, b);
    } else if a >= 10 && b >= 10 {
      var sa, sb := DecimalString(a), DecimalString(b);
      assert sa[|sa| - 1] == DigitChar(a % 10);
      assert sb[|sb| - 1] == DigitChar(b % 10);
      DigitCharInjective(a % 10, b % 10);
      assert sa[..|sa| - 1] == DecimalString(a / 10);
      assert sb[..|sb| - 1] == DecimalString(b / 10);
      DecimalStringInjective(a / 10, b / 10);
    }
  }

  /** The digit a decimal character stands for. */
  function DigitValue(c: char): nat {
    if '0' <= c <= '9' then c as int - '0' as int else 0
  }

  lemma DigitValueOfDigitChar(d: nat)
    requires d < 10
    ensures DigitValue(DigitChar(d)) == d
  {
  }

  /** The number a string of decimal digits denotes, most significant digit first. */
  function DecimalValue(s: string): nat
    decreases |s|
  {
    if s == [] then 0 else 10 * DecimalValue(s[..|s| - 1]) + DigitValue(s[|s| - 1])
  }

  /** Reading back the printed digits gives the number that was printed. */
  lemma {:induction false} DecimalStringDenotes(n: nat)
    ensures DecimalValue(DecimalString(n)) == n
  {
    var s := DecimalString(n);
    if n < 10 {
      DigitValueOfDigitChar(n);
      assert s[..|s| - 1] == [];
    } else {
      assert s[..|s| - 1] == DecimalString(n / 10);
      assert s[|s| - 1] == DigitChar(n % 10);
      DecimalStringDenotes(n / 10);
      DigitValueOfDigitChar(n % 10);
    }
  }

  const NumberPrefix: string := "RES"

  /** The reservation number drawn from the millisecond clock reading `millis`. */
  function GenerateReservationNumber(millis: nat): (number: string)
    ensures |number| > |NumberPrefix| && number[..|NumberPrefix|] == NumberPrefix
    ensures forall i :: |NumberPrefix| <= i < |number| ==> '0' <= number[i] <= '9'
    ensures DecimalValue(number[|NumberPrefix|..]) == millis
  {
    DecimalStringDenotes(millis);
    assert (NumberPrefix + DecimalString(millis))[|NumberPrefix|..] == DecimalString(millis);
    NumberPrefix + DecimalString(millis)
  }

  /**
   * Two clock readings give the same number only when they are equal: the generator
   * alone cannot tell apart two bookings made within the same millisecond.
   */
  lemma GeneratedNumbersDifferIffClocksDiffer(m1: nat, m2: nat)
    ensures GenerateReservationNumber(m1) == GenerateReservationNumber(m2) <==> m1 == m2
  {
    if GenerateReservationNumber(m1) == GenerateReservationNumber(m2) {
      var p := |NumberPrefix|;
      assert GenerateReservationNumber(m1)[p..] == DecimalString(m1);
      assert GenerateReservationNumber(m2)[p..] == DecimalString(m2);
      DecimalStringInjective(m1, m2);
    }
  }

  /** One row of the reservations table: a snapshot of every persisted column. */
  datatype ReservationRow = ReservationRow(
    id: Option<int>,
    reservationNumber: Option<string>,
    guestName: Option<string>,
    address: Option<string>,
    contactNumber: Option<string>,
    email: Option<string>,
    roomType: Option<RoomType>,
    checkInDate: Option<Date>,
    checkOutDate: Option<Date>,
    status: ReservationStatus,
    numberOfGuests: Option<int>,
    specialRequests: Option<string>,
    totalAmount: Option<int>,
    createdAt: Option<Instant>,
    updatedAt: Option<Instant>)
  {
    /** Nights between the two dates, 0 while either is unset. */
    function NumberOfNights(): (n: int)
      ensures checkInDate.None? || checkOutDate.None? ==> n == 0
      ensures checkInDate.Some? && checkOutDate.Some? ==> checkInDate.value + n == checkOutDate.value
    {
      if checkInDate.Some? && checkOutDate.Some? then checkOutDate.value - checkInDate.value else 0
    }

    /** True when the room type and both dates are set and the stay is at least one night. */
    predicate Priceable() {
      roomType.Some? && checkInDate.Some? && checkOutDate.Some? && NumberOfNights() > 0
    }

    /**
     * The total after recalculation: the nightly rate times the nights when the stay can be
     * priced, and otherwise the total as it stood.
     */
    function RecalculatedTotal(): (total: Option<int>)
      ensures Priceable() ==> total == Some(RatePerNight(roomType.value) * NumberOfNights())
      ensures Priceable() ==> total.value > 0
      ensures !Priceable() ==> total == totalAmount
    {
      if roomType.Some? && checkInDate.Some? && checkOutDate.Some? then
        var nights := checkOutDate.value - checkInDate.value;
        if nights > 0 then Some(RatePerNight(roomType.value) * nights) else totalAmount
      else
        totalAmount
    }

    /** The columns a caller can set, that is, all but the id, the number, the total and the timestamps. */
    predicate SameDetails(other: ReservationRow) {
      && guestName == other.guestName && address == other.address
      && contactNumber == other.contactNumber && email == other.email
      && roomType == other.roomType && checkInDate == other.checkInDate
      && checkOutDate == other.checkOutDate && status == other.status
      && numberOfGuests == other.numberOfGuests && specialRequests == other.specialRequests
    }

    /** The row as the pre-persist hook leaves it, given the clock readings. */
    function Created(now: Instant, millis: nat): (r: ReservationRow)
      ensures r.createdAt == Some(now) && r.updatedAt == Some(now)
      ensures reservationNumber.Some? ==> r.reservationNumber == reservationNumber
      ensures reservationNumber.None? ==> r.reservationNumber == Some(GenerateReservationNumber(millis))
      ensures r.totalAmount == RecalculatedTotal()
      ensures r.id == id && r.SameDetails(this)
    {
      var number := if reservationNumber.None? then Some(GenerateReservationNumber(millis)) else reservationNumber;
      var r := this.(createdAt := Some(now), updatedAt := Some(now), reservationNumber := number);
      r.(totalAmount := r.RecalculatedTotal())
    }

    /** The row as the pre-update hook leaves it. */
    function Updated(now: Instant): (r: ReservationRow)
      ensures r.updatedAt == Some(now) && r.totalAmount == RecalculatedTotal()
      ensures r.id == id && r.reservationNumber == reservationNumber && r.createdAt == createdAt
      ensures r.SameDetails(this)
    {
      this.(updatedAt := Some(now), totalAmount := RecalculatedTotal())
    }
  }

  /** The row of an entity that has only been constructed: everything unset but the status. */
  const FreshRow: ReservationRow :=
    ReservationRow(None, None, None, None, None, None, None, None, None, CONFIRMED,
                   None, None, None, None, None)

  /** The stored total is the price of the stay whenever the stay can be priced. */
  predicate PriceConsistent(r: ReservationRow) {
    r.Priceable() ==> r.totalAmount == Some(RatePerNight(r.roomType.value) * r.NumberOfNights())
  }

  /** Both hooks leave the total consistent with the room type and the dates. */
  lemma HooksPriceConsistently(r: ReservationRow, now: Instant, millis: nat)
    ensures PriceConsistent(r.Created(now, millis))
    ensures PriceConsistent(r.Updated(now))
  {
  }

  /** Recalculating twice changes nothing more than recalculating once. */
  lemma RecalculationIsIdempotent(r: ReservationRow)
    ensures r.(totalAmount := r.RecalculatedTotal()).RecalculatedTotal() == r.RecalculatedTotal()
  {
  }

  /** A pre-set reservation number survives both hooks. */
  lemma HooksKeepPresetNumber(r: ReservationRow, now: Instant, later: Instant, millis: nat)
    requires r.reservationNumber.Some?
    ensures r.Created(now, millis).Updated(later).reservationNumber == r.reservationNumber
    ensures r.Created(now, millis).Updated(later).createdAt == Some(now)
  {
  }

  /** The in-memory entity; persistence hooks and setters assign its fields in place. */
  class Reservation {
    var id: Option<int>
    var reservationNumber: Option<string>
    var guestName: Option<string>
    var address: Option<string>
    var contactNumber: Option<string>
    var email: Option<string>
    var roomType: Option<RoomType>
    var checkInDate: Option<Date>
    var checkOutDate: Option<Date>
    var status: ReservationStatus
    var numberOfGuests: Option<int>
    var specialRequests: Option<string>
    var totalAmount: Option<int>
    var createdAt: Option<Instant>
    var updatedAt: Option<Instant>

    /** The entity's current state as a table row. */
    function Row(): ReservationRow
      reads this
    {
      ReservationRow(id, reservationNumber, guestName, address, contactNumber, email,
                     roomType, checkInDate, checkOutDate, status, numberOfGuests,
                     specialRequests, totalAmount, createdAt, updatedAt)
    }

    /** A new, unsaved entity: every field unset, status CONFIRMED. */
    constructor ()
      ensures Row() == FreshRow
    {
      id, reservationNumber, guestName, address, contactNumber, email := None, None, None, None, None, None;
      roomType, checkInDate, checkOutDate, status := None, None, None, CONFIRMED;
      numberOfGuests, specialRequests, totalAmount, createdAt, updatedAt := None, None, None, None, None;
    }

    /** The entity the store hands out for a stored row. */
    constructor Load(row: ReservationRow)
      ensures Row() == row
    {
      id, reservationNumber, guestName, address := row.id, row.reservationNumber, row.guestName, row.address;
      contactNumber, email, roomType := row.contactNumber, row.email, row.roomType;
      checkInDate, checkOutDate, status := row.checkInDate, row.checkOutDate, row.status;
      numberOfGuests, specialRequests, totalAmount := row.numberOfGuests, row.specialRequests, row.totalAmount;
      createdAt, updatedAt := row.createdAt, row.updatedAt;
    }

    /** Sets the total to rate times nights when the stay can be priced; leaves it alone otherwise. */
    method CalculateTotalAmount()
      modifies this`totalAmount
      ensures Row() == old(Row()).(totalAmount := old(Row()).RecalculatedTotal())
    {
      if checkInDate.Some? && checkOutDate.Some? && roomType.Some? {
        var nights := checkOutDate.value - checkInDate.value;
        if nights > 0 {
          totalAmount := Some(RatePerNight(roomType.value) * nights);
        }
      }
    }

    /** The pre-persist hook: stamps both timestamps, draws a number if none is set, prices the stay. */
    method OnCreate(now: Instant, millis: nat)
      modifies this
      ensures Row() == old(Row()).Created(now, millis)
    {
      createdAt := Some(now);
      updatedAt := Some(now);
      if reservationNumber.None? {
        reservationNumber := Some(GenerateReservationNumber(millis));
      }
      CalculateTotalAmount();
    }

    /** The pre-update hook: refreshes the update timestamp and prices the stay again. */
    method OnUpdate(now: Instant)
      modifies this
      ensures Row() == old(Row()).Updated(now)
    {
      updatedAt := Some(now);
      CalculateTotalAmount();
    }
  }
}
