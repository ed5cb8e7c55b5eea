/**
 * The reservation store: the stored rows, the queries the store answers over them, and
 * `Save`, which runs the entity's persistence hooks and enforces the unique column on
 * the reservation number.
 */
module ReservationRepositories {
  import opened Wrappers
  import opened RoomTypes
  import opened ReservationStatuses
  import opened Reservations

  /** The rows of `rows` that `keep` accepts, in store order. */
  function Filter(rows: seq<ReservationRow>, keep: ReservationRow -> bool): (r: seq<ReservationRow>)
    ensures |r| <= |rows|
    ensures forall x :: x in r <==> x in rows && keep(x)
    decreases |rows|
  {
    if rows == [] then []
    else
      var last := rows[|rows| - 1];
      var init := Filter(rows[..|rows| - 1], keep);
      assert rows == rows[..|rows| - 1] + [last];
      if keep(last) then init + [last] else init
  }

  lemma FilterAppend(rows: seq<ReservationRow>, x: ReservationRow, keep: ReservationRow -> bool)
    ensures Filter(rows + [x], keep) == Filter(rows, keep) + (if keep(x) then [x] else [])
  {
    assert (rows + [x])[..|rows + [x]| - 1] == rows;
  }

  /** Filtering by a stronger test keeps no more rows. */
  lemma {:induction false} FilterMonotone(rows: seq<ReservationRow>, p: ReservationRow -> bool, q: ReservationRow -> bool)
    requires forall x :: p(x) ==> q(x)
    ensures |Filter(rows, p)| <= |Filter(rows, q)|
  {
    if rows != [] {
      FilterMonotone(rows[..|rows| - 1], p, q);
    }
  }

  /** Replacing one row changes a filter's size by at most which side of `keep` the two rows fall. */
  lemma {:induction false} FilterReplace(rows: seq<ReservationRow>, i: nat, x: ReservationRow, keep: ReservationRow -> bool)
    requires i < |rows|
    ensures |Filter(rows[i := x], keep)| + (if keep(rows[i]) then 1 else 0)
         == |Filter(rows, keep)| + (if keep(x) then 1 else 0)
  {
    var n := |rows|;
    if i == n - 1 {
      assert rows[i := x] == rows[..n - 1] + [x];
      assert rows == rows[..n - 1] + [rows[n - 1]];
      FilterAppend(rows[..n - 1], x, keep);
      FilterAppend(rows[..n - 1], rows[n - 1], keep);
    } else {
      var init := rows[..n - 1];
      FilterReplace(init, i, x, keep);
      assert rows[i := x] == init[i := x] + [rows[n - 1]];
      assert rows == init + [rows[n - 1]];
      FilterAppend(init[i := x], rows[n - 1], keep);
      FilterAppend(init, rows[n - 1], keep);
    }
  }

  /** The two statuses that hold a room. */
  predicate Occupying(s: ReservationStatus) {
    s == CONFIRMED || s == CHECKED_IN
  }

  /**
   * The overlap query's condition: same room type, a room-holding status, and the stored
   * stay meets the requested one with both ends compared inclusively.
   */
  predicate CountsAgainst(r: ReservationRow, roomType: RoomType, checkIn: Date, checkOut: Date) {
    && r.roomType == Some(roomType)
    && Occupying(r.status)
    && r.checkInDate.Some? && r.checkInDate.value <= checkOut
    && r.checkOutDate.Some? && r.checkOutDate.value >= checkIn
  }

  function Overlapping(rows: seq<ReservationRow>, roomType: RoomType, checkIn: Date, checkOut: Date): seq<ReservationRow> {
    Filter(rows, (r: ReservationRow) => CountsAgainst(r, roomType, checkIn, checkOut))
  }

  /** `findByRoomType`: every row of that room type. */
  function FindByRoomType(rows: seq<ReservationRow>, roomType: RoomType): (found: seq<ReservationRow>)
    ensures forall x :: x in found <==> x in rows && x.roomType == Some(roomType)
  {
    Filter(rows, (r: ReservationRow) => r.roomType == Some(roomType))
  }

  /** `findByStatus`: every row in that status. */
  function FindByStatus(rows: seq<ReservationRow>, status: ReservationStatus): (found: seq<ReservationRow>)
    ensures forall x :: x in found <==> x in rows && x.status == status
  {
    Filter(rows, (r: ReservationRow) => r.status == status)
  }

  /** `countOverlappingReservations`: how many rows hold a room of the type during the stay. */
  function CountOverlapping(rows: seq<ReservationRow>, roomType: RoomType, checkIn: Date, checkOut: Date): (n: nat)
    ensures n <= |FindByRoomType(rows, roomType)|
  {
    FilterMonotone(rows, r => CountsAgainst(r, roomType, checkIn, checkOut), (r: ReservationRow) => r.roomType == Some(roomType));
    |Overlapping(rows, roomType, checkIn, checkOut)|
  }

  /** Only rows of the requested type in a room-holding status are counted. */
  lemma CountedRowsHoldARoom(rows: seq<ReservationRow>, roomType: RoomType, checkIn: Date, checkOut: Date, x: ReservationRow)
    requires x in Overlapping(rows, roomType, checkIn, checkOut)
    ensures x in rows && x.roomType == Some(roomType)
    ensures x.status == CONFIRMED || x.status == CHECKED_IN
  {
  }

  /** Appending a row raises the count by one exactly when that row counts. */
  lemma CountAppend(rows: seq<ReservationRow>, x: ReservationRow, roomType: RoomType, checkIn: Date, checkOut: Date)
    ensures CountOverlapping(rows + [x], roomType, checkIn, checkOut)
         == CountOverlapping(rows, roomType, checkIn, checkOut) + (if CountsAgainst(x, roomType, checkIn, checkOut) then 1 else 0)
  {
    FilterAppend(rows, x, r => CountsAgainst(r, roomType, checkIn, checkOut));
  }

  /**
   * The overlap test is inclusive at both ends: a held stay that checks out on the requested
   * check-in day, or checks in on the requested check-out day, counts.
   */
  lemma TouchingStaysCount(r: ReservationRow, roomType: RoomType, checkIn: Date, checkOut: Date)
    requires r.roomType == Some(roomType) && Occupying(r.status)
    requires r.checkInDate.Some? && r.checkOutDate.Some? && r.checkInDate.value <= r.checkOutDate.value
    requires checkIn <= checkOut
    requires r.checkOutDate.value == checkIn || r.checkInDate.value == checkOut
    ensures CountsAgainst(r, roomType, checkIn, checkOut)
  {
  }

  /** A stay counts against its own dates. */
  lemma StayCountsAgainstItself(r: ReservationRow)
    requires r.roomType.Some? && Occupying(r.status)
    requires r.checkInDate.Some? && r.checkOutDate.Some? && r.checkInDate.value <= r.checkOutDate.value
    ensures CountsAgainst(r, r.roomType.value, r.checkInDate.value, r.checkOutDate.value)
  {
  }

  /** Moving a row out of a room-holding status never raises a count. */
  lemma {:induction false} ReleasingNeverRaisesCount(rows: seq<ReservationRow>, i: nat, s: ReservationStatus,
                                                     roomType: RoomType, checkIn: Date, checkOut: Date)
    requires i < |rows| && !Occupying(s)
    ensures CountOverlapping(rows[i := rows[i].(status := s)], roomType, checkIn, checkOut)
         <= CountOverlapping(rows, roomType, checkIn, checkOut)
  {
    FilterReplace(rows, i, rows[i].(status := s), r => CountsAgainst(r, roomType, checkIn, checkOut));
  }

  /** One character upper-cased: only the ASCII letters a to z change. */
  function UpperChar(c: char): char {
    if 'a' <= c <= 'z' then (c as int - 32) as char else c
  }

  /** Two characters that are equal, or the lower- and upper-case forms of one ASCII letter. */
  predicate SameLetterIgnoringCase(c: char, d: char) {
    || c == d
    || ('a' <= c <= 'z' && d as int == c as int - 32)
    || ('a' <= d <= 'z' && c as int == d as int - 32)
  }

  /** Two texts that differ at most in the case of their ASCII letters. */
  predicate SameUpToAsciiCase(a: string, b: string) {
    |a| == |b| && forall i :: 0 <= i < |a| ==> SameLetterIgnoringCase(a[i], b[i])
  }

  /**
   * `findByGuestNameContainingIgnoreCase` compares upper-cased text: the same text up to case,
   * with no lower-case letter left.
   */
  function UpperCase(s: string): (u: string)
    ensures SameUpToAsciiCase(s, u)
    ensures forall i :: 0 <= i < |u| ==> !('a' <= u[i] <= 'z')
  {
    seq(|s|, i requires 0 <= i < |s| => UpperChar(s[i]))
  }

  /** Those two properties pin the upper-cased text down: it is the only such variant. */
  lemma UpperCaseIsTheOnlyUpperVariant(s: string, u: string)
    requires SameUpToAsciiCase(s, u)
    requires forall i :: 0 <= i < |u| ==> !('a' <= u[i] <= 'z')
    ensures u == UpperCase(s)
  {
    assert forall i :: 0 <= i < |s| ==> u[i] == UpperCase(s)[i];
  }

  lemma UpperCaseIdempotent(s: string)
    ensures UpperCase(UpperCase(s)) == UpperCase(s)
  {
  }

  /** Texts equal up to case upper-case to the same text. */
  lemma UpperCaseIgnoresCase(a: string, b: string)
    requires SameUpToAsciiCase(a, b)
    ensures UpperCase(a) == UpperCase(b)
  {
    assert forall i :: 0 <= i < |a| ==> UpperCase(a)[i] == UpperCase(b)[i];
  }

  /** `needle` occurs in `hay`, checked position by position. */
  predicate Contains(hay: string, needle: string)
    decreases |hay|
  {
    needle <= hay || (|hay| > 0 && Contains(hay[1..], needle))
  }

  /** `needle` sits in `hay` at offset `k`. */
  predicate OccursAt(hay: string, needle: string, k: int) {
    0 <= k <= |hay| - |needle| && hay[k..k + |needle|] == needle
  }

  /** `Contains` agrees with the definition by an occurrence at some offset. */
  lemma {:induction false} ContainsIffOccursAt(hay: string, needle: string)
    ensures Contains(hay, needle) <==> exists k :: OccursAt(hay, needle, k)
  {
    if needle <= hay {
      assert OccursAt(hay, needle, 0);
    } else if |hay| > 0 {
      ContainsIffOccursAt(hay[1..], needle);
      if exists k :: OccursAt(hay, needle, k) {
        var k :| OccursAt(hay, needle, k);
        assert k != 0;
        assert OccursAt(hay[1..], needle, k - 1);
      }
      if Contains(hay[1..], needle) {
        var k :| OccursAt(hay[1..], needle, k);
        assert OccursAt(hay, needle, k + 1);
      }
    }
  }

  predicate NameMatches(r: ReservationRow, name: string) {
    r.guestName.Some? && Contains(UpperCase(r.guestName.value), UpperCase(name))
  }

  /** `findByGuestNameContainingIgnoreCase`: the rows whose guest name contains `name`, ignoring case. */
  function FindByGuestNameContainingIgnoreCase(rows: seq<ReservationRow>, name: string): (found: seq<ReservationRow>)
    ensures forall x :: x in found <==> x in rows && NameMatches(x, name)
  {
    Filter(rows, (r: ReservationRow) => NameMatches(r, name))
  }

  /** Filtering by two tests that agree on every row selects the same rows. */
  lemma {:induction false} FilterCongruent(rows: seq<ReservationRow>, p: ReservationRow -> bool, q: ReservationRow -> bool)
    requires forall x :: p(x) == q(x)
    ensures Filter(rows, p) == Filter(rows, q)
  {
    if rows != [] {
      FilterCongruent(rows[..|rows| - 1], p, q);
    }
  }

  /** The search ignores the case of the search text: variants of it select the same rows. */
  lemma SearchIgnoresCaseOfText(rows: seq<ReservationRow>, a: string, b: string)
    requires SameUpToAsciiCase(a, b)
    ensures FindByGuestNameContainingIgnoreCase(rows, a) == FindByGuestNameContainingIgnoreCase(rows, b)
  {
    UpperCaseIgnoresCase(a, b);
    FilterCongruent(rows, (r: ReservationRow) => NameMatches(r, a), (r: ReservationRow) => NameMatches(r, b));
  }

  /** The search ignores the case of the stored name: a row matches as any case variant of itself would. */
  lemma SearchIgnoresCaseOfName(r: ReservationRow, name: string, other: string)
    requires r.guestName.Some? && SameUpToAsciiCase(r.guestName.value, other)
    ensures NameMatches(r, name) <==> NameMatches(r.(guestName := Some(other)), name)
  {
    UpperCaseIgnoresCase(r.guestName.value, other);
  }

  /** The empty search text matches every row that has a guest name. */
  lemma EmptySearchMatchesEveryName(r: ReservationRow)
    requires r.guestName.Some?
    ensures NameMatches(r, "")
  {
  }

  /** `findActiveReservationsOnDate`: rows in `status` whose stay covers `date`, both ends included. */
  function FindActiveReservationsOnDate(rows: seq<ReservationRow>, date: Date, status: ReservationStatus): (found: seq<ReservationRow>)
    ensures forall x :: x in found <==>
      (x in rows && x.status == status
       && x.checkInDate.Some? && x.checkInDate.value <= date && x.checkOutDate.Some? && date <= x.checkOutDate.value)
  {
    Filter(rows, (r: ReservationRow) => r.checkInDate.Some? && r.checkInDate.value <= date
                      && r.checkOutDate.Some? && r.checkOutDate.value >= date && r.status == status)
  }

  /** `findByCheckInDateBetween`: rows checking in from `startDate` to `endDate`, both included. */
  function FindByCheckInDateBetween(rows: seq<ReservationRow>, startDate: Date, endDate: Date): (found: seq<ReservationRow>)
    ensures forall x :: x in found <==> x in rows && x.checkInDate.Some? && startDate <= x.checkInDate.value <= endDate
  {
    Filter(rows, (r: ReservationRow) => r.checkInDate.Some? && startDate <= r.checkInDate.value <= endDate)
  }

  /** Index of the first row carrying `number`, from position `from` on. */
  function FindIndexFrom(rows: seq<ReservationRow>, number: string, from: nat): (k: Option<nat>)
    requires from <= |rows|
    ensures k.Some? ==> from <= k.value < |rows| && rows[k.value].reservationNumber == Some(number)
    ensures k.Some? ==> forall j :: from <= j < k.value ==> rows[j].reservationNumber != Some(number)
    ensures k.None? ==> forall j :: from <= j < |rows| ==> rows[j].reservationNumber != Some(number)
    decreases |rows| - from
  {
    if from == |rows| then None
    else if rows[from].reservationNumber == Some(number) then Some(from)
    else FindIndexFrom(rows, number, from + 1)
  }

  function FindIndex(rows: seq<ReservationRow>, number: string): Option<nat> {
    FindIndexFrom(rows, number, 0)
  }

  /** `findByReservationNumber`: the row carrying `number`, if any. */
  function FindByReservationNumber(rows: seq<ReservationRow>, number: string): (found: Option<ReservationRow>)
    ensures found.Some? ==> found.value in rows && found.value.reservationNumber == Some(number)
    ensures found.None? ==> forall x :: x in rows ==> x.reservationNumber != Some(number)
  {
    match FindIndex(rows, number)
    case None => None
    case Some(k) => Some(rows[k])
  }

  /** No two rows share a reservation number. */
  ghost predicate UniqueNumbers(rows: seq<ReservationRow>) {
    forall i, j :: 0 <= i < |rows| && 0 <= j < |rows| && i != j ==> rows[i].reservationNumber != rows[j].reservationNumber
  }

  /** With unique numbers, the lookup finds the one row that carries the number. */
  lemma FindIndexIsTheOnlyMatch(rows: seq<ReservationRow>, number: string, i: nat)
    requires UniqueNumbers(rows)
    requires i < |rows| && rows[i].reservationNumber == Some(number)
    ensures FindIndex(rows, number) == Some(i)
    ensures FindByReservationNumber(rows, number) == Some(rows[i])
  {
  }

  /** True when `number` is set and carried by no row other than the one at `except` (if any). */
  predicate NumberFree(rows: seq<ReservationRow>, number: Option<string>, except: Option<nat>) {
    number.Some? && forall j :: 0 <= j < |rows| && Some(j) != except ==> rows[j].reservationNumber != number
  }

  /**
   * What a flush writes for an entity loaded as `stored` and now holding `current`: nothing
   * new when it is unchanged, and otherwise the entity after its pre-update hook.
   */
  function Merged(stored: ReservationRow, current: ReservationRow, now: Instant): (r: ReservationRow)
    ensures current == stored ==> r == stored
    ensures current != stored ==> r.SameDetails(current) && r.updatedAt == Some(now)
    ensures current != stored ==> r.totalAmount == current.RecalculatedTotal()
    ensures r.id == current.id && r.reservationNumber == current.reservationNumber && r.createdAt == current.createdAt
  {
    if current == stored then stored else current.Updated(now)
  }

  /**
   * Why the database refuses a write: a reservation number already stored (the unique
   * column), or a total too large for its `DECIMAL(10, 2)` column.
   */
  datatype StoreError = ConstraintViolation | ValueOutOfRange

  /** `totalAmount` holds at most ten digits, two of them after the point. */
  const TotalLimit: int := 100_000_000

  predicate TotalFits(r: ReservationRow) {
    r.totalAmount.None? || -TotalLimit < r.totalAmount.value < TotalLimit
  }

  /**
   * What the table guarantees of its rows: the identity column numbers them from 1, every
   * number is present and unique, every total fits its column and agrees with the stay.
   */
  ghost predicate StoreInvariant(rows: seq<ReservationRow>) {
    && (forall i :: 0 <= i < |rows| ==> rows[i].id == Some(i + 1))
    && (forall i :: 0 <= i < |rows| ==> rows[i].reservationNumber.Some?)
    && UniqueNumbers(rows)
    && (forall i :: 0 <= i < |rows| ==> PriceConsistent(rows[i]) && TotalFits(rows[i]))
  }

  /** An insert that takes the next id, a free number and a fitting, consistent total keeps the invariant. */
  lemma AppendKeepsInvariant(rows: seq<ReservationRow>, row: ReservationRow)
    requires StoreInvariant(rows)
    requires row.id == Some(|rows| + 1) && NumberFree(rows, row.reservationNumber, None)
    requires PriceConsistent(row) && TotalFits(row)
    ensures StoreInvariant(rows + [row])
  {
    var rows' := rows + [row];
    assert forall i :: 0 <= i < |rows| ==> rows'[i] == rows[i];
  }

  /** Rewriting a row in place with its own id, a number no other row holds and a fitting, consistent total keeps the invariant. */
  lemma ReplaceKeepsInvariant(rows: seq<ReservationRow>, i: nat, row: ReservationRow)
    requires StoreInvariant(rows) && i < |rows|
    requires row.id == Some(i + 1) && NumberFree(rows, row.reservationNumber, Some(i))
    requires PriceConsistent(row) && TotalFits(row)
    ensures StoreInvariant(rows[i := row])
  {
  }

  /** The reservations table. Rows are never deleted. */
  class ReservationRepository {
    var rows: seq<ReservationRow>

    ghost predicate Valid()
      reads this
    {
      StoreInvariant(rows)
    }

    constructor ()
      ensures Valid() && rows == []
    {
      rows := [];
    }

    /** `findAll`: every stored row, in the order of their ids. */
    function FindAll(): (all: seq<ReservationRow>)
      reads this
      ensures |all| == |rows| && forall x :: x in all <==> x in rows
      ensures Valid() ==> forall i :: 0 <= i < |all| ==> all[i].id == Some(i + 1)
    {
      rows
    }

    /**
     * `save`: an entity without an id is new and is persisted; one with an id was loaded from
     * the row with that id and is merged.
     */
    method Save(entity: Reservation, clock: Clock) returns (result: Result<ReservationRow, StoreError>)
      requires Valid()
      requires entity.id.None? || 1 <= entity.id.value <= |rows|
      modifies this, entity
      ensures Valid()
      ensures old(entity.id).None? ==>
        PersistOutcome(old(rows), old(entity.Row()), clock.now, clock.millis, rows, entity.Row(), result)
      ensures old(entity.id).Some? ==>
        MergeOutcome(old(rows), old(entity.id).value - 1, old(entity.Row()), clock.now, rows, entity.Row(), result)
    {
      if entity.id.None? {
        result := Persist(entity, clock.now, clock.millis);
      } else {
        result := Merge(entity, clock.now);
      }
    }

    /**
     * The pre-persist hook runs on the entity; the insert then takes the next identity unless
     * the total does not fit its column or the number is already stored.
     */
    method Persist(entity: Reservation, now: Instant, millis: nat) returns (result: Result<ReservationRow, StoreError>)
      requires Valid() && entity.id.None?
      modifies this, entity
      ensures Valid()
      ensures PersistOutcome(old(rows), old(entity.Row()), now, millis, rows, entity.Row(), result)
    {
      ghost var before := entity.Row();
      entity.OnCreate(now, millis);
      HooksPriceConsistently(before, now, millis);
      if !TotalFits(entity.Row()) {
        result := Failure(ValueOutOfRange);
      } else if NumberFree(rows, entity.reservationNumber, None) {
        entity.id := Some(|rows| + 1);
        var row := entity.Row();
        AppendKeepsInvariant(rows, row);
        rows := rows + [row];
        result := Success(row);
      } else {
        result := Failure(ConstraintViolation);
      }
    }

    /**
     * Flushes an entity loaded from row `id - 1`: unchanged, nothing is written; changed, the
     * pre-update hook runs and the row is rewritten unless its total does not fit or its
     * number belongs to another row.
     */
    method Merge(entity: Reservation, now: Instant) returns (result: Result<ReservationRow, StoreError>)
      requires Valid() && entity.id.Some? && 1 <= entity.id.value <= |rows|
      modifies this, entity
      ensures Valid()
      ensures MergeOutcome(old(rows), old(entity.id).value - 1, old(entity.Row()), now, rows, entity.Row(), result)
    {
      var i := entity.id.value - 1;
      if entity.Row() == rows[i] {
        result := Success(rows[i]);
      } else {
        ghost var before := entity.Row();
        entity.OnUpdate(now);
        HooksPriceConsistently(before, now, 0);
        var row := entity.Row();
        if !TotalFits(row) {
          result := Failure(ValueOutOfRange);
        } else if NumberFree(rows, row.reservationNumber, Some(i)) {
          ReplaceKeepsInvariant(rows, i, row);
          rows := rows[i := row];
          result := Success(row);
        } else {
          result := Failure(ConstraintViolation);
        }
      }
    }
  }

  /**
   * Persisting the entity `before` into `rows`: the hook's result `created` is inserted with the
   * next identity when its total fits and its number is free; otherwise nothing is stored.
   */
  ghost predicate PersistOutcome(rows: seq<ReservationRow>, before: ReservationRow, now: Instant, millis: nat,
                                 rows': seq<ReservationRow>, after: ReservationRow, result: Result<ReservationRow, StoreError>)
  {
    var created := before.Created(now, millis);
    if !TotalFits(created) then
      result == Failure(ValueOutOfRange) && rows' == rows && after == created
    else if NumberFree(rows, created.reservationNumber, None) then
      var row := created.(id := Some(|rows| + 1));
      result == Success(row) && rows' == rows + [row] && after == row
    else
      result == Failure(ConstraintViolation) && rows' == rows && after == created
  }

  /**
   * Merging the entity `before`, loaded from `rows[i]`: an unchanged entity writes nothing; a
   * changed one replaces `rows[i]` unless its total does not fit or its number belongs to
   * another row, in which case nothing is stored.
   */
  ghost predicate MergeOutcome(rows: seq<ReservationRow>, i: int, before: ReservationRow, now: Instant,
                               rows': seq<ReservationRow>, after: ReservationRow, result: Result<ReservationRow, StoreError>)
    requires 0 <= i < |rows|
  {
    var row := Merged(rows[i], before, now);
    && after == (if before == rows[i] then before else row)
    && if before == rows[i] || (TotalFits(row) && NumberFree(rows, row.reservationNumber, Some(i))) then
         result == Success(row) && rows' == rows[i := row]
       else if !TotalFits(row) then
         result == Failure(ValueOutOfRange) && rows' == rows
       else
         result == Failure(ConstraintViolation) && rows' == rows
  }
}
