/**
 * The booking request a client submits, and the bean-validation constraints on it read
 * as one validity predicate. A null member is `None`; a constraint other than the
 * not-null and not-blank ones accepts a null member.
 */
module ReservationRequests {
  import opened Wrappers
  import opened RoomTypes
  import opened Reservations

  datatype ReservationRequest = ReservationRequest(
    guestName: Option<string>,
    address: Option<string>,
    contactNumber: Option<string>,
    email: Option<string>,
    roomType: Option<RoomType>,
    checkInDate: Option<Date>,
    checkOutDate: Option<Date>,
    numberOfGuests: Option<int>,
    specialRequests: Option<string>)

  /** Every character is at or below U+0020, the characters `String.trim` removes. */
  predicate AllBlank(s: string) {
    forall i :: 0 <= i < |s| ==> s[i] <= ' '
  }

  /**
   * Java's `String.trim`: drop every leading and trailing character at or below U+0020.
   * What is left is empty exactly when `s` has nothing else, and otherwise starts and ends
   * with a visible character.
   */
  function Trim(s: string): (t: string)
    ensures |t| <= |s|
    ensures t != [] ==> t[0] > ' ' && t[|t| - 1] > ' '
    ensures t == [] <==> AllBlank(s)
  {
    TrimEnds(s);
    TrimTrailing(TrimLeading(s))
  }

  /** What trimming leaves starts with a visible character, and is empty only for blank text. */
  lemma TrimEnds(s: string)
    ensures var t := TrimTrailing(TrimLeading(s));
      && (t != [] ==> t[0] > ' ')
      && (t == [] <==> AllBlank(s))
  {
    var l := TrimLeading(s);
    TrimLeadingEmptyIffAllBlank(s);
    if l != [] {
      TrimTrailingKeepsVisible(l);
      assert TrimTrailing(l)[0] == l[0];
    }
  }

  function TrimLeading(s: string): (t: string)
    ensures |t| <= |s|
    ensures t == [] || t[0] > ' '
    ensures t == s[|s| - |t|..]
    ensures AllBlank(s[..|s| - |t|])
  {
    if |s| > 0 && s[0] <= ' ' then
      var t := TrimLeading(s[1..]);
      assert s[..|s| - |t|] == [s[0]] + s[1..][..|s| - 1 - |t|];
      t
    else s
  }

  function TrimTrailing(s: string): (t: string)
    ensures |t| <= |s|
    ensures t == [] || t[|t| - 1] > ' '
    ensures t == s[..|t|]
    ensures AllBlank(s[|t|..])
  {
    if |s| > 0 && s[|s| - 1] <= ' ' then
      var t := TrimTrailing(s[..|s| - 1]);
      assert forall i :: 0 <= i < |s| - 1 - |t| ==> s[|t|..][i] == s[..|s| - 1][|t|..][i];
      t
    else s
  }

  lemma {:induction false} TrimLeadingEmptyIffAllBlank(s: string)
    ensures TrimLeading(s) == [] <==> AllBlank(s)
  {
    if |s| > 0 && s[0] <= ' ' {
      TrimLeadingEmptyIffAllBlank(s[1..]);
      assert forall i :: 1 <= i < |s| ==> s[i] == s[1..][i - 1];
    } else if TrimLeading(s) == [] {
      assert s[..|s|] == s;
    }
  }

  lemma {:induction false} TrimTrailingKeepsVisible(t: string)
    requires t != [] && t[0] > ' '
    ensures TrimTrailing(t) != []
  {
    if t[|t| - 1] <= ' ' {
      assert |t| > 1;
      TrimTrailingKeepsVisible(t[..|t| - 1]);
    }
  }

  /** `@NotBlank`: present, and not empty once trimmed, so holding a character above U+0020. */
  predicate NotBlank(s: Option<string>): (b: bool)
    ensures b <==> s.Some? && exists i :: 0 <= i < |s.value| && s.value[i] > ' '
  {
    s.Some? && |Trim(s.value)| > 0
  }

  predicate IsDigit(c: char) {
    '0' <= c <= '9'
  }

  /** `@Pattern("^[0-9]{10}$")`, for a present value; such a value is never blank. */
  predicate TenDigits(s: string): (b: bool)
    ensures b ==> |s| == 10 && NotBlank(Some(s))
  {
    var b := |s| == 10 && forall i :: 0 <= i < |s| ==> IsDigit(s[i]);
    assert b ==> s[0] > ' ';
    b
  }

  /**
   * Every constraint on the request, with `today` the validator's current date and
   * `isEmail` the `@Email` check, which is not modelled.
   */
  predicate Valid(req: ReservationRequest, today: Date, isEmail: string -> bool): (v: bool)
    ensures v ==> && req.guestName.Some? && req.address.Some? && req.contactNumber.Some?
                  && req.roomType.Some? && req.checkInDate.Some? && req.checkOutDate.Some?
    ensures v ==> && (exists i :: 0 <= i < |req.guestName.value| && req.guestName.value[i] > ' ')
                  && (exists i :: 0 <= i < |req.address.value| && req.address.value[i] > ' ')
                  && |req.contactNumber.value| == 10
    ensures v ==> today <= req.checkInDate.value && today < req.checkOutDate.value
  {
    && NotBlank(req.guestName) && 2 <= |req.guestName.value| <= 100
    && NotBlank(req.address)
    && NotBlank(req.contactNumber) && TenDigits(req.contactNumber.value)
    && (req.email.None? || isEmail(req.email.value))
    && req.roomType.Some?
    && req.checkInDate.Some? && req.checkInDate.value >= today
    && req.checkOutDate.Some? && req.checkOutDate.value > today
    && (req.numberOfGuests.None? || 1 <= req.numberOfGuests.value <= 10)
  }

  /** A request for a stay that ends before it starts can still be valid. */
  lemma ValidityDoesNotOrderDates()
    ensures var req := ReservationRequest(Some("Jo"), Some("1 Beach Rd"), Some("0771234567"), None,
                                          Some(DELUXE), Some(12), Some(11), None, None);
            Valid(req, 10, _ => true) && req.checkOutDate.value < req.checkInDate.value
  {
    var req := ReservationRequest(Some("Jo"), Some("1 Beach Rd"), Some("0771234567"), None,
                                  Some(DELUXE), Some(12), Some(11), None, None);
    assert "Jo"[0] > ' ' && "1 Beach Rd"[0] > ' ';
    assert TenDigits("0771234567");
    assert NotBlank(req.guestName) && NotBlank(req.address) && NotBlank(req.contactNumber);
  }
}
