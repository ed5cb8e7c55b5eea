/** The closed set of room categories and their nightly rates (whole LKR). */
module RoomTypes {

  datatype RoomType = STANDARD | DELUXE | SUITE | FAMILY | PRESIDENTIAL

  /** Position of a room type in declaration order (the enum's ordinal). */
  function Ordinal(t: RoomType): (k: nat)
    ensures k < 5
  {
    match t
    case STANDARD => 0
    case DELUXE => 1
    case SUITE => 2
    case FAMILY => 3
    case PRESIDENTIAL => 4
  }

  /** All room types in declaration order (the enum's `values()`). */
  function Values(): (vs: seq<RoomType>)
    ensures |vs| == 5
    ensures forall t: RoomType :: vs[Ordinal(t)] == t
    ensures forall i :: 0 <= i < |vs| ==> Ordinal(vs[i]) == i
  {
    [STANDARD, DELUXE, SUITE, FAMILY, PRESIDENTIAL]
  }

  /** The nightly rate each constant is constructed with. */
  function RatePerNight(t: RoomType): (rate: nat)
    ensures rate > 0
  {
    match t
    case STANDARD => 5000
    case DELUXE => 8000
    case SUITE => 12000
    case FAMILY => 15000
    case PRESIDENTIAL => 25000
  }

  /** A later-declared room type is strictly dearer. */
  lemma RatesIncreaseInDeclarationOrder(a: RoomType, b: RoomType)
    requires Ordinal(a) < Ordinal(b)
    ensures RatePerNight(a) < RatePerNight(b)
  {
  }

  /** The price of a stay of `nights` nights: positive whenever the stay is. */
  lemma PositiveStayHasPositivePrice(t: RoomType, nights: int)
    requires nights > 0
    ensures RatePerNight(t) * nights > 0
  {
  }
}
