/** The lifecycle states a reservation can be in. */
module ReservationStatuses {

  datatype ReservationStatus = CONFIRMED | CHECKED_IN | CHECKED_OUT | CANCELLED | NO_SHOW
}
