/** The entities the booking core reads and writes, with only the attributes it uses. */
module Entities {
  import opened Dates

  type BookingId = nat
  type RoomId = nat
  type ReservationId = nat

  /** A booking status; the core only notices whether it changed. */
  type Status = string

  /** The attribute values of a booking at one moment. */
  datatype BookingState = BookingState(
    arrivalDate: Day,
    departureDate: Day,
    nightsOfStay: int,
    numberOfGuests: int,
    status: Status)

  /** A booking entity; its attributes are updated in place when it is saved. */
  class Booking {
    const id: BookingId
    var arrivalDate: Day
    var departureDate: Day
    var nightsOfStay: int
    var numberOfGuests: int
    var status: Status

    constructor (id: BookingId, state: BookingState)
      ensures this.id == id && State() == state
    {
      this.id := id;
      arrivalDate := state.arrivalDate;
      departureDate := state.departureDate;
      nightsOfStay := state.nightsOfStay;
      numberOfGuests := state.numberOfGuests;
      status := state.status;
    }

    /** The booking's current attribute values. */
    function State(): (s: BookingState)
      reads this
    {
      BookingState(arrivalDate, departureDate, nightsOfStay, numberOfGuests, status)
    }
  }

  /** A room; entity identity is its id. */
  datatype Room = Room(id: RoomId, sleepingPlaces: int)

  /** A reservation links one booking to one room. */
  datatype RoomReservation = RoomReservation(id: ReservationId, booking: Booking, room: Room)
}
