/**
 * The records the cancellation route reads and writes, as an immutable
 * in-memory store keyed by id. Only the fields the route looks at are kept.
 */
module BookingStore {

  /** Record ids are strings (UUIDs in the database). */
  type Id = string

  /** The status value every cancellation writes. */
  const CANCELLED: string := "CANCELLED"

  datatype User = User(lastName: string)

  /** The user-facing trip record that groups a flight and/or a hotel booking. */
  datatype Booking = Booking(userId: Id, status: string)

  /** Local copy of a booking held by the remote flight system. */
  datatype FlightBooking = FlightBooking(reference: string, status: string)

  datatype HotelBooking = HotelBooking(hotelId: Id, roomTypeId: Id, checkIn: string, checkOut: string, status: string)

  datatype Store = Store(
    users: map<Id, User>,
    bookings: map<Id, Booking>,
    flights: map<Id, FlightBooking>,
    hotels: map<Id, HotelBooking>)

  /**
   * `s2` differs from `s1` at most in the status of the booking `bookingId`,
   * the flight booking `flightId` and the hotel booking `hotelId`, and every
   * status that changed is now CANCELLED.
   */
  ghost predicate OnlyStatusesOf(s1: Store, s2: Store, bookingId: Id, flightId: Id, hotelId: Id) {
    && s2.users == s1.users
    && s2.bookings.Keys == s1.bookings.Keys
    && s2.flights.Keys == s1.flights.Keys
    && s2.hotels.Keys == s1.hotels.Keys
    && (forall k :: k in s1.bookings ==>
          s2.bookings[k] == s1.bookings[k]
          || (k == bookingId && s2.bookings[k] == s1.bookings[k].(status := CANCELLED)))
    && (forall k :: k in s1.flights ==>
          s2.flights[k] == s1.flights[k]
          || (k == flightId && s2.flights[k] == s1.flights[k].(status := CANCELLED)))
    && (forall k :: k in s1.hotels ==>
          s2.hotels[k] == s1.hotels[k]
          || (k == hotelId && s2.hotels[k] == s1.hotels[k].(status := CANCELLED)))
  }
}
