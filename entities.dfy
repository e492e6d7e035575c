/** The records the hotel service reads, and the store it reads them from. */
module Entities {

  type UserId = int
  type EnrollmentId = int
  type TicketId = int
  type TicketTypeId = int
  type HotelId = int
  type RoomId = int

  /** A user's registration for the event (the address it is fetched with is never read). */
  datatype Enrollment = Enrollment(id: EnrollmentId, userId: UserId)

  datatype TicketStatus = Reserved | Paid

  datatype Ticket = Ticket(id: TicketId, status: TicketStatus, ticketTypeId: TicketTypeId, enrollmentId: EnrollmentId)

  datatype TicketType = TicketType(id: TicketTypeId, isRemote: bool, includesHotel: bool)

  /** Timestamps are kept as opaque integers; the service never looks at them. */
  datatype Hotel = Hotel(id: HotelId, name: string, image: string, createdAt: int, updatedAt: int)

  datatype Room = Room(id: RoomId, name: string, capacity: nat, hotelId: HotelId, createdAt: int, updatedAt: int)

  /** A hotel row fetched together with the rooms it owns. */
  datatype HotelWithRooms = HotelWithRooms(hotel: Hotel, rooms: seq<Room>)

  /** What the service's collaborators answer, as immutable lookups:
      enrollments by user, tickets by enrollment, ticket types by id,
      the list of all hotels, and each hotel with its rooms by hotel id. */
  datatype Store = Store(
    enrollments: map<UserId, Enrollment>,
    tickets: map<EnrollmentId, Ticket>,
    ticketTypes: map<TicketTypeId, TicketType>,
    hotels: seq<Hotel>,
    hotelRooms: map<HotelId, HotelWithRooms>)

  /** Each lookup is an index over its table: the key is the record's own field. */
  ghost predicate Indexed(s: Store) {
    && (forall u :: u in s.enrollments ==> s.enrollments[u].userId == u)
    && (forall e :: e in s.tickets ==> s.tickets[e].enrollmentId == e)
    && (forall k :: k in s.ticketTypes ==> s.ticketTypes[k].id == k)
  }

  /** The rows of the room table `rooms` that belong to hotel `hotelId`: what a hotel
      is fetched together with. Each row is taken at most as often as the table holds it. */
  function RoomsOf(rooms: seq<Room>, hotelId: HotelId): (r: seq<Room>)
    ensures forall room :: room in r <==> room in rooms && room.hotelId == hotelId
    ensures multiset(r) <= multiset(rooms)
  {
    if rooms == [] then []
    else
      assert rooms == [rooms[0]] + rooms[1..];
      if rooms[0].hotelId == hotelId then [rooms[0]] + RoomsOf(rooms[1..], hotelId)
      else RoomsOf(rooms[1..], hotelId)
  }

  /** The hotel list and the per-hotel lookup read the same hotel table, and the
      per-hotel lookup joins each hotel with its rows of the room table `rooms`. */
  ghost predicate HotelsConsistent(s: Store, rooms: seq<Room>) {
    && (forall i :: 0 <= i < |s.hotels| ==>
          && s.hotels[i].id in s.hotelRooms
          && s.hotelRooms[s.hotels[i].id] == HotelWithRooms(s.hotels[i], RoomsOf(rooms, s.hotels[i].id)))
    && (forall h :: h in s.hotelRooms ==> s.hotelRooms[h].hotel in s.hotels && s.hotelRooms[h].hotel.id == h)
  }
}
