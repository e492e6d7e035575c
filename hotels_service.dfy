/** The hotel service: an eligibility check on the user's enrollment, ticket and
    ticket type, followed by a read of the hotel list or of one hotel with its rooms. */
module HotelsService {
  import opened Results
  import opened Entities

  /** The gate on hotel data: a paid ticket for an in-person event that includes a hotel. */
  predicate HotelEligible(ticket: Ticket, ticketType: TicketType) {
    ticket.status == Paid && !ticketType.isRemote && ticketType.includesHotel
  }

  /** The chain both operations run before reading hotels: enrollment of the user,
      ticket of the enrollment, type of the ticket, then the eligibility gate.
      The status is tested before the ticket type is dereferenced, so an unpaid
      ticket is refused with PaymentRequired even when its type is missing. */
  function CheckEligibility(s: Store, userId: UserId): (r: Result<Ticket>)
    // no enrollment
    ensures userId !in s.enrollments ==> r == Fail(NotFound)
    // an enrollment without a ticket
    ensures userId in s.enrollments && s.enrollments[userId].id !in s.tickets ==> r == Fail(NotFound)
    // an unpaid ticket, whatever its type says (or whether it has one)
    ensures userId in s.enrollments && s.enrollments[userId].id in s.tickets
            && s.tickets[s.enrollments[userId].id].status != Paid
            ==> r == Fail(PaymentRequired)
    // a paid ticket for a remote event, or for one without a hotel
    ensures userId in s.enrollments && s.enrollments[userId].id in s.tickets
            && s.tickets[s.enrollments[userId].id].ticketTypeId in s.ticketTypes
            && !HotelEligible(s.tickets[s.enrollments[userId].id],
                              s.ticketTypes[s.tickets[s.enrollments[userId].id].ticketTypeId])
            ==> r == Fail(PaymentRequired)
    // a paid ticket whose type is missing: the runtime failure
    ensures userId in s.enrollments && s.enrollments[userId].id in s.tickets
            && s.tickets[s.enrollments[userId].id].status == Paid
            && s.tickets[s.enrollments[userId].id].ticketTypeId !in s.ticketTypes
            ==> r == Fail(NullTicketType)
    // a paid, in-person ticket whose type includes a hotel passes, handing back that ticket
    ensures userId in s.enrollments && s.enrollments[userId].id in s.tickets
            && s.tickets[s.enrollments[userId].id].ticketTypeId in s.ticketTypes
            && HotelEligible(s.tickets[s.enrollments[userId].id],
                             s.ticketTypes[s.tickets[s.enrollments[userId].id].ticketTypeId])
            ==> r == Ok(s.tickets[s.enrollments[userId].id])
    // success hands back the user's own ticket, and it is eligible
    ensures r.Ok? ==>
              && userId in s.enrollments && s.enrollments[userId].id in s.tickets
              && r.value == s.tickets[s.enrollments[userId].id]
              && r.value.ticketTypeId in s.ticketTypes
              && HotelEligible(r.value, s.ticketTypes[r.value.ticketTypeId])
  {
    if userId !in s.enrollments then Fail(NotFound)
    else
      var enrollment := s.enrollments[userId];
      if enrollment.id !in s.tickets then Fail(NotFound)
      else
        var ticket := s.tickets[enrollment.id];
        if ticket.status != Paid then Fail(PaymentRequired)
        else if ticket.ticketTypeId !in s.ticketTypes then Fail(NullTicketType)
        else if !HotelEligible(ticket, s.ticketTypes[ticket.ticketTypeId]) then Fail(PaymentRequired)
        else Ok(ticket)
  }

  /** List all hotels for an eligible user; an empty inventory is NotFound. */
  function GetHotels(s: Store, userId: UserId): (r: Result<seq<Hotel>>)
    // a refused user gets the eligibility error unchanged
    ensures CheckEligibility(s, userId).Fail? ==> r == Fail(CheckEligibility(s, userId).error)
    // success exactly for an eligible user and a non-empty inventory
    ensures r.Ok? <==> CheckEligibility(s, userId).Ok? && |s.hotels| > 0
    // the list is returned as stored
    ensures r.Ok? ==> r.value == s.hotels && |r.value| > 0
    // an eligible user sees NotFound only for an empty inventory
    ensures CheckEligibility(s, userId).Ok? && r.Fail? ==> r.error == NotFound && s.hotels == []
  {
    var _ :- CheckEligibility(s, userId);
    if |s.hotels| == 0 then Fail(NotFound) else Ok(s.hotels)
  }

  /** One hotel with its rooms for an eligible user; an unknown id is NotFound. */
  function GetHotelById(s: Store, userId: UserId, hotelId: HotelId): (r: Result<HotelWithRooms>)
    // a refused user gets the eligibility error unchanged
    ensures CheckEligibility(s, userId).Fail? ==> r == Fail(CheckEligibility(s, userId).error)
    // success exactly for an eligible user and a hotel the store holds
    ensures r.Ok? <==> CheckEligibility(s, userId).Ok? && hotelId in s.hotelRooms
    // the record is returned as stored, rooms included
    ensures r.Ok? ==> hotelId in s.hotelRooms && r.value == s.hotelRooms[hotelId]
    // an eligible user sees NotFound only for an unknown hotel
    ensures CheckEligibility(s, userId).Ok? && r.Fail? ==> r.error == NotFound && hotelId !in s.hotelRooms
  {
    var _ :- CheckEligibility(s, userId);
    if hotelId !in s.hotelRooms then Fail(NotFound) else Ok(s.hotelRooms[hotelId])
  }

  // ----- A reference definition of eligibility over the stored records -----

  /** Some stored enrollment belongs to the user, some stored ticket belongs to that
      enrollment, and some stored ticket type is that ticket's type and makes it
      hotel-eligible: stated over the stored records, whatever key they are filed under. */
  ghost predicate HoldsHotelTicket(s: Store, userId: UserId) {
    exists u, k, j ::
      && u in s.enrollments && k in s.tickets && j in s.ticketTypes
      && s.enrollments[u].userId == userId
      && s.tickets[k].enrollmentId == s.enrollments[u].id
      && s.ticketTypes[j].id == s.tickets[k].ticketTypeId
      && HotelEligible(s.tickets[k], s.ticketTypes[j])
  }

  /** Some stored enrollment belongs to the user and some stored ticket belongs to it. */
  ghost predicate HoldsTicket(s: Store, userId: UserId) {
    exists u, k ::
      && u in s.enrollments && k in s.tickets
      && s.enrollments[u].userId == userId
      && s.tickets[k].enrollmentId == s.enrollments[u].id
  }

  /** On an indexed store the lookup chain passes exactly for holders of a hotel-eligible ticket. */
  lemma EligibleIffHoldsHotelTicket(s: Store, userId: UserId)
    requires Indexed(s)
    ensures CheckEligibility(s, userId).Ok? <==> HoldsHotelTicket(s, userId)
  {
  }

  /** On an indexed store the chain reports NotFound exactly when the user owns no ticket. */
  lemma NotFoundIffNoTicket(s: Store, userId: UserId)
    requires Indexed(s)
    ensures CheckEligibility(s, userId) == Fail(NotFound) <==> !HoldsTicket(s, userId)
  {
  }

  // ----- Properties relating the two operations -----

  /** The decision table, row by row, for both operations: the checks run in order
      (enrollment, ticket, payment gate, hotel read) and an earlier failure masks the later ones. */
  lemma DecisionTable(s: Store, userId: UserId, hotelId: HotelId)
    // no enrollment: NotFound, whatever tickets or hotels exist
    ensures userId !in s.enrollments ==>
              GetHotels(s, userId) == Fail(NotFound) && GetHotelById(s, userId, hotelId) == Fail(NotFound)
    // an enrollment but no ticket: NotFound
    ensures userId in s.enrollments && s.enrollments[userId].id !in s.tickets ==>
              GetHotels(s, userId) == Fail(NotFound) && GetHotelById(s, userId, hotelId) == Fail(NotFound)
    // a ticket that is not paid: PaymentRequired, whatever its type
    ensures userId in s.enrollments && s.enrollments[userId].id in s.tickets
            && s.tickets[s.enrollments[userId].id].status != Paid ==>
              GetHotels(s, userId) == Fail(PaymentRequired)
              && GetHotelById(s, userId, hotelId) == Fail(PaymentRequired)
    // a paid ticket of a remote type, or of one without a hotel: PaymentRequired
    ensures userId in s.enrollments && s.enrollments[userId].id in s.tickets
            && s.tickets[s.enrollments[userId].id].ticketTypeId in s.ticketTypes
            && (s.ticketTypes[s.tickets[s.enrollments[userId].id].ticketTypeId].isRemote
                || !s.ticketTypes[s.tickets[s.enrollments[userId].id].ticketTypeId].includesHotel) ==>
              GetHotels(s, userId) == Fail(PaymentRequired)
              && GetHotelById(s, userId, hotelId) == Fail(PaymentRequired)
    // an eligible user: the listing fails exactly on an empty inventory, the detail exactly on an unknown id
    ensures CheckEligibility(s, userId).Ok? ==>
              && (GetHotels(s, userId) == Fail(NotFound) <==> s.hotels == [])
              && (GetHotels(s, userId) == Ok(s.hotels) <==> s.hotels != [])
              && (GetHotelById(s, userId, hotelId) == Fail(NotFound) <==> hotelId !in s.hotelRooms)
              && (hotelId in s.hotelRooms ==> GetHotelById(s, userId, hotelId) == Ok(s.hotelRooms[hotelId]))
  {
  }

  /** Both operations reach the same eligibility verdict: whatever hotel is asked for,
      a failure before the hotel read is the same failure in both. */
  lemma SameVerdict(s: Store, userId: UserId, hotelId: HotelId)
    ensures GetHotels(s, userId).Fail? && GetHotels(s, userId).error != NotFound
            <==> GetHotelById(s, userId, hotelId).Fail? && GetHotelById(s, userId, hotelId).error != NotFound
    ensures GetHotels(s, userId).Fail? && GetHotels(s, userId).error != NotFound
            ==> GetHotels(s, userId).error == GetHotelById(s, userId, hotelId).error
  {
  }

  /** The verdict is decided by the user's records alone: replacing the hotel inventory
      changes no failure that happens before the hotel read. */
  lemma VerdictIgnoresInventory(s: Store, hotels: seq<Hotel>, hotelRooms: map<HotelId, HotelWithRooms>, userId: UserId, hotelId: HotelId)
    requires CheckEligibility(s, userId).Fail?
    ensures GetHotels(s.(hotels := hotels, hotelRooms := hotelRooms), userId) == GetHotels(s, userId)
    ensures GetHotelById(s.(hotels := hotels, hotelRooms := hotelRooms), userId, hotelId) == GetHotelById(s, userId, hotelId)
  {
  }

  /** A hotel fetched by id is the one asked for, and it comes with exactly the rooms
      of the room table that belong to it. */
  lemma RoomsBelongToHotel(s: Store, rooms: seq<Room>, userId: UserId, hotelId: HotelId)
    requires HotelsConsistent(s, rooms)
    requires GetHotelById(s, userId, hotelId).Ok?
    ensures GetHotelById(s, userId, hotelId).value.hotel.id == hotelId
    ensures forall room :: room in GetHotelById(s, userId, hotelId).value.rooms
                           <==> room in rooms && room.hotelId == hotelId
  {
  }

  /** A hotel that can be fetched by id also appears in the listing. */
  lemma DetailIsListed(s: Store, rooms: seq<Room>, userId: UserId, hotelId: HotelId)
    requires HotelsConsistent(s, rooms)
    requires GetHotelById(s, userId, hotelId).Ok?
    ensures GetHotels(s, userId).Ok?
    ensures GetHotelById(s, userId, hotelId).value.hotel in GetHotels(s, userId).value
  {
  }

  /** Every listed hotel can be fetched by its id, and the fetch returns that hotel. */
  lemma ListedHasDetail(s: Store, rooms: seq<Room>, userId: UserId, i: nat)
    requires HotelsConsistent(s, rooms)
    requires GetHotels(s, userId).Ok? && i < |GetHotels(s, userId).value|
    ensures GetHotelById(s, userId, GetHotels(s, userId).value[i].id).Ok?
    ensures GetHotelById(s, userId, GetHotels(s, userId).value[i].id).value.hotel == GetHotels(s, userId).value[i]
  {
  }

  // ----- A worked scenario -----

  /** User 1 holds enrollment 10 and ticket 100 of type 5 (in person, hotel included);
      the inventory is hotel 7 with one room of capacity 4. While the ticket is reserved
      the listing is refused with PaymentRequired; once it is paid, the listing is [hotel 7],
      hotel 7 comes back with its room, hotel 999 is NotFound, and user 2, who has no
      enrollment, is NotFound whatever the inventory. */
  lemma PaymentUnlocksHotels()
    ensures
      var hotel := Hotel(7, "Grand", "grand.png", 0, 0);
      var detail := HotelWithRooms(hotel, [Room(1, "Suite", 4, 7, 0, 0)]);
      var reserved := Ticket(100, Reserved, 5, 10);
      var before := Store(map[1 := Enrollment(10, 1)], map[10 := reserved],
                          map[5 := TicketType(5, false, true)], [hotel], map[7 := detail]);
      var after := before.(tickets := map[10 := reserved.(status := Paid)]);
      && GetHotels(before, 1) == Fail(PaymentRequired)
      && GetHotelById(before, 1, 7) == Fail(PaymentRequired)
      && GetHotels(after, 1) == Ok([hotel])
      && GetHotelById(after, 1, 7) == Ok(detail)
      && GetHotelById(after, 1, 999) == Fail(NotFound)
      && GetHotels(after, 2) == Fail(NotFound)
  {
  }
}
