# Hotel listing gated by ticket eligibility

This project models the hotel service of an event-ticketing back end. It has two
operations:

- `getHotels(userId)` lists all hotels.
- `getHotelById(userId, hotelId)` returns one hotel together with its rooms.

Before either operation reads any hotel data, it runs the same chain of lookups:

1. Find the user's enrollment. If there is none, the result is NotFound.
2. Find the ticket of that enrollment. If there is none, the result is NotFound.
3. Find the ticket's type, then apply one gate: the ticket must be `PAID`, the event must not be remote, and the ticket type must include a hotel. If the gate fails, the result is PaymentRequired.

After the check passes:

- The listing turns an empty inventory into NotFound.
- The detail lookup turns an unknown hotel id into NotFound.

The service is pure, and the model is made of Dafny functions over an immutable `Store`:

- `enrollments`: a map from user id to enrollment.
- `tickets`: a map from enrollment id to ticket.
- `ticketTypes`: a map from ticket-type id to ticket type.
- `hotels`: the hotel list.
- `hotelRooms`: a map from hotel id to the hotel with its rooms.

Each map answers one repository call the service makes.

Files:

- `results.dfy`: the `Result` type and the three ways a call can fail.
- `entities.dfy`: the records and the store. `Indexed` and `HotelsConsistent` state what a real database guarantees. Each lookup is keyed by the record's own field. The hotel list and the per-hotel lookup read the same hotel table. The per-hotel lookup joins each hotel with its rows of a room table, and `RoomsOf` does that join.
- `hotels_service.dfy`: the eligibility chain, both operations, and the lemmas about them.

The chain is written once, as `CheckEligibility`. The source repeats it verbatim in both functions, at lines 8-15 and 25-32.

### Missing ticket type

The source never checks for a missing ticket type. It reads `ticketType.isRemote` on whatever the ticket-type lookup returns. If that is null, JavaScript throws a TypeError.

The `||` on line 15 (and line 32) tests `ticket.status` first. So the crash happens only for a paid ticket whose type is missing. An unpaid ticket with a missing type still gets PaymentRequired.

The model follows the code here. It gives that case its own opaque error, `NullTicketType`, and does not report it as NotFound. Reporting NotFound there would be a defensive choice that the code does not make.

Re-running a call on an unchanged store gives the same answer. The model gets this by construction, because every operation is a function of the store.

## Model

| member | source | states |
|---|---|---|
| HotelsService.CheckEligibility | src/services/hotels-service/index.ts:8-15 | The decision table of the shared chain. No enrollment gives NotFound. An enrollment without a ticket gives NotFound. An unpaid ticket gives PaymentRequired whatever its type, even a missing one. A paid ticket of a remote type, or of a type without a hotel, gives PaymentRequired. A paid ticket with a missing type gives the runtime failure. A paid ticket of an in-person type that includes a hotel passes and returns that ticket. Conversely, success returns only the user's own ticket, and that ticket is paid, not remote and includes a hotel. |
| HotelsService.GetHotels | src/services/hotels-service/index.ts:7-22 | A refused user gets the eligibility error unchanged. The call succeeds exactly when the user is eligible and the inventory is non-empty. It then returns the stored list unchanged. For an eligible user, the only failure is NotFound, on an empty inventory. |
| HotelsService.GetHotelById | src/services/hotels-service/index.ts:24-39 | A refused user gets the eligibility error unchanged. The call succeeds exactly when the user is eligible and the store holds the id. It then returns the stored record, rooms included. For an eligible user, the only failure is NotFound, for an unknown id. |
| HotelsService.EligibleIffHoldsHotelTicket | src/services/hotels-service/index.ts:14-15 | On an indexed store, the lookup chain passes if and only if the stored records show three things: an enrollment of the user, a ticket of that enrollment, and that ticket's type, which is paid, in person and includes a hotel. |
| HotelsService.NotFoundIffNoTicket | src/services/hotels-service/index.ts:8-12 | On an indexed store, the chain reports NotFound if and only if the stored records hold no ticket belonging to an enrollment of the user. |
| HotelsService.DecisionTable | tests/integration/hotels.test.ts:44-96 | The rows of the decision table for both operations at once. No enrollment gives NotFound, and so does no ticket. An unpaid ticket gives PaymentRequired, and so does a remote or hotel-less type. For an eligible user, the listing fails exactly on an empty inventory and the detail exactly on an unknown id. |
| HotelsService.SameVerdict | src/services/hotels-service/index.ts:7-39 | The two operations agree on eligibility for the same user and store. If one fails with something other than NotFound, the other fails with the same error, whatever hotel id is asked for. |
| HotelsService.VerdictIgnoresInventory | src/services/hotels-service/index.ts:7-39 | Checks run in order. When the eligibility chain fails, replacing the whole hotel inventory changes neither operation's result. |
| Entities.RoomsOf | src/repositories/hotels-repository/index.ts:8-17 | The rooms joined to a hotel are exactly the rows of the room table whose hotel id is that hotel's. No row appears more often than the table holds it. |
| HotelsService.RoomsBelongToHotel | src/services/hotels-service/index.ts:34-38 | On a consistent store, a hotel fetched by id is the one asked for. It comes with exactly the rooms of the room table that belong to it: every returned room carries that hotel's id, and none of its rooms is missing. |
| HotelsService.DetailIsListed | src/services/hotels-service/index.ts:34-38 | On a consistent store, a hotel that the detail call returns also succeeds in, and appears in, the listing for the same user. |
| HotelsService.ListedHasDetail | src/services/hotels-service/index.ts:17-21 | On a consistent store, every hotel in a successful listing can be fetched by its id, and that fetch returns the same hotel. |
| HotelsService.PaymentUnlocksHotels | src/services/hotels-service/index.ts:7-39 | A worked case; its reserved step is the case tested at tests/integration/hotels.test.ts:62-72, and its paid steps follow lines 15, 17-21 and 34-38. A reserved ticket gets PaymentRequired from both operations. Once the same ticket is paid, the listing returns the one stored hotel and the detail call returns it with its room. An unknown id gives NotFound, and a user without an enrollment gives NotFound. |

## Left out

- The HTTP controller (src/controllers/hotels-controller.ts): it is transport plumbing and status-code mapping. It reads the hotel id as `Number(req.params)` and passes an argument that the service ignores.
- Repository internals (src/repositories/hotels-repository/index.ts): the Prisma queries are modelled only as the store's lookups. Two things are not part of this model: the tickets and enrollment repositories, and the hotel list's order.
- HotelsService.GetHotelById: the model assumes an integer hotel id. The source types it `any`, and no validating caller is shown: the only controller computes `Number(req.params)` and calls `getHotels` instead. A non-integer id (NaN, undefined) is not modelled; with an undefined id the database query would drop its filter.
- Authentication, sessions and the 401 responses: they are handled by middleware outside this service.
- `async`/`await`, database connection failures and other runtime failures of the lookups are not modelled. The only runtime failure modelled is `NullTicketType`, the one the service's own code causes.
- Enrollment addresses, ticket prices and other record fields the service never reads are not modelled.
