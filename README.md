# Hotel booking core: room suitability, reservation creation and booking listeners

This project models the business logic of a small hotel-booking application
built on Jmix/Spring, and proves properties of that model in Dafny.

- `BookingService.isSuitable(booking, room)` decides whether a room can take a
  booking. It first compares the number of guests with the room's sleeping
  places. It then walks the room's existing reservations in query order. Each
  existing booking blocks the days from the day after its arrival up to, but
  not including, its departure. The new booking is rejected when its arrival
  day or its departure day is one of those days.
- `BookingService.reserveRoom(booking, room)` runs that check. On success it
  creates a reservation linking the booking and the room, saves it and
  returns it. Otherwise it returns `null` and saves nothing.
- `BookingEventListener.onBookingSaving` sets a booking's departure date to its
  arrival date plus its nights of stay, just before the booking is saved.
- `BookingEventListener.onBookingChangedAfterCommit` reacts to an update
  that changed the booking's `status`: it loads the booking and deletes
  its reservation. Any exception in that reaction is caught and logged.

Modelling choices:

- A date is an integer day number (`Dates.Day`). `plusDays(n)` is `+ n`.
  `start.datesUntil(end)` is the ascending list of days `start, …, end - 1`.
  When `end < start` it is an error (`RangeError`), as `LocalDate.datesUntil`
  throws `IllegalArgumentException` there.
- `Booking` is a class, because the saving listener updates it in place.
  `Booking.State()` gives its attribute values as a `BookingState`.
  `Room` and `RoomReservation` are values. A reservation holds a reference to
  its booking, the room and an id.
- `Store.DataStore` stands for the persistence layer. It holds a booking table
  (`bookings`, keyed by id) and a reservation table (`reservations`, a
  sequence whose order is the order queries return rows in). Its invariant
  `Valid()` says bookings are keyed by their own id and reservation ids are
  distinct primary keys. `Save` appends a row and `Remove` deletes by key.
- The JPQL query `select r from RoomReservation r where r.room = :room` is
  `ForRoom`: the rows whose room id is the room's id, in store order.
- `isSuitable` is the specification function `Suitability` over the states of
  the room's existing bookings. The method `IsSuitable` is the source's loop,
  proved equal to it. A range that cannot be built makes the result an `Err`.
  The exception propagates out of `reserveRoom`, so `ReserveRoom` reports it
  as `Failed` and saves nothing.
- `booking.getRoomReservation()` is the inverse side of the reservation's link
  to its booking. It is modelled as `ReservationOf`: the first stored
  reservation whose booking has the event's entity id.
- The status-change reaction returns a `Reaction`. `Ignored` covers an event
  that is not an update of `status`. `Removed(r)` means reservation `r` was
  deleted. `Logged(e)` means an exception was caught and logged. That happens
  when `load(id).one()` finds no booking, or when the booking has no
  reservation (so `remove(null)` throws).

Behaviour kept as written:

- Only the two ends of the new booking are tested. A booking whose stay
  encloses an existing stay passes (`EnclosingStayAccepted`). So does one with
  exactly the same dates (`SameDatesAccepted`). Reserving the same booking
  twice on the same room therefore succeeds when its departure is at least one
  day after its arrival (at least one night once saved); otherwise the second
  attempt fails (`RepeatOfShortStayFails`).
- The status-change reaction removes the reservation on any change of
  `status`, whatever the new status is.
- A zero-night booking (departure equal to arrival) that holds a reservation
  makes every later check on that room fail, if the loop reaches it
  (`SavedStayBuildable`, `SuitabilityCases`).

## Model

| member | source | states |
|---|---|---|
| `Dates.DaysFrom` | src/main/java/com/sample/hotel/app/BookingService.java:48 | the `count` days from `start` in ascending order; a day is in it iff it lies in `[start, start + count)` |
| `Dates.DatesUntil` | src/main/java/com/sample/hotel/app/BookingService.java:48 | `datesUntil` fails iff `end < start`, with that start and end; otherwise it yields exactly the days `start … end - 1`, ascending |
| `Store.FreshId` | src/main/java/com/sample/hotel/app/BookingService.java:67 | the id given to a created reservation is larger than, so distinct from, every stored reservation id |
| `Store.DataStore.NewReservationId` | src/main/java/com/sample/hotel/app/BookingService.java:67 | `create` gives the new reservation an id no stored reservation has |
| `Store.DataStore.Save` | src/main/java/com/sample/hotel/app/BookingService.java:70 | saving a new reservation appends exactly that row; the booking table is unchanged and the primary-key invariant holds |
| `Store.DataStore.Load` | src/main/java/com/sample/hotel/listener/BookingEventListener.java:35 | loading by id finds a booking iff the table has that id, and the booking found carries that id |
| `Store.Without` | src/main/java/com/sample/hotel/listener/BookingEventListener.java:37 | deleting by key keeps every row with another id, and only rows of the old table |
| `Store.WithoutAbsent` | src/main/java/com/sample/hotel/listener/BookingEventListener.java:37 | deleting a key no row carries leaves the table as it was |
| `Store.WithoutDistinct` | src/main/java/com/sample/hotel/listener/BookingEventListener.java:37 | deleting by key keeps the reservation ids distinct |
| `Store.WithoutDropsOne` | src/main/java/com/sample/hotel/listener/BookingEventListener.java:37 | deleting the key of a stored row shortens the table by exactly one row |
| `Store.DataStore.Remove` | src/main/java/com/sample/hotel/listener/BookingEventListener.java:37 | `remove` leaves the table without the row of that id; if the reservation was stored, exactly one row goes; bookings are unchanged |
| `BookingService.ForRoom` | src/main/java/com/sample/hotel/app/BookingService.java:39-42 | the query returns only reservations of the given room, taken from the store, and every stored reservation of that room |
| `BookingService.ForRoomConcat` | src/main/java/com/sample/hotel/app/BookingService.java:39-42 | the query distributes over the table, so it keeps the store's order |
| `BookingService.OtherRoomIgnored` | src/main/java/com/sample/hotel/app/BookingService.java:39-42 | a reservation on another room, wherever it is stored, does not appear in the query result, so it cannot cause a rejection |
| `BookingService.States` | src/main/java/com/sample/hotel/app/BookingService.java:46-47 | the states read are, position by position, those of each reservation's booking |
| `BookingService.ReservedDates` | src/main/java/com/sample/hotel/app/BookingService.java:46-48 | the reserved range builds iff departure ≥ arrival + 1, else fails with `EndBeforeStart(arrival + 1, departure)`; when built, a day is in it iff it lies in `[arrival + 1, departure)`; the existing arrival and departure days are never in it; a one-night stay gives the empty list |
| `BookingService.NoConflict` | src/main/java/com/sample/hotel/app/BookingService.java:45-53 | the loop yields true iff every existing booking has a buildable range and blocks neither end of the new booking; an error only if some existing range cannot be built; false only if some buildable existing stay blocks an end |
| `BookingService.Suitability` | src/main/java/com/sample/hotel/app/BookingService.java:35-54 | `isSuitable` is true iff the guests fit and every existing booking of the room passes; too many guests gives false; an error only if some existing range cannot be built (the exact first-stop cases are `SuitabilityCases`) |
| `BookingService.NoConflictCases` | src/main/java/com/sample/hotel/app/BookingService.java:45-53 | the loop returns true iff every existing booking has a buildable range and blocks neither end of the new booking; false iff it first stops at a buildable, clashing one; it fails iff it first stops at an unbuildable one, with that booking's error |
| `BookingService.SuitabilityCases` | src/main/java/com/sample/hotel/app/BookingService.java:36-53 | `isSuitable` is true iff the guests fit and every existing booking of the room passes; false iff the guests do not fit or the loop first stops at a clashing booking; it fails iff the guests fit and the loop first stops at an unbuildable range |
| `BookingService.OverCapacityRejected` | src/main/java/com/sample/hotel/app/BookingService.java:36-38 | more guests than sleeping places gives false, whatever the dates and reservations |
| `BookingService.EmptyRoomSuits` | src/main/java/com/sample/hotel/app/BookingService.java:36-53 | a room without reservations gives true iff the guests fit, and false otherwise |
| `BookingService.EnclosingStayAccepted` | src/main/java/com/sample/hotel/app/BookingService.java:49-51 | a booking whose stay encloses an existing buildable stay passes, although a blocked day of that stay lies inside it |
| `BookingService.SameDatesAccepted` | src/main/java/com/sample/hotel/app/BookingService.java:46-51 | a booking on exactly the dates of an existing buildable stay passes |
| `BookingService.RepeatOfShortStayFails` | src/main/java/com/sample/hotel/app/BookingService.java:46-50 | a booking whose departure is before the day after its arrival suits an empty room, but once reserved there makes a second check for it fail with its own range error |
| `BookingService.ArrivalInsideStayRejected` | src/main/java/com/sample/hotel/app/BookingService.java:46-51 | against a stay from day 10 to day 15, arriving on day 12 is rejected |
| `BookingService.ArrivalOnExistingArrivalAccepted` | src/main/java/com/sample/hotel/app/BookingService.java:46-51 | against the same stay, arriving on day 10 and leaving on day 15 is accepted |
| `BookingService.IsSuitable` | src/main/java/com/sample/hotel/app/BookingService.java:35-54 | the loop's result equals `Suitability` of the booking, the room and the room's reservations in query order; it has no `modifies` clause, so the store, bookings and room are untouched |
| `BookingService.ReserveRoom` | src/main/java/com/sample/hotel/app/BookingService.java:65-74 | when the room suits the booking, returns a reservation of exactly that booking and room under a fresh id, and the store becomes the old store plus that row; when it does not, returns `NotSuitable` (null) with the store unchanged; when the check throws, returns that error with the store unchanged |
| `BookingEventListener.Saved` | src/main/java/com/sample/hotel/listener/BookingEventListener.java:27 | the saved state's departure equals its arrival plus its nights, and putting the old departure back gives the old state, so no other attribute changes |
| `BookingEventListener.SavedDerivesDeparture` | src/main/java/com/sample/hotel/listener/BookingEventListener.java:26-27 | after saving, departure = arrival + nights (departure = arrival for zero nights); arrival, nights, guests and status are unchanged |
| `BookingEventListener.SavedIdempotent` | src/main/java/com/sample/hotel/listener/BookingEventListener.java:27 | saving twice equals saving once; saving changes nothing iff departure already equals arrival + nights |
| `BookingEventListener.SavedStayBuildable` | src/main/java/com/sample/hotel/listener/BookingEventListener.java:27 | a saved booking's reserved range builds iff it has at least one night; with one night it blocks no day; with fewer its range construction fails, which makes the check fail when the loop reaches it |
| `BookingEventListener.OnBookingSaving` | src/main/java/com/sample/hotel/listener/BookingEventListener.java:25-28 | the booking's new state is `Saved` of its old state: departure = arrival + nights, every other attribute as before |
| `BookingEventListener.ReservationOf` | src/main/java/com/sample/hotel/listener/BookingEventListener.java:36 | finds nothing iff no stored reservation belongs to the booking; otherwise the first stored reservation of that booking |
| `BookingEventListener.ChangeReaction` | src/main/java/com/sample/hotel/listener/BookingEventListener.java:33-41 | the reaction is `Ignored` iff the event is not an update of `status`; it removes a reservation iff the event is such an update, the booking exists and some stored reservation belongs to it, and the one removed is a stored reservation of that booking; a logged error names the event's booking |
| `BookingEventListener.Remaining` | src/main/java/com/sample/hotel/listener/BookingEventListener.java:37 | without a removal the table is unchanged; after one, every remaining row was stored and has another id, and every stored row with another id remains |
| `BookingEventListener.ChangeReactionEffect` | src/main/java/com/sample/hotel/listener/BookingEventListener.java:31-42 | an event that is not an update of `status` leaves the reservations unchanged; a missing booking, or one without a reservation, is logged and leaves them unchanged; otherwise exactly the booking's own reservation is deleted and every other one remains |
| `BookingEventListener.OnBookingChangedAfterCommit` | src/main/java/com/sample/hotel/listener/BookingEventListener.java:31-42 | the handler always returns normally; its reaction is `ChangeReaction` of the tables before the call, the reservations become `Remaining` of that reaction, and the booking table is unchanged |

## Left out

- JPA `EntityManager`, the JPQL text and Jmix `DataManager` internals: the query is a filter of the store by room id, and `create`/`save`/`load`/`remove` are operations on `DataStore`.
- The order of the query's result, which the database leaves unspecified without `ORDER BY`: the model uses the store's order. Order matters only for whether a clash or a failing range is met first.
- `@Transactional` boundaries, and isolation: they concern concurrency, and the model is sequential.
- Spring injection, `@EventListener` dispatch and the framework event classes: an event is the plain value `BookingChangedEvent`, and the saving event is the booking it carries.
- The SLF4J logging call: a caught exception becomes the `Logged` reaction, which names the error.
- Storage failures other than the two lookups (a database error inside `remove` or `save`): they are not modelled, so `Remove` always succeeds. The handler would catch them as well.
- `null` attributes: all attributes are assumed set. In the Java code an unset guest count or sleeping-places count throws when compared (BookingService.java line 36). So does an unset date of an existing booking, when its range is built (lines 46-48), and an unset arrival or nights in `onBookingSaving` (BookingEventListener.java line 27).
- An unset arrival or departure of the booking being checked: `contains(null)` on the reserved days (line 49) is false, so an unset end is never blocked. For example, a booking whose departure the saving listener has not yet derived is checked on its arrival alone. The model has no unset date, so it does not capture this.
- Calendar arithmetic and the range limits of `LocalDate`: day numbers are unbounded integers, so `plusDays` never overflows.
- The entity classes `Booking`, `Room` and `RoomReservation`, whose source is not part of this model: they carry only the attributes the core uses.
- How the inverse side of the booking–reservation link behaves with several reservations for one booking: `ReservationOf` takes the first in store order.
- Populating the booking table, which happens outside the core: `DataStore`'s constructor takes the initial tables.
