/**
 The suitability check and reservation creation of the booking service: a room
 suits a booking when it has enough sleeping places and neither end of the
 booking lies on a day an existing reservation of that room blocks.
 */
module BookingService {
  import opened Common
  import opened Dates
  import opened Entities
  import opened Store

  /** The query `select r from RoomReservation r where r.room = :room`, in store order. */
  function ForRoom(rs: seq<RoomReservation>, room: Room): (r: seq<RoomReservation>)
    ensures |r| <= |rs|
    ensures forall i :: 0 <= i < |r| ==> r[i] in rs && r[i].room.id == room.id
    ensures forall i :: 0 <= i < |rs| && rs[i].room.id == room.id ==> rs[i] in r
  {
    if rs == [] then []
    else (if rs[0].room.id == room.id then [rs[0]] else []) + ForRoom(rs[1..], room)
  }

  /** The query distributes over the rows, so it keeps their order. */
  lemma {:induction false} ForRoomConcat(a: seq<RoomReservation>, b: seq<RoomReservation>, room: Room)
    ensures ForRoom(a + b, room) == ForRoom(a, room) + ForRoom(b, room)
  {
    if a != [] {
      assert (a + b)[0] == a[0] && (a + b)[1..] == a[1..] + b;
      ForRoomConcat(a[1..], b, room);
    } else {
      assert a + b == b;
    }
  }

  /** A reservation on another room, wherever it sits in the store, is not part of the query's result. */
  lemma OtherRoomIgnored(a: seq<RoomReservation>, x: RoomReservation, b: seq<RoomReservation>, room: Room)
    requires x.room.id != room.id
    ensures ForRoom(a + [x] + b, room) == ForRoom(a + b, room)
  {
    ForRoomConcat(a + [x], b, room);
    ForRoomConcat(a, [x], room);
    ForRoomConcat(a, b, room);
    assert ForRoom([x], room) == [];
  }

  /** What each reservation's booking looks like now (`reservation.getBooking()`). */
  function States(rs: seq<RoomReservation>): (s: seq<BookingState>)
    reads set i | 0 <= i < |rs| :: rs[i].booking
    ensures |s| == |rs|
    ensures forall i :: 0 <= i < |rs| ==> s[i] == rs[i].booking.State()
  {
    if rs == [] then [] else [rs[0].booking.State()] + States(rs[1..])
  }

  /** The days an existing booking blocks lie from the day after its arrival up to, not including, its departure. */
  predicate Blocks(existing: BookingState, day: Day)
  {
    existing.arrivalDate + 1 <= day < existing.departureDate
  }

  /** The blocked range can be built: `datesUntil` does not throw. */
  predicate RangeBuildable(existing: BookingState)
  {
    existing.arrivalDate + 1 <= existing.departureDate
  }

  /** The booking's arrival or its departure falls on a day `existing` blocks. */
  predicate Clashes(booking: BookingState, existing: BookingState)
  {
    Blocks(existing, booking.arrivalDate) || Blocks(existing, booking.departureDate)
  }

  /** `existing` lets the loop go on past it. */
  predicate Passes(booking: BookingState, existing: BookingState)
  {
    RangeBuildable(existing) && !Clashes(booking, existing)
  }

  /** The first `k` existing bookings all let the loop go on. */
  ghost predicate PassedBefore(booking: BookingState, existing: seq<BookingState>, k: nat)
    requires k <= |existing|
  {
    forall j :: 0 <= j < k ==> Passes(booking, existing[j])
  }

  /** The loop stops at existing booking `k`. */
  ghost predicate StopsAt(booking: BookingState, existing: seq<BookingState>, k: nat)
  {
    k < |existing| && PassedBefore(booking, existing, k) && !Passes(booking, existing[k])
  }

  /**
   The list of days `existing` reserves: `arrival.plusDays(1).datesUntil(departure)`.
   It fails when the departure is before the day after the arrival, is empty for a
   one-night stay, and otherwise holds exactly the blocked days.
   */
  function ReservedDates(existing: BookingState): (r: Result<seq<Day>, RangeError>)
    ensures r.Ok? <==> RangeBuildable(existing)
    ensures r.Err? ==> r.error == EndBeforeStart(existing.arrivalDate + 1, existing.departureDate)
    ensures r.Ok? ==> forall d :: d in r.value <==> Blocks(existing, d)
    ensures r.Ok? ==> !(existing.arrivalDate in r.value) && !(existing.departureDate in r.value)
    ensures existing.departureDate == existing.arrivalDate + 1 ==> r == Ok([])
  {
    DatesUntil(existing.arrivalDate + 1, existing.departureDate)
  }

  /** The loop over the existing bookings of the room: `Ok(true)` when it runs to the end. */
  function NoConflict(booking: BookingState, existing: seq<BookingState>): (r: Result<bool, RangeError>)
    ensures r == Ok(true) <==> forall j :: 0 <= j < |existing| ==> Passes(booking, existing[j])
    ensures r.Err? ==> exists j :: 0 <= j < |existing| && !RangeBuildable(existing[j])
    ensures r == Ok(false) ==> exists j :: 0 <= j < |existing| && RangeBuildable(existing[j]) && Clashes(booking, existing[j])
  {
    if existing == [] then Ok(true)
    else
      match ReservedDates(existing[0])
      case Err(e) => Err(e)
      case Ok(days) =>
        if booking.arrivalDate in days || booking.departureDate in days then Ok(false)
        else NoConflict(booking, existing[1..])
  }

  /** `isSuitable(booking, room)` over the states of the room's existing bookings, in query order. */
  function Suitability(booking: BookingState, room: Room, existing: seq<BookingState>): (r: Result<bool, RangeError>)
    ensures r == Ok(true) <==>
      booking.numberOfGuests <= room.sleepingPlaces && forall j :: 0 <= j < |existing| ==> Passes(booking, existing[j])
    ensures booking.numberOfGuests > room.sleepingPlaces ==> r == Ok(false)
    ensures r.Err? ==> exists j :: 0 <= j < |existing| && !RangeBuildable(existing[j])
  {
    if booking.numberOfGuests > room.sleepingPlaces then Ok(false) else NoConflict(booking, existing)
  }

  /**
   The loop's outcome: it accepts when every existing booking passes, rejects
   when it first stops at a clashing one, and fails when it first stops at one
   whose range cannot be built, with that booking's error.
   */
  lemma {:induction false} NoConflictCases(booking: BookingState, existing: seq<BookingState>)
    ensures NoConflict(booking, existing) == Ok(true) <==> PassedBefore(booking, existing, |existing|)
    ensures NoConflict(booking, existing) == Ok(false) <==>
      exists k: nat :: StopsAt(booking, existing, k) && RangeBuildable(existing[k])
    ensures NoConflict(booking, existing).Err? <==>
      exists k: nat :: StopsAt(booking, existing, k) && !RangeBuildable(existing[k])
    ensures NoConflict(booking, existing).Err? ==>
      exists k: nat :: StopsAt(booking, existing, k) &&
        NoConflict(booking, existing).error == EndBeforeStart(existing[k].arrivalDate + 1, existing[k].departureDate)
  {
    if existing != [] {
      var e, rest := existing[0], existing[1..];
      if !Passes(booking, e) {
        assert StopsAt(booking, existing, 0);
      } else {
        NoConflictCases(booking, rest);
        assert NoConflict(booking, existing) == NoConflict(booking, rest);
        forall k: nat ensures StopsAt(booking, existing, k + 1) <==> StopsAt(booking, rest, k) {
          if k < |rest| {
            assert PassedBefore(booking, existing, k + 1) <==> PassedBefore(booking, rest, k) by {
              forall j | 0 <= j < k ensures existing[j + 1] == rest[j] { }
              if PassedBefore(booking, rest, k) {
                forall j | 0 <= j < k + 1 ensures Passes(booking, existing[j]) {
                  if j > 0 { assert existing[j] == rest[j - 1]; }
                }
              }
            }
          }
        }
        assert !StopsAt(booking, existing, 0);
        if exists k: nat :: StopsAt(booking, existing, k) {
          var k: nat :| StopsAt(booking, existing, k);
          assert StopsAt(booking, rest, k - 1);
        }
        if exists k: nat :: StopsAt(booking, rest, k) {
          var k: nat :| StopsAt(booking, rest, k);
          assert StopsAt(booking, existing, k + 1);
        }
        assert PassedBefore(booking, existing, |existing|) <==> PassedBefore(booking, rest, |rest|) by {
          if PassedBefore(booking, rest, |rest|) {
            forall j | 0 <= j < |existing| ensures Passes(booking, existing[j]) {
              if j > 0 { assert existing[j] == rest[j - 1]; }
            }
          }
        }
      }
    }
  }

  /**
   The whole check: a room suits a booking exactly when it has enough sleeping
   places and every existing booking of the room passes; it is rejected when the
   guests do not fit or the loop first stops at a clashing booking; and it fails
   when the guests fit and the loop first stops at a booking whose range cannot be built.
   */
  lemma SuitabilityCases(booking: BookingState, room: Room, existing: seq<BookingState>)
    ensures Suitability(booking, room, existing) == Ok(true) <==>
      booking.numberOfGuests <= room.sleepingPlaces &&
      forall j :: 0 <= j < |existing| ==> Passes(booking, existing[j])
    ensures Suitability(booking, room, existing) == Ok(false) <==>
      booking.numberOfGuests > room.sleepingPlaces ||
      exists k: nat :: StopsAt(booking, existing, k) && RangeBuildable(existing[k])
    ensures Suitability(booking, room, existing).Err? <==>
      booking.numberOfGuests <= room.sleepingPlaces &&
      exists k: nat :: StopsAt(booking, existing, k) && !RangeBuildable(existing[k])
  {
    NoConflictCases(booking, existing);
  }

  /** Too many guests: rejected whatever the dates and the existing reservations. */
  lemma OverCapacityRejected(booking: BookingState, room: Room, existing: seq<BookingState>)
    requires booking.numberOfGuests > room.sleepingPlaces
    ensures Suitability(booking, room, existing) == Ok(false)
  {
  }

  /** A room without reservations suits every booking whose guests fit. */
  lemma EmptyRoomSuits(booking: BookingState, room: Room)
    ensures Suitability(booking, room, []) == Ok(true) <==> booking.numberOfGuests <= room.sleepingPlaces
    ensures booking.numberOfGuests > room.sleepingPlaces ==> Suitability(booking, room, []) == Ok(false)
  {
  }

  /**
   Only the two ends of the new booking are tested: a booking whose stay encloses
   an existing one passes, although the days the existing one blocks lie inside it.
   */
  lemma EnclosingStayAccepted(booking: BookingState, room: Room, existing: BookingState)
    requires booking.numberOfGuests <= room.sleepingPlaces
    requires RangeBuildable(existing)
    requires booking.arrivalDate <= existing.arrivalDate && existing.departureDate <= booking.departureDate
    ensures Suitability(booking, room, [existing]) == Ok(true)
    ensures existing.departureDate > existing.arrivalDate + 1 ==>
      Blocks(existing, existing.arrivalDate + 1) &&
      booking.arrivalDate < existing.arrivalDate + 1 < booking.departureDate
  {
    SuitabilityCases(booking, room, [existing]);
  }

  /** Booking the very same dates as an existing stay passes: the check never blocks either end of a stay. */
  lemma SameDatesAccepted(booking: BookingState, room: Room, existing: BookingState)
    requires booking.numberOfGuests <= room.sleepingPlaces
    requires RangeBuildable(existing)
    requires booking.arrivalDate == existing.arrivalDate && booking.departureDate == existing.departureDate
    ensures Suitability(booking, room, [existing]) == Ok(true)
  {
    EnclosingStayAccepted(booking, room, existing);
  }

  /**
   Reserving a booking again on the room already holding it fails when its
   departure is before the day after its arrival: its own range cannot be built.
   */
  lemma RepeatOfShortStayFails(booking: BookingState, room: Room)
    requires booking.numberOfGuests <= room.sleepingPlaces
    requires booking.departureDate < booking.arrivalDate + 1
    ensures Suitability(booking, room, []) == Ok(true)
    ensures Suitability(booking, room, [booking]) == Err(EndBeforeStart(booking.arrivalDate + 1, booking.departureDate))
  {
    SuitabilityCases(booking, room, [booking]);
  }

  /** An existing stay from day 10 to day 15 blocks days 11 to 14: arriving on day 12 is rejected. */
  lemma ArrivalInsideStayRejected(room: Room, guests: int)
    requires guests <= room.sleepingPlaces
    ensures Suitability(BookingState(12, 16, 4, guests, "new"), room, [BookingState(10, 15, 5, 1, "booked")]) == Ok(false)
  {
    SuitabilityCases(BookingState(12, 16, 4, guests, "new"), room, [BookingState(10, 15, 5, 1, "booked")]);
    assert StopsAt(BookingState(12, 16, 4, guests, "new"), [BookingState(10, 15, 5, 1, "booked")], 0);
  }

  /** Against the same stay, arriving on day 10, its own arrival day, and leaving on day 15 is accepted. */
  lemma ArrivalOnExistingArrivalAccepted(room: Room, guests: int)
    requires guests <= room.sleepingPlaces
    ensures Suitability(BookingState(10, 15, 5, guests, "new"), room, [BookingState(10, 15, 5, 1, "booked")]) == Ok(true)
  {
    SameDatesAccepted(BookingState(10, 15, 5, guests, "new"), room, BookingState(10, 15, 5, 1, "booked"));
  }

  /**
   `isSuitable`: checks capacity, queries the room's reservations and walks them
   in order, returning false at the first clash and failing at the first range
   that cannot be built. It changes nothing.
   */
  method IsSuitable(store: DataStore, booking: Booking, room: Room) returns (r: Result<bool, RangeError>)
    ensures r == Suitability(booking.State(), room, States(ForRoom(store.reservations, room)))
  {
    if booking.numberOfGuests > room.sleepingPlaces {
      return Ok(false);
    }
    var reservations := ForRoom(store.reservations, room);
    ghost var existing := States(reservations);
    var arrival, departure := booking.arrivalDate, booking.departureDate;
    var i := 0;
    while i < |reservations|
      invariant 0 <= i <= |reservations|
      invariant NoConflict(booking.State(), existing[i..]) == NoConflict(booking.State(), existing)
    {
      var reserved := DatesUntil(reservations[i].booking.arrivalDate + 1, reservations[i].booking.departureDate);
      assert existing[i..][0] == existing[i] && existing[i..][1..] == existing[i + 1..];
      if reserved.Err? {
        return Err(reserved.error);
      }
      var datesReserve := reserved.value;
      if arrival in datesReserve || departure in datesReserve {
        return Ok(false);
      }
      i := i + 1;
    }
    return Ok(true);
  }

  /** What `reserveRoom` yields: the saved reservation, `null`, or the exception `isSuitable` raised. */
  datatype ReserveOutcome = Reserved(reservation: RoomReservation) | NotSuitable | Failed(error: RangeError)

  /**
   `reserveRoom`: when the room suits the booking, creates a reservation of that
   room for that booking under a fresh id and saves it; otherwise saves nothing.
   */
  method ReserveRoom(store: DataStore, booking: Booking, room: Room) returns (outcome: ReserveOutcome)
    requires store.Valid()
    modifies store
    ensures store.Valid() && store.bookings == old(store.bookings)
    ensures match old(Suitability(booking.State(), room, States(ForRoom(store.reservations, room))))
      case Ok(true) =>
        && outcome.Reserved?
        && outcome.reservation.booking == booking
        && outcome.reservation.room == room
        && (forall i :: 0 <= i < |old(store.reservations)| ==> old(store.reservations)[i].id != outcome.reservation.id)
        && store.reservations == old(store.reservations) + [outcome.reservation]
      case Ok(false) => outcome == NotSuitable && store.reservations == old(store.reservations)
      case Err(e) => outcome == Failed(e) && store.reservations == old(store.reservations)
  {
    var suitable := IsSuitable(store, booking, room);
    match suitable
    case Err(e) =>
      outcome := Failed(e);
    case Ok(false) =>
      outcome := NotSuitable;
    case Ok(true) =>
      var reservation := RoomReservation(store.NewReservationId(), booking, room);
      store.Save(reservation);
      outcome := Reserved(reservation);
  }
}
