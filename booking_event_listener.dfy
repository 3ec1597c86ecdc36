/**
 The booking listener: before a booking is saved it derives the departure date,
 and on an update that changed the status it deletes the booking's
 reservation, logging (never raising) any failure on the way.
 */
module BookingEventListener {
  import opened Common
  import opened Entities
  import opened Store
  import BookingService

  /** A booking's attributes once the before-save listener has run. */
  function Saved(s: BookingState): (t: BookingState)
    ensures t.departureDate == t.arrivalDate + t.nightsOfStay
    ensures t.(departureDate := s.departureDate) == s
  {
    s.(departureDate := s.arrivalDate + s.nightsOfStay)
  }

  /** Saving sets the departure to the arrival plus the nights of stay and touches no other attribute. */
  lemma SavedDerivesDeparture(s: BookingState)
    ensures Saved(s).departureDate == s.arrivalDate + s.nightsOfStay
    ensures s.nightsOfStay == 0 ==> Saved(s).departureDate == s.arrivalDate
    ensures Saved(s).arrivalDate == s.arrivalDate && Saved(s).nightsOfStay == s.nightsOfStay
    ensures Saved(s).numberOfGuests == s.numberOfGuests && Saved(s).status == s.status
  {
  }

  /** Saving twice is saving once; a booking whose departure is already derived is left as it is. */
  lemma SavedIdempotent(s: BookingState)
    ensures Saved(Saved(s)) == Saved(s)
    ensures Saved(s) == s <==> s.departureDate == s.arrivalDate + s.nightsOfStay
  {
  }

  /**
   A saved booking of at least one night, once reserved, never makes the
   suitability check fail; a saved booking of zero nights, once reserved, makes
   it fail whenever the loop reaches it; a one-night stay blocks no day.
   */
  lemma SavedStayBuildable(s: BookingState)
    ensures BookingService.RangeBuildable(Saved(s)) <==> s.nightsOfStay >= 1
    ensures s.nightsOfStay == 1 ==> BookingService.ReservedDates(Saved(s)) == Ok([])
    ensures s.nightsOfStay < 1 ==> BookingService.ReservedDates(Saved(s)).Err?
  {
  }

  /** `onBookingSaving`: sets the departure date of the booking being saved, in place. */
  method OnBookingSaving(booking: Booking)
    modifies booking
    ensures booking.State() == Saved(old(booking.State()))
    ensures booking.departureDate == booking.arrivalDate + booking.nightsOfStay
    ensures booking.arrivalDate == old(booking.arrivalDate) && booking.nightsOfStay == old(booking.nightsOfStay)
    ensures booking.numberOfGuests == old(booking.numberOfGuests) && booking.status == old(booking.status)
  {
    booking.departureDate := booking.arrivalDate + booking.nightsOfStay;
  }

  datatype ChangeType = Created | Updated | Deleted

  /** An entity-changed notification for a booking: its kind, the attributes it changed, the booking's id. */
  datatype BookingChangedEvent = BookingChangedEvent(changeType: ChangeType, changedAttributes: set<string>, entityId: BookingId)

  /** The exceptions the status-change reaction catches: `load(..).one()` finds nothing, or `remove(null)`. */
  datatype HandlerError = BookingNotFound(id: BookingId) | NoReservation(id: BookingId)

  /** What the status-change reaction did: nothing, a deletion, or a logged error. */
  datatype Reaction = Ignored | Removed(reservation: RoomReservation) | Logged(error: HandlerError)

  /** `booking.getRoomReservation()`: the first stored reservation of the booking with this id. */
  function ReservationOf(rs: seq<RoomReservation>, id: BookingId): (r: Option<RoomReservation>)
    ensures r.None? <==> forall i :: 0 <= i < |rs| ==> rs[i].booking.id != id
    ensures r.Some? ==>
      exists k :: 0 <= k < |rs| && rs[k] == r.value && r.value.booking.id == id &&
                  forall j :: 0 <= j < k ==> rs[j].booking.id != id
  {
    if rs == [] then None
    else if rs[0].booking.id == id then Some(rs[0])
    else
      assert forall j :: 1 <= j < |rs| ==> rs[j] == rs[1..][j - 1];
      ReservationOf(rs[1..], id)
  }

  /** The event is an update that changed `status`. */
  predicate StatusChanged(event: BookingChangedEvent)
  {
    event.changeType == Updated && "status" in event.changedAttributes
  }

  /** `onBookingChangedAfterCommit` over the tables as they were: what the reaction does. */
  function ChangeReaction(bookings: map<BookingId, Booking>, rs: seq<RoomReservation>, event: BookingChangedEvent): (r: Reaction)
    ensures !StatusChanged(event) <==> r == Ignored
    ensures r.Removed? <==>
      StatusChanged(event) && event.entityId in bookings &&
      exists i :: 0 <= i < |rs| && rs[i].booking.id == event.entityId
    ensures r.Removed? ==> r.reservation in rs && r.reservation.booking.id == event.entityId
    ensures r.Logged? ==> r.error.id == event.entityId
  {
    if !StatusChanged(event) then Ignored
    else if event.entityId !in bookings then Logged(BookingNotFound(event.entityId))
    else
      match ReservationOf(rs, event.entityId)
      case None => Logged(NoReservation(event.entityId))
      case Some(x) => Removed(x)
  }

  /** The reservation rows left once `reaction` has run. */
  function Remaining(rs: seq<RoomReservation>, reaction: Reaction): (left: seq<RoomReservation>)
    ensures !reaction.Removed? ==> left == rs
    ensures reaction.Removed? ==>
      && (forall i :: 0 <= i < |left| ==> left[i] in rs && left[i].id != reaction.reservation.id)
      && (forall i :: 0 <= i < |rs| && rs[i].id != reaction.reservation.id ==> rs[i] in left)
  {
    if reaction.Removed? then Without(rs, reaction.reservation.id) else rs
  }

  /**
   The reaction's effect on the reservations: an event that is not an update
   of `status`, a missing booking or a booking without a reservation leaves
   them as they were; otherwise exactly the booking's own reservation goes and
   every other one stays.
   */
  lemma ChangeReactionEffect(bookings: map<BookingId, Booking>, rs: seq<RoomReservation>, event: BookingChangedEvent)
    requires DistinctIds(rs)
    ensures !StatusChanged(event) ==> Remaining(rs, ChangeReaction(bookings, rs, event)) == rs
    ensures StatusChanged(event) && event.entityId !in bookings ==>
      ChangeReaction(bookings, rs, event) == Logged(BookingNotFound(event.entityId)) &&
      Remaining(rs, ChangeReaction(bookings, rs, event)) == rs
    ensures StatusChanged(event) && (forall i :: 0 <= i < |rs| ==> rs[i].booking.id != event.entityId) ==>
      ChangeReaction(bookings, rs, event).Logged? &&
      (event.entityId in bookings ==> ChangeReaction(bookings, rs, event) == Logged(NoReservation(event.entityId))) &&
      Remaining(rs, ChangeReaction(bookings, rs, event)) == rs
    ensures (StatusChanged(event) && event.entityId in bookings &&
             exists i :: 0 <= i < |rs| && rs[i].booking.id == event.entityId) ==>
      var reaction := ChangeReaction(bookings, rs, event);
      var left := Remaining(rs, reaction);
      && reaction.Removed?
      && reaction.reservation in rs
      && reaction.reservation.booking.id == event.entityId
      && |left| == |rs| - 1
      && reaction.reservation !in left
      && (forall i :: 0 <= i < |rs| && rs[i].id != reaction.reservation.id ==> rs[i] in left)
  {
    var reaction := ChangeReaction(bookings, rs, event);
    if reaction.Removed? {
      var k :| 0 <= k < |rs| && rs[k] == reaction.reservation;
      WithoutDropsOne(rs, k);
    }
  }

  /**
   `onBookingChangedAfterCommit`: on an update that changed `status`, loads the
   booking, finds its reservation and deletes it; a failure of either lookup is
   logged and the handler returns normally.
   */
  method OnBookingChangedAfterCommit(store: DataStore, event: BookingChangedEvent) returns (reaction: Reaction)
    requires store.Valid()
    modifies store
    ensures store.Valid() && store.bookings == old(store.bookings)
    ensures reaction == ChangeReaction(old(store.bookings), old(store.reservations), event)
    ensures store.reservations == Remaining(old(store.reservations), reaction)
  {
    if event.changeType == Updated && "status" in event.changedAttributes {
      var loaded := store.Load(event.entityId);
      if loaded.None? {
        return Logged(BookingNotFound(event.entityId));
      }
      var booking := loaded.value;
      var reservation := ReservationOf(store.reservations, booking.id);
      if reservation.None? {
        return Logged(NoReservation(event.entityId));
      }
      store.Remove(reservation.value);
      return Removed(reservation.value);
    }
    return Ignored;
  }
}
