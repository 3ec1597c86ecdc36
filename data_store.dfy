/**
 The persistence layer as the booking core sees it: a booking table it loads
 from and a reservation table it queries, inserts into and deletes from.
 */
module Store {
  import opened Common
  import opened Entities

  /** Reservation ids are primary keys: no two rows share one. */
  ghost predicate DistinctIds(rs: seq<RoomReservation>)
  {
    forall i, j :: 0 <= i < |rs| && 0 <= j < |rs| && rs[i].id == rs[j].id ==> i == j
  }

  /** An id larger than every id in `rs`, standing for the fresh id `create` assigns. */
  function FreshId(rs: seq<RoomReservation>): (id: ReservationId)
    ensures forall i :: 0 <= i < |rs| ==> rs[i].id < id
  {
    if rs == [] then 0
    else
      var rest := FreshId(rs[..|rs| - 1]);
      var last := rs[|rs| - 1].id + 1;
      if rest < last then last else rest
  }

  /** The rows of `rs` left after deleting the row with primary key `id`, in their order. */
  function Without(rs: seq<RoomReservation>, id: ReservationId): (r: seq<RoomReservation>)
    ensures |r| <= |rs|
    ensures forall i :: 0 <= i < |r| ==> r[i] in rs && r[i].id != id
    ensures forall i :: 0 <= i < |rs| && rs[i].id != id ==> rs[i] in r
  {
    if rs == [] then []
    else if rs[0].id == id then Without(rs[1..], id)
    else [rs[0]] + Without(rs[1..], id)
  }

  /** Without a row that carries `id`, deleting by `id` changes nothing. */
  lemma {:induction false} WithoutAbsent(rs: seq<RoomReservation>, id: ReservationId)
    requires forall k :: 0 <= k < |rs| ==> rs[k].id != id
    ensures Without(rs, id) == rs
  {
    if rs != [] {
      WithoutAbsent(rs[1..], id);
    }
  }

  /** Dropping the first row keeps the keys distinct, and no later row shares the first row's key. */
  lemma DistinctTail(rs: seq<RoomReservation>)
    requires rs != [] && DistinctIds(rs)
    ensures DistinctIds(rs[1..])
    ensures forall k :: 0 <= k < |rs| - 1 ==> rs[1..][k].id != rs[0].id
  {
  }

  /** Deleting by primary key keeps the keys distinct. */
  lemma {:induction false} WithoutDistinct(rs: seq<RoomReservation>, id: ReservationId)
    requires DistinctIds(rs)
    ensures DistinctIds(Without(rs, id))
  {
    if rs != [] {
      var tail := rs[1..];
      DistinctTail(rs);
      WithoutDistinct(tail, id);
      if rs[0].id != id {
        var rest := Without(tail, id);
        var s := [rs[0]] + rest;
        forall i | 0 <= i < |rest| ensures rest[i].id != rs[0].id {
          var k :| 0 <= k < |tail| && tail[k] == rest[i];
        }
        forall i, j | 0 <= i < |s| && 0 <= j < |s| && s[i].id == s[j].id
          ensures i == j
        {
          if i > 0 && j > 0 {
            assert rest[i - 1].id == rest[j - 1].id;
          }
        }
      }
    }
  }

  /** Deleting the primary key of a stored row removes exactly that one row. */
  lemma {:induction false} WithoutDropsOne(rs: seq<RoomReservation>, k: nat)
    requires DistinctIds(rs) && k < |rs|
    ensures |Without(rs, rs[k].id)| == |rs| - 1
  {
    DistinctTail(rs);
    if k == 0 {
      WithoutAbsent(rs[1..], rs[0].id);
    } else {
      assert rs[1..][k - 1] == rs[k];
      WithoutDropsOne(rs[1..], k - 1);
    }
  }

  /** The booking and reservation tables. */
  class DataStore {
    var bookings: map<BookingId, Booking>
    var reservations: seq<RoomReservation>

    /** Bookings are keyed by their own id; reservation ids are primary keys. */
    ghost predicate Valid()
      reads this
    {
      && (forall id :: id in bookings ==> bookings[id].id == id)
      && DistinctIds(reservations)
    }

    constructor (bookings: map<BookingId, Booking>, reservations: seq<RoomReservation>)
      requires forall id :: id in bookings ==> bookings[id].id == id
      requires DistinctIds(reservations)
      ensures Valid()
      ensures this.bookings == bookings && this.reservations == reservations
    {
      this.bookings := bookings;
      this.reservations := reservations;
    }

    /** The lookup behind `load(id).one()`: the booking with that id, if there is one. */
    function Load(id: BookingId): (b: Option<Booking>)
      requires Valid()
      reads this
      ensures b.Some? <==> id in bookings
      ensures b.Some? ==> b.value.id == id && b.value == bookings[id]
    {
      if id in bookings then Some(bookings[id]) else None
    }

    /** The id `create(RoomReservation.class)` gives a new reservation: one no stored row has. */
    function NewReservationId(): (id: ReservationId)
      reads this
      ensures forall i :: 0 <= i < |reservations| ==> reservations[i].id != id
    {
      FreshId(reservations)
    }

    /** `save` of a new reservation: appends its row. */
    method Save(r: RoomReservation)
      requires Valid()
      requires forall i :: 0 <= i < |reservations| ==> reservations[i].id != r.id
      modifies this
      ensures Valid()
      ensures reservations == old(reservations) + [r]
      ensures bookings == old(bookings)
    {
      reservations := reservations + [r];
    }

    /** `remove`: deletes the row whose primary key is the reservation's id. */
    method Remove(r: RoomReservation)
      requires Valid()
      modifies this
      ensures Valid()
      ensures reservations == Without(old(reservations), r.id)
      ensures r in old(reservations) ==> |reservations| == |old(reservations)| - 1
      ensures bookings == old(bookings)
    {
      WithoutDistinct(reservations, r.id);
      if r in reservations {
        var k :| 0 <= k < |reservations| && reservations[k] == r;
        WithoutDropsOne(reservations, k);
      }
      reservations := Without(reservations, r.id);
    }
  }
}
