/** Multi-request properties of the allocator: capacity accounting over a run of reserves,
    the reserve/cancel and reserve/delete round trips, and the behaviours the controller shows
    that a seat map would not suggest. */
module Scenarios {
  import opened Wrappers
  import opened Errors
  import opened Trips
  import opened Reservations
  import opened Store
  import opened Allocator
  import opened Safety

  datatype ReserveRequest = ReserveRequest(
    tripId: Option<TripId>,
    segment: Option<RequestedSegment>,
    seat: int,
    user: UserId,
    now: int)

  function ReserveStep(s: State, q: ReserveRequest): Response {
    Reserve(s, q.tripId, q.segment, q.seat, q.user, q.now)
  }

  /** The state after serving the requests one after the other. */
  function ReserveAll(s: State, qs: seq<ReserveRequest>): State
    decreases |qs|
  {
    if qs == [] then s else ReserveAll(After(s, ReserveStep(s, qs[0])), qs[1..])
  }

  /** How many of the requests went through on trip `id`. */
  function BookedOn(s: State, qs: seq<ReserveRequest>, id: TripId): nat
    decreases |qs|
  {
    if qs == [] then 0
    else
      var here := if ReserveStep(s, qs[0]).Committed? && qs[0].tripId == Some(id) then 1 else 0;
      here + BookedOn(After(s, ReserveStep(s, qs[0])), qs[1..], id)
  }

  /** The reservations, of any status, recorded against trip `id`. */
  function ReservationsOn(s: State, id: TripId): set<ReservationId> {
    set rid | rid in s.reservations && s.reservations[rid].trajet.tripId == id
  }

  /** One reserve either books trip `id` — one seat fewer, one record more — or leaves both
      the counter and the records of `id` alone. */
  lemma ReserveStepOnTrip(s: State, q: ReserveRequest, id: TripId)
    requires LedgerOk(s) && id in s.trips
    ensures var s' := After(s, ReserveStep(s, q));
            && LedgerOk(s') && id in s'.trips
            && (if ReserveStep(s, q).Committed? && q.tripId == Some(id) then
                  s'.trips[id].placesRestantes == s.trips[id].placesRestantes - 1
                  && |ReservationsOn(s', id)| == |ReservationsOn(s, id)| + 1
                else
                  s'.trips[id].placesRestantes == s.trips[id].placesRestantes
                  && ReservationsOn(s', id) == ReservationsOn(s, id))
  {
    var r := ReserveStep(s, q);
    if r.Committed? {
      var s' := r.state;
      var rid := FreshId(s.reservations.Keys);
      LedgerOkAfterWrite(s, s', q.tripId.value);
      if q.tripId == Some(id) {
        assert ReservationsOn(s', id) == ReservationsOn(s, id) + {rid};
        assert rid !in ReservationsOn(s, id);
      } else {
        assert ReservationsOn(s', id) == ReservationsOn(s, id);
      }
    }
  }

  /** No overbooking under any run of reserve requests: each booking on a trip consumes one
      remaining seat, the counter plus the trip's records is conserved, and so the bookings
      never outnumber the seats that were left. */
  lemma {:induction false} ReserveRunConservesCapacity(s: State, qs: seq<ReserveRequest>, id: TripId)
    requires LedgerOk(s) && id in s.trips
    ensures id in ReserveAll(s, qs).trips && LedgerOk(ReserveAll(s, qs))
    ensures ReserveAll(s, qs).trips[id].placesRestantes == s.trips[id].placesRestantes - BookedOn(s, qs, id)
    ensures |ReservationsOn(ReserveAll(s, qs), id)| == |ReservationsOn(s, id)| + BookedOn(s, qs, id)
    ensures BookedOn(s, qs, id) <= s.trips[id].placesRestantes
    decreases |qs|
  {
    if qs != [] {
      var s1 := After(s, ReserveStep(s, qs[0]));
      ReserveStepOnTrip(s, qs[0], id);
      ReserveRunConservesCapacity(s1, qs[1..], id);
    }
  }

  /** A request that passes the guards books the seat: on a sound store, a free seat numbered
      from 1 on a trip with places left and distinct cities, without a segment, is committed
      at the base price, and the seat is then held and listed. */
  lemma FreeSeatIsBooked(s: State, id: TripId, seat: int, user: UserId, now: int)
    requires Invariant(s) && id in s.trips
    requires s.trips[id].placesRestantes > 0 && s.trips[id].villeDepart != s.trips[id].villeArrivee
    requires seat >= 1 && !SeatHeld(s.reservations, id, seat)
    ensures var r := Reserve(s, Some(id), None, seat, user, now);
            && r.Committed?
            && r.state.trips[id].placesRestantes == s.trips[id].placesRestantes - 1
            && r.state.reservations[FreshId(s.reservations.Keys)].trajet.prix == Some(s.trips[id].prix)
            && SeatHeld(r.state.reservations, id, seat)
            && seat in ListSeats(r.state, id)
  {
    var t := s.trips[id];
    var rec := NewReservation(id, t, None, Some(t.prix), seat, user, now);
    assert Storable(rec, Statuses);
    assert ValidTrip(t.(placesRestantes := t.placesRestantes - 1));
    var r := Reserve(s, Some(id), None, seat, user, now);
    var rid := FreshId(s.reservations.Keys);
    assert r.state.reservations[rid] == rec;
  }

  /** Reserve then cancel: the counter returns to its value before the reserve and the record
      stays, "annulée" — but its seat is still held, so the seat is neither listed nor
      bookable again. */
  lemma ReserveThenCancel(s: State, id: TripId, seg: Option<RequestedSegment>, seat: int, user: UserId, now: int)
    requires Invariant(s)
    requires Reserve(s, Some(id), seg, seat, user, now).Committed?
    ensures var s1 := Reserve(s, Some(id), seg, seat, user, now).state;
            var rid := FreshId(s.reservations.Keys);
            var c := Cancel(s1, rid);
            && c.Committed?
            && c.state.trips[id].placesRestantes == s.trips[id].placesRestantes
            && rid in c.state.reservations && c.state.reservations[rid].statut == Cancelled
            && seat !in ListSeats(c.state, id)
            && SeatHeld(c.state.reservations, id, seat)
  {
    var s1 := Reserve(s, Some(id), seg, seat, user, now).state;
    var rid := FreshId(s.reservations.Keys);
    ReservePreservesInvariant(s, Some(id), seg, seat, user, now);
    var s2 := s1.(reservations := s1.reservations[rid := s1.reservations[rid].(statut := Cancelled)]);
    assert LedgerOk(s2);
    var c := Cancel(s1, rid);
    assert c.state.reservations[rid].trajet.tripId == id && c.state.reservations[rid].seat == seat;
  }

  /** Reserve then delete: the counter and the reservation collection both return to where
      they were, and the seat is free again. */
  lemma ReserveThenDelete(s: State, id: TripId, seg: Option<RequestedSegment>, seat: int, user: UserId, now: int)
    requires Invariant(s)
    requires Reserve(s, Some(id), seg, seat, user, now).Committed?
    ensures var s1 := Reserve(s, Some(id), seg, seat, user, now).state;
            var d := Delete(s1, FreshId(s.reservations.Keys));
            && d.Committed?
            && d.state.reservations == s.reservations
            && d.state.trips[id].placesRestantes == s.trips[id].placesRestantes
            && !SeatHeld(d.state.reservations, id, seat)
  {
    var s1 := Reserve(s, Some(id), seg, seat, user, now).state;
    var rid := FreshId(s.reservations.Keys);
    ReservePreservesInvariant(s, Some(id), seg, seat, user, now);
    assert s1.reservations - {rid} == s.reservations;
  }

  /** A cancelled reservation keeps blocking its seat: the seat drops out of the listing, yet
      reserving it is refused as taken for as long as the record exists. */
  lemma CancelledSeatStaysBlocked(s: State, rid: ReservationId, seg: Option<RequestedSegment>, user: UserId, now: int)
    requires Invariant(s) && rid in s.reservations
    requires s.reservations[rid].statut == Cancelled
    ensures var rec := s.reservations[rid];
            && rec.seat !in ListSeats(s, rec.trajet.tripId)
            && (rec.trajet.tripId in s.trips && s.trips[rec.trajet.tripId].placesRestantes > 0 ==>
                  Reserve(s, Some(rec.trajet.tripId), seg, rec.seat, user, now) == Rejected(SeatTaken))
  {
    var rec := s.reservations[rid];
    assert SeatHeld(s.reservations, rec.trajet.tripId, rec.seat);
  }

  /** The cancel handler does not look at the record's current status: cancelling the same
      reservation twice hands two seats back for the one it held. */
  lemma RepeatedCancelRestoresTwice(s: State, rid: ReservationId)
    requires Invariant(s) && rid in s.reservations
    requires s.reservations[rid].trajet.tripId in s.trips
    requires var t := s.trips[s.reservations[rid].trajet.tripId];
             t.placesRestantes + 2 <= t.nombrePlaces
    ensures var id := s.reservations[rid].trajet.tripId;
            var c1 := Cancel(s, rid);
            var c2 := Cancel(After(s, c1), rid);
            && c1.Committed? && c2.Committed?
            && c2.state.trips[id].placesRestantes == s.trips[id].placesRestantes + 2
            && c2.state.reservations == c1.state.reservations
  {
    CancelPreservesInvariant(s, rid);
  }

  /** Validation keeps the seat on the seat map and leaves every counter alone. */
  lemma ValidatedSeatStaysListed(s: State, rid: ReservationId)
    requires Invariant(s) && rid in s.reservations
    ensures var v := Validate(s, rid);
            && v.Committed?
            && v.state.trips == s.trips
            && s.reservations[rid].seat in ListSeats(v.state, s.reservations[rid].trajet.tripId)
  {
    var v := Validate(s, rid);
    assert v.state.reservations[rid].statut == Validated;
  }

  /** As written, validation never lands, so no record ever reaches "validée" and the
      listing's "validée" filter never matches a validated booking. */
  lemma ValidationAsWrittenNeverLands(s: State, rid: ReservationId)
    requires rid in s.reservations
    ensures After(s, ValidateAsWritten(s, rid)) == s
    ensures ValidateAsWritten(s, rid) == Rejected(InvalidReservation)
  {
  }
}
