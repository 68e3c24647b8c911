/** The reservation controller of `controllers/reservationController.js`: reserve with its
    ordered guards, cancel, validate, delete, the seat listing and the pagination arithmetic of
    the admin listing. Each request is one sequential transition of the store. */
module Allocator {
  import opened Wrappers
  import opened Errors
  import opened Text
  import opened Trips
  import opened Reservations
  import opened Store

  /** The `segment` object of a reserve request; either field may be absent. */
  datatype RequestedSegment = RequestedSegment(depart: Option<string>, arrivee: Option<string>)

  function Max(a: int, b: int): int { if a > b then a else b }

  function Min(a: int, b: int): int { if a < b then a else b }

  /** The inline `trajet.segments.find(...)` of reserve. The callback reads `segment.depart`
      for every segment it examines and `segment.arrivee` only once the departures agree, so
      an absent field throws exactly when it is read. */
  function MatchRequested(segs: seq<Segment>, req: RequestedSegment): (r: Result<Option<Segment>, Error>)
    ensures req.depart.Some? && req.arrivee.Some? ==> r == Success(FindSegment(segs, req.depart.value, req.arrivee.value))
    ensures segs == [] ==> r == Success(None)
    ensures req.depart.None? && segs != [] ==> r == Failure(SegmentFieldMissing)
    ensures req.depart.Some? && req.arrivee.None? ==>
              (r.Failure? <==> exists i :: 0 <= i < |segs| && EqualsIgnoreCase(segs[i].depart, req.depart.value))
    ensures r.Success? && (req.depart.None? || req.arrivee.None?) ==> r == Success(None)
    ensures r.Failure? ==> r.error == SegmentFieldMissing
  {
    if segs == [] then Success(None)
    else if req.depart.None? then Failure(SegmentFieldMissing)
    else if !EqualsIgnoreCase(segs[0].depart, req.depart.value) then MatchRequested(segs[1..], req)
    else if req.arrivee.None? then Failure(SegmentFieldMissing)
    else if EqualsIgnoreCase(segs[0].arrivee, req.arrivee.value) then Success(Some(segs[0]))
    else MatchRequested(segs[1..], req)
  }

  /** The price reserve charges: the first segment matching both requested endpoints
      (ignoring case), else the trip's base price. */
  function PriceFor(t: Trip, seg: Option<RequestedSegment>): (r: Result<Option<int>, Error>)
    ensures seg.None? ==> r == Success(Some(t.prix))
    ensures seg.Some? && seg.value.depart.Some? && seg.value.arrivee.Some? ==>
              r == Success(match FindSegment(t.segments, seg.value.depart.value, seg.value.arrivee.value)
                           case Some(g) => g.prix
                           case None => Some(t.prix))
    ensures r.Success? && seg.Some? && (seg.value.depart.None? || seg.value.arrivee.None?) ==> r == Success(Some(t.prix))
    ensures r.Failure? ==> r.error == SegmentFieldMissing && seg.Some? && t.segments != []
  {
    match seg
    case None => Success(Some(t.prix))
    case Some(req) =>
      match MatchRequested(t.segments, req)
      case Failure(e) => Failure(e)
      case Success(None) => Success(Some(t.prix))
      case Success(Some(g)) => Success(g.prix)
  }

  /** The snapshot reserve stores: the requested endpoints when given (`segment?.depart ||
      trajet.villeDepart`), even when no segment matched and the base price applies. */
  function SnapshotFor(id: TripId, t: Trip, seg: Option<RequestedSegment>, prix: Option<int>): (snap: Snapshot)
    ensures snap.tripId == id && snap.compagnie == t.compagnie && snap.prix == prix
    ensures seg.Some? && Truthy(seg.value.depart) ==> snap.villeDepart == seg.value.depart.value
    ensures !(seg.Some? && Truthy(seg.value.depart)) ==> snap.villeDepart == t.villeDepart
    ensures seg.Some? && Truthy(seg.value.arrivee) ==> snap.villeArrivee == seg.value.arrivee.value
    ensures !(seg.Some? && Truthy(seg.value.arrivee)) ==> snap.villeArrivee == t.villeArrivee
  {
    var depart := if seg.Some? && Truthy(seg.value.depart) then seg.value.depart.value else t.villeDepart;
    var arrivee := if seg.Some? && Truthy(seg.value.arrivee) then seg.value.arrivee.value else t.villeArrivee;
    Snapshot(id, t.compagnie, depart, arrivee, None, None, prix)
  }

  /** The record reserve creates once the guards passed and the price resolved. */
  function NewReservation(id: TripId, t: Trip, seg: Option<RequestedSegment>, prix: Option<int>, seat: int, user: UserId, now: int): (r: Reservation)
    ensures r.statut == Confirmed && r.seat == seat && r.user == user && r.dateReservation == now
    ensures r.trajet == SnapshotFor(id, t, seg, prix)
    ensures r.trajet.tripId == id && r.trajet.prix == prix && r.trajet.compagnie == t.compagnie
  {
    Reservation(user, SnapshotFor(id, t, seg, prix), seat, DefaultStatus, now, 0)
  }

  /** `createReservation`: the guards in source order, then the record, then the counter. */
  function Reserve(s: State, tripId: Option<TripId>, seg: Option<RequestedSegment>, seat: int, user: UserId, now: int): (r: Response)
    ensures tripId.None? ==> r == Rejected(MissingTripId)
    ensures tripId.Some? && tripId.value !in s.trips ==> r == Rejected(TripNotFound)
    ensures (tripId.Some? && tripId.value in s.trips && s.trips[tripId.value].placesRestantes <= 0)
            ==> r == Rejected(NoSeatsLeft)
    ensures (tripId.Some? && tripId.value in s.trips && s.trips[tripId.value].placesRestantes > 0
             && SeatHeld(s.reservations, tripId.value, seat)) ==> r == Rejected(SeatTaken)
    ensures !r.Rejected? ==>
              && tripId.Some? && tripId.value in s.trips
              && s.trips[tripId.value].placesRestantes > 0
              && !SeatHeld(s.reservations, tripId.value, seat)
              && FreshId(s.reservations.Keys) in After(s, r).reservations
    ensures !r.Rejected? ==>
              var id := tripId.value;
              var t := s.trips[id];
              var rid := FreshId(s.reservations.Keys);
              var rec := After(s, r).reservations[rid];
              && PriceFor(t, seg).Success?
              && After(s, r).reservations == s.reservations[rid := rec]
              && rec == NewReservation(id, t, seg, PriceFor(t, seg).value, seat, user, now)
              && rec.statut == Confirmed && rec.seat == seat && rec.trajet.tripId == id
              && Storable(rec, Statuses)
    ensures r.Committed? ==> tripId.Some? && tripId.value in r.state.trips
    ensures r.Committed? ==>
              var id := tripId.value;
              var t := s.trips[id];
              var t' := r.state.trips[id];
              && r.state.trips == s.trips[id := t']
              && t' == t.(placesRestantes := t'.placesRestantes, prixTotal := t'.prixTotal)
              && t'.placesRestantes == Min(t.placesRestantes - 1, t.nombrePlaces)
              && (InRange(t) ==> t'.placesRestantes == t.placesRestantes - 1)
              && r.state.events == s.events + [ReservationCreated(Summary(id, t'), seat, user)]
    ensures r.HalfCommitted? ==> After(s, r).trips == s.trips && After(s, r).events == s.events
    ensures LedgerOk(s) ==> !r.HalfCommitted?
    ensures r.Rejected? ==>
              r.error in {MissingTripId, TripNotFound, NoSeatsLeft, SeatTaken, SegmentFieldMissing,
                          InvalidReservation, IncompleteRoute, SameCities}
    ensures (tripId.Some? && tripId.value in s.trips && s.trips[tripId.value].placesRestantes > 0
             && !SeatHeld(s.reservations, tripId.value, seat)) ==>
              var id := tripId.value;
              var t := s.trips[id];
              && (r.Rejected? <==>
                    (|| PriceFor(t, seg).Failure?
                     || !Storable(NewReservation(id, t, seg, PriceFor(t, seg).value, seat, user, now), Statuses)))
              && (!r.Rejected? ==> (r.Committed? <==> ValidTrip(t.(placesRestantes := t.placesRestantes - 1))))
  {
    if tripId.None? then
      Rejected(MissingTripId)
    else if tripId.value !in s.trips then
      Rejected(TripNotFound)
    else
      var id := tripId.value;
      var t := s.trips[id];
      if t.placesRestantes <= 0 then
        Rejected(NoSeatsLeft)
      else if SeatHeld(s.reservations, id, seat) then
        Rejected(SeatTaken)
      else
        match PriceFor(t, seg)
        case Failure(e) => Rejected(e)
        case Success(prix) =>
          var rec := NewReservation(id, t, seg, prix, seat, user, now);
          match CheckRecord(rec, Statuses)
          case Failure(e) => Rejected(e)
          case Success(_) =>
            var s1 := s.(reservations := s.reservations[FreshId(s.reservations.Keys) := rec]);
            match SaveTrip(t.(placesRestantes := Max(t.placesRestantes - 1, 0)))
            case Failure(e) => HalfCommitted(s1, e)
            case Success(t') =>
              Committed(s1.(trips := s1.trips[id := t'],
                            events := s1.events + [ReservationCreated(Summary(id, t'), seat, user)]))
  }

  /** Hand a seat back to trip `id`: `placesRestantes + 1` capped at `nombrePlaces`, saved,
      announced. A trip that no longer exists is skipped. */
  function RestoreSeat(s: State, id: TripId): (r: Response)
    ensures !r.Rejected?
    ensures After(s, r).reservations == s.reservations
    ensures id !in s.trips ==> r == Committed(s)
    ensures r.Committed? && id in s.trips ==> id in r.state.trips
    ensures r.Committed? && id in s.trips ==>
              var t := s.trips[id];
              var t' := r.state.trips[id];
              && r.state.trips == s.trips[id := t']
              && t' == t.(placesRestantes := t'.placesRestantes, prixTotal := t'.prixTotal)
              && t'.placesRestantes == Min(t.placesRestantes + 1, t.nombrePlaces)
              && t'.placesRestantes <= t'.nombrePlaces
              && r.state.events == s.events + [ReservationDeleted(Summary(id, t'))]
    ensures r.HalfCommitted? ==> r.state == s
    ensures LedgerOk(s) ==> r.Committed? && LedgerOk(r.state)
  {
    if id !in s.trips then
      Committed(s)
    else
      var t := s.trips[id];
      match SaveTrip(t.(placesRestantes := Min(t.placesRestantes + 1, t.nombrePlaces)))
      case Failure(e) => HalfCommitted(s, e)
      case Success(t') =>
        Committed(s.(trips := s.trips[id := t'], events := s.events + [ReservationDeleted(Summary(id, t'))]))
  }

  /** `cancelReservation`: mark the record "annulée", keep it, restore a seat. The status of
      the record before the call is not consulted. */
  function Cancel(s: State, rid: ReservationId): (r: Response)
    ensures rid !in s.reservations ==> r == Rejected(ReservationNotFound)
    ensures !r.Rejected? ==>
              && rid in s.reservations
              && After(s, r).reservations == s.reservations[rid := s.reservations[rid].(statut := Cancelled)]
    ensures RecordsOk(s) && rid in s.reservations ==> !r.Rejected?
    ensures rid in s.reservations ==>
              (r.Rejected? <==> CheckRecord(s.reservations[rid].(statut := Cancelled), Statuses).Failure?)
    ensures r.Rejected? ==> r.error in {ReservationNotFound, InvalidReservation, IncompleteRoute, SameCities}
    ensures !r.Rejected? ==>
              r == RestoreSeat(s.(reservations := s.reservations[rid := s.reservations[rid].(statut := Cancelled)]),
                               s.reservations[rid].trajet.tripId)
    ensures !r.Rejected? ==>
              After(s, r) == After(s.(reservations := s.reservations[rid := s.reservations[rid].(statut := Cancelled)]),
                                   RestoreSeat(s.(reservations := s.reservations[rid := s.reservations[rid].(statut := Cancelled)]),
                                               s.reservations[rid].trajet.tripId))
  {
    if rid !in s.reservations then
      Rejected(ReservationNotFound)
    else
      var rec := s.reservations[rid].(statut := Cancelled);
      match CheckRecord(rec, Statuses)
      case Failure(e) => Rejected(e)
      case Success(_) => RestoreSeat(s.(reservations := s.reservations[rid := rec]), rec.trajet.tripId)
  }

  /** `deleteReservation`: remove the record, restore a seat, whatever the record's status. */
  function Delete(s: State, rid: ReservationId): (r: Response)
    ensures rid !in s.reservations ==> r == Rejected(ReservationNotFound)
    ensures rid in s.reservations ==> !r.Rejected? && After(s, r).reservations == s.reservations - {rid}
    ensures rid in s.reservations ==>
              r == RestoreSeat(s.(reservations := s.reservations - {rid}), s.reservations[rid].trajet.tripId)
  {
    if rid !in s.reservations then
      Rejected(ReservationNotFound)
    else
      RestoreSeat(s.(reservations := s.reservations - {rid}), s.reservations[rid].trajet.tripId)
  }

  /** Set a record's status to "validée" and save it against the given status enum. Capacity
      is not touched. */
  function ValidateAgainst(s: State, rid: ReservationId, statuses: set<Status>): (r: Response)
    ensures !r.HalfCommitted?
    ensures rid !in s.reservations ==> r == Rejected(ReservationNotFound)
    ensures r.Committed? ==>
              && rid in s.reservations
              && r.state == s.(reservations := s.reservations[rid := s.reservations[rid].(statut := Validated)])
    ensures rid in s.reservations ==>
              (r.Committed? <==> Storable(s.reservations[rid].(statut := Validated), statuses))
  {
    if rid !in s.reservations then
      Rejected(ReservationNotFound)
    else
      var rec := s.reservations[rid].(statut := Validated);
      match CheckRecord(rec, statuses)
      case Failure(e) => Rejected(e)
      case Success(_) => Committed(s.(reservations := s.reservations[rid := rec]))
  }

  /** `validateReservation` as written: the schema enum lacks "validée", so the save is
      refused for every existing record and nothing changes. */
  function ValidateAsWritten(s: State, rid: ReservationId): (r: Response)
    ensures rid !in s.reservations ==> r == Rejected(ReservationNotFound)
    ensures rid in s.reservations ==> r == Rejected(InvalidReservation)
  {
    if rid in s.reservations then
      ValidatedOutsideSchema(s.reservations[rid].(statut := Validated));
      ValidateAgainst(s, rid, SchemaStatuses)
    else
      ValidateAgainst(s, rid, SchemaStatuses)
  }

  /** `validateReservation` with "validée" admitted to the enum: the status changes, every
      trip counter and the event log stay as they were. */
  function Validate(s: State, rid: ReservationId): (r: Response)
    ensures !r.HalfCommitted?
    ensures rid !in s.reservations ==> r == Rejected(ReservationNotFound)
    ensures RecordsOk(s) && rid in s.reservations ==> r.Committed?
    ensures r.Committed? ==>
              && rid in s.reservations
              && r.state.trips == s.trips
              && r.state.events == s.events
              && r.state.reservations == s.reservations[rid := s.reservations[rid].(statut := Validated)]
  {
    ValidateAgainst(s, rid, Statuses)
  }

  /** `getReservedSeats`: the seats of the trip's reservations in status "confirmée" or
      "validée". */
  function ListSeats(s: State, id: TripId): (seats: set<int>)
    ensures forall seat :: seat in seats <==>
              exists rid :: rid in s.reservations && s.reservations[rid].trajet.tripId == id
                            && s.reservations[rid].statut in ActiveStatuses && s.reservations[rid].seat == seat
  {
    set rid | rid in s.reservations && s.reservations[rid].trajet.tripId == id
              && s.reservations[rid].statut in ActiveStatuses :: s.reservations[rid].seat
  }

  /** The number of pages the admin listing reports: `Math.ceil(total / limit) || 1`, where a
      zero limit divides to Infinity (or to NaN when `total` is 0, which `|| 1` turns into 1). */
  datatype PageCount = Pages(n: int) | Infinite

  function TotalPages(total: nat, limit: int): (r: PageCount)
    ensures limit > 0 ==> r.Pages? && r.n >= 1 && total <= r.n * limit
    ensures limit > 0 && total > 0 ==> (r.n - 1) * limit < total
    ensures limit == 0 ==> (r == Infinite <==> total > 0)
    ensures r.Pages? ==> r.n != 0
    ensures total == 0 ==> r == Pages(1)
    ensures limit < 0 ==> r.Pages? && r.n <= 1
  {
    if limit == 0 then
      if total == 0 then Pages(1) else Infinite
    else
      var q := if limit > 0 then (total + limit - 1) / limit else -(total / -limit);
      if q == 0 then Pages(1) else Pages(q)
  }

  /** `(page - 1) * limit`: the number of records the listing skips. */
  function Skip(page: int, limit: int): (r: int)
    ensures page >= 1 && limit >= 0 ==> r >= 0
    ensures limit > 0 ==> r % limit == 0 && r / limit == page - 1
  {
    if limit > 0 then MultipleDivides(page - 1, limit); (page - 1) * limit
    else (page - 1) * limit
  }

  /** A multiple of a positive `limit` divides by it exactly. */
  lemma MultipleDivides(k: int, limit: int)
    requires limit > 0
    ensures (k * limit) % limit == 0 && (k * limit) / limit == k
  {
    var q := (k * limit) / limit;
    var m := (k * limit) % limit;
    assert (q - k) * limit == -m;
    if q - k >= 1 {
      MulLe(1, q - k, limit);
      assert false;
    } else if q - k <= -1 {
      MulLe(q - k, -1, limit);
      assert false;
    }
  }

  lemma MulLe(a: int, b: int, c: int)
    requires c > 0 && a <= b
    ensures a * c <= b * c
  {
    assert b * c - a * c == (b - a) * c;
  }

  /** Record `i` sits in block `i / limit` of `limit` records. */
  lemma DivBounds(i: int, limit: int)
    requires limit > 0 && i >= 0
    ensures (i / limit) * limit <= i < (i / limit) * limit + limit
  {
  }

  /** Blocks of `limit` records do not overlap: the block holding `i` is `i / limit`. */
  lemma UniqueBlock(i: int, limit: int, k: int)
    requires limit > 0 && i >= 0
    requires k * limit <= i < k * limit + limit
    ensures k == i / limit
  {
    var q := i / limit;
    DivBounds(i, limit);
    if k < q {
      MulLe(k + 1, q, limit);
      assert false;
    } else if k > q {
      MulLe(q + 1, k, limit);
      assert false;
    }
  }

  /** With a positive limit every record of the filtered listing appears on exactly one
      reported page: record `i` is on page `i / limit + 1`, within the page count. */
  lemma EveryRecordOnOnePage(total: nat, limit: int, i: int, page: int)
    requires limit > 0 && 0 <= i < total
    ensures var p := i / limit + 1;
            1 <= p <= TotalPages(total, limit).n && Skip(p, limit) <= i < Skip(p, limit) + limit
    ensures Skip(page, limit) <= i < Skip(page, limit) + limit ==> page == i / limit + 1
  {
    var q := i / limit;
    var n := TotalPages(total, limit).n;
    DivBounds(i, limit);
    assert Skip(q + 1, limit) == q * limit;
    if q + 1 > n {
      MulLe(n, q, limit);
      assert false;
    }
    if Skip(page, limit) <= i < Skip(page, limit) + limit {
      UniqueBlock(i, limit, page - 1);
    }
  }
}
