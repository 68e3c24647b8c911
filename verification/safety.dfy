/** The store invariant — every trip valid with `0 <= placesRestantes <= nombrePlaces`, no two
    reservations on one seat of one trip, every record storable — is kept by every request. */
module Safety {
  import opened Wrappers
  import opened Trips
  import opened Reservations
  import opened Store
  import opened Ledger
  import opened Allocator

  /** Replacing one trip by a valid, in-range one keeps the ledger sound. */
  lemma LedgerOkAfterWrite(s: State, s': State, id: TripId)
    requires LedgerOk(s)
    requires id in s'.trips && ValidTrip(s'.trips[id]) && InRange(s'.trips[id])
    requires s'.trips.Keys <= s.trips.Keys + {id}
    requires forall k :: k in s'.trips && k != id ==> k in s.trips && s'.trips[k] == s.trips[k]
    ensures LedgerOk(s')
  {
  }

  lemma CreatePreservesInvariant(s: State, p: TripInput)
    requires Invariant(s)
    ensures Invariant(After(s, CreateTrip(s, p)))
  {
    var r := CreateTrip(s, p);
    if r.Committed? {
      LedgerOkAfterWrite(s, r.state, FreshId(s.trips.Keys));
    }
  }

  lemma UpdatePreservesInvariant(s: State, id: TripId, p: TripInput)
    requires Invariant(s)
    ensures Invariant(After(s, UpdateTrip(s, id, p)))
  {
    var r := UpdateTrip(s, id, p);
    if r.Committed? {
      LedgerOkAfterWrite(s, r.state, id);
    }
  }

  lemma AddSegmentPreservesInvariant(s: State, tripId: TripId, depart: string, arrivee: string, prix: Option<int>)
    requires Invariant(s)
    ensures Invariant(After(s, AddSegment(s, tripId, depart, arrivee, prix)))
  {
    var a := AddSegment(s, tripId, depart, arrivee, prix);
    if a.Committed? { LedgerOkAfterWrite(s, a.state, tripId); }
  }

  lemma UpdateSegmentPreservesInvariant(s: State, tripId: TripId, segId: SegmentId,
                                        depart: Option<string>, arrivee: Option<string>, prix: Option<int>)
    requires Invariant(s)
    ensures Invariant(After(s, UpdateSegment(s, tripId, segId, depart, arrivee, prix)))
  {
    var u := UpdateSegment(s, tripId, segId, depart, arrivee, prix);
    if u.Committed? { LedgerOkAfterWrite(s, u.state, tripId); }
  }

  lemma DeleteSegmentPreservesInvariant(s: State, tripId: TripId, segId: SegmentId)
    requires Invariant(s)
    ensures Invariant(After(s, DeleteSegment(s, tripId, segId)))
  {
    var d := DeleteSegment(s, tripId, segId);
    if d.Committed? { LedgerOkAfterWrite(s, d.state, tripId); }
  }

  /** The reserve guard is the only thing standing between two reservations and one seat: a
      reserve that goes through keeps seats unique because no record, of any status, held the
      seat. */
  lemma ReservePreservesInvariant(s: State, tripId: Option<TripId>, seg: Option<RequestedSegment>, seat: int, user: UserId, now: int)
    requires Invariant(s)
    ensures Invariant(After(s, Reserve(s, tripId, seg, seat, user, now)))
  {
    var r := Reserve(s, tripId, seg, seat, user, now);
    if r.Committed? {
      var id := tripId.value;
      var s' := r.state;
      LedgerOkAfterWrite(s, s', id);
    }
  }

  /** Handing a seat back changes only one trip's counter. */
  lemma RestorePreservesInvariant(s: State, id: TripId)
    requires Invariant(s)
    ensures Invariant(After(s, RestoreSeat(s, id)))
  {
  }

  lemma CancelPreservesInvariant(s: State, rid: ReservationId)
    requires Invariant(s)
    ensures Invariant(After(s, Cancel(s, rid)))
  {
    if rid in s.reservations {
      var s1 := s.(reservations := s.reservations[rid := s.reservations[rid].(statut := Cancelled)]);
      assert Invariant(s1);
      RestorePreservesInvariant(s1, s.reservations[rid].trajet.tripId);
    }
  }

  lemma DeletePreservesInvariant(s: State, rid: ReservationId)
    requires Invariant(s)
    ensures Invariant(After(s, Delete(s, rid)))
  {
    if rid in s.reservations {
      var s1 := s.(reservations := s.reservations - {rid});
      assert Invariant(s1);
      RestorePreservesInvariant(s1, s.reservations[rid].trajet.tripId);
    }
  }

  lemma ValidatePreservesInvariant(s: State, rid: ReservationId)
    requires Invariant(s)
    ensures Invariant(After(s, Validate(s, rid)))
  {
  }
}
