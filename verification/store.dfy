/** The persisted state the controllers act on: the trip collection, the reservation
    collection and the log of Socket.io events emitted so far. */
module Store {
  import opened Errors
  import opened Trips
  import opened Reservations

  /** The trip fields every emitted event carries, `placesRestantes` as updated. */
  datatype TripSummary = TripSummary(
    id: TripId,
    villeDepart: string,
    villeArrivee: string,
    compagnie: string,
    placesRestantes: int)

  datatype Event =
    | ReservationCreated(trip: TripSummary, seat: int, user: UserId)  // "reservation_created"
    | ReservationDeleted(trip: TripSummary)                           // "reservation_deleted"

  datatype State = State(
    trips: map<TripId, Trip>,
    reservations: map<ReservationId, Reservation>,
    events: seq<Event>)

  /** The effect of one request. `Rejected` leaves the state as it was; `HalfCommitted` is a
      first write that succeeded followed by a trip save that failed. */
  datatype Response =
    | Committed(state: State)
    | Rejected(error: Error)
    | HalfCommitted(state: State, error: Error)

  /** The state a request leaves behind. */
  function After(s: State, r: Response): State {
    match r
    case Committed(s') => s'
    case Rejected(_) => s
    case HalfCommitted(s', _) => s'
  }

  function Summary(id: TripId, t: Trip): TripSummary {
    TripSummary(id, t.villeDepart, t.villeArrivee, t.compagnie, t.placesRestantes)
  }

  /** The least id at or above `n` that the store has not handed out. */
  function FreshFrom(keys: set<nat>, n: nat): (r: nat)
    ensures r !in keys && n <= r
    ensures forall k :: n <= k < r ==> k in keys
    decreases |set k | k in keys && k >= n|
  {
    if n !in keys then n
    else
      var above := set k | k in keys && k >= n + 1;
      var from := set k | k in keys && k >= n;
      assert from == above + {n} && n !in above;
      assert |from| == |above| + 1;
      FreshFrom(keys, n + 1)
  }

  /** The id a new document receives: the least one not in use. */
  function FreshId(keys: set<nat>): (r: nat)
    ensures r !in keys
    ensures forall k: nat :: k < r ==> k in keys
  {
    FreshFrom(keys, 0)
  }

  /** Every stored trip passed the validators and keeps its counter in range. */
  ghost predicate LedgerOk(s: State) {
    forall id :: id in s.trips ==> ValidTrip(s.trips[id]) && InRange(s.trips[id])
  }

  /** Some reservation, whatever its status, holds `seat` on trip `id`: the query
      `{ "trajet._id": id, seat }` of the reserve guard. */
  predicate SeatHeld(reservations: map<ReservationId, Reservation>, id: TripId, seat: int) {
    exists rid :: rid in reservations && reservations[rid].trajet.tripId == id && reservations[rid].seat == seat
  }

  /** No two reservations, whatever their status, share a seat on one trip. */
  ghost predicate SeatsUnique(s: State) {
    forall a, b ::
      (a in s.reservations && b in s.reservations
       && s.reservations[a].trajet.tripId == s.reservations[b].trajet.tripId
       && s.reservations[a].seat == s.reservations[b].seat) ==> a == b
  }

  /** Every stored reservation passed the validators and the route check. */
  ghost predicate RecordsOk(s: State) {
    forall rid :: rid in s.reservations ==> Storable(s.reservations[rid], Statuses)
  }

  ghost predicate Invariant(s: State) {
    LedgerOk(s) && SeatsUnique(s) && RecordsOk(s)
  }
}
