/** The reservation document of `models/Reservation.js`: the denormalised trip snapshot, the
    seat, the status enum, the validators, the `pre("save")` route check and `toPublicJSON`. */
module Reservations {
  import opened Wrappers
  import opened Errors
  import opened Trips

  type ReservationId = nat
  type UserId = nat

  /** "confirmée", "annulée", "en_attente" and "validée". The schema's enum lists only the
      first three, yet `validateReservation` writes "validée"; see `SchemaStatuses`. */
  datatype Status = Confirmed | Cancelled | Pending | Validated

  /** The enum exactly as the schema declares it. */
  const SchemaStatuses: set<Status> := {Confirmed, Cancelled, Pending}
  /** The enum with "validée" added, which every status write of the controllers needs. */
  const Statuses: set<Status> := SchemaStatuses + {Validated}
  const DefaultStatus := Confirmed
  /** The statuses the seat listing reports as occupied. */
  const ActiveStatuses: set<Status> := {Confirmed, Validated}

  /** The trip terms copied at booking time. `tripId` is the trip's `_id`, stored although the
      schema does not declare it. */
  datatype Snapshot = Snapshot(
    tripId: TripId,
    compagnie: string,
    villeDepart: string,
    villeArrivee: string,
    heureDepart: Option<string>,
    heureArrivee: Option<string>,
    prix: Option<int>)

  /** A stored reservation; `version` is Mongoose's `__v`. */
  datatype Reservation = Reservation(
    user: UserId,
    trajet: Snapshot,
    seat: int,
    statut: Status,
    dateReservation: int,
    version: nat)

  /** What the schema validators accept, for a given status enum. */
  predicate SchemaValid(r: Reservation, statuses: set<Status>) {
    && r.trajet.compagnie != ""
    && r.trajet.villeDepart != ""
    && r.trajet.villeArrivee != ""
    && r.trajet.prix.Some?
    && r.seat >= 1
    && r.statut in statuses
  }

  /** What may be written: the validators pass and the hook's route check passes. */
  predicate Storable(r: Reservation, statuses: set<Status>) {
    SchemaValid(r, statuses) && r.trajet.villeDepart != r.trajet.villeArrivee
  }

  /** `reservation.save()`: the validators, then the `pre("save")` hook, which refuses an empty
      endpoint and then identical endpoints (exact, case-sensitive comparison). */
  function CheckRecord(r: Reservation, statuses: set<Status>): (res: Result<Reservation, Error>)
    ensures res.Success? <==> Storable(r, statuses)
    ensures res.Success? ==> res.value == r
    ensures !SchemaValid(r, statuses) ==> res == Failure(InvalidReservation)
    ensures SchemaValid(r, statuses) && r.trajet.villeDepart == r.trajet.villeArrivee ==> res == Failure(SameCities)
  {
    if !SchemaValid(r, statuses) then Failure(InvalidReservation)
    else if r.trajet.villeDepart == "" || r.trajet.villeArrivee == "" then Failure(IncompleteRoute)
    else if r.trajet.villeDepart == r.trajet.villeArrivee then Failure(SameCities)
    else Success(r)
  }

  /** The "validée" status that `validateReservation` writes is outside the declared enum, so
      the validators refuse any record carrying it. */
  lemma ValidatedOutsideSchema(r: Reservation)
    requires r.statut == Validated
    ensures CheckRecord(r, SchemaStatuses) == Failure(InvalidReservation)
  {
  }

  /** The two enums differ only on "validée": every other status is judged alike. */
  lemma EnumsAgreeOffValidated(r: Reservation)
    requires r.statut != Validated
    ensures CheckRecord(r, SchemaStatuses) == CheckRecord(r, Statuses)
  {
  }

  /** The object `toPublicJSON` returns: the document without `__v`. */
  datatype PublicReservation = PublicReservation(
    id: ReservationId,
    user: UserId,
    trajet: Snapshot,
    seat: int,
    statut: Status,
    dateReservation: int)

  function ToPublicJSON(id: ReservationId, r: Reservation): (p: PublicReservation)
    ensures p.id == id && p.user == r.user && p.trajet == r.trajet && p.seat == r.seat
    ensures p.statut == r.statut && p.dateReservation == r.dateReservation
  {
    PublicReservation(id, r.user, r.trajet, r.seat, r.statut, r.dateReservation)
  }

  /** Re-attach a version to a public view. */
  function WithVersion(p: PublicReservation, version: nat): Reservation {
    Reservation(p.user, p.trajet, p.seat, p.statut, p.dateReservation, version)
  }

  /** `toPublicJSON` loses exactly `__v`: the document is recovered from its view and its
      version, and two documents share a view iff they differ at most in `__v`. */
  lemma PublicJSONDropsOnlyVersion(id: ReservationId, r: Reservation, r': Reservation)
    ensures WithVersion(ToPublicJSON(id, r), r.version) == r
    ensures ToPublicJSON(id, r) == ToPublicJSON(id, r') <==> r.(version := 0) == r'.(version := 0)
  {
  }
}
