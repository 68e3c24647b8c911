/** Failure-carrying wrappers shared by every module of the model. */
module Wrappers {

  /** A value that may be absent: a JavaScript field that is `undefined` or `null`. */
  datatype Option<+T> = None | Some(value: T) {

    /** The `??` operator: the carried value, or `default` when absent. */
    function GetOr(default: T): T {
      match this
      case Some(v) => v
      case None => default
    }

    /** `??` between two optional values: this one when present, else `other`. */
    function OrElse(other: Option<T>): Option<T> {
      match this
      case Some(_) => this
      case None => other
    }
  }

  /** The outcome of a check or lookup that can fail with an error value. */
  datatype Result<+R, +E> = Success(value: R) | Failure(error: E)
}

/** The error kinds the controllers and the schema hooks surface. */
module Errors {

  datatype Error =
    | MissingTripId        // reserve without `trajetId` (HTTP 400)
    | TripNotFound         // unknown trip id (HTTP 404)
    | NoSeatsLeft          // `placesRestantes <= 0` (HTTP 400)
    | SeatTaken            // a reservation already holds the seat (HTTP 400)
    | SegmentFieldMissing  // `segment.depart` or `segment.arrivee` absent: a TypeError (HTTP 500)
    | ReservationNotFound  // unknown reservation id (HTTP 404)
    | InvalidReservation   // the reservation schema's validators reject the record (HTTP 500)
    | IncompleteRoute      // reservation pre-save hook: an endpoint is empty (HTTP 500)
    | SameCities           // reservation pre-save hook: departure equals arrival (HTTP 500)
    | MissingTripFields    // trip creation without villeDepart, villeArrivee or prix (HTTP 400)
    | DuplicateTrip        // same route on the same day already scheduled (HTTP 400)
    | InvalidTrip          // the trip schema's validators reject the document (HTTP 500)
    | SegmentNotFound      // unknown segment id (HTTP 404)
}
