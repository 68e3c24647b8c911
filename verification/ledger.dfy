/** The trip controller of `controllers/trajetController.js`: creation with the same-day
    duplicate check, field-wise update, the listing projection and the segment operations.
    Every write goes through `SaveTrip`, i.e. the schema validators and the save hook. */
module Ledger {
  import opened Wrappers
  import opened Errors
  import opened Text
  import opened Trips
  import opened Store

  /** The request body of `createTrajet` and `updateTrajet`; `None` is an absent field. */
  datatype TripInput = TripInput(
    compagnie: Option<string>,
    villeDepart: Option<string>,
    villeArrivee: Option<string>,
    dateDepart: Option<Day>,
    heureDepart: Option<string>,
    heureArrivee: Option<string>,
    prix: Option<int>,
    nombrePlaces: Option<int>,
    typeVehicule: Option<string>,
    segments: Option<seq<Segment>>)

  /** The duplicate query: both endpoints equal ignoring case, departure on the same day. */
  predicate SameRouteAndDay(t: Trip, depart: string, arrivee: string, day: Day) {
    EqualsIgnoreCase(t.villeDepart, depart) && EqualsIgnoreCase(t.villeArrivee, arrivee) && t.dateDepart == Some(day)
  }

  /** Some stored trip other than `except` runs the same route on the same day. */
  predicate Clashes(trips: map<TripId, Trip>, except: Option<TripId>, depart: string, arrivee: string, day: Day) {
    exists id :: id in trips && Some(id) != except && SameRouteAndDay(trips[id], depart, arrivee, day)
  }

  /** The duplicate check does not depend on the case of the requested cities: the query
      compares them case-insensitively. */
  lemma ClashIsCaseInsensitive(trips: map<TripId, Trip>, except: Option<TripId>, depart: string, arrivee: string, day: Day)
    ensures Clashes(trips, except, depart, arrivee, day) <==> Clashes(trips, except, Lower(depart), Lower(arrivee), day)
  {
    LowerIdempotent(depart);
    LowerIdempotent(arrivee);
  }

  /** On update the trip being edited is left out of the query: it clashes exactly when some
      other stored trip would clash with a fresh one. */
  lemma ClashIgnoresSelf(trips: map<TripId, Trip>, id: TripId, depart: string, arrivee: string, day: Day)
    ensures Clashes(trips, Some(id), depart, arrivee, day) <==> Clashes(trips - {id}, None, depart, arrivee, day)
  {
  }

  /** The vehicle type a write stores: the setter's output, or the default when absent. */
  function VehicleOf(v: Option<string>): string {
    match v
    case Some(x) => NormaliseVehicle(x)
    case None => DefaultVehicle
  }

  /** The document `Trajet.create` receives, defaults applied: `placesRestantes` is the given
      `nombrePlaces`, or the default seat count when that is absent too. */
  function NewTrip(p: TripInput, depart: string, arrivee: string, prix: int): (t: Trip)
    ensures t.compagnie == p.compagnie.GetOr(DefaultCompany) && t.typeVehicule == VehicleOf(p.typeVehicule)
    ensures t.nombrePlaces == p.nombrePlaces.GetOr(DefaultSeats) && t.placesRestantes == t.nombrePlaces
    ensures t.prixTotal == prix && t.segments == p.segments.GetOr([]) && t.actif
  {
    var seats := p.nombrePlaces.GetOr(DefaultSeats);
    Trip(
      compagnie := p.compagnie.GetOr(DefaultCompany),
      villeDepart := depart,
      villeArrivee := arrivee,
      dateDepart := p.dateDepart,
      heureDepart := p.heureDepart,
      heureArrivee := p.heureArrivee,
      prix := prix,
      segments := p.segments.GetOr([]),
      prixTotal := prix,
      nombrePlaces := seats,
      placesRestantes := seats,
      typeVehicule := VehicleOf(p.typeVehicule),
      actif := true)
  }

  /** The trip `createTrajet` stores for a request that passed its checks. */
  predicate CreatedFrom(t: Trip, p: TripInput) {
    && t.compagnie == p.compagnie.GetOr(DefaultCompany)
    && p.villeDepart == Some(t.villeDepart)
    && p.villeArrivee == Some(t.villeArrivee)
    && p.prix == Some(t.prix)
    && t.dateDepart == p.dateDepart
    && t.heureDepart == p.heureDepart
    && t.heureArrivee == p.heureArrivee
    && t.typeVehicule == VehicleOf(p.typeVehicule)
    && t.segments == p.segments.GetOr([])
    && t.nombrePlaces == p.nombrePlaces.GetOr(DefaultSeats)
    && t.placesRestantes == t.nombrePlaces
    && t.prixTotal == (if |t.segments| > 0 then SegmentSum(t.segments) else t.prix)
    && t.actif
  }

  /** `createTrajet`. */
  function CreateTrip(s: State, p: TripInput): (r: Response)
    ensures !r.HalfCommitted?
    ensures r == Rejected(MissingTripFields) <==> !Truthy(p.villeDepart) || !Truthy(p.villeArrivee) || p.prix.None?
    ensures Truthy(p.villeDepart) && Truthy(p.villeArrivee) && p.prix.Some? && p.dateDepart.Some?
            && Clashes(s.trips, None, p.villeDepart.value, p.villeArrivee.value, p.dateDepart.value)
            ==> r == Rejected(DuplicateTrip)
    ensures r == Rejected(DuplicateTrip) ==>
              && Truthy(p.villeDepart) && Truthy(p.villeArrivee) && p.prix.Some? && p.dateDepart.Some?
              && Clashes(s.trips, None, p.villeDepart.value, p.villeArrivee.value, p.dateDepart.value)
    ensures (Truthy(p.villeDepart) && Truthy(p.villeArrivee) && p.prix.Some?
             && !(p.dateDepart.Some? && Clashes(s.trips, None, p.villeDepart.value, p.villeArrivee.value, p.dateDepart.value)))
            ==> (r.Committed? <==> ValidTrip(NewTrip(p, p.villeDepart.value, p.villeArrivee.value, p.prix.value)))
    ensures r.Rejected? ==> r.error in {MissingTripFields, DuplicateTrip, InvalidTrip}
    ensures r.Committed? ==>
              var id := FreshId(s.trips.Keys);
              && r.state.trips.Keys == s.trips.Keys + {id}
              && (forall k :: k in s.trips ==> r.state.trips[k] == s.trips[k])
              && r.state.reservations == s.reservations
              && r.state.events == s.events
              && CreatedFrom(r.state.trips[id], p)
              && ValidTrip(r.state.trips[id]) && InRange(r.state.trips[id])
  {
    if !Truthy(p.villeDepart) || !Truthy(p.villeArrivee) || p.prix.None? then
      Rejected(MissingTripFields)
    else if p.dateDepart.Some? && Clashes(s.trips, None, p.villeDepart.value, p.villeArrivee.value, p.dateDepart.value) then
      Rejected(DuplicateTrip)
    else
      match SaveTrip(NewTrip(p, p.villeDepart.value, p.villeArrivee.value, p.prix.value))
      case Failure(e) => Rejected(e)
      case Success(t) => Committed(s.(trips := s.trips[FreshId(s.trips.Keys) := t]))
  }

  /** Without a `dateDepart` the duplicate check is skipped, but the schema requires the date,
      so the request fails validation instead. */
  lemma CreateWithoutDateIsInvalid(s: State, p: TripInput)
    requires Truthy(p.villeDepart) && Truthy(p.villeArrivee) && p.prix.Some? && p.dateDepart.None?
    ensures CreateTrip(s, p) == Rejected(InvalidTrip)
  {
  }

  /** Creation establishes what its own guard refuses: the same request again is a duplicate,
      while the same request for another day, free before, is created after it too. */
  lemma CreateThenDuplicate(s: State, p: TripInput, otherDay: Day)
    requires CreateTrip(s, p).Committed?
    requires p.dateDepart.Some? && otherDay != p.dateDepart.value
    requires !Clashes(s.trips, None, p.villeDepart.value, p.villeArrivee.value, otherDay)
    ensures CreateTrip(CreateTrip(s, p).state, p) == Rejected(DuplicateTrip)
    ensures !Clashes(CreateTrip(s, p).state.trips, None, p.villeDepart.value, p.villeArrivee.value, otherDay)
    ensures CreateTrip(CreateTrip(s, p).state, p.(dateDepart := Some(otherDay))).Committed?
  {
    var s' := CreateTrip(s, p).state;
    var id := FreshId(s.trips.Keys);
    assert SameRouteAndDay(s'.trips[id], p.villeDepart.value, p.villeArrivee.value, p.dateDepart.value);
    assert Clashes(s'.trips, None, p.villeDepart.value, p.villeArrivee.value, p.dateDepart.value);
    var q := p.(dateDepart := Some(otherDay));
    var t := NewTrip(p, p.villeDepart.value, p.villeArrivee.value, p.prix.value);
    assert NewTrip(q, p.villeDepart.value, p.villeArrivee.value, p.prix.value) == t.(dateDepart := Some(otherDay));
  }

  /** The document `updateTrajet` saves: every absent field keeps its stored value, the
      segments are replaced (an absent list empties them), `prixTotal` is reset to `prix`, and
      a smaller non-zero `nombrePlaces` lowers `placesRestantes`. */
  function Patched(t: Trip, p: TripInput): (r: Trip)
    ensures r.compagnie == p.compagnie.GetOr(t.compagnie) && r.prix == p.prix.GetOr(t.prix)
    ensures r.villeDepart == p.villeDepart.GetOr(t.villeDepart) && r.villeArrivee == p.villeArrivee.GetOr(t.villeArrivee)
    ensures r.dateDepart == p.dateDepart.OrElse(t.dateDepart)
    ensures r.heureDepart == p.heureDepart.OrElse(t.heureDepart) && r.heureArrivee == p.heureArrivee.OrElse(t.heureArrivee)
    ensures r.nombrePlaces == p.nombrePlaces.GetOr(t.nombrePlaces)
    ensures r.typeVehicule == NormaliseVehicle(p.typeVehicule.GetOr(t.typeVehicule))
    ensures r.segments == p.segments.GetOr([]) && r.prixTotal == r.prix && r.actif == t.actif
    ensures r.placesRestantes <= t.placesRestantes
    ensures r.placesRestantes < t.placesRestantes <==>
              p.nombrePlaces.Some? && p.nombrePlaces.value != 0 && p.nombrePlaces.value < t.placesRestantes
    ensures r.placesRestantes < t.placesRestantes ==> r.placesRestantes == r.nombrePlaces
  {
    var t1 := t.(
      compagnie := p.compagnie.GetOr(t.compagnie),
      villeDepart := p.villeDepart.GetOr(t.villeDepart),
      villeArrivee := p.villeArrivee.GetOr(t.villeArrivee),
      dateDepart := p.dateDepart.OrElse(t.dateDepart),
      heureDepart := p.heureDepart.OrElse(t.heureDepart),
      heureArrivee := p.heureArrivee.OrElse(t.heureArrivee),
      prix := p.prix.GetOr(t.prix),
      nombrePlaces := p.nombrePlaces.GetOr(t.nombrePlaces),
      typeVehicule := NormaliseVehicle(p.typeVehicule.GetOr(t.typeVehicule)),
      segments := p.segments.GetOr([]));
    var t2 := t1.(prixTotal := t1.prix);
    if p.nombrePlaces.Some? && p.nombrePlaces.value != 0 && p.nombrePlaces.value < t2.placesRestantes then
      t2.(placesRestantes := p.nombrePlaces.value)
    else
      t2
  }

  /** `updateTrajet`. */
  function UpdateTrip(s: State, id: TripId, p: TripInput): (r: Response)
    ensures !r.HalfCommitted?
    ensures id !in s.trips ==> r == Rejected(TripNotFound)
    ensures r == Rejected(DuplicateTrip) ==>
              && Truthy(p.villeDepart) && Truthy(p.villeArrivee) && p.dateDepart.Some?
              && Clashes(s.trips, Some(id), p.villeDepart.value, p.villeArrivee.value, p.dateDepart.value)
    ensures id in s.trips && Truthy(p.villeDepart) && Truthy(p.villeArrivee) && p.dateDepart.Some?
            && Clashes(s.trips, Some(id), p.villeDepart.value, p.villeArrivee.value, p.dateDepart.value)
            ==> r == Rejected(DuplicateTrip)
    ensures r.Committed? ==> id in s.trips && id in r.state.trips
    ensures r.Committed? ==>
              var t := s.trips[id];
              var t' := r.state.trips[id];
              && r.state.trips.Keys == s.trips.Keys
              && (forall k :: k in s.trips && k != id ==> r.state.trips[k] == s.trips[k])
              && r.state.reservations == s.reservations
              && r.state.events == s.events
              && t'.compagnie == p.compagnie.GetOr(t.compagnie)
              && t'.villeDepart == p.villeDepart.GetOr(t.villeDepart)
              && t'.villeArrivee == p.villeArrivee.GetOr(t.villeArrivee)
              && t'.dateDepart == p.dateDepart.OrElse(t.dateDepart)
              && t'.heureDepart == p.heureDepart.OrElse(t.heureDepart)
              && t'.heureArrivee == p.heureArrivee.OrElse(t.heureArrivee)
              && t'.prix == p.prix.GetOr(t.prix)
              && t'.nombrePlaces == p.nombrePlaces.GetOr(t.nombrePlaces)
              && t'.segments == p.segments.GetOr([])
              && t'.typeVehicule == NormaliseVehicle(p.typeVehicule.GetOr(t.typeVehicule))
              && t'.actif == t.actif
              && t'.prixTotal == (if |t'.segments| > 0 then SegmentSum(t'.segments) else t'.prix)
              && t'.placesRestantes <= t.placesRestantes
              && t'.placesRestantes == (if t.placesRestantes < t'.nombrePlaces then t.placesRestantes else t'.nombrePlaces)
              && ValidTrip(t') && InRange(t')
    ensures (id in s.trips
             && !(Truthy(p.villeDepart) && Truthy(p.villeArrivee) && p.dateDepart.Some?
                  && Clashes(s.trips, Some(id), p.villeDepart.value, p.villeArrivee.value, p.dateDepart.value)))
            ==> (r.Committed? <==> ValidTrip(Patched(s.trips[id], p)))
    ensures r.Rejected? ==> r.error in {TripNotFound, DuplicateTrip, InvalidTrip}
  {
    if id !in s.trips then
      Rejected(TripNotFound)
    else if Truthy(p.villeDepart) && Truthy(p.villeArrivee) && p.dateDepart.Some?
            && Clashes(s.trips, Some(id), p.villeDepart.value, p.villeArrivee.value, p.dateDepart.value) then
      Rejected(DuplicateTrip)
    else
      match SaveTrip(Patched(s.trips[id], p))
      case Failure(e) => Rejected(e)
      case Success(t) => Committed(s.(trips := s.trips[id := t]))
  }

  /** Patching a saved patch with the same request reproduces it. */
  lemma PatchStable(t: Trip, p: TripInput)
    requires SaveTrip(Patched(t, p)).Success?
    ensures SaveTrip(Patched(SaveTrip(Patched(t, p)).value, p)) == SaveTrip(Patched(t, p))
  {
    var t' := SaveTrip(Patched(t, p)).value;
    NormaliseVehicleIdempotent(p.typeVehicule.GetOr(t.typeVehicule));
    assert Patched(t', p) == t'.(prixTotal := t'.prix);
  }

  /** Repeating an update that went through changes nothing more. */
  lemma UpdateIdempotent(s: State, id: TripId, p: TripInput)
    requires UpdateTrip(s, id, p).Committed?
    ensures UpdateTrip(UpdateTrip(s, id, p).state, id, p) == UpdateTrip(s, id, p)
  {
    var s' := UpdateTrip(s, id, p).state;
    var t := s.trips[id];
    PatchStable(t, p);
    assert s'.trips[id] == SaveTrip(Patched(t, p)).value;
  }

  /** The `??` chain of the listing: stored count, else the seat total, else 0. */
  function ListedRemaining(placesRestantes: Option<int>, nombrePlaces: Option<int>): (r: int)
    ensures placesRestantes.Some? ==> r == placesRestantes.value
    ensures placesRestantes.None? ==> r == nombrePlaces.GetOr(0)
  {
    placesRestantes.GetOr(nombrePlaces.GetOr(0))
  }

  /** One entry of `getAllTrajets`: the stored trip with `prixTotal` reported as `prix`. */
  function Listed(t: Trip): (v: Trip)
    ensures v.(prixTotal := t.prixTotal) == t
    ensures v.prixTotal == t.prix
  {
    t.(prixTotal := t.prix, placesRestantes := ListedRemaining(Some(t.placesRestantes), Some(t.nombrePlaces)))
  }

  /** The projection of every trip. Filters and ordering are store queries, left out. */
  function ListTrips(s: State): (m: map<TripId, Trip>)
    ensures m.Keys == s.trips.Keys
    ensures forall id :: id in m ==> m[id] == Listed(s.trips[id])
  {
    map id | id in s.trips :: Listed(s.trips[id])
  }

  /** The listing and the stored document disagree on `prixTotal` for a segmented trip whose
      segment prices do not add up to its base price: the save hook stored the sum, the
      listing reports `prix`. */
  lemma ListingHidesSegmentTotal(s: State, id: TripId)
    requires LedgerOk(s) && id in s.trips
    requires s.trips[id] == PreSave(s.trips[id])
    requires |s.trips[id].segments| > 0 && SegmentSum(s.trips[id].segments) != s.trips[id].prix
    ensures ListTrips(s)[id].prixTotal == s.trips[id].prix
    ensures ListTrips(s)[id].prixTotal != s.trips[id].prixTotal
  {
  }

  /** The ids the segments of a trip carry. */
  function SegmentIds(segs: seq<Segment>): set<SegmentId> {
    set i | 0 <= i < |segs| :: segs[i].id
  }

  /** Appending a segment keeps a trip valid exactly when the trip and the segment are. */
  lemma ValidTripAppend(t: Trip, g: Segment)
    ensures ValidTrip(t.(segments := t.segments + [g])) <==> ValidTrip(t) && ValidSegment(g)
  {
    var segs := t.segments + [g];
    assert segs[|t.segments|] == g;
    assert forall i :: 0 <= i < |t.segments| ==> segs[i] == t.segments[i];
  }

  /** `addSegment`: append a new segment with a fresh id, reset `prixTotal`, save. */
  function AddSegment(s: State, tripId: TripId, depart: string, arrivee: string, prix: Option<int>): (r: Response)
    ensures !r.HalfCommitted?
    ensures tripId !in s.trips ==> r == Rejected(TripNotFound)
    ensures r.Committed? ==> tripId in s.trips && tripId in r.state.trips
    ensures r.Committed? ==>
              var t := s.trips[tripId];
              var t' := r.state.trips[tripId];
              && r.state == s.(trips := s.trips[tripId := t'])
              && |t'.segments| == |t.segments| + 1
              && t'.segments[..|t.segments|] == t.segments
              && t'.segments[|t.segments|].id !in SegmentIds(t.segments)
              && t'.segments[|t.segments|] == Segment(t'.segments[|t.segments|].id, depart, arrivee, prix)
              && t' == t.(segments := t'.segments, prixTotal := t'.prixTotal, placesRestantes := t'.placesRestantes)
              && t'.prixTotal == SegmentSum(t.segments) + prix.GetOr(0)
              && (InRange(t) ==> t'.placesRestantes == t.placesRestantes)
              && ValidTrip(t') && InRange(t')
    ensures tripId in s.trips ==>
              (r.Committed? <==> (&& ValidTrip(s.trips[tripId])
                                  && depart != "" && arrivee != "" && prix.Some? && prix.value >= MinSegmentPrice))
    ensures r.Rejected? ==> r.error in {TripNotFound, InvalidTrip}
  {
    if tripId !in s.trips then
      Rejected(TripNotFound)
    else
      var t := s.trips[tripId];
      var g := Segment(FreshId(SegmentIds(t.segments)), depart, arrivee, prix);
      SegmentSumAppend(t.segments, [g]);
      ValidTripAppend(t, g);
      match SaveTrip(t.(segments := t.segments + [g], prixTotal := t.prix))
      case Failure(e) => Rejected(e)
      case Success(t') => Committed(s.(trips := s.trips[tripId := t']))
  }

  /** `segments.id(segId)`: the index of the first segment carrying the id. */
  function IndexOfId(segs: seq<Segment>, segId: SegmentId): (r: Option<nat>)
    ensures r.None? <==> segId !in SegmentIds(segs)
    ensures r.Some? ==> r.value < |segs| && segs[r.value].id == segId
                        && forall j :: 0 <= j < r.value ==> segs[j].id != segId
  {
    if segs == [] then None
    else if segs[0].id == segId then Some(0)
    else
      assert SegmentIds(segs) == {segs[0].id} + SegmentIds(segs[1..]) by {
        forall x | x in SegmentIds(segs) ensures x in {segs[0].id} + SegmentIds(segs[1..]) {
          var i :| 0 <= i < |segs| && segs[i].id == x;
          if i > 0 { assert segs[1..][i - 1] == segs[i]; }
        }
      }
      match IndexOfId(segs[1..], segId)
      case None => None
      case Some(i) => Some(i + 1)
  }

  /** The segment `updateSegment` writes back: each given field replaces the stored one. */
  function PatchSegment(g: Segment, depart: Option<string>, arrivee: Option<string>, prix: Option<int>): (r: Segment)
    ensures r.id == g.id
    ensures r.depart == depart.GetOr(g.depart) && r.arrivee == arrivee.GetOr(g.arrivee) && r.prix == prix.OrElse(g.prix)
  {
    g.(depart := depart.GetOr(g.depart), arrivee := arrivee.GetOr(g.arrivee), prix := prix.OrElse(g.prix))
  }

  /** `updateSegment`: patch the first segment with the id, field by field (`??`). */
  function UpdateSegment(s: State, tripId: TripId, segId: SegmentId, depart: Option<string>, arrivee: Option<string>, prix: Option<int>): (r: Response)
    ensures !r.HalfCommitted?
    ensures tripId !in s.trips ==> r == Rejected(TripNotFound)
    ensures tripId in s.trips && segId !in SegmentIds(s.trips[tripId].segments) ==> r == Rejected(SegmentNotFound)
    ensures r.Committed? ==> tripId in s.trips && tripId in r.state.trips
    ensures r.Committed? ==>
              var t := s.trips[tripId];
              var t' := r.state.trips[tripId];
              && r.state == s.(trips := s.trips[tripId := t'])
              && ValidTrip(t') && InRange(t')
              && t' == t.(segments := t'.segments, prixTotal := t'.prixTotal, placesRestantes := t'.placesRestantes)
              && t'.prixTotal == SegmentSum(t'.segments)
              && (InRange(t) ==> t'.placesRestantes == t.placesRestantes)
              && exists i :: (0 <= i < |t.segments| && t.segments[i].id == segId
                   && (forall j :: 0 <= j < i ==> t.segments[j].id != segId)
                   && t'.segments == t.segments[i := Segment(segId,
                                                           depart.GetOr(t.segments[i].depart),
                                                           arrivee.GetOr(t.segments[i].arrivee),
                                                           prix.OrElse(t.segments[i].prix))])
    ensures tripId in s.trips && segId in SegmentIds(s.trips[tripId].segments) ==>
              var t := s.trips[tripId];
              var i := IndexOfId(t.segments, segId).value;
              (r.Committed? <==> ValidTrip(t.(segments := t.segments[i := PatchSegment(t.segments[i], depart, arrivee, prix)])))
    ensures r.Rejected? ==> r.error in {TripNotFound, SegmentNotFound, InvalidTrip}
  {
    if tripId !in s.trips then
      Rejected(TripNotFound)
    else
      var t := s.trips[tripId];
      match IndexOfId(t.segments, segId)
      case None => Rejected(SegmentNotFound)
      case Some(i) =>
        var g' := PatchSegment(t.segments[i], depart, arrivee, prix);
        match SaveTrip(t.(segments := t.segments[i := g'], prixTotal := t.prix))
        case Failure(e) => Rejected(e)
        case Success(t') => Committed(s.(trips := s.trips[tripId := t']))
  }

  /** `segments.filter(seg => seg._id !== segId)`. */
  function WithoutId(segs: seq<Segment>, segId: SegmentId): (r: seq<Segment>)
    ensures forall i :: 0 <= i < |r| ==> r[i].id != segId
    ensures forall g :: g in r <==> g in segs && g.id != segId
    ensures |r| <= |segs|
  {
    if segs == [] then []
    else if segs[0].id == segId then WithoutId(segs[1..], segId)
    else [segs[0]] + WithoutId(segs[1..], segId)
  }

  /** The filter distributes over concatenation, so it keeps the survivors in their order. */
  lemma {:induction false} WithoutIdDistributes(a: seq<Segment>, b: seq<Segment>, segId: SegmentId)
    ensures WithoutId(a + b, segId) == WithoutId(a, segId) + WithoutId(b, segId)
    decreases |a|
  {
    if a == [] {
      assert a + b == b;
    } else {
      assert (a + b)[1..] == a[1..] + b;
      WithoutIdDistributes(a[1..], b, segId);
    }
  }

  /** `deleteSegment`: drop every segment with the id (none is not an error), reset
      `prixTotal`, save. */
  function DeleteSegment(s: State, tripId: TripId, segId: SegmentId): (r: Response)
    ensures !r.HalfCommitted?
    ensures tripId !in s.trips ==> r == Rejected(TripNotFound)
    ensures r.Committed? ==> tripId in s.trips && tripId in r.state.trips
    ensures r.Committed? ==>
              var t := s.trips[tripId];
              var t' := r.state.trips[tripId];
              && r.state == s.(trips := s.trips[tripId := t'])
              && t'.segments == WithoutId(t.segments, segId)
              && segId !in SegmentIds(t'.segments)
              && ValidTrip(t') && InRange(t')
              && t' == t.(segments := t'.segments, prixTotal := t'.prixTotal, placesRestantes := t'.placesRestantes)
              && t'.prixTotal == (if |t'.segments| > 0 then SegmentSum(t'.segments) else t'.prix)
              && (InRange(t) ==> t'.placesRestantes == t.placesRestantes)
    ensures tripId in s.trips ==> (r.Committed? <==> ValidTrip(s.trips[tripId].(segments := WithoutId(s.trips[tripId].segments, segId))))
    ensures tripId in s.trips && ValidTrip(s.trips[tripId]) ==> r.Committed?
    ensures r.Rejected? ==> r.error in {TripNotFound, InvalidTrip}
  {
    if tripId !in s.trips then
      Rejected(TripNotFound)
    else
      var t := s.trips[tripId];
      match SaveTrip(t.(segments := WithoutId(t.segments, segId), prixTotal := t.prix))
      case Failure(e) => Rejected(e)
      case Success(t') => Committed(s.(trips := s.trips[tripId := t']))
  }

  /** Filtering out an id that no segment carries keeps the list as it is. */
  lemma {:induction false} WithoutAbsentId(segs: seq<Segment>, segId: SegmentId)
    requires segId !in SegmentIds(segs)
    ensures WithoutId(segs, segId) == segs
    decreases |segs|
  {
    if segs != [] {
      assert segs[0].id in SegmentIds(segs);
      assert SegmentIds(segs[1..]) <= SegmentIds(segs) by {
        forall x | x in SegmentIds(segs[1..]) ensures x in SegmentIds(segs) {
          var i :| 0 <= i < |segs| - 1 && segs[1..][i].id == x;
          assert segs[i + 1].id == x;
        }
      }
      WithoutAbsentId(segs[1..], segId);
    }
  }

  /** Deleting the segment just added gives the trip back its former segments, in order,
      and the saved total of the trip as it was. */
  lemma AddThenDeleteSegment(s: State, tripId: TripId, depart: string, arrivee: string, prix: Option<int>)
    requires AddSegment(s, tripId, depart, arrivee, prix).Committed?
    ensures var s1 := AddSegment(s, tripId, depart, arrivee, prix).state;
            var t := s.trips[tripId];
            var g := s1.trips[tripId].segments[|t.segments|];
            var d := DeleteSegment(s1, tripId, g.id);
            && d.Committed?
            && d.state.trips[tripId].segments == t.segments
            && d.state.trips[tripId].prixTotal == SaveTrip(t).value.prixTotal
  {
    var s1 := AddSegment(s, tripId, depart, arrivee, prix).state;
    var t := s.trips[tripId];
    var t1 := s1.trips[tripId];
    var g := t1.segments[|t.segments|];
    assert t1.segments == t.segments + [g];
    assert WithoutId(t1.segments, g.id) == t.segments by {
      WithoutIdDistributes(t.segments, [g], g.id);
      WithoutAbsentId(t.segments, g.id);
      assert WithoutId([g], g.id) == [];
    }
    var added := t.(segments := t1.segments, prixTotal := t.prix);
    assert ValidTrip(added);
    assert forall i :: 0 <= i < |t.segments| ==> t.segments[i] == t1.segments[i];
    assert ValidTrip(t);
    assert ValidTrip(t1.(segments := t.segments, prixTotal := t1.prix));
  }
}
