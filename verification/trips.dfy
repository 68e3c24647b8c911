/** The trip document of `models/Trajets.js`: its fields, the schema validators, the
    `pre("save")` hook, `findSegment`, the `typeVehicule` setter and the `typeTrajet` virtual. */
module Trips {
  import opened Wrappers
  import opened Errors
  import opened Text

  /** A departure date abstracted to its calendar day. */
  type Day = int
  type TripId = nat
  type SegmentId = nat

  const MinSeats := 10
  const MaxSeats := 60
  const DefaultSeats := 10
  const MinPrice := 1000
  const MinSegmentPrice := 200
  const DefaultCompany := "Kocrou Transport & Frères"
  const DefaultVehicle := "Autocar"
  /** The `typeVehicule` enum, case as declared. */
  const VehicleTypes: seq<string> := ["Autocar", "Minibus", "Bus VIP", "Autre"]
  const WithSegments := "Trajet avec segments"
  const Simple := "Trajet simple"

  /** A priced sub-route. An absent `depart`/`arrivee` is the empty string (the schema's
      `required` rejects both alike); `prix` stays optional because the save hook sums
      `seg.prix || 0`. */
  datatype Segment = Segment(id: SegmentId, depart: string, arrivee: string, prix: Option<int>)

  datatype Trip = Trip(
    compagnie: string,
    villeDepart: string,
    villeArrivee: string,
    dateDepart: Option<Day>,
    heureDepart: Option<string>,
    heureArrivee: Option<string>,
    prix: int,
    segments: seq<Segment>,
    prixTotal: int,
    nombrePlaces: int,
    placesRestantes: int,
    typeVehicule: string,
    actif: bool)

  /** The `heureDepart` pattern `^\d{2}:\d{2}$`. */
  predicate IsHourFormat(s: string) {
    |s| == 5 && IsDigit(s[0]) && IsDigit(s[1]) && s[2] == ':' && IsDigit(s[3]) && IsDigit(s[4])
  }

  function Digit(n: int): (c: char)
    requires 0 <= n < 10
    ensures IsDigit(c)
  {
    ('0' as int + n) as char
  }

  function DigitValue(c: char): (n: int)
    requires IsDigit(c)
    ensures 0 <= n < 10 && Digit(n) == c
  {
    c as int - '0' as int
  }

  /** A clock reading written as the pattern expects, `HH:mm` with zero padding. */
  function Clock(h: int, m: int): string
    requires 0 <= h < 100 && 0 <= m < 100
  {
    [Digit(h / 10), Digit(h % 10), ':', Digit(m / 10), Digit(m % 10)]
  }

  /** Every zero-padded pair of two-digit numbers matches the pattern. */
  lemma ClockMatchesHourFormat(h: int, m: int)
    requires 0 <= h < 100 && 0 <= m < 100
    ensures IsHourFormat(Clock(h, m))
  {
  }

  /** The pattern bounds neither hours nor minutes: "99:99" passes, "9:30" does not. */
  lemma HourFormatExamples()
    ensures IsHourFormat("99:99")
    ensures !IsHourFormat("9:30")
  {
  }

  /** Conversely every string the pattern accepts is such a pair. */
  lemma HourFormatIsClock(s: string)
    requires IsHourFormat(s)
    ensures var h := DigitValue(s[0]) * 10 + DigitValue(s[1]);
            var m := DigitValue(s[3]) * 10 + DigitValue(s[4]);
            0 <= h < 100 && 0 <= m < 100 && s == Clock(h, m)
  {
    var h := DigitValue(s[0]) * 10 + DigitValue(s[1]);
    var m := DigitValue(s[3]) * 10 + DigitValue(s[4]);
    assert h / 10 == DigitValue(s[0]) && h % 10 == DigitValue(s[1]);
    assert m / 10 == DigitValue(s[3]) && m % 10 == DigitValue(s[4]);
  }

  predicate ValidSegment(g: Segment) {
    g.depart != "" && g.arrivee != "" && g.prix.Some? && g.prix.value >= MinSegmentPrice
  }

  /** What the schema validators accept: required fields, the `min`/`max` bounds, the
      `heureDepart` pattern and the `typeVehicule` enum. */
  predicate ValidTrip(t: Trip) {
    && t.compagnie != ""
    && t.villeDepart != ""
    && t.villeArrivee != ""
    && t.dateDepart.Some?
    && t.heureDepart.Some? && IsHourFormat(t.heureDepart.value)
    && t.prix >= MinPrice
    && MinSeats <= t.nombrePlaces <= MaxSeats
    && t.placesRestantes >= 0
    && (forall i :: 0 <= i < |t.segments| ==> ValidSegment(t.segments[i]))
    && t.typeVehicule in VehicleTypes
  }

  /** The capacity invariant `0 <= placesRestantes <= nombrePlaces`. */
  predicate InRange(t: Trip) {
    0 <= t.placesRestantes <= t.nombrePlaces
  }

  /** `segments.reduce((sum, seg) => sum + (seg.prix || 0), 0)`. */
  function SegmentSum(segs: seq<Segment>): int {
    if segs == [] then 0 else SegmentSum(segs[..|segs| - 1]) + segs[|segs| - 1].prix.GetOr(0)
  }

  lemma {:induction false} SegmentSumAppend(a: seq<Segment>, b: seq<Segment>)
    ensures SegmentSum(a + b) == SegmentSum(a) + SegmentSum(b)
    decreases |b|
  {
    if b == [] {
      assert a + b == a;
    } else {
      var b' := b[..|b| - 1];
      assert (a + b)[..|a + b| - 1] == a + b';
      SegmentSumAppend(a, b');
    }
  }

  /** Every segment of a valid trip costs at least the segment floor, so the sum does too. */
  lemma {:induction false} SegmentSumFloor(segs: seq<Segment>)
    requires forall i :: 0 <= i < |segs| ==> ValidSegment(segs[i])
    ensures SegmentSum(segs) >= MinSegmentPrice * |segs|
    decreases |segs|
  {
    if segs != [] {
      SegmentSumFloor(segs[..|segs| - 1]);
    }
  }

  /** The `pre("save")` hook: recompute `prixTotal`, then cap `placesRestantes` at
      `nombrePlaces` and floor it at 0. Nothing else changes. */
  function PreSave(t: Trip): (r: Trip)
    ensures r.(prixTotal := t.prixTotal, placesRestantes := t.placesRestantes) == t
    ensures |t.segments| > 0 ==> r.prixTotal == SegmentSum(t.segments)
    ensures |t.segments| == 0 ==> r.prixTotal == t.prix
    ensures t.nombrePlaces >= 0 ==> InRange(r)
    ensures InRange(t) ==> r.placesRestantes == t.placesRestantes
    ensures t.nombrePlaces >= 0 && t.placesRestantes > t.nombrePlaces ==> r.placesRestantes == t.nombrePlaces
    ensures t.placesRestantes < 0 ==> r.placesRestantes == 0
  {
    var total := if |t.segments| > 0 then SegmentSum(t.segments) else t.prix;
    var capped := if t.placesRestantes > t.nombrePlaces then t.nombrePlaces else t.placesRestantes;
    var floored := if capped < 0 then 0 else capped;
    t.(prixTotal := total, placesRestantes := floored)
  }

  lemma PreSaveIdempotent(t: Trip)
    ensures PreSave(PreSave(t)) == PreSave(t)
  {
  }

  /** `trip.save()`: the schema validators run first (Mongoose registers validation as the
      first pre-save hook), then the hook above. A document the validators reject is not
      written. */
  function SaveTrip(t: Trip): (r: Result<Trip, Error>)
    ensures r.Success? <==> ValidTrip(t)
    ensures r.Failure? ==> r.error == InvalidTrip
    ensures r.Success? ==> ValidTrip(r.value) && InRange(r.value)
    ensures r.Success? ==> r.value.(prixTotal := t.prixTotal, placesRestantes := t.placesRestantes) == t
    ensures r.Success? ==> r.value.prixTotal == (if |t.segments| > 0 then SegmentSum(t.segments) else t.prix)
    ensures r.Success? ==> r.value.placesRestantes == (if t.placesRestantes > t.nombrePlaces then t.nombrePlaces else t.placesRestantes)
    ensures r.Success? && |t.segments| > 0 ==> r.value.prixTotal >= MinSegmentPrice * |t.segments|
  {
    if ValidTrip(t) then
      SegmentSumFloor(t.segments);
      Success(PreSave(t))
    else Failure(InvalidTrip)
  }

  /** The validators run before the hook and reject a negative counter, so the hook's floor at
      0 never fires on a document that is written. */
  lemma SaveNeverRaisesRemaining(t: Trip)
    requires SaveTrip(t).Success?
    ensures SaveTrip(t).value.placesRestantes <= t.placesRestantes
  {
  }

  predicate SegmentMatches(g: Segment, depart: string, arrivee: string) {
    EqualsIgnoreCase(g.depart, depart) && EqualsIgnoreCase(g.arrivee, arrivee)
  }

  /** `trip.findSegment(depart, arrivee)`: the first segment whose endpoints both match
      case-insensitively. */
  function FindSegment(segs: seq<Segment>, depart: string, arrivee: string): (r: Option<Segment>)
    ensures r.None? <==> forall i :: 0 <= i < |segs| ==> !SegmentMatches(segs[i], depart, arrivee)
    ensures r.Some? ==> exists i :: 0 <= i < |segs| && segs[i] == r.value
                           && SegmentMatches(segs[i], depart, arrivee)
                           && forall j :: 0 <= j < i ==> !SegmentMatches(segs[j], depart, arrivee)
  {
    if segs == [] then None
    else if SegmentMatches(segs[0], depart, arrivee) then Some(segs[0])
    else
      var r := FindSegment(segs[1..], depart, arrivee);
      assert forall i :: 1 <= i < |segs| ==> segs[i] == segs[1..][i - 1];
      r
  }

  /** The `typeVehicule` setter: falsy values pass through, otherwise the first character is
      upper-cased and the rest lower-cased. */
  function NormaliseVehicle(v: string): (r: string)
    ensures |r| == |v|
    ensures v != "" ==> r[0] == ToUpper(ToLower(v[0]))
    ensures forall i :: 1 <= i < |v| ==> r[i] == ToLower(v[i])
  {
    if v == "" then v
    else
      var lower := Lower(v);
      [ToUpper(lower[0])] + lower[1..]
  }

  /** Only the first character of a normalised value may be an upper-case letter. */
  lemma NormalisedTailIsLower(v: string, i: int)
    requires 1 <= i < |v|
    ensures !IsUpper(NormaliseVehicle(v)[i])
  {
  }

  lemma NormaliseVehicleIdempotent(v: string)
    ensures NormaliseVehicle(NormaliseVehicle(v)) == NormaliseVehicle(v)
  {
    if v != "" {
      var n := NormaliseVehicle(v);
      LowerOfUpperOfLower(v[0]);
      assert ToUpper(ToLower(n[0])) == n[0];
    }
  }

  /** No input is normalised to the declared enum value "Bus VIP": its upper-case tail is out
      of the setter's reach, so a trip of that vehicle type can never be saved. The other
      three declared values are fixed points. */
  lemma BusVipUnreachable(v: string)
    ensures NormaliseVehicle(v) != "Bus VIP"
    ensures NormaliseVehicle(v) in VehicleTypes ==> NormaliseVehicle(v) in ["Autocar", "Minibus", "Autre"]
  {
    if |v| == 7 {
      NormalisedTailIsLower(v, 4);
    }
  }

  /** The declared spelling "Bus VIP" is itself rewritten to a value outside the enum. */
  lemma BusVipBecomesBusVip()
    ensures NormaliseVehicle("Bus VIP") == "Bus vip"
    ensures "Bus vip" !in VehicleTypes
  {
    var n := NormaliseVehicle("Bus VIP");
    assert n[0] == 'B' && n[1] == 'u' && n[2] == 's' && n[3] == ' ';
    assert n[4] == 'v' && n[5] == 'i' && n[6] == 'p';
  }

  /** "MINIBUS" is rewritten to the declared "Minibus". */
  lemma ShoutedMinibusIsMinibus()
    ensures NormaliseVehicle("MINIBUS") == "Minibus"
  {
    var n := NormaliseVehicle("MINIBUS");
    assert n[0] == 'M' && n[1] == 'i' && n[2] == 'n' && n[3] == 'i';
    assert n[4] == 'b' && n[5] == 'u' && n[6] == 's';
  }

  /** The `typeTrajet` virtual. */
  function TypeTrajet(t: Trip): (r: string)
    ensures r == WithSegments || r == Simple
    ensures r == WithSegments <==> |t.segments| > 0
  {
    if |t.segments| > 0 then WithSegments else Simple
  }

  /** The virtual says "with segments" exactly when a save prices the trip by its segments. */
  lemma TypeTrajetMatchesSavedTotal(t: Trip)
    requires SaveTrip(t).Success?
    ensures TypeTrajet(t) == WithSegments <==> |t.segments| > 0
    ensures TypeTrajet(t) == Simple ==> SaveTrip(t).value.prixTotal == t.prix
    ensures TypeTrajet(t) == WithSegments ==> SaveTrip(t).value.prixTotal == SegmentSum(t.segments)
  {
  }
}
