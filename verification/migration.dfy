/** The one-off script `scripts/migratePlacesRestantes.js`: every stored trip whose seat
    counter is missing or out of `[0, nombrePlaces]` gets it reset to the full capacity. Only
    the two counters of a stored trip matter to the script, so a document is modelled by them. */
module Migration {
  import opened Wrappers
  import Ledger

  /** What the store holds under `placesRestantes`: no field at all, an explicit `null`, or a
      number. */
  datatype StoredCount = Missing | Null | Count(value: int)

  /** The counters of one stored trip. */
  datatype Counters = Counters(nombrePlaces: int, placesRestantes: StoredCount)

  /** The counter as the script sees it on a document loaded by `Trajet.find()`: loading fills
      an absent path with the schema default, which is the trip's capacity, while a stored
      `null` stays `null` (`None`). */
  function Read(d: Counters): (r: Option<int>)
    ensures r.None? <==> d.placesRestantes.Null?
    ensures d.placesRestantes.Missing? ==> r == Some(d.nombrePlaces)
    ensures d.placesRestantes.Count? ==> r == Some(d.placesRestantes.value)
  {
    match d.placesRestantes
    case Missing => Some(d.nombrePlaces)
    case Null => None
    case Count(v) => Some(v)
  }

  /** The counter as a `.lean()` query returns it: no defaults, so a missing field and a `null`
      both come back empty. */
  function Lean(d: Counters): (r: Option<int>)
    ensures r.Some? <==> d.placesRestantes.Count?
    ensures r.Some? ==> r.value == d.placesRestantes.value
  {
    if d.placesRestantes.Count? then Some(d.placesRestantes.value) else None
  }

  /** What the script ends with: no trip at all, or the rewritten collection and the count
      it reports. */
  datatype Outcome = NoTrips | Migrated(docs: seq<Counters>, updatedCount: nat)

  /** The script's guard on the loaded counter: `undefined` or `null`, above capacity or
      negative. A loaded document is never `undefined` here, because loading applied the default. */
  predicate NeedsReset(d: Counters) {
    Read(d).None? || Read(d).value > d.nombrePlaces || Read(d).value < 0
  }

  /** A counter the seat allocator, which also loads documents, can work with. */
  predicate Consistent(d: Counters) {
    Read(d).Some? && 0 <= Read(d).value <= d.nombrePlaces
  }

  /** One document after the script has looked at it. */
  function Fix(d: Counters): (r: Counters)
    ensures r.nombrePlaces == d.nombrePlaces
    ensures !NeedsReset(d) ==> r == d
    ensures NeedsReset(d) ==> r.placesRestantes == Count(d.nombrePlaces)
    ensures d.nombrePlaces >= 0 ==> Consistent(r)
  {
    if NeedsReset(d) then d.(placesRestantes := Count(d.nombrePlaces)) else d
  }

  /** A trip stored without the field is not selected for a non-negative capacity: the loaded
      default is already in range, so the script neither rewrites nor counts it. */
  lemma MissingCounterIsNotCounted(d: Counters)
    requires d.placesRestantes.Missing? && d.nombrePlaces >= 0
    ensures !NeedsReset(d) && Fix(d) == d
  {
  }

  /** Of a collection whose only irregular counters are absent fields, the script reports no
      update at all. */
  lemma {:induction false} OnlyMissingCountersReportsNone(docs: seq<Counters>)
    requires forall i :: 0 <= i < |docs| ==> docs[i].nombrePlaces >= 0
    requires forall i :: 0 <= i < |docs| ==> docs[i].placesRestantes.Missing? || Consistent(docs[i])
    ensures Resets(docs) == 0
    decreases |docs|
  {
    if docs != [] {
      var init := docs[..|docs| - 1];
      assert forall i :: 0 <= i < |init| ==> init[i] == docs[i];
      OnlyMissingCountersReportsNone(init);
      var last := docs[|docs| - 1];
      if last.placesRestantes.Missing? {
        MissingCounterIsNotCounted(last);
      }
    }
  }

  /** For a non-negative capacity the guard is exactly the negation of consistency. */
  lemma NeedsResetIffInconsistent(d: Counters)
    requires d.nombrePlaces >= 0
    ensures NeedsReset(d) <==> !Consistent(d)
  {
  }

  /** The number of documents the guard selects. */
  function Resets(docs: seq<Counters>): (n: nat)
    ensures n <= |docs|
    ensures (forall i :: 0 <= i < |docs| ==> NeedsReset(docs[i])) ==> n == |docs|
    ensures n == 0 <==> forall i :: 0 <= i < |docs| ==> !NeedsReset(docs[i])
  {
    if docs == [] then 0
    else Resets(docs[..|docs| - 1]) + (if NeedsReset(docs[|docs| - 1]) then 1 else 0)
  }

  /** The count is the size of the set of positions the guard selects. */
  lemma {:induction false} ResetsCountsSelected(docs: seq<Counters>)
    ensures Resets(docs) == |set i | 0 <= i < |docs| && NeedsReset(docs[i])|
    decreases |docs|
  {
    if docs != [] {
      var init := docs[..|docs| - 1];
      ResetsCountsSelected(init);
      var before := set i | 0 <= i < |init| && NeedsReset(init[i]);
      var after := set i | 0 <= i < |docs| && NeedsReset(docs[i]);
      if NeedsReset(docs[|docs| - 1]) {
        assert after == before + {|docs| - 1};
      } else {
        assert after == before;
      }
    }
  }

  /** `migratePlacesRestantes`: the loop over `Trajet.find()`. For a capacity the schema
      accepts, the save hook leaves the assigned capacity as it is, so the stored value is the
      assigned one. */
  method Migrate(docs: seq<Counters>) returns (r: Outcome)
    ensures docs == [] <==> r.NoTrips?
    ensures r.Migrated? ==> |r.docs| == |docs|
    ensures r.Migrated? ==> forall i :: 0 <= i < |docs| ==> r.docs[i] == Fix(docs[i])
    ensures r.Migrated? ==> r.updatedCount == Resets(docs)
    ensures r.Migrated? ==> forall i :: 0 <= i < |docs| && docs[i].nombrePlaces >= 0 ==> Consistent(r.docs[i])
  {
    if |docs| == 0 {
      return NoTrips;
    }
    var out: seq<Counters> := [];
    var updated: nat := 0;
    var i := 0;
    while i < |docs|
      invariant 0 <= i <= |docs|
      invariant |out| == i
      invariant forall k :: 0 <= k < i ==> out[k] == Fix(docs[k])
      invariant updated == Resets(docs[..i])
    {
      var d := docs[i];
      var loaded := Read(d);
      if loaded.None? || loaded.value > d.nombrePlaces || loaded.value < 0 {
        d := d.(placesRestantes := Count(d.nombrePlaces));
        updated := updated + 1;
      }
      assert docs[..i + 1][..i] == docs[..i];
      out := out + [d];
      i := i + 1;
    }
    assert docs[..i] == docs;
    return Migrated(out, updated);
  }

  /** Running the script twice: the second run touches nothing, as long as capacities are
      non-negative (the schema demands at least ten seats). */
  lemma {:induction false} SecondRunIsNoOp(docs: seq<Counters>)
    requires forall i :: 0 <= i < |docs| ==> docs[i].nombrePlaces >= 0
    ensures Resets(seq(|docs|, i requires 0 <= i < |docs| => Fix(docs[i]))) == 0
    decreases |docs|
  {
    var fixed := seq(|docs|, i requires 0 <= i < |docs| => Fix(docs[i]));
    if docs != [] {
      var init := docs[..|docs| - 1];
      SecondRunIsNoOp(init);
      assert fixed[..|fixed| - 1] == seq(|init|, i requires 0 <= i < |init| => Fix(init[i]));
      assert !NeedsReset(fixed[|fixed| - 1]);
    }
  }

  /** Where no number was stored (an absent field or a `null`), the trip listing reports the
      same counter before and after the script: both fall back on the capacity. */
  lemma MigrationAgreesWithListing(d: Counters)
    requires !d.placesRestantes.Count?
    ensures Ledger.ListedRemaining(Lean(Fix(d)), Some(d.nombrePlaces)) == d.nombrePlaces
    ensures Ledger.ListedRemaining(Lean(d), Some(d.nombrePlaces)) == d.nombrePlaces
  {
  }

  /** After the script, the trip listing (which reads without defaults) and every handler that
      loads the document see the same counter. Before it, a stored `null` separates them: the
      listing shows the capacity, a loaded document shows `null`. */
  lemma ListingAndLoadAgreeAfterMigration(d: Counters)
    ensures Read(Fix(d)).Some?
    ensures Ledger.ListedRemaining(Lean(Fix(d)), Some(d.nombrePlaces)) == Read(Fix(d)).value
    ensures d.placesRestantes.Null? ==>
              Read(d).None? && Ledger.ListedRemaining(Lean(d), Some(d.nombrePlaces)) == d.nombrePlaces
  {
  }
}
