# Kocrou transport: seats, capacity and presence, in Dafny

A model of the seat and capacity bookkeeping of the Kocrou transport back end (an Express and
Mongoose server). Trips ("trajets") carry a seat total `nombrePlaces` and a remaining-seat counter
`placesRestantes`. Reservations copy a snapshot of the trip, hold one seat and carry a status.
Each controller request is modelled as one sequential transition over a state made of the trip
collection, the reservation collection and the log of Socket.io events emitted so far. A request
either commits a new state, is rejected with a named error and changes nothing, or (only where
the source writes two documents one after the other) half-commits: the first write lands and
the trip save fails.

The modules follow the source files:

- `wrappers.dfy`: `Option`, `Result` and the error names.
- `text.dfy`: ASCII `toLowerCase`/`toUpperCase` and JavaScript truthiness of strings.
- `trips.dfy`: `models/Trajets.js`. Schema validators, the `pre("save")` hook (the segment-sum
  `prixTotal` and the capacity clamp), `findSegment`, the `typeVehicule` setter and the
  `typeTrajet` virtual.
- `reservations.dfy`: `models/Reservation.js`. The snapshot, the status enum, the validators,
  the route check of the save hook and `toPublicJSON`.
- `store.dfy`: the state, the request outcome, fresh ids and the store invariant.
- `ledger.dfy`: `controllers/trajetController.js`. Create with the same-day duplicate check,
  field-wise update, the listing projection, and add/update/delete of a segment.
- `allocator.dfy`: `controllers/reservationController.js`. Reserve with its ordered guards,
  cancel, delete, validate, the seat listing and the page arithmetic of the admin listing.
- `safety.dfy`: every request keeps the store invariant. The invariant is that every trip is
  valid with `0 <= placesRestantes <= nombrePlaces`, no two reservations share a seat of a trip,
  and every record is storable.
- `scenarios.dfy`: properties that span several requests. A run of reserves never overbooks.
  Reserve then cancel, and reserve then delete, give the seat back. Some seat behaviours are
  surprising but faithful to the code.
- `monitoring.dfy`: `controllers/monitoringController.js`, the admin presence registry.
- `migration.dfy`: `scripts/migratePlacesRestantes.js`, the counter normalisation pass.

Behaviours of the code that the model keeps as they are, with the lemma that shows each:

- A trip save stores the sum of the segment prices as `prixTotal` whenever segments exist. This
  overrides the controllers' `prixTotal = prix`. Only the listing reports `prix`
  (`Ledger.ListingHidesSegmentTotal`).
- The reserve guard finds a seat taken whatever the holding record's status. The seat listing
  only reports "confirmée" and "validée". So a cancelled seat disappears from the listing yet
  stays unbookable (`Scenarios.CancelledSeatStaysBlocked`).
- Cancel does not look at the record's current status. Cancelling twice hands back two seats for
  one (`Scenarios.RepeatedCancelRestoresTwice`).
- The `typeVehicule` setter lower-cases everything after the first character. No input can
  therefore become the declared enum value "Bus VIP" (`Trips.BusVipUnreachable`).
- The hook's floor of `placesRestantes` at 0 never acts on a written document. Mongoose runs
  the schema validators, which reject a negative counter, before the user hook
  (`Trips.SaveNeverRaisesRemaining`).

## Model

| member | source | states |
|---|---|---|
| Text.Lower | models/Trajets.js:113 | lower-casing maps each character on its own and keeps the length; only ASCII capitals change |
| Text.LowerIdempotent | models/Trajets.js:160-161 | lower-casing twice is lower-casing once, so the case-insensitive comparison is stable |
| Trips.ClockMatchesHourFormat | models/Trajets.js:58-62 | every two-digit hour and minute pair renders in the accepted `HH:mm` pattern |
| Trips.HourFormatIsClock | models/Trajets.js:58-62 | conversely, every string the pattern accepts is such a rendering, so the pattern means exactly "two digits, colon, two digits" |
| Trips.HourFormatExamples | models/Trajets.js:58-62 | the pattern bounds neither hours nor minutes ("99:99" passes) and demands two hour digits ("9:30" fails) |
| Trips.SegmentSumAppend | models/Trajets.js:136 | the reduce over segment prices (a missing price counts 0) distributes over concatenation |
| Trips.SegmentSumFloor | models/Trajets.js:20-24 | with every segment valid (price at least 200), the segment total is at least 200 per segment |
| Trips.PreSave | models/Trajets.js:133-150 | the hook changes only `prixTotal` and `placesRestantes`; `prixTotal` is the segment sum when segments exist, else `prix`; a non-negative capacity leaves the counter in range; an in-range counter is kept; an excess is cut to `nombrePlaces`, a negative becomes 0 |
| Trips.PreSaveIdempotent | models/Trajets.js:133-150 | running the hook on its own output changes nothing |
| Trips.SaveTrip | models/Trajets.js:88-150 | a save succeeds iff the document passes the validators (capacity 10 to 60, price at least 1000, every segment priced at least 200, the hour pattern, the vehicle enum); a saved trip is valid and in range, differs from the input only in the hook's two fields, and its counter is the input counter capped at the capacity; a saved segmented trip's total is at least 200 per segment |
| Trips.SaveNeverRaisesRemaining | models/Trajets.js:142-147 | a successful save never raises the remaining count |
| Trips.FindSegment | models/Trajets.js:157-163 | the result is the first segment whose two endpoints both match ignoring case, and none exactly when no segment matches |
| Trips.NormaliseVehicle | models/Trajets.js:110-116 | the setter keeps the length, upper-cases the first character of the lower-cased value and lower-cases the rest; the empty value passes through |
| Trips.NormaliseVehicleIdempotent | models/Trajets.js:110-116 | setting an already normalised value changes nothing |
| Trips.BusVipUnreachable | models/Trajets.js:106-117 | no input is normalised to "Bus VIP"; the only enum values the setter can produce are "Autocar", "Minibus" and "Autre" |
| Trips.BusVipBecomesBusVip | models/Trajets.js:106-117 | the declared spelling "Bus VIP" is itself rewritten to "Bus vip", which is outside the enum |
| Trips.ShoutedMinibusIsMinibus | models/Trajets.js:110-116 | "MINIBUS" is rewritten to the declared "Minibus" |
| Trips.TypeTrajet | models/Trajets.js:180-182 | the virtual is one of the two labels, and "Trajet avec segments" exactly when the trip has segments |
| Trips.TypeTrajetMatchesSavedTotal | models/Trajets.js:180-182 | the virtual says "Trajet avec segments" iff the trip has segments, which is exactly when the save prices it by its segments |
| Reservations.CheckRecord | models/Reservation.js:13-77 | a reservation save succeeds iff the required snapshot fields are present, the seat is at least 1, the status is in the enum and the two cities differ (exact comparison); validator failures come first, then the route check |
| Reservations.ValidatedOutsideSchema | models/Reservation.js:30-34 | under the declared enum every record with status "validée" is refused |
| Reservations.EnumsAgreeOffValidated | models/Reservation.js:30-34 | the declared enum and the enum with "validée" judge every other status alike |
| Reservations.ToPublicJSON | models/Reservation.js:82-85 | the public view carries every field of the document except `__v` |
| Reservations.PublicJSONDropsOnlyVersion | models/Reservation.js:82-85 | the document is recovered from its public view plus its version, and two documents share a view iff they differ at most in `__v` |
| Ledger.ClashIsCaseInsensitive | controllers/trajetController.js:37-41 | the duplicate query gives the same answer for the requested cities and their lower-cased forms |
| Ledger.ClashIgnoresSelf | controllers/trajetController.js:151-156 | on update the query clashes exactly when a stored trip other than the edited one would clash |
| Ledger.NewTrip | controllers/trajetController.js:52-66 | the created document takes the given or default company, seat total and vehicle; its counter equals its seat total, its `prixTotal` is `prix`, it is active and carries the given segments |
| Ledger.CreateTrip | controllers/trajetController.js:7-78 | rejected for a missing city or price iff one is missing; a duplicate rejection implies a date and a clash with a stored trip on the same route (ignoring case) and day, and a dated request that clashes is refused as duplicate; past those checks the create lands iff the new document is valid; every rejection is one of the three create errors; a created trip gets a fresh id, the given or default company, hours, vehicle and segments, `placesRestantes = nombrePlaces` and the saved total, is valid and in range, and no other trip changes |
| Ledger.CreateWithoutDateIsInvalid | controllers/trajetController.js:31-66 | without a date the duplicate check is skipped, but the required date makes the save fail |
| Ledger.CreateThenDuplicate | controllers/trajetController.js:31-49 | repeating a successful create is refused as a duplicate, while the same request for another day meets no clash from it and is created |
| Ledger.Patched | controllers/trajetController.js:165-181 | each given field replaces the stored one and each absent one keeps it, the vehicle through the setter; the segment list is replaced; `prixTotal` becomes `prix`; the counter falls, to the new seat total, exactly when a non-zero seat total below it is given |
| Ledger.UpdateTrip | controllers/trajetController.js:125-189 | unknown id is rejected; the duplicate check runs only with both cities and a date and ignores the trip itself; once found and not a duplicate the update lands iff the patched document is valid; every rejection is one of the three update errors; every absent field keeps its stored value; the vehicle passes through the setter again; segments are replaced and an absent list empties them; the stored total is the segment sum when segments exist, else `prix`; the remaining count never rises and becomes `min(old, new nombrePlaces)`; `actif` is kept; no other trip changes |
| Ledger.PatchStable | controllers/trajetController.js:165-183 | patching a saved patch with the same request gives back the same saved trip |
| Ledger.UpdateIdempotent | controllers/trajetController.js:125-189 | repeating an update that went through leaves the state as the first one left it |
| Ledger.ListedRemaining | controllers/trajetController.js:97 | the listed counter is the stored one, else the seat total, else 0 |
| Ledger.Listed | controllers/trajetController.js:93-98 | a listed trip reports `prixTotal = prix` and is otherwise the stored document |
| Ledger.ListTrips | controllers/trajetController.js:93-98 | the listing covers exactly the stored trips, each projected |
| Ledger.ListingHidesSegmentTotal | controllers/trajetController.js:93-98 | for a saved trip whose segment prices do not add up to its base price, the listing's `prixTotal` differs from the stored one |
| Ledger.ValidTripAppend | controllers/trajetController.js:216-219 | a trip with one more segment is valid exactly when the trip and the new segment are |
| Ledger.AddSegment | controllers/trajetController.js:208-226 | unknown trip is rejected; the add lands iff the stored trip is valid and the new segment has both endpoints and a price of at least 200; the new segment goes last with a fresh id and the request's fields; the earlier segments are kept in order; only the segments, the saved total and the counter may differ from the stored trip; the saved total is the old segment sum plus the new price; an in-range counter is kept |
| Ledger.IndexOfId | controllers/trajetController.js:239 | the first position carrying the segment id, and none exactly when no segment carries it |
| Ledger.PatchSegment | controllers/trajetController.js:242-244 | the patched segment keeps its id and takes each given field, keeping the stored one where none is given |
| Ledger.UpdateSegment | controllers/trajetController.js:231-254 | unknown trip or segment id is rejected; otherwise the update lands iff the trip with the first segment of that id patched is valid; exactly that segment is patched field by field, the rest unchanged; only the segments, the saved total and the counter may differ from the stored trip; the saved total is the segment sum; an in-range counter is kept |
| Ledger.WithoutId | controllers/trajetController.js:266-268 | the filter keeps exactly the segments whose id differs |
| Ledger.WithoutIdDistributes | controllers/trajetController.js:266-268 | the filter distributes over concatenation, so survivors keep their order |
| Ledger.WithoutAbsentId | controllers/trajetController.js:266-268 | filtering an id no segment carries keeps the list |
| Ledger.DeleteSegment | controllers/trajetController.js:259-277 | unknown trip is rejected; an unknown segment id is not an error; the delete lands iff the trip without those segments is valid, so always on a valid trip; every segment with the id is removed, the others keep their order; only the segments, the saved total and the counter may differ from the stored trip; the saved total is the segment sum when segments remain, else `prix`; an in-range counter is kept |
| Ledger.AddThenDeleteSegment | controllers/trajetController.js:208-277 | deleting the segment just added succeeds and gives back the former segments and the former saved total |
| Allocator.MatchRequested | controllers/reservationController.js:37-44 | with both requested endpoints present the inline search equals `findSegment`; with no segments it finds none; without a departure it fails on any segment; with a departure but no arrival it fails exactly when some segment's departure matches ignoring case; a partial request that does not fail finds nothing |
| Allocator.PriceFor | controllers/reservationController.js:35-44 | without a segment the base price; with both endpoints the price of the first segment matching both ignoring case, else the base price; a partial request that does not fail gets the base price; a failure is the missing-field error, only for a segment request on a trip with segments |
| Allocator.SnapshotFor | controllers/reservationController.js:47-55 | the snapshot takes the requested endpoints when given, even if no segment matched, and the trip's otherwise |
| Allocator.NewReservation | controllers/reservationController.js:46-58 | the created record is "confirmée", holds the requested seat for the requesting user at the request time, and carries the snapshot of the trip with the resolved price |
| Allocator.Reserve | controllers/reservationController.js:9-91 | the guards in order: missing id, unknown trip, no seat left, seat held by a record of any status, each rejected with nothing changed; past the guards the request is rejected iff the segment lookup reads an absent endpoint or the new record fails its validators, and otherwise commits iff the trip with one seat fewer is valid; every rejection is a guard or record error; a success adds exactly one "confirmée" record under a fresh id and sets the counter to `max(r-1, 0)`, exactly `r-1` given the guard, and emits one event; on a sound ledger the trip save cannot fail |
| Allocator.RestoreSeat | controllers/reservationController.js:225-246 | a seat handed back sets the counter to `min(r+1, nombrePlaces)` and emits one event; a vanished trip is skipped |
| Allocator.Cancel | controllers/reservationController.js:216-253 | unknown id is rejected; an existing record is rejected iff it fails its validators once marked "annulée", with one of the record errors; otherwise the record stays, marked "annulée", and the outcome is exactly handing its seat back, whatever the prior status; on a store of storable records a cancel of an existing id always goes through |
| Allocator.Delete | controllers/reservationController.js:295-328 | unknown id is rejected; otherwise exactly that record is removed and a seat is handed back |
| Allocator.ValidateAgainst | controllers/reservationController.js:258-272 | unknown id is rejected; the status change lands iff the record with "validée" passes the given enum; nothing else changes |
| Allocator.ValidateAsWritten | controllers/reservationController.js:258-272 | as written, every existing reservation is refused and nothing changes |
| Allocator.Validate | controllers/reservationController.js:258-272 | with "validée" admitted, validating a stored record always lands, changes only that record's status, and leaves every trip counter and the event log alone |
| Allocator.ListSeats | controllers/reservationController.js:277-290 | a seat is listed iff some record on that trip in status "confirmée" or "validée" holds it |
| Allocator.Skip | controllers/reservationController.js:187 | the skipped count `(page - 1) * limit`, restated as a whole number of pages (exactly `page - 1` of them for a positive limit) and never negative from page 1 on; it gets its meaning from `Allocator.EveryRecordOnOnePage` |
| Allocator.TotalPages | controllers/reservationController.js:200 | for a positive limit the page count is the least n >= 1 with `total <= n * limit`; no records always give one page; a zero limit reports an infinite page count iff there are records; a negative limit never reports more than one page |
| Allocator.EveryRecordOnOnePage | controllers/reservationController.js:185-200 | with a positive limit, record i lies on page `i / limit + 1`, inside the page count, and on no other page |
| Safety.CreatePreservesInvariant | controllers/trajetController.js:52-66 | creating a trip keeps the store invariant |
| Safety.UpdatePreservesInvariant | controllers/trajetController.js:165-183 | updating a trip keeps the store invariant |
| Safety.AddSegmentPreservesInvariant | controllers/trajetController.js:208-226 | adding a segment keeps the store invariant |
| Safety.UpdateSegmentPreservesInvariant | controllers/trajetController.js:231-254 | patching a segment keeps the store invariant |
| Safety.DeleteSegmentPreservesInvariant | controllers/trajetController.js:259-277 | deleting a segment keeps the store invariant |
| Safety.ReservePreservesInvariant | controllers/reservationController.js:24-63 | reserve keeps the invariant, and seat uniqueness in particular rests on the guard alone, since the seat index is not declared unique (models/Reservation.js lines 50 to 59) |
| Safety.RestorePreservesInvariant | controllers/reservationController.js:225-231 | handing a seat back keeps the invariant |
| Safety.CancelPreservesInvariant | controllers/reservationController.js:216-231 | cancel keeps the invariant |
| Safety.DeletePreservesInvariant | controllers/reservationController.js:295-307 | delete keeps the invariant |
| Safety.ValidatePreservesInvariant | controllers/reservationController.js:258-265 | validate keeps the invariant |
| Scenarios.ReserveStepOnTrip | controllers/reservationController.js:47-63 | one reserve either books the trip, one seat fewer and one record more, or leaves its counter and records alone |
| Scenarios.ReserveRunConservesCapacity | controllers/reservationController.js:24-63 | over any run of reserves, the counter falls by the number of bookings, the trip's records grow by the same number, and the bookings never outnumber the seats that were left |
| Scenarios.FreeSeatIsBooked | controllers/reservationController.js:24-63 | on a sound store, a request without a segment for a free seat from 1 up, on a trip with places left and distinct cities, commits at the base price, takes one place, and the seat is then held and listed |
| Scenarios.ReserveThenCancel | controllers/reservationController.js:216-231 | reserve then cancel restores the counter and keeps the record "annulée", whose seat is unlisted yet still held |
| Scenarios.ReserveThenDelete | controllers/reservationController.js:295-307 | reserve then delete restores both the counter and the reservation collection and frees the seat |
| Scenarios.CancelledSeatStaysBlocked | controllers/reservationController.js:30-33 | a cancelled record's seat is not listed, yet reserving it is refused as taken |
| Scenarios.RepeatedCancelRestoresTwice | controllers/reservationController.js:222-231 | cancelling one reservation twice raises the counter by two |
| Scenarios.ValidatedSeatStaysListed | controllers/reservationController.js:279-282 | after validation the seat is still listed and no counter moved |
| Scenarios.ValidationAsWrittenNeverLands | controllers/reservationController.js:264-265 | as written, validation of an existing record is refused and leaves the state unchanged |
| Monitoring.IndexOfEmail | controllers/monitoringController.js:42 | the position of an entry carrying the key, and none exactly when no entry carries it |
| Monitoring.Lookup | controllers/monitoringController.js:42 | a key looks up nothing exactly when no entry carries it |
| Monitoring.Register | controllers/monitoringController.js:23-28 | the key set gains the e-mail; entries for other keys keep their place and value; a new key goes last |
| Monitoring.RegisterSemantics | controllers/monitoringController.js:23-28 | keys stay distinct; the e-mail now maps to the socket id and `now`, overwriting any prior entry, and every other key maps as before |
| Monitoring.FirstWithSocket | controllers/monitoringController.js:32-36 | the first position whose socket id matches, none exactly when no entry matches, and no earlier entry matches |
| Monitoring.Unregister | controllers/monitoringController.js:31-38 | an unknown socket id leaves the registry as it was; otherwise exactly the first entry with that socket id is removed |
| Monitoring.RemoveAtSemantics | controllers/monitoringController.js:34 | deleting one entry keeps keys distinct, drops its key and keeps every other key's value |
| Monitoring.UnregisterSemantics | controllers/monitoringController.js:31-38 | unregistering drops only the key of the first matching entry, keeps a later entry with the same socket id, and changes nothing when none matches |
| Monitoring.Touch | controllers/monitoringController.js:41-45 | the heartbeat keeps length, keys and socket ids; entries for other keys are unchanged; an unknown e-mail leaves the registry as it was |
| Monitoring.TouchSemantics | controllers/monitoringController.js:41-45 | the heartbeat never adds a key and only refreshes the activity time of an existing one |
| Monitoring.MonitoringData | controllers/monitoringController.js:4-15 | one line per entry in registry order, and the count is the length of that list |
| Monitoring.CountIsRegistrySize | controllers/monitoringController.js:6-14 | with distinct keys the count equals the number of connected admins |
| Migration.Read | scripts/migratePlacesRestantes.js:19 | a loaded document reads an absent counter as the schema default, its capacity (models/Trajets.js lines 97 to 101), and is empty only for a stored `null` |
| Migration.Lean | controllers/trajetController.js:91 | a read without defaults returns the counter only when a number is stored |
| Migration.Fix | scripts/migratePlacesRestantes.js:30-37 | a `null`, excessive or negative counter is reset to `nombrePlaces`, not clamped to the nearer bound; a counter in range, or absent and defaulted into range, is kept; with a non-negative capacity the result is in range |
| Migration.MissingCounterIsNotCounted | scripts/migratePlacesRestantes.js:30-35 | for a non-negative capacity a trip stored without the counter is neither rewritten nor counted |
| Migration.OnlyMissingCountersReportsNone | scripts/migratePlacesRestantes.js:26-38 | a collection whose only irregular counters are absent fields reports zero updates |
| Migration.NeedsResetIffInconsistent | scripts/migratePlacesRestantes.js:30-35 | for a non-negative capacity the guard fires exactly on counters outside `[0, nombrePlaces]` |
| Migration.Resets | scripts/migratePlacesRestantes.js:26-38 | the count is at most the number of trips, all of them when every trip is selected, and zero exactly when none is |
| Migration.ResetsCountsSelected | scripts/migratePlacesRestantes.js:26-38 | the reported count is the number of trips the guard selects |
| Migration.Migrate | scripts/migratePlacesRestantes.js:19-43 | an empty collection ends without updates; otherwise every trip is fixed as above, position by position, the reported count is the number of invalid trips, and every trip with a non-negative capacity ends in range |
| Migration.SecondRunIsNoOp | scripts/migratePlacesRestantes.js:28-43 | a second pass over the result updates nothing |
| Migration.MigrationAgreesWithListing | scripts/migratePlacesRestantes.js:30-36 | where no number was stored, absent or `null`, the trip listing shows the capacity both before and after the pass |
| Migration.ListingAndLoadAgreeAfterMigration | scripts/migratePlacesRestantes.js:30-36 | after the pass the listing and a loaded document agree on every counter; before it a stored `null` is shown as the capacity by the listing yet read as `null` on load |

## Left out

- HTTP status codes, response bodies, logging and the `try`/`catch` wrappers are left out. Each failing request becomes a named `Error`.
- Concurrency is left out. Requests are atomic sequential transitions. The source has no store-level guard against two concurrent reserves of one seat or one last place, and the seat index at models/Reservation.js lines 50 to 59 is not unique.
- Socket.io transport and the `global._io` lookup are left out. An emission is one entry appended to the event log, and the model assumes a server is always attached.
- Dates and times are abstract. `dateDepart` is an integer day, so `setHours` day bounds become day equality. `dateReservation` is a clock value passed in. The `createdAt`/`updatedAt` timestamps and sorting by them are not modelled.
- The `^…$`/`i` regular expressions of the duplicate check are modelled as case-insensitive equality. Regex metacharacters inside a city name are not modelled.
- Case folding covers ASCII only. Non-ASCII letters (for example "É") are treated as caseless.
- The schema's `trim` of strings is not modelled.
- Outside the migration, JSON `null` and an absent field are both `None`. The request handlers do not reproduce that Mongoose applies a default only to an absent field. The migration does distinguish them, because its count depends on it.
- Ledger.UpdateIdempotent: request segments carry their ids and `CreateTrip`/`UpdateTrip` store them as given. In the source, a segment sent without `_id` gets a new ObjectId on every save (models/Trajets.js lines 9 to 25), so a repeated update renames those segments and the lemma holds only up to segment ids.
- The request handlers assume a number is stored in `placesRestantes`: an absent counter is defaulted on load. A stored `null` is modelled only by `Migration`. In the source, reserve refuses such a trip as having no seat left (`null <= 0`), and handing a seat back turns `null + 1` into `min(1, nombrePlaces)`.
- Numbers are integers. Fractional prices, `NaN`, and Mongoose's casting of strings to numbers are not modelled.
- Ids are natural numbers, and a new document gets the least unused one. A malformed ObjectId, which makes the source answer 500, is not modelled.
- Reservations.Snapshot: `tripId` is stored as the controller intends. The schema does not declare `trajet._id`, and Mongoose strict mode could drop it. This is not modelled.
- The snapshot's `heureDepart`/`heureArrivee` are always absent, because reserve never copies them.
- `getAllReservations` is modelled only through its page arithmetic. The `all=true` branch, the regex filters, the user lookup by e-mail, `populate` and the database `skip`/`limit` are store queries and are left out.
- Allocator.ListSeats: returns the set of listed seats. The source returns an array in store order, and that order is not modelled. The array could repeat a seat only if two records held it, which the store invariant excludes.
- Allocator.TotalPages: `limit` is an integer. `parseInt` returning `NaN` is not modelled.
- `getUserReservations`, `getTrajetById` and `deleteTrajet` are left out. They are a plain read, a plain read and a plain delete that touch no counter.
- The `description` virtual is a display string and is left out.
- Monitoring: `getConnectedAdmins` returns the registry object itself, which the model reads through `Lookup` and `Emails`. The Socket.io handshake that calls these functions is not part of this model.
- Migration.Migrate works on the two counters of each trip only, and leaves a document it does not select as stored (an absent counter stays absent). The database connection, console output and `process.exit` are left out. So is the whole-document validation of each `save`: if it fails, the script stops with exit code 1 after the earlier trips were saved.
- The authentication, settings, reports, logging and user/notification parts of the server are not part of this model.

## Findings

| source | as written | input that shows it | evidently intended | confidence | as-written member | corrected member |
|---|---|---|---|---|---|---|
| controllers/reservationController.js:264 | `validateReservation` sets `statut` to "validée", but the enum at models/Reservation.js line 32 lacks it, so every save is refused and the request fails | any existing reservation id | the status becomes "validée", as the seat listing's filter for "validée" (line 281) expects | high; not executed | Allocator.ValidateAsWritten | Allocator.Validate |
