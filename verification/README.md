# FleetFlow trip allocation in Dafny

This project models the trip-allocation core of FleetFlow's backend. A trip
assigns one vehicle and one driver. The vehicle's `status` (AVAILABLE, ON_TRIP,
IN_SHOP, RETIRED) and the driver's `status` (AVAILABLE, ON_DUTY, SUSPENDED)
serve as informal locks. Four trip handlers drive the lifecycle: create a
draft, dispatch, complete and cancel. The maintenance handler sends a vehicle
to the shop unless it is ON_TRIP. The vehicle and driver handlers register,
update and delete records, and their updates can write `status` directly.

The store is one value, `Fleet.State`. It maps ids to vehicles, drivers,
trips, maintenance logs and expenses, and keeps an autoincrement counter for
each table the handlers insert into (vehicles, drivers, trips and logs;
expenses are only read). Each handler is a pure function from the state and the request to
`Result<State, Error>`:

- an `Ok` holds the whole next state, which models the store transaction as one atomic replacement;
- an `Err` carries only an error code, so a refused request cannot have changed anything.

The model also follows these conventions of the source:

- Optional request fields are `Option` values. JavaScript truthiness is `Fleet.Truthy`: absent and 0 are falsy. For text it is `Fleet.TruthyText`: absent and "" are falsy.
- `Number(x || d)` is `Fleet.OrDefault`.
- Instants, weights, costs and odometer readings are integers.
- A store exception that the handler does not catch is `StoreFault`. This covers an update or delete of an unknown id and a dangling reference inside a transaction.

The central property is the resource-lock invariant `Locks.Inv`:

- every vehicle is held by at most one DISPATCHED trip, and is ON_TRIP exactly when held;
- the same holds for drivers and ON_DUTY;
- every trip's vehicle and driver, every log's vehicle and every expense's vehicle exist, and every vehicle, driver, trip and log id is below its table's counter.

Module `Locks` proves which handlers keep this invariant. It also proves that
three paths break it:

- cancelling a trip that holds nothing (a DRAFT, or a trip that is already CANCELLED);
- completing a DRAFT trip;
- a free status write through the vehicle or driver update that disagrees with the trips.

`Locks.DraftDispatchCancelScenario` reaches the broken state with ordinary
requests, starting from any consistent store that has an AVAILABLE vehicle,
an AVAILABLE driver whose licence has not expired, a cargo within the
vehicle's capacity, and nonzero ids. After that, the maintenance
handler accepts a vehicle that a DISPATCHED trip is still using.

Module `Intended` holds corrected completion and cancellation. With them,
`Intended.RunPreservesInv` proves the invariant for any sequence of requests
that do not write a status field directly.

Three behaviours of the trip controller differ from what the rest of the
program suggests. This model follows the controller:

- A draft takes no lock (`tripController.js:4`), yet nothing promotes a draft to DISPATCHED: the controller exports no such handler (`tripController.js:158`).
- The trip page offers Complete only for DISPATCHED trips (`frontend/src/pages/Trips.jsx:90-104`). The controller refuses only COMPLETED and CANCELLED trips, so it also completes a DRAFT trip.
- The same page offers Cancel only for DISPATCHED trips. The controller also cancels a DRAFT trip or an already CANCELLED one, and releases its vehicle and driver each time.

The odometer-regression error carries no `code` field, and the model's
`Fleet.Code` gives it none.

## Model

| member | source | states |
|---|---|---|
| Trips.NewTrip | backend-core/controllers/tripController.js:21 | a created trip carries the requested vehicle, driver and cargo, starts now, has no end date, and its revenue is the supplied one, or 0 when none is supplied |
| Trips.CreateDraft | backend-core/controllers/tripController.js:5-25 | a missing vehicleId, driverId or cargoWeight gives MissingField. Then an unknown vehicle is reported before an unknown driver. Then cargo over capacity gives CargoOverload. It succeeds exactly when all of these pass. On success only the trip table changes: one new DRAFT trip appears under the next id, and vehicles and drivers are untouched |
| Trips.Dispatch | backend-core/controllers/tripController.js:48-104 | each error arises exactly when every earlier check passed and its own check fails, in the order missing field, vehicle not found, driver not found, cargo over capacity (cargo equal to capacity passes), licence expired (expiry strictly before now), vehicle not AVAILABLE, driver not AVAILABLE. It succeeds exactly when all pass. Success adds one DISPATCHED trip, sets that vehicle ON_TRIP and that driver ON_DUTY, and changes no other record |
| Trips.DispatchChecksExtendDraft | backend-core/controllers/tripController.js:5-104 | whatever createDraft refuses, dispatch refuses with the same error. When dispatch succeeds, createDraft would too, and the trip tables differ only in the new trip's status |
| Trips.Complete | backend-core/controllers/tripController.js:107-140 | an unknown trip gives TripNotFound; a COMPLETED trip gives AlreadyCompleted; a CANCELLED trip gives TripCancelled; every other trip, DRAFT included, is accepted. A final odometer below the vehicle's reading gives OdometerRegression, and an equal reading is accepted. On success the trip is COMPLETED with end date now, the vehicle is AVAILABLE with the supplied reading (or its old one when none is given), the driver is AVAILABLE, and nothing else changes |
| Trips.Cancel | backend-core/controllers/tripController.js:143-156 | it fails only for an unknown trip or a COMPLETED trip (or a dangling reference). Otherwise, even for an already CANCELLED trip, the trip becomes CANCELLED and its vehicle and driver become AVAILABLE whatever their prior status, and nothing else changes |
| Maintenance.CreateLog | backend-core/controllers/maintenanceController.js:25-58 | a missing vehicleId or description, or an undefined cost, gives MissingField. An unknown vehicle gives VehicleNotFound. An ON_TRIP vehicle gives VehicleOnTrip. Otherwise exactly one log is added, dated now unless a date is given, and the vehicle becomes IN_SHOP from any other status. Drivers and trips are untouched |
| Maintenance.RemoveLog | backend-core/controllers/maintenanceController.js:61-64 | deletes exactly the given log and changes nothing else (the vehicle stays IN_SHOP). An unknown id is a store error |
| Vehicles.CreateVehicle | backend-core/controllers/vehicleController.js:23-35 | a falsy name, plate, capacity or cost gives MissingField. A plate already registered gives PlateTaken. Otherwise exactly one AVAILABLE vehicle is added with the supplied fields, its odometer the supplied reading or 0 when none is supplied, and nothing else changes |
| Vehicles.CreateVehicleKeepsPlatesUnique | backend-core/controllers/vehicleController.js:28-32 | registration keeps licence plates unique across vehicles |
| Vehicles.ApplyPatch | backend-core/controllers/vehicleController.js:42-48 | each supplied field, status included, overwrites the stored one. Every absent field and the licence plate stay as they were |
| Vehicles.UpdateVehicle | backend-core/controllers/vehicleController.js:38-51 | an update of a known vehicle replaces only that vehicle, with the patch applied, and changes nothing else. An unknown id is a store error |
| Vehicles.UpdateVehicleKeepsPlatesUnique | backend-core/controllers/vehicleController.js:39-48 | an update cannot break plate uniqueness |
| Vehicles.PatchIdempotent | backend-core/controllers/vehicleController.js:42-48 | applying the same update twice equals applying it once, and an empty update changes nothing |
| Vehicles.RemoveVehicle | backend-core/controllers/vehicleController.js:54-66 | an unknown id is a store error; a vehicle referenced by a trip, a log or an expense gives StillReferenced and nothing is deleted. It succeeds exactly when the vehicle exists and nothing references it, and then exactly that vehicle is removed |
| Drivers.CreateDriver | backend-core/controllers/driverController.js:42-55 | a falsy name or an absent licence expiry gives MissingField. Otherwise exactly one AVAILABLE driver is added. Its safety score is 100 when none is supplied and the supplied score when nonzero |
| Drivers.ZeroSafetyScoreBecomesHundred | backend-core/controllers/driverController.js:51 | a supplied safety score of 0 is stored as 100 |
| Drivers.ApplyPatch | backend-core/controllers/driverController.js:62-67 | each supplied field (name, licence expiry, status, safety score) overwrites the stored one. Absent fields stay |
| Drivers.UpdateDriver | backend-core/controllers/driverController.js:58-70 | an update of a known driver replaces only that driver and changes nothing else. An unknown id is a store error |
| Drivers.PatchIdempotent | backend-core/controllers/driverController.js:62-67 | applying the same update twice equals applying it once, and an empty update changes nothing |
| Drivers.RemoveDriver | backend-core/controllers/driverController.js:73-85 | an unknown id is a store error; a driver with trips gives StillReferenced and nothing is deleted. It succeeds exactly when the driver exists and has no trips, and then exactly that driver is removed |
| Drivers.TotalTrips | backend-core/controllers/driverController.js:17 | the count of the driver's trips is at most the number of trips, and it is 0 exactly when no trip has that driver |
| Drivers.CompletedTrips | backend-core/controllers/driverController.js:18 | the completed count is at most the total. It equals the total exactly when every one of the driver's trips is COMPLETED |
| Drivers.CompletionRate | backend-core/controllers/driverController.js:24 | the rate lies in 0..100 and is 0 without trips. It is within half a point of 100·completed/total, with halves rounded up. It is 100 when all trips are completed, and 0 when none is |
| Drivers.CompletionRateRoundsUpToHundred | backend-core/controllers/driverController.js:24 | 199 completed trips out of 200 already give a rate of 100, so a rate of 100 does not mean that every trip was completed |
| Drivers.Stats | backend-core/controllers/driverController.js:16-26 | totalTrips is the driver's trip count and completedTrips its COMPLETED trip count, so completedTrips ≤ totalTrips. The rate is 0 without trips, and otherwise is within half a point of 100·completed/total, at most 100 |
| Drivers.EnrichDrivers | backend-core/controllers/driverController.js:5-29 | one row per listed driver, in order, with that driver's id and record and its statistics: total and completed trip counts, and a rate that is 0 without trips and otherwise the nearest integer to 100·completed/total (halves up) |
| Locks.CreateDraftPreservesInv | backend-core/controllers/tripController.js:20-23 | creating a draft locks nothing and keeps the invariant |
| Locks.DispatchPreservesInv | backend-core/controllers/tripController.js:79-101 | a successful dispatch keeps the invariant: the vehicle and driver were unheld, and the new trip becomes their only holder |
| Locks.CompleteDispatchedPreservesInv | backend-core/controllers/tripController.js:123-137 | completing a DISPATCHED trip keeps the invariant |
| Locks.CancelDispatchedPreservesInv | backend-core/controllers/tripController.js:149-153 | cancelling a DISPATCHED trip keeps the invariant |
| Locks.CreateLogPreservesInv | backend-core/controllers/maintenanceController.js:34-55 | the ON_TRIP guard makes sending a vehicle to the shop keep the invariant |
| Locks.RemoveLogPreservesInv | backend-core/controllers/maintenanceController.js:61-64 | deleting a log keeps the invariant |
| Locks.CreateVehiclePreservesInv | backend-core/controllers/vehicleController.js:31-33 | registering a vehicle keeps the invariant |
| Locks.UpdateVehicleWithoutStatusPreservesInv | backend-core/controllers/vehicleController.js:40-49 | a vehicle update that writes no status keeps the invariant |
| Locks.RemoveVehiclePreservesInv | backend-core/controllers/vehicleController.js:54-66 | the referential veto keeps every trip, log and expense pointing at an existing vehicle |
| Locks.CreateDriverPreservesInv | backend-core/controllers/driverController.js:47-53 | registering a driver keeps the invariant |
| Locks.UpdateDriverWithoutStatusPreservesInv | backend-core/controllers/driverController.js:60-68 | a driver update that writes no status keeps the invariant |
| Locks.RemoveDriverPreservesInv | backend-core/controllers/driverController.js:73-85 | the referential veto keeps every trip pointing at an existing driver |
| Locks.CancelUnheldReleasesHeldVehicle | backend-core/controllers/tripController.js:147-153 | cancelling a DRAFT or CANCELLED trip whose vehicle another DISPATCHED trip holds succeeds and breaks the invariant |
| Locks.CompleteDraftReleasesHeldVehicle | backend-core/controllers/tripController.js:115-137 | completing a DRAFT trip whose vehicle another DISPATCHED trip holds succeeds and breaks the invariant |
| Locks.DraftDispatchCancelScenario | backend-core/controllers/tripController.js:5-156 | from a consistent store with an AVAILABLE vehicle, a driver for the draft and an AVAILABLE driver with an unexpired licence for the dispatch, cargo within capacity and nonzero ids: draft a trip, dispatch another with the same vehicle, cancel the draft. The first two steps keep the invariant and the third breaks it. The vehicle stays held by a DISPATCHED trip, yet maintenance can still be logged for it |
| Locks.UpdateVehicleStatusInvIff | backend-core/controllers/vehicleController.js:46 | a vehicle status write keeps the invariant exactly when it writes ON_TRIP to a held vehicle or another status to an unheld one |
| Locks.UpdateDriverStatusInvIff | backend-core/controllers/driverController.js:65 | a driver status write keeps the invariant exactly when it writes ON_DUTY to a held driver or another status to an unheld one |
| Intended.CancelChecked | backend-core/controllers/tripController.js:143-156 | behaves like Cancel on a DISPATCHED trip. A DRAFT or CANCELLED trip becomes CANCELLED and no vehicle or driver changes |
| Intended.CompleteChecked | backend-core/controllers/tripController.js:107-140 | succeeds only for a DISPATCHED trip and refuses a DRAFT trip. For every other trip it agrees with Complete |
| Intended.CancelCheckedPreservesInv | backend-core/controllers/tripController.js:149-153 | the corrected cancellation keeps the invariant for every trip status |
| Intended.CompleteCheckedPreservesInv | backend-core/controllers/tripController.js:123-137 | the corrected completion keeps the invariant for every trip status |
| Intended.ServePreservesInv | backend-core/controllers/tripController.js:5-156 | every handler, with the corrected completion and cancellation, keeps the invariant unless it writes a status field directly |
| Intended.RunPreservesInv | backend-core/controllers/tripController.js:5-156 | any sequence of such requests from a consistent store keeps every vehicle and driver held by at most one DISPATCHED trip, and ON_TRIP or ON_DUTY exactly when held |
| Intended.ServeMovesTripsForward | backend-core/controllers/tripController.js:115-147 | no request deletes a trip. A trip only moves DISPATCHED to COMPLETED, or from an active status to CANCELLED. A COMPLETED trip never changes status |
| Intended.CompleteSkipsDispatch | backend-core/controllers/tripController.js:115-137 | as written, completion moves a DRAFT trip straight to COMPLETED |

## Left out

- The read-only handlers (`getAll`/`getOne` of trips, vehicles and maintenance logs, and the driver's `getOne`): they change no state. Their result ordering is not modelled.
- Concurrency: the availability check and the commit of dispatch are separate store round trips, so two concurrent dispatches can both pass the check. A sequential model cannot exhibit this race.
- Authentication, role checks, routing and the async error wrapper: these are HTTP plumbing. The model's errors are codes; message texts and HTTP status numbers appear only as comments.
- The expense handlers, the analytics service, the seed script and the web client: they do not write vehicle, driver or trip status. Expenses appear only as references that can veto a vehicle's deletion.
- Request parsing: `Number(…)` of strings, NaN, and the store's floating-point columns (cargo, odometer, costs) are not modelled. Numbers are integers.
- Date parsing: instants are integers and a date field is either present or absent. The create handlers treat an empty date string as missing (`maintenanceController.js:47`, `driverController.js:44`), which the model covers by absence. The driver update instead passes an empty string to `new Date`, giving an Invalid Date that the store rejects (`driverController.js:64`); that path is not modelled.
- Expenses: the model never inserts one, so there is no expense counter, and the invariant does not require an expense's trip reference to name an existing trip.
- The store's enum validation of a written status string: the model's status values are already typed.
- Trips.NewTrip: the start date is taken to be the creation instant. The store schema, which sets that default, is not part of this model.
- Drivers.CreateDriver: the new driver is AVAILABLE. That default lives in the store schema, which is not part of this model.
- Drivers.CompletionRate: computed on exact rationals, while the source divides in floating point. The two can differ on an exact half. For 29 of 200 trips, the floating-point product is just below 14.5 and rounds to 14, where the exact rate rounds to 15.
- Drivers.EnrichDrivers: takes the trip table as a sequence, as the store returns it, rather than as the model's map.

## Findings

| source | as written | input that shows it | evidently intended | confidence | as-written member | corrected member |
|---|---|---|---|---|---|---|
| backend-core/controllers/tripController.js:143-153 | cancel sets the trip's vehicle and driver AVAILABLE whatever the trip's status, DRAFT and already CANCELLED included | a DRAFT trip and a DISPATCHED trip share vehicle v; cancelling the draft makes v AVAILABLE while the other trip still runs, so v can be dispatched again or sent to the shop | only a trip that was DISPATCHED holds, and so releases, its vehicle and driver; the create-draft handler itself says a draft takes no lock (tripController.js:4), and the trip page offers Cancel only for DISPATCHED trips (frontend/src/pages/Trips.jsx:90-104) | medium; not executed | Locks.CancelUnheldReleasesHeldVehicle | Intended.CancelChecked |
| backend-core/controllers/tripController.js:115-137 | complete accepts a DRAFT trip and sets its vehicle and driver AVAILABLE | a DRAFT trip and a DISPATCHED trip share vehicle v; completing the draft without an odometer makes v AVAILABLE while the other trip still runs | only a DISPATCHED trip can be completed; the trip page offers Complete only for DISPATCHED trips (frontend/src/pages/Trips.jsx:90-104) | medium; not executed | Locks.CompleteDraftReleasesHeldVehicle | Intended.CompleteChecked |
