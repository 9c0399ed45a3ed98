/** The entities of the fleet store, their status enumerations, the error
    codes of the request handlers and the request-field conventions they share. */
module Fleet {
  import opened Results

  datatype VehicleStatus = Available | OnTrip | InShop | Retired

  datatype DriverStatus = Available | OnDuty | Suspended

  /** DRAFT and DISPATCHED are active; COMPLETED and CANCELLED are terminal. */
  datatype TripStatus = Draft | Dispatched | Completed | Cancelled {
    predicate Terminal() { this == Completed || this == Cancelled }
  }

  /** Weights, costs, odometer readings and instants are integers; an instant
      is a count of time units on one clock. */
  datatype Vehicle = Vehicle(
    nameModel: string,
    licensePlate: string,
    maxCapacityKg: int,
    acquisitionCost: int,
    odometer: int,
    status: VehicleStatus)

  datatype Driver = Driver(
    name: string,
    licenseExpiryDate: int,
    safetyScore: int,
    status: DriverStatus)

  datatype Trip = Trip(
    vehicleId: int,
    driverId: int,
    cargoWeight: int,
    revenue: int,
    startDate: int,
    endDate: Option<int>,
    status: TripStatus)

  datatype MaintenanceLog = MaintenanceLog(vehicleId: int, description: string, cost: int, date: int)

  /** Expenses are only read here: they can veto the deletion of a vehicle. */
  datatype Expense = Expense(vehicleId: int, tripId: Option<int>, fuelLiters: int, fuelCost: int, date: int)

  /** The whole store. Each `next…Id` is the id the store's autoincrement
      hands out on the next insert into that table; ids are never reused. */
  datatype State = State(
    vehicles: map<int, Vehicle>,
    drivers: map<int, Driver>,
    trips: map<int, Trip>,
    logs: map<int, MaintenanceLog>,
    expenses: map<int, Expense>,
    nextVehicleId: int,
    nextDriverId: int,
    nextTripId: int,
    nextLogId: int)

  /** The failures the handlers report. Only some carry a machine-readable
      `code`; see `Code`. */
  datatype Error =
    | MissingField        // 400: a required request field is absent or falsy
    | VehicleNotFound     // 404
    | DriverNotFound      // 404
    | TripNotFound        // 404
    | CargoOverload       // 400
    | LicenseExpired      // 400
    | VehicleUnavailable  // 400
    | DriverUnavailable   // 400
    | AlreadyCompleted    // 400: complete or cancel of a COMPLETED trip
    | TripCancelled       // 400: complete of a CANCELLED trip
    | OdometerRegression  // 400
    | VehicleOnTrip       // 400
    | PlateTaken          // 409: license plate already registered
    | StillReferenced     // 409: a foreign key vetoes the deletion
    | StoreFault          // 500: a store exception passed on to the global error handler
    | NotDispatched       // only the corrected completion of module Intended reports this

  /** The `code` field of the error body, where the handler sends one. */
  function Code(e: Error): Option<string> {
    match e
    case CargoOverload => Some("CARGO_OVERLOAD")
    case LicenseExpired => Some("LICENSE_EXPIRED")
    case VehicleUnavailable => Some("VEHICLE_UNAVAILABLE")
    case DriverUnavailable => Some("DRIVER_UNAVAILABLE")
    case VehicleOnTrip => Some("VEHICLE_ON_TRIP")
    case _ => None
  }

  /** JavaScript truthiness of a numeric request field: absent and 0 are falsy. */
  predicate Truthy(field: Option<int>) {
    field.Some? && field.value != 0
  }

  /** JavaScript truthiness of a text request field: absent and "" are falsy. */
  predicate TruthyText(field: Option<string>) {
    field.Some? && field.value != ""
  }

  /** The value of `Number(field || default)`. */
  function OrDefault(field: Option<int>, default: int): (n: int)
    ensures field.None? ==> n == default
    ensures field.Some? && field.value != 0 ==> n == field.value
    ensures field == Some(0) ==> n == default
  {
    if Truthy(field) then field.value else default
  }

  /** `after` is `before` with one new entry `e` under the fresh key `id`. */
  predicate Added<E(==)>(before: map<int, E>, after: map<int, E>, id: int, e: E) {
    && id !in before
    && after.Keys == before.Keys + {id}
    && after[id] == e
    && forall k :: k in before ==> k in after && after[k] == before[k]
  }

  /** `after` is `before` with the existing entry under `id` replaced by `e`. */
  predicate Replaced<E(==)>(before: map<int, E>, after: map<int, E>, id: int, e: E) {
    && id in before
    && after.Keys == before.Keys
    && after[id] == e
    && forall k :: k in before && k != id ==> after[k] == before[k]
  }

  /** Two states that differ at most in their trip table and trip counter. */
  predicate OnlyTripsDiffer(s: State, s': State) {
    s' == s.(trips := s'.trips, nextTripId := s'.nextTripId)
  }
}
