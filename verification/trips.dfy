/** The trip lifecycle: the four trip handlers of
    backend-core/controllers/tripController.js. Each reads the store, runs its
    checks in the source's order and, only when every check passes, returns
    the next state as one atomic replacement (the store transaction). */
module Trips {
  import opened Results
  import opened Fleet

  /** The body of a create-draft or dispatch request. */
  datatype TripRequest = TripRequest(
    vehicleId: Option<int>,
    driverId: Option<int>,
    cargoWeight: Option<int>,
    revenue: Option<int>)

  /** `vehicleId` and `driverId` are truthy and `cargoWeight` is not undefined. */
  predicate HasRequired(req: TripRequest) {
    Truthy(req.vehicleId) && Truthy(req.driverId) && req.cargoWeight.Some?
  }

  /** The request is complete and both ids resolve. */
  predicate Found(s: State, req: TripRequest) {
    HasRequired(req) && req.vehicleId.value in s.vehicles && req.driverId.value in s.drivers
  }

  /** The cargo fits the vehicle: the overload test is strict, so cargo equal
      to the capacity is accepted. */
  predicate Fits(s: State, req: TripRequest)
    requires Found(s, req)
  {
    req.cargoWeight.value <= s.vehicles[req.vehicleId.value].maxCapacityKg
  }

  /** The driver's licence has not expired at `now`; it counts as expired only
      when the expiry instant lies strictly before `now`. */
  predicate Licensed(s: State, req: TripRequest, now: int)
    requires Found(s, req)
  {
    s.drivers[req.driverId.value].licenseExpiryDate >= now
  }

  /** Both resources are AVAILABLE. */
  predicate BothFree(s: State, req: TripRequest)
    requires Found(s, req)
  {
    s.vehicles[req.vehicleId.value].status == VehicleStatus.Available
    && s.drivers[req.driverId.value].status == DriverStatus.Available
  }

  /** The row a creation handler inserts; revenue defaults to 0 and the start
      date is the store's creation default, the current instant. */
  function NewTrip(req: TripRequest, status: TripStatus, now: int): (t: Trip)
    requires HasRequired(req)
    ensures t.status == status && t.endDate.None?
    ensures t.vehicleId == req.vehicleId.value && t.driverId == req.driverId.value
    ensures t.cargoWeight == req.cargoWeight.value
    ensures t.revenue == req.revenue.GetOr(0)
    ensures t.startDate == now
  {
    Trip(req.vehicleId.value, req.driverId.value, req.cargoWeight.value,
         OrDefault(req.revenue, 0), now, None, status)
  }

  /** POST /api/trips: records a DRAFT trip without locking its vehicle or driver. */
  function CreateDraft(s: State, req: TripRequest, now: int): (r: Result<State, Error>)
    ensures r == Err(MissingField) <==> !HasRequired(req)
    ensures r == Err(VehicleNotFound) <==> HasRequired(req) && req.vehicleId.value !in s.vehicles
    ensures r == Err(DriverNotFound) <==>
      HasRequired(req) && req.vehicleId.value in s.vehicles && req.driverId.value !in s.drivers
    ensures r == Err(CargoOverload) <==> Found(s, req) && !Fits(s, req)
    ensures r.Ok? <==> Found(s, req) && Fits(s, req)
    ensures r.Ok? ==>
      && OnlyTripsDiffer(s, r.value)
      && r.value.nextTripId == s.nextTripId + 1
      && s.nextTripId in r.value.trips
      && r.value.trips[s.nextTripId] == NewTrip(req, Draft, now)
      && (s.nextTripId !in s.trips ==> Added(s.trips, r.value.trips, s.nextTripId, NewTrip(req, Draft, now)))
  {
    if !HasRequired(req) then Err(MissingField)
    else if req.vehicleId.value !in s.vehicles then Err(VehicleNotFound)
    else if req.driverId.value !in s.drivers then Err(DriverNotFound)
    else if !Fits(s, req) then Err(CargoOverload)
    else
      Ok(s.(trips := s.trips[s.nextTripId := NewTrip(req, Draft, now)],
            nextTripId := s.nextTripId + 1))
  }

  /** POST /api/trips/dispatch: validates in a fixed order, and on success
      inserts a DISPATCHED trip, sets the vehicle ON_TRIP and the driver
      ON_DUTY in one transaction. The first failing check decides the error. */
  function Dispatch(s: State, req: TripRequest, now: int): (r: Result<State, Error>)
    ensures r == Err(MissingField) <==> !HasRequired(req)
    ensures r == Err(VehicleNotFound) <==> HasRequired(req) && req.vehicleId.value !in s.vehicles
    ensures r == Err(DriverNotFound) <==>
      HasRequired(req) && req.vehicleId.value in s.vehicles && req.driverId.value !in s.drivers
    ensures r == Err(CargoOverload) <==> Found(s, req) && !Fits(s, req)
    ensures r == Err(LicenseExpired) <==> Found(s, req) && Fits(s, req) && !Licensed(s, req, now)
    ensures r == Err(VehicleUnavailable) <==>
      Found(s, req) && Fits(s, req) && Licensed(s, req, now)
      && s.vehicles[req.vehicleId.value].status != VehicleStatus.Available
    ensures r == Err(DriverUnavailable) <==>
      Found(s, req) && Fits(s, req) && Licensed(s, req, now)
      && s.vehicles[req.vehicleId.value].status == VehicleStatus.Available
      && s.drivers[req.driverId.value].status != DriverStatus.Available
    ensures r.Ok? <==> Found(s, req) && Fits(s, req) && Licensed(s, req, now) && BothFree(s, req)
    ensures r.Ok? ==>
      var v, d := req.vehicleId.value, req.driverId.value;
      && r.value == s.(trips := r.value.trips, nextTripId := r.value.nextTripId,
                       vehicles := r.value.vehicles, drivers := r.value.drivers)
      && r.value.nextTripId == s.nextTripId + 1
      && s.nextTripId in r.value.trips
      && r.value.trips[s.nextTripId] == NewTrip(req, Dispatched, now)
      && (s.nextTripId !in s.trips ==> Added(s.trips, r.value.trips, s.nextTripId, NewTrip(req, Dispatched, now)))
      && Replaced(s.vehicles, r.value.vehicles, v, s.vehicles[v].(status := OnTrip))
      && Replaced(s.drivers, r.value.drivers, d, s.drivers[d].(status := OnDuty))
  {
    if !HasRequired(req) then Err(MissingField)
    else
      var v, d := req.vehicleId.value, req.driverId.value;
      if v !in s.vehicles then Err(VehicleNotFound)
      else if d !in s.drivers then Err(DriverNotFound)
      else if req.cargoWeight.value > s.vehicles[v].maxCapacityKg then Err(CargoOverload)
      else if s.drivers[d].licenseExpiryDate < now then Err(LicenseExpired)
      else if s.vehicles[v].status != VehicleStatus.Available then Err(VehicleUnavailable)
      else if s.drivers[d].status != DriverStatus.Available then Err(DriverUnavailable)
      else
        Ok(s.(trips := s.trips[s.nextTripId := NewTrip(req, Dispatched, now)],
              nextTripId := s.nextTripId + 1,
              vehicles := s.vehicles[v := s.vehicles[v].(status := OnTrip)],
              drivers := s.drivers[d := s.drivers[d].(status := OnDuty)]))
  }

  /** The odometer reading would go backwards; equal is accepted. */
  predicate Regresses(finalOdometer: Option<int>, v: Vehicle) {
    finalOdometer.Some? && finalOdometer.value < v.odometer
  }

  /** PATCH /api/trips/:id/complete. Only COMPLETED and CANCELLED trips are
      refused, so a DRAFT trip is completed too, releasing its vehicle and
      driver. A supplied final odometer may not go backwards and replaces the
      vehicle's reading; without one the reading stays. */
  function Complete(s: State, tripId: int, finalOdometer: Option<int>, now: int): (r: Result<State, Error>)
    ensures r == Err(TripNotFound) <==> tripId !in s.trips
    ensures r == Err(AlreadyCompleted) <==> tripId in s.trips && s.trips[tripId].status == Completed
    ensures r == Err(TripCancelled) <==> tripId in s.trips && s.trips[tripId].status == Cancelled
    ensures r == Err(OdometerRegression) <==>
      && tripId in s.trips && !s.trips[tripId].status.Terminal()
      && s.trips[tripId].vehicleId in s.vehicles
      && Regresses(finalOdometer, s.vehicles[s.trips[tripId].vehicleId])
    ensures r.Ok? <==>
      && tripId in s.trips && !s.trips[tripId].status.Terminal()
      && s.trips[tripId].vehicleId in s.vehicles && s.trips[tripId].driverId in s.drivers
      && !Regresses(finalOdometer, s.vehicles[s.trips[tripId].vehicleId])
    ensures r.Ok? ==>
      var t := s.trips[tripId];
      var v := s.vehicles[t.vehicleId];
      && r.value == s.(trips := r.value.trips, vehicles := r.value.vehicles, drivers := r.value.drivers)
      && Replaced(s.trips, r.value.trips, tripId, t.(status := Completed, endDate := Some(now)))
      && Replaced(s.vehicles, r.value.vehicles, t.vehicleId,
                  v.(status := VehicleStatus.Available, odometer := finalOdometer.GetOr(v.odometer)))
      && Replaced(s.drivers, r.value.drivers, t.driverId, s.drivers[t.driverId].(status := DriverStatus.Available))
  {
    if tripId !in s.trips then Err(TripNotFound)
    else
      var t := s.trips[tripId];
      if t.status == Completed then Err(AlreadyCompleted)
      else if t.status == Cancelled then Err(TripCancelled)
      // the trip's vehicle row is read for the odometer test and updated in
      // the transaction: a dangling reference fails either way
      else if t.vehicleId !in s.vehicles then Err(StoreFault)
      else if Regresses(finalOdometer, s.vehicles[t.vehicleId]) then Err(OdometerRegression)
      else if t.driverId !in s.drivers then Err(StoreFault)
      else
        var v := s.vehicles[t.vehicleId];
        Ok(s.(trips := s.trips[tripId := t.(status := Completed, endDate := Some(now))],
              vehicles := s.vehicles[t.vehicleId := v.(status := VehicleStatus.Available,
                                                       odometer := finalOdometer.GetOr(v.odometer))],
              drivers := s.drivers[t.driverId := s.drivers[t.driverId].(status := DriverStatus.Available)]))
  }

  /** PATCH /api/trips/:id/cancel. Only a COMPLETED trip is refused; any other
      trip, an already CANCELLED one included, becomes CANCELLED and its
      vehicle and driver become AVAILABLE whatever their status was. */
  function Cancel(s: State, tripId: int): (r: Result<State, Error>)
    ensures r == Err(TripNotFound) <==> tripId !in s.trips
    ensures r == Err(AlreadyCompleted) <==> tripId in s.trips && s.trips[tripId].status == Completed
    ensures r.Ok? <==>
      && tripId in s.trips && s.trips[tripId].status != Completed
      && s.trips[tripId].vehicleId in s.vehicles && s.trips[tripId].driverId in s.drivers
    ensures r.Ok? ==>
      var t := s.trips[tripId];
      && r.value == s.(trips := r.value.trips, vehicles := r.value.vehicles, drivers := r.value.drivers)
      && Replaced(s.trips, r.value.trips, tripId, t.(status := Cancelled))
      && Replaced(s.vehicles, r.value.vehicles, t.vehicleId, s.vehicles[t.vehicleId].(status := VehicleStatus.Available))
      && Replaced(s.drivers, r.value.drivers, t.driverId, s.drivers[t.driverId].(status := DriverStatus.Available))
  {
    if tripId !in s.trips then Err(TripNotFound)
    else
      var t := s.trips[tripId];
      if t.status == Completed then Err(AlreadyCompleted)
      // updating a missing vehicle or driver row aborts the transaction
      else if t.vehicleId !in s.vehicles || t.driverId !in s.drivers then Err(StoreFault)
      else
        Ok(s.(trips := s.trips[tripId := t.(status := Cancelled)],
              vehicles := s.vehicles[t.vehicleId := s.vehicles[t.vehicleId].(status := VehicleStatus.Available)],
              drivers := s.drivers[t.driverId := s.drivers[t.driverId].(status := DriverStatus.Available)]))
  }

  /** Dispatch runs createDraft's checks first, with the same codes, and then
      adds its own: whatever createDraft refuses, dispatch refuses identically,
      and a dispatch inserts the very trip a draft would, only DISPATCHED. */
  lemma DispatchChecksExtendDraft(s: State, req: TripRequest, now: int)
    ensures CreateDraft(s, req, now).Err? ==> Dispatch(s, req, now) == CreateDraft(s, req, now)
    ensures Dispatch(s, req, now).Ok? ==>
      && CreateDraft(s, req, now).Ok?
      && Dispatch(s, req, now).value.trips
         == CreateDraft(s, req, now).value.trips[s.nextTripId := NewTrip(req, Draft, now).(status := Dispatched)]
  {
  }
}
