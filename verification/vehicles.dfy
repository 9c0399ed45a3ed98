/** Vehicle registration, partial update and deletion, as in
    backend-core/controllers/vehicleController.js. The update writes the
    status field freely, bypassing the trip and maintenance rules. */
module Vehicles {
  import opened Results
  import opened Fleet

  /** The body of a register-vehicle request. */
  datatype VehicleRequest = VehicleRequest(
    nameModel: Option<string>,
    licensePlate: Option<string>,
    maxCapacityKg: Option<int>,
    acquisitionCost: Option<int>,
    odometer: Option<int>)

  /** The body of an update-vehicle request: every field is optional. The
      licence plate cannot be changed. */
  datatype VehiclePatch = VehiclePatch(
    nameModel: Option<string>,
    maxCapacityKg: Option<int>,
    acquisitionCost: Option<int>,
    status: Option<VehicleStatus>,
    odometer: Option<int>)

  /** All four required fields are truthy, so a capacity or cost of 0 counts as missing. */
  predicate HasRequired(req: VehicleRequest) {
    TruthyText(req.nameModel) && TruthyText(req.licensePlate)
    && Truthy(req.maxCapacityKg) && Truthy(req.acquisitionCost)
  }

  predicate PlateRegistered(s: State, plate: string) {
    exists id :: id in s.vehicles && s.vehicles[id].licensePlate == plate
  }

  /** No two vehicles share a licence plate (the column's unique constraint). */
  ghost predicate PlatesUnique(vehicles: map<int, Vehicle>) {
    forall a, b :: a in vehicles && b in vehicles && vehicles[a].licensePlate == vehicles[b].licensePlate ==> a == b
  }

  /** POST /api/vehicles: a new AVAILABLE vehicle whose odometer is the
      supplied reading, or 0 when none (or 0) is supplied. */
  function CreateVehicle(s: State, req: VehicleRequest): (r: Result<State, Error>)
    ensures r == Err(MissingField) <==> !HasRequired(req)
    ensures r == Err(PlateTaken) <==> HasRequired(req) && PlateRegistered(s, req.licensePlate.value)
    ensures r.Ok? <==> HasRequired(req) && !PlateRegistered(s, req.licensePlate.value)
    ensures r.Ok? ==>
      && r.value == s.(vehicles := r.value.vehicles, nextVehicleId := r.value.nextVehicleId)
      && r.value.nextVehicleId == s.nextVehicleId + 1
      && s.nextVehicleId in r.value.vehicles
      && var v := r.value.vehicles[s.nextVehicleId];
      && v.nameModel == req.nameModel.value && v.licensePlate == req.licensePlate.value
      && v.maxCapacityKg == req.maxCapacityKg.value && v.acquisitionCost == req.acquisitionCost.value
      && v.status == VehicleStatus.Available
      && v.odometer == req.odometer.GetOr(0)
      && (s.nextVehicleId !in s.vehicles ==> Added(s.vehicles, r.value.vehicles, s.nextVehicleId, v))
  {
    if !HasRequired(req) then Err(MissingField)
    else if PlateRegistered(s, req.licensePlate.value) then Err(PlateTaken)
    else
      var v := Vehicle(req.nameModel.value, req.licensePlate.value, req.maxCapacityKg.value,
                       req.acquisitionCost.value, OrDefault(req.odometer, 0), VehicleStatus.Available);
      Ok(s.(vehicles := s.vehicles[s.nextVehicleId := v], nextVehicleId := s.nextVehicleId + 1))
  }

  /** The vehicle with exactly the supplied fields overwritten. */
  function ApplyPatch(v: Vehicle, p: VehiclePatch): (w: Vehicle)
    ensures w.licensePlate == v.licensePlate
    ensures w.nameModel == p.nameModel.GetOr(v.nameModel)
    ensures w.maxCapacityKg == p.maxCapacityKg.GetOr(v.maxCapacityKg)
    ensures w.acquisitionCost == p.acquisitionCost.GetOr(v.acquisitionCost)
    ensures w.status == p.status.GetOr(v.status)
    ensures w.odometer == p.odometer.GetOr(v.odometer)
  {
    v.(nameModel := p.nameModel.GetOr(v.nameModel),
       maxCapacityKg := p.maxCapacityKg.GetOr(v.maxCapacityKg),
       acquisitionCost := p.acquisitionCost.GetOr(v.acquisitionCost),
       status := p.status.GetOr(v.status),
       odometer := p.odometer.GetOr(v.odometer))
  }

  /** PATCH /api/vehicles/:id: a partial write; an unknown id is a store error. */
  function UpdateVehicle(s: State, id: int, p: VehiclePatch): (r: Result<State, Error>)
    ensures r.Ok? <==> id in s.vehicles
    ensures r.Err? ==> r.error == StoreFault
    ensures r.Ok? ==>
      && r.value == s.(vehicles := r.value.vehicles)
      && Replaced(s.vehicles, r.value.vehicles, id, ApplyPatch(s.vehicles[id], p))
  {
    if id !in s.vehicles then Err(StoreFault)
    else Ok(s.(vehicles := s.vehicles[id := ApplyPatch(s.vehicles[id], p)]))
  }

  /** Some trip, maintenance log or expense refers to the vehicle. */
  predicate VehicleReferenced(s: State, id: int) {
    || (exists t :: t in s.trips && s.trips[t].vehicleId == id)
    || (exists l :: l in s.logs && s.logs[l].vehicleId == id)
    || (exists e :: e in s.expenses && s.expenses[e].vehicleId == id)
  }

  /** DELETE /api/vehicles/:id: the foreign keys veto deleting a referenced vehicle. */
  function RemoveVehicle(s: State, id: int): (r: Result<State, Error>)
    ensures r == Err(StoreFault) <==> id !in s.vehicles
    ensures r == Err(StillReferenced) <==> id in s.vehicles && VehicleReferenced(s, id)
    ensures r.Ok? <==> id in s.vehicles && !VehicleReferenced(s, id)
    ensures r.Ok? ==>
      && r.value == s.(vehicles := r.value.vehicles)
      && r.value.vehicles.Keys == s.vehicles.Keys - {id}
      && forall k :: k in r.value.vehicles ==> r.value.vehicles[k] == s.vehicles[k]
  {
    if id !in s.vehicles then Err(StoreFault)
    else if VehicleReferenced(s, id) then Err(StillReferenced)
    else Ok(s.(vehicles := s.vehicles - {id}))
  }

  /** Registration keeps licence plates unique. */
  lemma CreateVehicleKeepsPlatesUnique(s: State, req: VehicleRequest)
    requires PlatesUnique(s.vehicles)
    requires s.nextVehicleId !in s.vehicles
    ensures CreateVehicle(s, req).Ok? ==> PlatesUnique(CreateVehicle(s, req).value.vehicles)
  {
    if CreateVehicle(s, req).Ok? {
      var vs := CreateVehicle(s, req).value.vehicles;
      forall a, b | a in vs && b in vs && vs[a].licensePlate == vs[b].licensePlate
        ensures a == b
      {
      }
    }
  }

  /** An update cannot touch the plate, so it keeps plates unique. */
  lemma UpdateVehicleKeepsPlatesUnique(s: State, id: int, p: VehiclePatch)
    requires PlatesUnique(s.vehicles)
    ensures UpdateVehicle(s, id, p).Ok? ==> PlatesUnique(UpdateVehicle(s, id, p).value.vehicles)
  {
    if UpdateVehicle(s, id, p).Ok? {
      var vs := UpdateVehicle(s, id, p).value.vehicles;
      forall a, b | a in vs && b in vs && vs[a].licensePlate == vs[b].licensePlate
        ensures a == b
      {
        assert vs[a].licensePlate == s.vehicles[a].licensePlate;
        assert vs[b].licensePlate == s.vehicles[b].licensePlate;
      }
    }
  }

  /** Sending the same update twice has the effect of sending it once, and an
      empty update leaves the vehicle as it was. */
  lemma PatchIdempotent(v: Vehicle, p: VehiclePatch)
    ensures ApplyPatch(ApplyPatch(v, p), p) == ApplyPatch(v, p)
    ensures ApplyPatch(v, VehiclePatch(None, None, None, None, None)) == v
  {
  }
}
