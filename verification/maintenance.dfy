/** The maintenance lock: the handlers of
    backend-core/controllers/maintenanceController.js that write the store.
    Logging maintenance puts the vehicle IN_SHOP unless it is ON_TRIP. */
module Maintenance {
  import opened Results
  import opened Fleet

  /** The body of a create-maintenance request. */
  datatype LogRequest = LogRequest(
    vehicleId: Option<int>,
    description: Option<string>,
    cost: Option<int>,
    date: Option<int>)

  /** `vehicleId` and `description` are truthy and `cost` is not undefined
      (so a cost of 0 is accepted). */
  predicate HasRequired(req: LogRequest) {
    Truthy(req.vehicleId) && TruthyText(req.description) && req.cost.Some?
  }

  /** POST /api/maintenance: refuses a vehicle that is ON_TRIP; otherwise adds
      one log, dated `now` unless a date is supplied, and sets the vehicle
      IN_SHOP whatever its prior status, in one transaction. */
  function CreateLog(s: State, req: LogRequest, now: int): (r: Result<State, Error>)
    ensures r == Err(MissingField) <==> !HasRequired(req)
    ensures r == Err(VehicleNotFound) <==> HasRequired(req) && req.vehicleId.value !in s.vehicles
    ensures r == Err(VehicleOnTrip) <==>
      HasRequired(req) && req.vehicleId.value in s.vehicles && s.vehicles[req.vehicleId.value].status == OnTrip
    ensures r.Ok? <==>
      HasRequired(req) && req.vehicleId.value in s.vehicles && s.vehicles[req.vehicleId.value].status != OnTrip
    ensures r.Ok? ==>
      var v := req.vehicleId.value;
      var log := MaintenanceLog(v, req.description.value, req.cost.value, req.date.GetOr(now));
      && r.value == s.(logs := r.value.logs, nextLogId := r.value.nextLogId, vehicles := r.value.vehicles)
      && r.value.nextLogId == s.nextLogId + 1
      && s.nextLogId in r.value.logs && r.value.logs[s.nextLogId] == log
      && (s.nextLogId !in s.logs ==> Added(s.logs, r.value.logs, s.nextLogId, log))
      && Replaced(s.vehicles, r.value.vehicles, v, s.vehicles[v].(status := InShop))
  {
    if !HasRequired(req) then Err(MissingField)
    else
      var v := req.vehicleId.value;
      if v !in s.vehicles then Err(VehicleNotFound)
      else if s.vehicles[v].status == OnTrip then Err(VehicleOnTrip)
      else
        var log := MaintenanceLog(v, req.description.value, req.cost.value, req.date.GetOr(now));
        Ok(s.(logs := s.logs[s.nextLogId := log],
              nextLogId := s.nextLogId + 1,
              vehicles := s.vehicles[v := s.vehicles[v].(status := InShop)]))
  }

  /** DELETE /api/maintenance/:id: deletes the log and nothing else; in
      particular the vehicle stays IN_SHOP. An unknown id is a store error. */
  function RemoveLog(s: State, logId: int): (r: Result<State, Error>)
    ensures r.Ok? <==> logId in s.logs
    ensures r.Err? ==> r.error == StoreFault
    ensures r.Ok? ==>
      && r.value == s.(logs := r.value.logs)
      && r.value.logs.Keys == s.logs.Keys - {logId}
      && forall k :: k in r.value.logs ==> r.value.logs[k] == s.logs[k]
  {
    if logId !in s.logs then Err(StoreFault)
    else Ok(s.(logs := s.logs - {logId}))
  }
}
