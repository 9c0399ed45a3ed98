/** Completion and cancellation as the trip lifecycle intends them: only a
    DISPATCHED trip holds its vehicle and driver, so only such a trip releases
    them. With these two handlers, every request that does not write a status
    field directly keeps the resource-lock invariant, from the empty store on. */
module Intended {
  import opened Results
  import opened Fleet
  import opened Trips
  import opened Locks
  import Maintenance
  import Vehicles
  import Drivers

  /** Cancellation that releases resources only when the trip held them. A
      DRAFT or already CANCELLED trip just becomes (stays) CANCELLED. */
  function CancelChecked(s: State, tripId: int): (r: Result<State, Error>)
    ensures tripId in s.trips && s.trips[tripId].status == Dispatched ==> r == Cancel(s, tripId)
    ensures tripId !in s.trips ==> r == Err(TripNotFound)
    ensures tripId in s.trips && s.trips[tripId].status == Completed ==> r == Err(AlreadyCompleted)
    ensures tripId in s.trips && s.trips[tripId].status in {Draft, Cancelled} ==>
      && r.Ok?
      && r.value == s.(trips := r.value.trips)
      && Replaced(s.trips, r.value.trips, tripId, s.trips[tripId].(status := Cancelled))
  {
    if tripId in s.trips && s.trips[tripId].status in {Draft, Cancelled} then
      Ok(s.(trips := s.trips[tripId := s.trips[tripId].(status := Cancelled)]))
    else Cancel(s, tripId)
  }

  /** Completion that accepts only a DISPATCHED trip; a DRAFT trip, which never
      ran, is refused. */
  function CompleteChecked(s: State, tripId: int, finalOdometer: Option<int>, now: int): (r: Result<State, Error>)
    ensures r.Ok? ==> tripId in s.trips && s.trips[tripId].status == Dispatched
    ensures tripId in s.trips && s.trips[tripId].status == Draft ==> r == Err(NotDispatched)
    ensures !(tripId in s.trips && s.trips[tripId].status == Draft) ==> r == Complete(s, tripId, finalOdometer, now)
  {
    if tripId in s.trips && s.trips[tripId].status == Draft then Err(NotDispatched)
    else Complete(s, tripId, finalOdometer, now)
  }

  lemma CancelCheckedPreservesInv(s: State, tripId: int)
    requires Inv(s)
    ensures CancelChecked(s, tripId).Ok? ==> Inv(CancelChecked(s, tripId).value)
  {
    var r := CancelChecked(s, tripId);
    if r.Ok? {
      if s.trips[tripId].status == Dispatched {
        CancelDispatchedPreservesInv(s, tripId);
      } else {
        var s' := r.value;
        assert forall t, x :: HoldsVehicle(s'.trips, t, x) <==> HoldsVehicle(s.trips, t, x);
        assert forall t, x :: HoldsDriver(s'.trips, t, x) <==> HoldsDriver(s.trips, t, x);
      }
    }
  }

  lemma CompleteCheckedPreservesInv(s: State, tripId: int, finalOdometer: Option<int>, now: int)
    requires Inv(s)
    ensures CompleteChecked(s, tripId, finalOdometer, now).Ok? ==> Inv(CompleteChecked(s, tripId, finalOdometer, now).value)
  {
    if CompleteChecked(s, tripId, finalOdometer, now).Ok? {
      CompleteDispatchedPreservesInv(s, tripId, finalOdometer, now);
    }
  }

  /** One request to the core, with the instant it arrives where it matters. */
  datatype Request =
    | CreateDraftReq(tripReq: TripRequest, now: int)
    | DispatchReq(tripReq: TripRequest, now: int)
    | CompleteReq(tripId: int, finalOdometer: Option<int>, now: int)
    | CancelReq(tripId: int)
    | CreateLogReq(logReq: Maintenance.LogRequest, now: int)
    | RemoveLogReq(logId: int)
    | CreateVehicleReq(vehicleReq: Vehicles.VehicleRequest)
    | UpdateVehicleReq(vehicleId: int, vehiclePatch: Vehicles.VehiclePatch)
    | RemoveVehicleReq(vehicleId: int)
    | CreateDriverReq(driverReq: Drivers.DriverRequest)
    | UpdateDriverReq(driverId: int, driverPatch: Drivers.DriverPatch)
    | RemoveDriverReq(driverId: int)

  /** The request does not write a vehicle or driver status field directly. */
  predicate LeavesStatusAlone(q: Request) {
    match q
    case UpdateVehicleReq(_, p) => p.status.None?
    case UpdateDriverReq(_, p) => p.status.None?
    case _ => true
  }

  /** Serves one request, with the corrected completion and cancellation. */
  function Serve(s: State, q: Request): Result<State, Error> {
    match q
    case CreateDraftReq(req, now) => CreateDraft(s, req, now)
    case DispatchReq(req, now) => Dispatch(s, req, now)
    case CompleteReq(id, odo, now) => CompleteChecked(s, id, odo, now)
    case CancelReq(id) => CancelChecked(s, id)
    case CreateLogReq(req, now) => Maintenance.CreateLog(s, req, now)
    case RemoveLogReq(id) => Maintenance.RemoveLog(s, id)
    case CreateVehicleReq(req) => Vehicles.CreateVehicle(s, req)
    case UpdateVehicleReq(id, p) => Vehicles.UpdateVehicle(s, id, p)
    case RemoveVehicleReq(id) => Vehicles.RemoveVehicle(s, id)
    case CreateDriverReq(req) => Drivers.CreateDriver(s, req)
    case UpdateDriverReq(id, p) => Drivers.UpdateDriver(s, id, p)
    case RemoveDriverReq(id) => Drivers.RemoveDriver(s, id)
  }

  /** Serves requests one after another; a refused request leaves the store as it was. */
  function Run(s: State, qs: seq<Request>): State
    decreases |qs|
  {
    if qs == [] then s
    else
      var r := Serve(s, qs[0]);
      Run(if r.Ok? then r.value else s, qs[1..])
  }

  /** Every request that leaves the status fields alone keeps the invariant. */
  lemma ServePreservesInv(s: State, q: Request)
    requires Inv(s) && LeavesStatusAlone(q)
    ensures Serve(s, q).Ok? ==> Inv(Serve(s, q).value)
  {
    match q
    case CreateDraftReq(req, now) => CreateDraftPreservesInv(s, req, now);
    case DispatchReq(req, now) => DispatchPreservesInv(s, req, now);
    case CompleteReq(id, odo, now) => CompleteCheckedPreservesInv(s, id, odo, now);
    case CancelReq(id) => CancelCheckedPreservesInv(s, id);
    case CreateLogReq(req, now) => CreateLogPreservesInv(s, req, now);
    case RemoveLogReq(id) => RemoveLogPreservesInv(s, id);
    case CreateVehicleReq(req) => CreateVehiclePreservesInv(s, req);
    case UpdateVehicleReq(id, p) => UpdateVehicleWithoutStatusPreservesInv(s, id, p);
    case RemoveVehicleReq(id) => RemoveVehiclePreservesInv(s, id);
    case CreateDriverReq(req) => CreateDriverPreservesInv(s, req);
    case UpdateDriverReq(id, p) => UpdateDriverWithoutStatusPreservesInv(s, id, p);
    case RemoveDriverReq(id) => RemoveDriverPreservesInv(s, id);
  }

  /** From a consistent store, any sequence of such requests leaves every
      vehicle and driver held by at most one DISPATCHED trip, and ON_TRIP or
      ON_DUTY exactly when held. */
  lemma {:induction false} RunPreservesInv(s: State, qs: seq<Request>)
    requires Inv(s)
    requires forall i :: 0 <= i < |qs| ==> LeavesStatusAlone(qs[i])
    ensures Inv(Run(s, qs))
    decreases |qs|
  {
    if qs != [] {
      ServePreservesInv(s, qs[0]);
      var r := Serve(s, qs[0]);
      RunPreservesInv(if r.Ok? then r.value else s, qs[1..]);
    }
  }

  /** The statuses a trip may move between: forward along DRAFT, DISPATCHED,
      COMPLETED, or from an active status to CANCELLED. */
  predicate MayBecome(a: TripStatus, b: TripStatus) {
    a == b || (a == Dispatched && b == Completed) || (!a.Terminal() && b == Cancelled)
  }

  /** No request deletes a trip, every trip moves only along `MayBecome`, and
      a terminal trip keeps its status. */
  lemma ServeMovesTripsForward(s: State, q: Request, t: int)
    requires WellFormed(s) && t in s.trips
    ensures Serve(s, q).Ok? ==>
      && t in Serve(s, q).value.trips
      && MayBecome(s.trips[t].status, Serve(s, q).value.trips[t].status)
  {
    assert t != s.nextTripId;
    match q
    case CompleteReq(id, odo, now) =>
      assert CompleteChecked(s, id, odo, now).Ok? ==> s.trips[id].status == Dispatched;
    case CancelReq(id) =>
    case _ =>
  }

  /** As written, completion moves a DRAFT trip straight to COMPLETED, an edge
      `MayBecome` does not allow. */
  lemma CompleteSkipsDispatch(s: State, tripId: int, now: int)
    requires tripId in s.trips && s.trips[tripId].status == Draft
    requires s.trips[tripId].vehicleId in s.vehicles && s.trips[tripId].driverId in s.drivers
    ensures Complete(s, tripId, None, now).Ok?
    ensures !MayBecome(Draft, Complete(s, tripId, None, now).value.trips[tripId].status)
  {
  }
}
