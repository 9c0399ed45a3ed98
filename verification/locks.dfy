/** The resource-lock invariant: every vehicle is held by at most one
    DISPATCHED trip and is ON_TRIP exactly when it is held, and likewise every
    driver is ON_DUTY exactly when one DISPATCHED trip holds it. This module
    proves which handlers keep the invariant and exhibits the ones that break it. */
module Locks {
  import opened Results
  import opened Fleet
  import opened Trips
  import Maintenance
  import Vehicles
  import Drivers

  /** Trip `t` is DISPATCHED with vehicle `v`. */
  ghost predicate HoldsVehicle(trips: map<int, Trip>, t: int, v: int) {
    t in trips && trips[t].status == Dispatched && trips[t].vehicleId == v
  }

  /** Trip `t` is DISPATCHED with driver `d`. */
  ghost predicate HoldsDriver(trips: map<int, Trip>, t: int, d: int) {
    t in trips && trips[t].status == Dispatched && trips[t].driverId == d
  }

  ghost predicate VehicleHeld(trips: map<int, Trip>, v: int) {
    exists t :: HoldsVehicle(trips, t, v)
  }

  ghost predicate DriverHeld(trips: map<int, Trip>, d: int) {
    exists t :: HoldsDriver(trips, t, d)
  }

  /** At most one DISPATCHED trip per vehicle, and ON_TRIP means held. */
  ghost predicate VehicleLocksSound(trips: map<int, Trip>, vehicles: map<int, Vehicle>) {
    && (forall t1, t2, v :: HoldsVehicle(trips, t1, v) && HoldsVehicle(trips, t2, v) ==> t1 == t2)
    && (forall v :: v in vehicles ==> (vehicles[v].status == OnTrip <==> VehicleHeld(trips, v)))
  }

  /** At most one DISPATCHED trip per driver, and ON_DUTY means held. */
  ghost predicate DriverLocksSound(trips: map<int, Trip>, drivers: map<int, Driver>) {
    && (forall t1, t2, d :: HoldsDriver(trips, t1, d) && HoldsDriver(trips, t2, d) ==> t1 == t2)
    && (forall d :: d in drivers ==> (drivers[d].status == OnDuty <==> DriverHeld(trips, d)))
  }

  /** Referential integrity and fresh autoincrement counters, as the store's
      keys and foreign keys guarantee. */
  ghost predicate WellFormed(s: State) {
    && (forall t :: t in s.trips ==>
          t < s.nextTripId && s.trips[t].vehicleId in s.vehicles && s.trips[t].driverId in s.drivers)
    && (forall v :: v in s.vehicles ==> v < s.nextVehicleId)
    && (forall d :: d in s.drivers ==> d < s.nextDriverId)
    && (forall l :: l in s.logs ==> l < s.nextLogId && s.logs[l].vehicleId in s.vehicles)
    && (forall e :: e in s.expenses ==> s.expenses[e].vehicleId in s.vehicles)
  }

  ghost predicate Inv(s: State) {
    WellFormed(s) && VehicleLocksSound(s.trips, s.vehicles) && DriverLocksSound(s.trips, s.drivers)
  }

  /** The empty store, whose autoincrement counters start at 1. */
  function Empty(): (s: State)
    ensures Inv(s)
  {
    State(map[], map[], map[], map[], map[], 1, 1, 1, 1)
  }

  // ---------------------------------------------------------------------
  // Handlers that keep the invariant

  /** A draft locks nothing, so the invariant survives it. */
  lemma CreateDraftPreservesInv(s: State, req: TripRequest, now: int)
    requires Inv(s)
    ensures CreateDraft(s, req, now).Ok? ==> Inv(CreateDraft(s, req, now).value)
  {
    var r := CreateDraft(s, req, now);
    if r.Ok? {
      var s' := r.value;
      assert forall t, v :: HoldsVehicle(s'.trips, t, v) <==> HoldsVehicle(s.trips, t, v);
      assert forall t, d :: HoldsDriver(s'.trips, t, d) <==> HoldsDriver(s.trips, t, d);
    }
  }

  /** A successful dispatch takes an unheld, AVAILABLE vehicle and driver and
      makes the new trip their only holder. */
  lemma DispatchPreservesInv(s: State, req: TripRequest, now: int)
    requires Inv(s)
    ensures Dispatch(s, req, now).Ok? ==> Inv(Dispatch(s, req, now).value)
  {
    var r := Dispatch(s, req, now);
    if r.Ok? {
      var s' := r.value;
      var n, v, d := s.nextTripId, req.vehicleId.value, req.driverId.value;
      assert !VehicleHeld(s.trips, v);
      assert !DriverHeld(s.trips, d);
      assert HoldsVehicle(s'.trips, n, v) && HoldsDriver(s'.trips, n, d);
      assert forall t, x :: HoldsVehicle(s'.trips, t, x) <==> HoldsVehicle(s.trips, t, x) || (t == n && x == v);
      assert forall t, x :: HoldsDriver(s'.trips, t, x) <==> HoldsDriver(s.trips, t, x) || (t == n && x == d);
    }
  }

  /** Completing a DISPATCHED trip releases exactly what it held. */
  lemma CompleteDispatchedPreservesInv(s: State, tripId: int, finalOdometer: Option<int>, now: int)
    requires Inv(s)
    requires tripId in s.trips && s.trips[tripId].status == Dispatched
    ensures Complete(s, tripId, finalOdometer, now).Ok? ==> Inv(Complete(s, tripId, finalOdometer, now).value)
  {
    var r := Complete(s, tripId, finalOdometer, now);
    if r.Ok? {
      ReleasePreservesInv(s, tripId, r.value);
    }
  }

  /** Cancelling a DISPATCHED trip releases exactly what it held. */
  lemma CancelDispatchedPreservesInv(s: State, tripId: int)
    requires Inv(s)
    requires tripId in s.trips && s.trips[tripId].status == Dispatched
    ensures Cancel(s, tripId).Ok? ==> Inv(Cancel(s, tripId).value)
  {
    var r := Cancel(s, tripId);
    if r.Ok? {
      ReleasePreservesInv(s, tripId, r.value);
    }
  }

  /** The common step of completion and cancellation: the DISPATCHED trip
      `tripId` moves to a terminal status and its vehicle and driver become
      AVAILABLE, everything else keeping its status. */
  lemma ReleasePreservesInv(s: State, tripId: int, s': State)
    requires Inv(s)
    requires tripId in s.trips && s.trips[tripId].status == Dispatched
    requires s'.trips.Keys == s.trips.Keys && s'.nextTripId == s.nextTripId
    requires s'.trips[tripId].status.Terminal()
    requires s'.trips[tripId].vehicleId == s.trips[tripId].vehicleId
    requires s'.trips[tripId].driverId == s.trips[tripId].driverId
    requires forall t :: t in s.trips && t != tripId ==> s'.trips[t] == s.trips[t]
    requires s'.vehicles.Keys == s.vehicles.Keys && s'.drivers.Keys == s.drivers.Keys
    requires s'.vehicles[s.trips[tripId].vehicleId].status == VehicleStatus.Available
    requires s'.drivers[s.trips[tripId].driverId].status == DriverStatus.Available
    requires forall v :: v in s.vehicles && v != s.trips[tripId].vehicleId ==> s'.vehicles[v].status == s.vehicles[v].status
    requires forall d :: d in s.drivers && d != s.trips[tripId].driverId ==> s'.drivers[d].status == s.drivers[d].status
    requires s'.logs == s.logs && s'.expenses == s.expenses
    requires s'.nextVehicleId == s.nextVehicleId && s'.nextDriverId == s.nextDriverId && s'.nextLogId == s.nextLogId
    ensures Inv(s')
  {
    var v, d := s.trips[tripId].vehicleId, s.trips[tripId].driverId;
    assert forall t, x :: HoldsVehicle(s'.trips, t, x) <==> HoldsVehicle(s.trips, t, x) && t != tripId;
    assert forall t, x :: HoldsDriver(s'.trips, t, x) <==> HoldsDriver(s.trips, t, x) && t != tripId;
    assert HoldsVehicle(s.trips, tripId, v) && HoldsDriver(s.trips, tripId, d);
    assert !VehicleHeld(s'.trips, v);
    assert !DriverHeld(s'.trips, d);
  }

  /** Logging maintenance only succeeds for a vehicle that is not ON_TRIP, hence
      unheld, and IN_SHOP is not ON_TRIP either. */
  lemma CreateLogPreservesInv(s: State, req: Maintenance.LogRequest, now: int)
    requires Inv(s)
    ensures Maintenance.CreateLog(s, req, now).Ok? ==> Inv(Maintenance.CreateLog(s, req, now).value)
  {
    var r := Maintenance.CreateLog(s, req, now);
    if r.Ok? {
      var s' := r.value;
      assert forall t, x :: HoldsVehicle(s'.trips, t, x) <==> HoldsVehicle(s.trips, t, x);
      assert forall t, x :: HoldsDriver(s'.trips, t, x) <==> HoldsDriver(s.trips, t, x);
    }
  }

  lemma RemoveLogPreservesInv(s: State, logId: int)
    requires Inv(s)
    ensures Maintenance.RemoveLog(s, logId).Ok? ==> Inv(Maintenance.RemoveLog(s, logId).value)
  {
  }

  /** A new vehicle is AVAILABLE and no trip can refer to its fresh id. */
  lemma CreateVehiclePreservesInv(s: State, req: Vehicles.VehicleRequest)
    requires Inv(s)
    ensures Vehicles.CreateVehicle(s, req).Ok? ==> Inv(Vehicles.CreateVehicle(s, req).value)
  {
    var r := Vehicles.CreateVehicle(s, req);
    if r.Ok? {
      var s' := r.value;
      assert forall t, x :: HoldsVehicle(s'.trips, t, x) <==> HoldsVehicle(s.trips, t, x);
      assert !VehicleHeld(s.trips, s.nextVehicleId);
    }
  }

  /** An update that leaves the status alone keeps the invariant. */
  lemma UpdateVehicleWithoutStatusPreservesInv(s: State, id: int, p: Vehicles.VehiclePatch)
    requires Inv(s) && p.status.None?
    ensures Vehicles.UpdateVehicle(s, id, p).Ok? ==> Inv(Vehicles.UpdateVehicle(s, id, p).value)
  {
  }

  /** Only an unreferenced vehicle can be deleted, so no trip is left dangling. */
  lemma RemoveVehiclePreservesInv(s: State, id: int)
    requires Inv(s)
    ensures Vehicles.RemoveVehicle(s, id).Ok? ==> Inv(Vehicles.RemoveVehicle(s, id).value)
  {
    var r := Vehicles.RemoveVehicle(s, id);
    if r.Ok? {
      var s' := r.value;
      forall t | t in s'.trips
        ensures s'.trips[t].vehicleId in s'.vehicles
      {
        assert s.trips[t].vehicleId != id;
      }
      forall l | l in s'.logs
        ensures s'.logs[l].vehicleId in s'.vehicles
      {
        assert s.logs[l].vehicleId != id;
      }
      forall e | e in s'.expenses
        ensures s'.expenses[e].vehicleId in s'.vehicles
      {
        assert s.expenses[e].vehicleId != id;
      }
    }
  }

  lemma CreateDriverPreservesInv(s: State, req: Drivers.DriverRequest)
    requires Inv(s)
    ensures Drivers.CreateDriver(s, req).Ok? ==> Inv(Drivers.CreateDriver(s, req).value)
  {
    var r := Drivers.CreateDriver(s, req);
    if r.Ok? {
      var s' := r.value;
      assert forall t, x :: HoldsDriver(s'.trips, t, x) <==> HoldsDriver(s.trips, t, x);
      assert !DriverHeld(s.trips, s.nextDriverId);
    }
  }

  lemma UpdateDriverWithoutStatusPreservesInv(s: State, id: int, p: Drivers.DriverPatch)
    requires Inv(s) && p.status.None?
    ensures Drivers.UpdateDriver(s, id, p).Ok? ==> Inv(Drivers.UpdateDriver(s, id, p).value)
  {
  }

  lemma RemoveDriverPreservesInv(s: State, id: int)
    requires Inv(s)
    ensures Drivers.RemoveDriver(s, id).Ok? ==> Inv(Drivers.RemoveDriver(s, id).value)
  {
    var r := Drivers.RemoveDriver(s, id);
    if r.Ok? {
      var s' := r.value;
      forall t | t in s'.trips
        ensures s'.trips[t].driverId in s'.drivers
      {
        assert s.trips[t].driverId != id;
      }
    }
  }

  // ---------------------------------------------------------------------
  // Handlers that break the invariant

  /** Cancelling a trip that holds nothing (a DRAFT, or one already CANCELLED)
      still sets its vehicle AVAILABLE, although another DISPATCHED trip may
      hold that vehicle. */
  lemma CancelUnheldReleasesHeldVehicle(s: State, tripId: int, holder: int)
    requires Inv(s)
    requires tripId in s.trips && s.trips[tripId].status in {Draft, Cancelled}
    requires HoldsVehicle(s.trips, holder, s.trips[tripId].vehicleId)
    ensures Cancel(s, tripId).Ok?
    ensures !VehicleLocksSound(Cancel(s, tripId).value.trips, Cancel(s, tripId).value.vehicles)
  {
    var s' := Cancel(s, tripId).value;
    var v := s.trips[tripId].vehicleId;
    assert HoldsVehicle(s'.trips, holder, v);
    assert s'.vehicles[v].status == VehicleStatus.Available;
  }

  /** Completing a DRAFT trip likewise sets its vehicle AVAILABLE while another
      DISPATCHED trip holds it. */
  lemma CompleteDraftReleasesHeldVehicle(s: State, tripId: int, holder: int, now: int)
    requires Inv(s)
    requires tripId in s.trips && s.trips[tripId].status == Draft
    requires HoldsVehicle(s.trips, holder, s.trips[tripId].vehicleId)
    ensures Complete(s, tripId, None, now).Ok?
    ensures !VehicleLocksSound(Complete(s, tripId, None, now).value.trips, Complete(s, tripId, None, now).value.vehicles)
  {
    var s' := Complete(s, tripId, None, now).value;
    var v := s.trips[tripId].vehicleId;
    assert HoldsVehicle(s'.trips, holder, v);
    assert s'.vehicles[v].status == VehicleStatus.Available;
  }

  /** The path is reachable with ordinary requests: draft a trip for an
      AVAILABLE vehicle, dispatch another trip with the same vehicle (the draft
      did not lock it), cancel the draft. The vehicle is then AVAILABLE while
      DISPATCHED, and the maintenance gate lets it be sent to the shop. */
  lemma DraftDispatchCancelScenario(s: State, v: int, d1: int, d2: int, cargo: int, now: int)
    requires Inv(s)
    requires v != 0 && d1 != 0 && d2 != 0
    requires v in s.vehicles && d1 in s.drivers && d2 in s.drivers
    requires s.vehicles[v].status == VehicleStatus.Available && s.drivers[d2].status == DriverStatus.Available
    requires cargo <= s.vehicles[v].maxCapacityKg && s.drivers[d2].licenseExpiryDate >= now
    ensures
      var s1 := CreateDraft(s, TripRequest(Some(v), Some(d1), Some(cargo), None), now);
      && s1.Ok? && Inv(s1.value)
      && var s2 := Dispatch(s1.value, TripRequest(Some(v), Some(d2), Some(cargo), None), now);
      && s2.Ok? && Inv(s2.value)
      && var s3 := Cancel(s2.value, s.nextTripId);
      && s3.Ok? && !Inv(s3.value)
      && HoldsVehicle(s3.value.trips, s.nextTripId + 1, v)
      && Maintenance.CreateLog(s3.value, Maintenance.LogRequest(Some(v), Some("service"), Some(0), None), now).Ok?
  {
    var req1 := TripRequest(Some(v), Some(d1), Some(cargo), None);
    var req2 := TripRequest(Some(v), Some(d2), Some(cargo), None);
    CreateDraftPreservesInv(s, req1, now);
    var s1 := CreateDraft(s, req1, now).value;
    assert s.nextTripId !in s.trips;
    DispatchPreservesInv(s1, req2, now);
    var s2 := Dispatch(s1, req2, now).value;
    assert HoldsVehicle(s2.trips, s.nextTripId + 1, v);
    CancelUnheldReleasesHeldVehicle(s2, s.nextTripId, s.nextTripId + 1);
  }

  /** A free status write keeps the invariant exactly when it agrees with the
      trips: ON_TRIP for a held vehicle, anything else for an unheld one. */
  lemma UpdateVehicleStatusInvIff(s: State, id: int, st: VehicleStatus, p: Vehicles.VehiclePatch)
    requires Inv(s) && id in s.vehicles && p.status == Some(st)
    ensures Vehicles.UpdateVehicle(s, id, p).Ok?
    ensures Inv(Vehicles.UpdateVehicle(s, id, p).value) <==> (st == OnTrip <==> VehicleHeld(s.trips, id))
  {
    var s' := Vehicles.UpdateVehicle(s, id, p).value;
    if st == OnTrip <==> VehicleHeld(s.trips, id) {
      assert Inv(s');
    } else {
      assert s'.vehicles[id].status == st;
      assert !VehicleLocksSound(s'.trips, s'.vehicles);
    }
  }

  /** The same for drivers: ON_DUTY must agree with being held. Suspending a
      driver who is on a DISPATCHED trip is one such write. */
  lemma UpdateDriverStatusInvIff(s: State, id: int, st: DriverStatus, p: Drivers.DriverPatch)
    requires Inv(s) && id in s.drivers && p.status == Some(st)
    ensures Drivers.UpdateDriver(s, id, p).Ok?
    ensures Inv(Drivers.UpdateDriver(s, id, p).value) <==> (st == OnDuty <==> DriverHeld(s.trips, id))
  {
    var s' := Drivers.UpdateDriver(s, id, p).value;
    if st == OnDuty <==> DriverHeld(s.trips, id) {
      assert Inv(s');
    } else {
      assert s'.drivers[id].status == st;
      assert !DriverLocksSound(s'.trips, s'.drivers);
    }
  }
}
