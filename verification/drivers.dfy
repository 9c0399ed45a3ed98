/** Driver registration, partial update, deletion and the trip statistics the
    driver list is enriched with, as in backend-core/controllers/driverController.js. */
module Drivers {
  import opened Results
  import opened Fleet

  /** The body of a register-driver request. */
  datatype DriverRequest = DriverRequest(name: Option<string>, licenseExpiryDate: Option<int>, safetyScore: Option<int>)

  /** The body of an update-driver request: every field is optional. */
  datatype DriverPatch = DriverPatch(
    name: Option<string>,
    licenseExpiryDate: Option<int>,
    status: Option<DriverStatus>,
    safetyScore: Option<int>)

  /** POST /api/drivers: name and licence expiry are required; the safety
      score is `Number(safetyScore || 100)`, so an absent or zero score becomes
      100. A new driver is AVAILABLE. */
  function CreateDriver(s: State, req: DriverRequest): (r: Result<State, Error>)
    ensures r.Err? <==> !TruthyText(req.name) || req.licenseExpiryDate.None?
    ensures r.Err? ==> r.error == MissingField
    ensures r.Ok? ==>
      && r.value == s.(drivers := r.value.drivers, nextDriverId := r.value.nextDriverId)
      && r.value.nextDriverId == s.nextDriverId + 1
      && s.nextDriverId in r.value.drivers
      && var d := r.value.drivers[s.nextDriverId];
      && d.name == req.name.value && d.licenseExpiryDate == req.licenseExpiryDate.value
      && d.status == DriverStatus.Available
      && (req.safetyScore.None? ==> d.safetyScore == 100)
      && (Truthy(req.safetyScore) ==> d.safetyScore == req.safetyScore.value)
      && (s.nextDriverId !in s.drivers ==> Added(s.drivers, r.value.drivers, s.nextDriverId, d))
  {
    if !TruthyText(req.name) || req.licenseExpiryDate.None? then Err(MissingField)
    else
      var d := Driver(req.name.value, req.licenseExpiryDate.value, OrDefault(req.safetyScore, 100), DriverStatus.Available);
      Ok(s.(drivers := s.drivers[s.nextDriverId := d], nextDriverId := s.nextDriverId + 1))
  }

  /** A safety score of 0 supplied at registration is stored as 100. */
  lemma ZeroSafetyScoreBecomesHundred(s: State, name: string, expiry: int)
    requires name != ""
    ensures CreateDriver(s, DriverRequest(Some(name), Some(expiry), Some(0))).Ok?
    ensures CreateDriver(s, DriverRequest(Some(name), Some(expiry), Some(0))).value.drivers[s.nextDriverId].safetyScore == 100
  {
  }

  /** The driver with exactly the supplied fields overwritten. */
  function ApplyPatch(d: Driver, p: DriverPatch): (e: Driver)
    ensures e.name == p.name.GetOr(d.name)
    ensures e.licenseExpiryDate == p.licenseExpiryDate.GetOr(d.licenseExpiryDate)
    ensures e.status == p.status.GetOr(d.status)
    ensures e.safetyScore == p.safetyScore.GetOr(d.safetyScore)
  {
    Driver(p.name.GetOr(d.name), p.licenseExpiryDate.GetOr(d.licenseExpiryDate),
           p.safetyScore.GetOr(d.safetyScore), p.status.GetOr(d.status))
  }

  /** PATCH /api/drivers/:id: a partial write; an unknown id is a store error. */
  function UpdateDriver(s: State, id: int, p: DriverPatch): (r: Result<State, Error>)
    ensures r.Ok? <==> id in s.drivers
    ensures r.Err? ==> r.error == StoreFault
    ensures r.Ok? ==>
      && r.value == s.(drivers := r.value.drivers)
      && Replaced(s.drivers, r.value.drivers, id, ApplyPatch(s.drivers[id], p))
  {
    if id !in s.drivers then Err(StoreFault)
    else Ok(s.(drivers := s.drivers[id := ApplyPatch(s.drivers[id], p)]))
  }

  /** Sending the same update twice has the effect of sending it once, and an
      empty update leaves the driver as it was. */
  lemma PatchIdempotent(d: Driver, p: DriverPatch)
    ensures ApplyPatch(ApplyPatch(d, p), p) == ApplyPatch(d, p)
    ensures ApplyPatch(d, DriverPatch(None, None, None, None)) == d
  {
  }

  predicate DriverReferenced(s: State, id: int) {
    exists t :: t in s.trips && s.trips[t].driverId == id
  }

  /** DELETE /api/drivers/:id: the trips' foreign key vetoes deleting a driver with trips. */
  function RemoveDriver(s: State, id: int): (r: Result<State, Error>)
    ensures r == Err(StoreFault) <==> id !in s.drivers
    ensures r == Err(StillReferenced) <==> id in s.drivers && DriverReferenced(s, id)
    ensures r.Ok? <==> id in s.drivers && !DriverReferenced(s, id)
    ensures r.Ok? ==>
      && r.value == s.(drivers := r.value.drivers)
      && r.value.drivers.Keys == s.drivers.Keys - {id}
      && forall k :: k in r.value.drivers ==> r.value.drivers[k] == s.drivers[k]
  {
    if id !in s.drivers then Err(StoreFault)
    else if DriverReferenced(s, id) then Err(StillReferenced)
    else Ok(s.(drivers := s.drivers - {id}))
  }

  // ---------------------------------------------------------------------
  // Trip statistics of GET /api/drivers

  /** The statistics each listed driver is enriched with. */
  datatype TripStats = TripStats(totalTrips: nat, completedTrips: nat, completionRate: nat)

  /** The number of `trips` driven by `driver`. */
  function TotalTrips(driver: int, trips: seq<Trip>): (n: nat)
    ensures n <= |trips|
    ensures n == 0 <==> forall i :: 0 <= i < |trips| ==> trips[i].driverId != driver
  {
    if trips == [] then 0
    else (if trips[0].driverId == driver then 1 else 0) + TotalTrips(driver, trips[1..])
  }

  /** The number of `trips` driven by `driver` whose status is COMPLETED. */
  function CompletedTrips(driver: int, trips: seq<Trip>): (n: nat)
    ensures n <= TotalTrips(driver, trips)
    ensures n == TotalTrips(driver, trips) <==>
      forall i :: 0 <= i < |trips| && trips[i].driverId == driver ==> trips[i].status == Completed
  {
    if trips == [] then 0
    else
      var rest := CompletedTrips(driver, trips[1..]);
      assert forall i :: 1 <= i < |trips| ==> trips[i] == trips[1..][i - 1];
      (if trips[0].driverId == driver && trips[0].status == Completed then 1 else 0) + rest
  }

  /** `Math.round(completed / total * 100)`, or 0 when there are no trips:
      the integer nearest to the percentage, halves rounded up. */
  function CompletionRate(completed: nat, total: nat): (rate: nat)
    requires completed <= total
    ensures rate <= 100
    ensures total == 0 ==> rate == 0
    ensures total > 0 ==> (2 * rate - 1) * total <= 200 * completed < (2 * rate + 1) * total
    ensures completed == total ==> (rate == 100 <==> total > 0)
    ensures completed == 0 ==> rate == 0
  {
    if total == 0 then 0
    else
      var rate := (200 * completed + total) / (2 * total);
      NearestPercent(completed, total, rate);
      ScaleCompare(2 * rate - 1, 200, total);
      ScaleCompare(200, 2 * rate + 1, total);
      ScaleCompare(2 * rate - 1, 0, total);
      rate
  }

  /** The quotient computed by `CompletionRate` is within half a unit of the
      exact percentage. */
  lemma NearestPercent(completed: nat, total: nat, q: int)
    requires total > 0 && q == (200 * completed + total) / (2 * total)
    ensures (2 * q - 1) * total <= 200 * completed < (2 * q + 1) * total
  {
    var a, b := 200 * completed + total, 2 * total;
    assert q * b <= a < q * b + b;
    assert q * b == 2 * (q * total);
    assert (2 * q - 1) * total == 2 * (q * total) - total;
    assert (2 * q + 1) * total == 2 * (q * total) + total;
  }

  /** Multiplying by a positive factor preserves order. */
  lemma ScaleCompare(x: int, y: int, t: int)
    requires t > 0
    ensures x * t <= y * t <==> x <= y
    ensures x * t < y * t <==> x < y
  {
    assert y * t - x * t == (y - x) * t;
    if x < y {
      MulAtLeast(y - x, t);
    } else {
      MulAtLeast(x - y + 1, t);
      assert (x - y) * t == (x - y + 1) * t - t;
    }
  }

  /** A positive multiple of `t` is at least `t`. */
  lemma {:induction false} MulAtLeast(k: nat, t: nat)
    requires k >= 1
    ensures k * t >= t
  {
    if k > 1 {
      MulAtLeast(k - 1, t);
      assert k * t == (k - 1) * t + t;
    }
  }

  /** Rounding makes the rate 100 as soon as 199 of 200 trips are completed,
      so a rate of 100 does not mean that every trip was completed. */
  lemma CompletionRateRoundsUpToHundred()
    ensures CompletionRate(199, 200) == 100
  {
  }

  /** The statistics of one driver: its trip count, its COMPLETED trip count
      and the completion percentage rounded to the nearest integer. */
  function Stats(driver: int, trips: seq<Trip>): (st: TripStats)
    ensures st.totalTrips == TotalTrips(driver, trips)
    ensures st.completedTrips == CompletedTrips(driver, trips)
    ensures st.completedTrips <= st.totalTrips
    ensures st.completionRate <= 100
    ensures st.totalTrips == 0 ==> st.completionRate == 0
    ensures st.totalTrips > 0 ==>
      (2 * st.completionRate - 1) * st.totalTrips <= 200 * st.completedTrips < (2 * st.completionRate + 1) * st.totalTrips
  {
    var total := TotalTrips(driver, trips);
    var completed := CompletedTrips(driver, trips);
    TripStats(total, completed, CompletionRate(completed, total))
  }

  /** One row of the enriched driver list. */
  datatype DriverRow = DriverRow(id: int, driver: Driver, stats: TripStats)

  /** GET /api/drivers: every listed driver, in order, with the statistics of
      its trips. `trips` is the trip table as the store returns it. */
  method EnrichDrivers(drivers: seq<(int, Driver)>, trips: seq<Trip>) returns (rows: seq<DriverRow>)
    ensures |rows| == |drivers|
    ensures forall i :: 0 <= i < |rows| ==>
      && rows[i].id == drivers[i].0 && rows[i].driver == drivers[i].1
      && rows[i].stats == Stats(drivers[i].0, trips)
      && rows[i].stats.totalTrips == TotalTrips(drivers[i].0, trips)
      && rows[i].stats.completedTrips == CompletedTrips(drivers[i].0, trips)
      && rows[i].stats.completionRate <= 100
      && (rows[i].stats.totalTrips == 0 ==> rows[i].stats.completionRate == 0)
      && (rows[i].stats.totalTrips > 0 ==>
            (2 * rows[i].stats.completionRate - 1) * rows[i].stats.totalTrips
            <= 200 * rows[i].stats.completedTrips
            < (2 * rows[i].stats.completionRate + 1) * rows[i].stats.totalTrips)
  {
    rows := [];
    var i := 0;
    while i < |drivers|
      invariant 0 <= i <= |drivers|
      invariant |rows| == i
      invariant forall j :: 0 <= j < i ==> rows[j] == DriverRow(drivers[j].0, drivers[j].1, Stats(drivers[j].0, trips))
    {
      var (id, d) := drivers[i];
      rows := rows + [DriverRow(id, d, Stats(id, trips))];
      i := i + 1;
    }
  }
}
