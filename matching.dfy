/** Candidate matching: which drivers are offered a ride, and the loop that
    offers it to them. */
module Matching {
  import opened Common
  import opened Rides
  import opened Drivers
  import opened Store

  /** Search radius in kilometres. */
  const MAX_RADIUS: nat := 10

  /** The four filters of the driver query; `geo` is the geodesic distance in
      whole metres between the driver's location and the pickup point. */
  predicate Eligible(id: DriverId, d: Driver, ride: Ride, geo: (Point, Point) -> nat)
    requires ride.pickup.Some?
  {
    && d.available
    && d.location.Some?
    && id !in ride.rejectedDrivers
    && geo(d.location.value, ride.pickup.value) <= MAX_RADIUS * 1000
  }

  /** `find_optimal_drivers`: every driver passing all four filters, with no
      ranking and no limit; `None` when the query raised (`queryFails`), which
      the function catches and logs. */
  function FindOptimalDrivers(drivers: map<DriverId, Driver>, ride: Ride, geo: (Point, Point) -> nat,
                              queryFails: bool): (r: Option<set<DriverId>>)
    requires ride.pickup.Some?
    ensures r == None <==> queryFails
    ensures r.Some? ==> forall id :: id in r.value <==>
              && id in drivers
              && drivers[id].available
              && drivers[id].location.Some?
              && id !in ride.rejectedDrivers
              && geo(drivers[id].location.value, ride.pickup.value) <= 10000
    ensures r.Some? ==> r.value !! ride.rejectedDrivers
  {
    if queryFails then None
    else Some(set id | id in drivers && Eligible(id, drivers[id], ride, geo))
  }

  /** `driver.ride_requests.add(ride)` for every driver in `matched`: a set
      insertion that keeps the earlier requests and touches no other column and
      no other driver. */
  function OfferRide(drivers: map<DriverId, Driver>, matched: set<DriverId>, rideId: RideId): (r: map<DriverId, Driver>)
    ensures r.Keys == drivers.Keys
    ensures forall id :: id in drivers && id in matched ==>
              rideId in r[id].rideRequests && drivers[id].rideRequests <= r[id].rideRequests
    ensures forall id :: id in drivers ==> r[id].rideRequests - {rideId} == drivers[id].rideRequests - {rideId}
    ensures forall id :: id in drivers ==> r[id].(rideRequests := drivers[id].rideRequests) == drivers[id]
    ensures forall id :: id in drivers && id !in matched ==> r[id] == drivers[id]
  {
    map id | id in drivers ::
      if id in matched then drivers[id].(rideRequests := drivers[id].rideRequests + {rideId}) else drivers[id]
  }

  /** Offering a ride a second time to the same drivers adds nothing. */
  lemma OfferRideIdempotent(drivers: map<DriverId, Driver>, matched: set<DriverId>, rideId: RideId)
    ensures OfferRide(OfferRide(drivers, matched, rideId), matched, rideId) == OfferRide(drivers, matched, rideId)
  {
    var once := OfferRide(drivers, matched, rideId);
    var twice := OfferRide(once, matched, rideId);
    forall id | id in drivers ensures twice[id] == once[id] {
      if id in matched {
        assert once[id].rideRequests + {rideId} == once[id].rideRequests;
      }
    }
  }

  /** Offering a ride changes no column the query filters on, so the candidate
      set is the same before and after. */
  lemma OfferKeepsCandidates(drivers: map<DriverId, Driver>, matched: set<DriverId>, rideId: RideId,
                             ride: Ride, geo: (Point, Point) -> nat, queryFails: bool)
    requires ride.pickup.Some?
    ensures FindOptimalDrivers(OfferRide(drivers, matched, rideId), ride, geo, queryFails)
         == FindOptimalDrivers(drivers, ride, geo, queryFails)
  {
    var offered := OfferRide(drivers, matched, rideId);
    forall id | id in drivers ensures Eligible(id, offered[id], ride, geo) == Eligible(id, drivers[id], ride, geo) {
      assert offered[id].(rideRequests := drivers[id].rideRequests) == drivers[id];
    }
    if !queryFails {
      var before := FindOptimalDrivers(drivers, ride, geo, queryFails).value;
      var after := FindOptimalDrivers(offered, ride, geo, queryFails).value;
      assert after == before by {
        forall id | id in after ensures id in before {
          assert id in offered && Eligible(id, offered[id], ride, geo);
        }
        forall id | id in before ensures id in after {
          assert id in drivers && Eligible(id, drivers[id], ride, geo);
        }
      }
    }
  }

  /** One step of the offering loop: offering to one more driver. */
  lemma OfferOneMore(drivers: map<DriverId, Driver>, done: set<DriverId>, id: DriverId, rideId: RideId)
    requires id in drivers
    ensures var cur := OfferRide(drivers, done, rideId);
            cur[id := cur[id].(rideRequests := cur[id].rideRequests + {rideId})] == OfferRide(drivers, done + {id}, rideId)
  {
    var cur := OfferRide(drivers, done, rideId);
    var next := OfferRide(drivers, done + {id}, rideId);
    var stepped := cur[id := cur[id].(rideRequests := cur[id].rideRequests + {rideId})];
    assert stepped.Keys == next.Keys;
    forall k | k in next ensures stepped[k] == next[k] {
      if k == id && id in done {
        assert cur[id].rideRequests + {rideId} == cur[id].rideRequests;
      }
    }
  }

  /** The driver table after `add_ride_to_driver_ride_requests(ride)`: unchanged
      without a pickup point or when the query result is `None` (the loop then
      raises before inserting anything), otherwise every candidate is offered
      the ride. Notification failures play no part. */
  function AfterMatching(drivers: map<DriverId, Driver>, rideId: RideId, ride: Ride,
                         geo: (Point, Point) -> nat, queryFails: bool): map<DriverId, Driver>
  {
    if ride.pickup.None? then drivers
    else match FindOptimalDrivers(drivers, ride, geo, queryFails)
      case None => drivers
      case Some(matched) => OfferRide(drivers, matched, rideId)
  }

  /** Running matching twice for the same ride leaves the drivers exactly as a
      single run does: no request is duplicated and nobody new is offered. */
  lemma {:induction false} MatchingIdempotent(drivers: map<DriverId, Driver>, rideId: RideId, ride: Ride,
                                              geo: (Point, Point) -> nat, queryFails: bool)
    ensures AfterMatching(AfterMatching(drivers, rideId, ride, geo, queryFails), rideId, ride, geo, queryFails)
         == AfterMatching(drivers, rideId, ride, geo, queryFails)
  {
    if ride.pickup.Some? && !queryFails {
      var matched := FindOptimalDrivers(drivers, ride, geo, queryFails).value;
      OfferKeepsCandidates(drivers, matched, rideId, ride, geo, queryFails);
      OfferRideIdempotent(drivers, matched, rideId);
    }
  }

  /** A driver in the ride's rejected set never gets the ride offered by a
      matching run, whatever its distance or availability. */
  lemma RejectedNeverOffered(drivers: map<DriverId, Driver>, rideId: RideId, ride: Ride,
                             geo: (Point, Point) -> nat, queryFails: bool, id: DriverId)
    requires id in drivers && id in ride.rejectedDrivers
    ensures AfterMatching(drivers, rideId, ride, geo, queryFails)[id] == drivers[id]
  {
  }

  /** What a run of the matching loop reports: no pickup point (nothing done),
      a query result that cannot be iterated (the `for` raises), or the drivers
      offered the ride together with those whose notification went through. */
  datatype MatchOutcome =
    | NoPickup
    | NotIterable
    | Offered(matched: set<DriverId>, notified: set<DriverId>)

  /** `add_ride_to_driver_ride_requests(ride)`. `notify(u)` says whether the
      push to channel `notification__u` went through; a failure is caught and
      printed, and the loop goes on with the next driver. */
  method AddRideToDriverRideRequests(db: Db, rideId: RideId, geo: (Point, Point) -> nat,
                                     queryFails: bool, notify: UserId -> bool)
    returns (outcome: MatchOutcome)
    requires db.Valid() && rideId in db.rides
    modifies db
    ensures db.Valid()
    ensures db.rides == old(db.rides)
    ensures db.nextRideId == old(db.nextRideId) && db.nextDriverId == old(db.nextDriverId)
    ensures db.drivers == AfterMatching(old(db.drivers), rideId, old(db.rides)[rideId], geo, queryFails)
    ensures old(db.rides)[rideId].pickup.None? <==> outcome == NoPickup
    ensures outcome == NotIterable <==> old(db.rides)[rideId].pickup.Some? && queryFails
    ensures outcome.Offered? ==>
              && Some(outcome.matched) == FindOptimalDrivers(old(db.drivers), old(db.rides)[rideId], geo, queryFails)
              && outcome.notified == set id | id in outcome.matched && notify(old(db.drivers)[id].user)
  {
    var ride := db.rides[rideId];
    if ride.pickup.None? {
      return NoPickup;
    }
    var optimal := FindOptimalDrivers(db.drivers, ride, geo, queryFails);
    if optimal.None? {
      return NotIterable;
    }
    var matched := optimal.value;
    ghost var drivers0 := db.drivers;
    ghost var done: set<DriverId> := {};
    var todo := matched;
    var notified: set<DriverId> := {};
    while todo != {}
      invariant todo <= matched && done == matched - todo
      invariant db.Valid()
      invariant db.rides == old(db.rides)
      invariant db.nextRideId == old(db.nextRideId) && db.nextDriverId == old(db.nextDriverId)
      invariant db.drivers == OfferRide(drivers0, done, rideId)
      invariant notified == set id | id in done && notify(drivers0[id].user)
      decreases todo
    {
      var id :| id in todo;
      var d := db.drivers[id];
      OfferOneMore(drivers0, done, id, rideId);
      db.drivers := db.drivers[id := d.(rideRequests := d.rideRequests + {rideId})];
      if notify(d.user) {
        notified := notified + {id};
      }
      todo := todo - {id};
      done := done + {id};
    }
    outcome := Offered(matched, notified);
  }
}
