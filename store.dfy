/** The persistent state the dispatch core reads and writes: the ride table and
    the driver table, with the auto-increment counters that give new rows their
    primary keys. */
module Store {
  import opened Common
  import opened Rides
  import opened Drivers

  /** At most one driver row per user (the one-to-one `user` column). */
  ghost predicate OneDriverPerUser(drivers: map<DriverId, Driver>) {
    forall a, b :: a in drivers && b in drivers && drivers[a].user == drivers[b].user ==> a == b
  }

  /** Whether some driver row already belongs to `user`. */
  predicate HasDriver(drivers: map<DriverId, Driver>, user: UserId): (b: bool)
    ensures b ==> exists id :: id in drivers && drivers[id].user == user
    ensures !b ==> forall id :: id in drivers ==> drivers[id].user != user
  {
    exists id | id in drivers :: drivers[id].user == user
  }

  class Db {
    var rides: map<RideId, Ride>
    var drivers: map<DriverId, Driver>
    var nextRideId: RideId
    var nextDriverId: DriverId

    /** Keys below the counters, one driver per user, and every ride request
        naming an existing ride (the many-to-many table's foreign key). */
    ghost predicate Valid()
      reads this
    {
      && (forall id :: id in rides ==> id < nextRideId)
      && (forall id :: id in drivers ==> id < nextDriverId)
      && OneDriverPerUser(drivers)
      && (forall id :: id in drivers ==> drivers[id].rideRequests <= rides.Keys)
    }

    constructor ()
      ensures Valid()
      ensures rides == map[] && drivers == map[]
    {
      rides, drivers := map[], map[];
      nextRideId, nextDriverId := 0, 0;
    }

    /** `Ride.cancel()`: sets the status to CANCELLED and saves, whatever the
        status was; no other column and no driver's ride requests change. */
    method CancelRide(id: RideId)
      requires Valid() && id in rides
      modifies this
      ensures Valid()
      ensures rides == old(rides)[id := Cancel(old(rides)[id])]
      ensures drivers == old(drivers)
      ensures nextRideId == old(nextRideId) && nextDriverId == old(nextDriverId)
    {
      rides := rides[id := Cancel(rides[id])];
    }

    /** `Ride.objects.create(...)`: stores `r` under the next primary key. */
    method InsertRide(r: Ride) returns (id: RideId)
      requires Valid()
      modifies this
      ensures Valid()
      ensures id == old(nextRideId) && id !in old(rides)
      ensures rides == old(rides)[id := r]
      ensures drivers == old(drivers) && nextDriverId == old(nextDriverId)
      ensures nextRideId == old(nextRideId) + 1
    {
      id := nextRideId;
      rides := rides[id := r];
      nextRideId := nextRideId + 1;
    }
  }
}
