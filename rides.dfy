/** The Ride record and its own behaviour. */
module Rides {
  import opened Common

  /** The four declared status choices; the column holds no other value. */
  datatype Status = Pending | InProgress | Completed | Cancelled

  /** One row of the ride table. `driver` refers to a user, not to a driver row.
      `rejectedDrivers` is the set of driver ids the matcher excludes; the ride
      table does not declare it, yet the matcher and the admin screen use it.
      `name` is the free-text name the serializer and the tests pass through.
      Timestamps and the ETA are not modelled. */
  datatype Ride = Ride(
    rider: UserId,
    driver: Option<UserId>,
    pickup: Option<Point>,
    dropoff: Option<Point>,
    status: Status,
    rejectedDrivers: set<DriverId>,
    name: string)

  /** A freshly inserted row: every column the caller does not give takes its
      default, so the ride is PENDING, has no driver and no rejected drivers. */
  function NewRide(rider: UserId, name: string, pickup: Option<Point>, dropoff: Option<Point>): (r: Ride)
    ensures r.status == Pending && r.driver == None && r.rejectedDrivers == {}
    ensures r.rider == rider && r.name == name && r.pickup == pickup && r.dropoff == dropoff
  {
    Ride(rider, None, pickup, dropoff, Pending, {}, name)
  }

  /** The `can_cancel` property: a ride may be cancelled exactly while it is
      PENDING. */
  predicate CanCancel(r: Ride): (b: bool)
    ensures b <==> r.status == Pending
  {
    r.status == Pending
  }

  /** The effect of `cancel()` on the row: it checks nothing itself. */
  function Cancel(r: Ride): (c: Ride)
    ensures c.status == Cancelled
    ensures c.(status := r.status) == r
  {
    r.(status := Cancelled)
  }

  /** Cancelling an already cancelled ride changes nothing. */
  lemma CancelIdempotent(r: Ride)
    ensures Cancel(Cancel(r)) == Cancel(r)
    ensures !CanCancel(Cancel(r))
  {
  }

  /** `distance()`: the planar distance between the two points (supplied as
      `planar`, the geometry library's computation) scaled by 100, and 0 as
      soon as either point is missing. */
  function Distance(r: Ride, planar: (Point, Point) -> real): (d: real)
    ensures r.pickup == None || r.dropoff == None ==> d == 0.0
  {
    if r.pickup.Some? && r.dropoff.Some? then planar(r.pickup.value, r.dropoff.value) * 100.0 else 0.0
  }
}
