/** The Driver record. */
module Drivers {
  import opened Common

  /** One row of the driver table. `user` is one-to-one with the user table,
      `location` may be null, and `rideRequests` is the many-to-many set of rides
      offered to the driver. Timestamps are not modelled. */
  datatype Driver = Driver(
    user: UserId,
    model: string,
    registrationNumber: string,
    color: string,
    location: Option<Point>,
    available: bool,
    rideRequests: set<RideId>)

  /** A freshly inserted row: unless the caller gives one, the location is null
      and the driver is available; it holds no ride request yet. */
  function NewDriver(user: UserId, model: string, registrationNumber: string, color: string,
                     location: Option<Point>, available: Option<bool>): (d: Driver)
    ensures d.user == user && d.rideRequests == {}
    ensures d.model == model && d.registrationNumber == registrationNumber && d.color == color
    ensures d.location == location
    ensures available == None ==> d.available
    ensures available != None ==> d.available == available.value
  {
    Driver(user, model, registrationNumber, color, location, available.GetOr(true), {})
  }
}
