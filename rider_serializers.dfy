/** The ride serializer: turning a request body into a new ride row. */
module RiderSerializers {
  import opened Common
  import opened Locations
  import opened Rides
  import opened Store

  /** The writable part of a ride request body. The read-only columns (id,
      status, rider, driver, timestamps) have no place here, so a client cannot
      set them. An absent location key is `None`. */
  datatype RideInput = RideInput(name: string, pickup: Option<LocationData>, dropoff: Option<LocationData>)

  /** `RideSerializer.create` up to the insert: both locations are popped with
      `{}` as the default and validated, the drop-off first, and the row takes
      the rider the view supplies and every default of a new ride. */
  function BuildRide(rider: UserId, input: RideInput, parse: string -> Option<real>): (r: Result<Ride>)
    ensures r.Success? <==>
              && ValidateLocationData(input.dropoff.GetOr(map[]), parse).Success?
              && ValidateLocationData(input.pickup.GetOr(map[]), parse).Success?
    ensures input.dropoff == None ==> r == Failure(MissingCoordinates)
    ensures input.pickup == None ==> r.Failure?
    ensures ValidateLocationData(input.dropoff.GetOr(map[]), parse).Failure? ==>
              r.Failure? && r.error == ValidateLocationData(input.dropoff.GetOr(map[]), parse).error
    ensures ValidateLocationData(input.dropoff.GetOr(map[]), parse).Success? &&
            ValidateLocationData(input.pickup.GetOr(map[]), parse).Failure? ==>
              r == Failure(ValidateLocationData(input.pickup.GetOr(map[]), parse).error)
    ensures r.Success? ==>
              && r.value.rider == rider && r.value.name == input.name
              && r.value.status == Pending && r.value.driver == None && r.value.rejectedDrivers == {}
              && r.value.pickup == Some(ValidateLocationData(input.pickup.value, parse).value)
              && r.value.dropoff == Some(ValidateLocationData(input.dropoff.value, parse).value)
  {
    var dropoffData := input.dropoff.GetOr(map[]);
    var pickupData := input.pickup.GetOr(map[]);
    match ValidateLocationData(dropoffData, parse)
    case Failure(e) => Failure(e)
    case Success(dropoff) =>
      match ValidateLocationData(pickupData, parse)
      case Failure(e) => Failure(e)
      case Success(pickup) => Success(NewRide(rider, input.name, Some(pickup), Some(dropoff)))
  }

  /** `RideSerializer.create`: inserts the ride built from the request, or
      raises the validation error and inserts nothing. */
  method Create(db: Db, rider: UserId, input: RideInput, parse: string -> Option<real>)
    returns (res: Result<RideId>)
    requires db.Valid()
    modifies db
    ensures db.Valid()
    ensures db.drivers == old(db.drivers) && db.nextDriverId == old(db.nextDriverId)
    ensures match BuildRide(rider, input, parse)
            case Success(ride) =>
              && res == Success(old(db.nextRideId))
              && old(db.nextRideId) !in old(db.rides)
              && db.rides == old(db.rides)[old(db.nextRideId) := ride]
              && db.nextRideId == old(db.nextRideId) + 1
            case Failure(e) =>
              res == Failure(e) && db.rides == old(db.rides) && db.nextRideId == old(db.nextRideId)
  {
    match BuildRide(rider, input, parse)
    case Failure(e) =>
      return Failure(e);
    case Success(ride) =>
      var id := db.InsertRide(ride);
      return Success(id);
  }
}
