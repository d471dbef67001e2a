/** The driver serializer: creating the driver row of a user and updating it. */
module DriverSerializers {
  import opened Common
  import opened Locations
  import opened Drivers
  import opened Store

  /** The validated body of a driver creation. `user`, `id` and the timestamps
      are read-only and have no place here; an absent optional key is `None`. */
  datatype DriverData = DriverData(
    model: string,
    registrationNumber: string,
    color: string,
    location: Option<Point>,
    available: Option<bool>)

  /** The forms a submitted `location` value can take in an update. */
  datatype LocationValue =
    | NullLocation              // JSON null
    | AsPoint(point: Point)     // already a point
    | AsDict(data: LocationData)

  /** A partial update: a field is `None` when the client did not send it. */
  datatype DriverPatch = DriverPatch(
    model: Option<string>,
    registrationNumber: Option<string>,
    color: Option<string>,
    location: Option<LocationValue>,
    available: Option<bool>)

  /** The driver table after `create` for `user`: refused when the user already
      has a driver row, otherwise a new row bound to `user` under `newId`. */
  function CreateResult(drivers: map<DriverId, Driver>, newId: DriverId, user: UserId, data: DriverData)
    : (r: Result<map<DriverId, Driver>>)
    ensures r.Failure? <==> HasDriver(drivers, user)
    ensures r.Failure? ==> r.error == DriverExists
    ensures r.Success? ==>
              && r.value.Keys == drivers.Keys + {newId}
              && (forall id :: id in drivers && id != newId ==> r.value[id] == drivers[id])
              && r.value[newId].user == user
              && r.value[newId].model == data.model
              && r.value[newId].registrationNumber == data.registrationNumber
              && r.value[newId].color == data.color
              && r.value[newId].rideRequests == {}
              && r.value[newId].available == data.available.GetOr(true)
              && r.value[newId].location == data.location
  {
    if HasDriver(drivers, user) then Failure(DriverExists)
    else Success(drivers[newId := NewDriver(user, data.model, data.registrationNumber, data.color,
                                            data.location, data.available)])
  }

  /** Creation keeps at most one driver row per user. */
  lemma CreateKeepsOneDriverPerUser(drivers: map<DriverId, Driver>, newId: DriverId, user: UserId, data: DriverData)
    requires OneDriverPerUser(drivers) && newId !in drivers
    ensures CreateResult(drivers, newId, user, data).Success? ==>
              OneDriverPerUser(CreateResult(drivers, newId, user, data).value)
  {
    var r := CreateResult(drivers, newId, user, data);
    if r.Success? {
      var after := r.value;
      assert forall b :: b in drivers ==> after[b].user != user;
      assert after[newId].user == user;
    }
  }

  /** Once a user's driver has been created, a second creation for the same
      user is refused and leaves the table as it was. */
  lemma SecondCreateRefused(drivers: map<DriverId, Driver>, id1: DriverId, id2: DriverId, user: UserId,
                            first: DriverData, second: DriverData)
    requires CreateResult(drivers, id1, user, first).Success?
    ensures CreateResult(CreateResult(drivers, id1, user, first).value, id2, user, second) == Failure(DriverExists)
  {
    var after := CreateResult(drivers, id1, user, first).value;
    assert after[id1].user == user;
  }

  /** `DriverSerializer.create`: the row is bound to the requesting user. */
  method Create(db: Db, user: UserId, data: DriverData) returns (res: Result<DriverId>)
    requires db.Valid()
    modifies db
    ensures db.Valid()
    ensures db.rides == old(db.rides) && db.nextRideId == old(db.nextRideId)
    ensures match CreateResult(old(db.drivers), old(db.nextDriverId), user, data)
            case Success(drivers) =>
              res == Success(old(db.nextDriverId)) && db.drivers == drivers && db.nextDriverId == old(db.nextDriverId) + 1
            case Failure(e) =>
              res == Failure(e) && db.drivers == old(db.drivers) && db.nextDriverId == old(db.nextDriverId)
  {
    if HasDriver(db.drivers, user) {
      return Failure(DriverExists);
    }
    CreateKeepsOneDriverPerUser(db.drivers, db.nextDriverId, user, data);
    var id := db.nextDriverId;
    db.drivers := db.drivers[id := NewDriver(user, data.model, data.registrationNumber, data.color,
                                             data.location, data.available)];
    db.nextDriverId := db.nextDriverId + 1;
    return Success(id);
  }

  /** `DriverSerializer.update` on driver `d`: a non-empty dictionary location
      is validated and turned into a point; every other submitted field is
      written as given, unsubmitted fields keep their values, and neither the
      user nor the ride requests change. An empty dictionary is falsy, is not
      converted, and cannot be stored in the point column. */
  function ApplyUpdate(d: Driver, patch: DriverPatch, parse: string -> Option<real>): (r: Result<Driver>)
    ensures r.Success? ==>
              && r.value.user == d.user && r.value.rideRequests == d.rideRequests
              && r.value.model == patch.model.GetOr(d.model)
              && r.value.registrationNumber == patch.registrationNumber.GetOr(d.registrationNumber)
              && r.value.color == patch.color.GetOr(d.color)
              && r.value.available == patch.available.GetOr(d.available)
              && (patch.location == None ==> r.value.location == d.location)
              && (patch.location == Some(NullLocation) ==> r.value.location == None)
    ensures patch.location.Some? && patch.location.value.AsPoint? ==>
              r.Success? && r.value.location == Some(patch.location.value.point)
    ensures patch.location.Some? && patch.location.value.AsDict? && patch.location.value.data != map[] ==>
              match ValidateLocationData(patch.location.value.data, parse)
              case Success(p) => r.Success? && r.value.location == Some(p)
              case Failure(e) => r == Failure(e)
    ensures patch.location == Some(AsDict(map[])) ==> r == Failure(NotAPoint)
    ensures patch.location == None || patch.location == Some(NullLocation) ==> r.Success?
  {
    var location: Result<Option<Point>> :=
      match patch.location
      case None => Success(d.location)
      case Some(NullLocation) => Success(None)
      case Some(AsPoint(p)) => Success(Some(p))
      case Some(AsDict(data)) =>
        if data == map[] then Failure(NotAPoint)
        else match ValidateLocationData(data, parse)
          case Success(p) => Success(Some(p))
          case Failure(e) => Failure(e);
    match location
    case Failure(e) => Failure(e)
    case Success(loc) =>
      Success(d.(model := patch.model.GetOr(d.model),
                 registrationNumber := patch.registrationNumber.GetOr(d.registrationNumber),
                 color := patch.color.GetOr(d.color),
                 location := loc,
                 available := patch.available.GetOr(d.available)))
  }

  /** The update scenario: a PATCH with latitude "3.234", longitude "2.234" and
      available false stores the point x = 2.234, y = 3.234 and makes the
      driver unavailable without touching its ride requests. */
  lemma PatchLocationAndAvailability(d: Driver, parse: string -> Option<real>)
    requires parse("3.234") == Some(3.234) && parse("2.234") == Some(2.234)
    ensures var patch := DriverPatch(Some("New Test Model"), Some("XYZ123"), Some("Blue"),
                                     Some(AsDict(map[LATITUDE := "3.234", LONGITUDE := "2.234"])), Some(false));
            var r := ApplyUpdate(d, patch, parse);
            && r.Success?
            && r.value.location == Some(Point(2.234, 3.234))
            && r.value.model == "New Test Model" && r.value.registrationNumber == "XYZ123"
            && r.value.color == "Blue"
            && !r.value.available
            && r.value.rideRequests == d.rideRequests
  {
    var data := map[LATITUDE := "3.234", LONGITUDE := "2.234"];
    assert data[LATITUDE] == "3.234" && data[LONGITUDE] == "2.234";
    assert data != map[];
  }

  /** `DriverSerializer.update` followed by the save. */
  method Update(db: Db, id: DriverId, patch: DriverPatch, parse: string -> Option<real>) returns (res: Result<Driver>)
    requires db.Valid() && id in db.drivers
    modifies db
    ensures db.Valid()
    ensures res == ApplyUpdate(old(db.drivers)[id], patch, parse)
    ensures res.Success? ==> db.drivers == old(db.drivers)[id := res.value]
    ensures res.Failure? ==> db.drivers == old(db.drivers)
    ensures db.rides == old(db.rides)
    ensures db.nextRideId == old(db.nextRideId) && db.nextDriverId == old(db.nextDriverId)
  {
    res := ApplyUpdate(db.drivers[id], patch, parse);
    if res.Success? {
      db.drivers := db.drivers[id := res.value];
    }
  }
}
