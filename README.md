# RideBook ride dispatch, modelled in Dafny

This project models the dispatch state of RideBook, a Django ride-hailing
backend. The state is a store of **rides** and **drivers**. The model covers
the operations the code implements on that store:

- the ride record, its four statuses, `cancel` and `can_cancel`;
- ride creation with the single-pending-ride-per-rider policy, the cancel
  endpoint, and the scoping of rides to the current rider;
- candidate matching: the exact four-condition driver filter within
  `MAX_RADIUS` (10 km), and the loop that adds the ride to each candidate's
  `ride_requests` and pushes a best-effort notification;
- the location validators of both serializers, driver creation (one driver
  per user) and driver update.

Layout, one module per file:

| file | module | source |
|---|---|---|
| common.dfy | `Common` | ids, points, `Option`, `Result`, validation errors |
| locations.dfy | `Locations` | the latitude/longitude check shared by both serializers |
| rides.dfy | `Rides` | rider/models.py |
| drivers.dfy | `Drivers` | driver/models.py |
| store.dfy | `Store` | the two tables as one mutable store (class `Db`) |
| matching.dfy | `Matching` | rider/utils.py |
| rider_serializers.dfy | `RiderSerializers` | rider/serializers.py |
| rider_views.dfy | `RiderViews` | rider/views.py |
| driver_serializers.dfy | `DriverSerializers` | driver/serializers.py |

The database is the class `Store.Db`. Its fields are the ride table and the
driver table, as maps from primary key to record, plus the two auto-increment
counters. `Db.Valid()` states three invariants:

- keys lie below the counters;
- there is at most one driver per user;
- every ride request names an existing ride.

Every state-changing operation is a method with `modifies db`. Its `ensures`
ties the new tables to a pure function of the old ones. The properties are
proved as lemmas about those functions.

Calls into code outside the model become parameters:

- the geodesic distance in whole metres is `geo: (Point, Point) -> nat`;
- Python's `float()` is `parse: string -> Option<real>`, a partial function;
- the planar distance used by `Ride.distance` is `planar`;
- the channel-layer push is `notify: UserId -> bool`, where `false` means the
  push raised;
- a failing driver query is the flag `queryFails`.

Behaviour of the code worth knowing (the model follows the code):

- `cancel()` only sets the status. It checks nothing and clears no driver's
  `ride_requests` (rider/models.py:35-37). The PENDING guard is in the view
  (rider/views.py:83-85), which answers 400 and does not raise an error.
- Ride creation does not run the matcher. `perform_create` cancels and then
  saves (rider/views.py:55-62). Matching is a separate operation here.
- `perform_create` has no transaction. If the serializer rejects the body
  after the pending rides were cancelled, those rides stay CANCELLED.
  See `RiderViews.FailedCreateStillCancels`.
- Matching is broadcast. Every eligible driver is offered the ride, with no
  ranking and no limit.
- `find_optimal_drivers` returns `None` when its query raises. The loop then
  iterates `None` and raises. The model reports this as the outcome
  `NotIterable` and changes nothing.
- The ride table does not declare `rejected_drivers`, yet the matcher uses it
  (rider/utils.py:45). It is part of the `Ride` record here, as a set of
  driver ids. Likewise `name` is not declared but the serializer and the tests
  use it, so it is carried through.
- `Ride.driver` refers to a user, not to a driver row.
- A driver's `available` flag is an ordinary writable field of the update, so
  nothing ties it to having an assigned ride.

The status column can hold only the four declared values, because `Status`
is a datatype with those four constructors. `can_cancel` is the predicate
`Rides.CanCancel`; the cancel endpoint's guard is that predicate, and
`RiderViews.CancelActionResult` states its effect.

## Model

| member | source | states |
|---|---|---|
| `Rides.NewRide` | rider/models.py:14-18 | a new ride is PENDING, has no driver and no rejected drivers, and keeps the rider, name and locations it was given |
| `Rides.CanCancel` | rider/models.py:39-41 | a ride can be cancelled exactly when it is PENDING |
| `Rides.Cancel` | rider/models.py:35-37 | cancelling makes the status CANCELLED from any status and changes no other field |
| `Rides.CancelIdempotent` | rider/models.py:35-41 | cancelling twice equals cancelling once, and a cancelled ride can no longer be cancelled |
| `Rides.Distance` | rider/models.py:24-27 | the distance is 0 when the pickup or the drop-off point is missing |
| `Store.Db.CancelRide` | rider/models.py:35-37 | `cancel()` rewrites only that ride's status; the driver table, including every `ride_requests` set, is unchanged |
| `Store.Db.InsertRide` | rider/serializers.py:36 | `Ride.objects.create` stores the row under the next primary key, a key not used before; the counter grows by one and the driver table is unchanged |
| `Store.HasDriver` | driver/serializers.py:28 | the "driver exists" test holds exactly when some driver row belongs to the user |
| `Drivers.NewDriver` | driver/models.py:6-16 | a new driver is available unless told otherwise, may have no location, and starts with no ride requests |
| `Locations.ValidateLocationData` | rider/serializers.py:18-27 | a missing key gives "required"; with both keys present, a failure is always "invalid format" and happens exactly when a value does not parse; otherwise the result is the point with x = longitude and y = latitude |
| `Locations.ValidateLocationRoundTrip` | driver/serializers.py:14-23 | when parsing reads back the two written coordinates, the dictionary of a point validates back to that same point, so latitude and longitude are never swapped |
| `Matching.FindOptimalDrivers` | rider/utils.py:37-59 | a driver is returned exactly when it is available, has a location, is not rejected and is within 10000 m of pickup; a failing query gives `None` |
| `Matching.OfferRide` | rider/utils.py:24-25 | every matched driver's requests gain the ride and keep their earlier entries; no other field and no unmatched driver changes |
| `Matching.OfferRideIdempotent` | driver/models.py:16 | `ride_requests` is a set, so offering the same ride again adds nothing |
| `Matching.OfferKeepsCandidates` | rider/utils.py:41-50 | adding ride requests changes no column the driver filter reads, so the candidate set is unchanged |
| `Matching.MatchingIdempotent` | rider/utils.py:18-31 | running matching twice for a ride leaves the drivers as one run does |
| `Matching.RejectedNeverOffered` | rider/utils.py:44-46 | a driver in the ride's rejected set is never offered the ride, whatever its distance or availability |
| `Matching.AddRideToDriverRideRequests` | rider/utils.py:18-31 | with no pickup nothing changes; with a `None` result the loop fails and nothing changes; otherwise every candidate gets the ride whether or not its notification fails, and the ride table is unchanged |
| `RiderSerializers.BuildRide` | rider/serializers.py:29-36 | a ride is built only when both locations validate (drop-off first, so a drop-off error is reported before a pickup error, and a pickup error is reported when the drop-off is valid); an absent location fails through the `{}` default; the ride belongs to the given rider, is PENDING and has no driver |
| `RiderSerializers.Create` | rider/serializers.py:29-37 | the built ride is inserted under a fresh id; on a validation error nothing is inserted |
| `RiderViews.RidesOf` | rider/views.py:34-41 | the listing holds exactly the rides whose rider is the current user |
| `RiderViews.CancelPending` | rider/views.py:55-59 | every PENDING ride of the rider becomes CANCELLED; other riders' rides and this rider's non-PENDING rides are unchanged |
| `RiderViews.PerformCreate` | rider/views.py:43-62 | after the call the table is the old table with the rider's PENDING rides cancelled, plus the new ride when the body validates; the ride counter grows by one exactly then, and the driver table and counter are untouched |
| `RiderViews.CreateLeavesOnePending` | rider/views.py:55-62 | after a successful creation the new ride is the rider's only PENDING ride, it belongs to the rider, and the ride count grew by exactly one |
| `RiderViews.FailedCreateStillCancels` | rider/views.py:55-62 | a creation that fails validation inserts nothing but leaves the rider with no PENDING ride |
| `RiderViews.CreateCounts` | rider/views.py:55-62 | in a single-rider table, creation turns every PENDING ride into CANCELLED and leaves the new ride as the only PENDING one |
| `RiderViews.ThreeCreations` | rider/tests.py:63-87 | one PENDING ride plus three creations gives four rides: three CANCELLED and one PENDING, the last one created |
| `RiderViews.CancelActionResult` | rider/views.py:74-90 | 404 exactly when the ride is not the user's; 400 with no change exactly when it is not PENDING; 200 with the ride CANCELLED exactly when it is PENDING |
| `RiderViews.CancelTwice` | rider/tests.py:55-61 | cancelling one's PENDING ride gives 200 and CANCELLED; doing it again gives 400 and changes nothing |
| `RiderViews.CancelAction` | rider/views.py:74-90 | the endpoint returns that code and leaves that rides table; the driver table and both counters are untouched |
| `DriverSerializers.CreateResult` | driver/serializers.py:25-31 | creation is refused with "already exists" exactly when the user has a driver; otherwise one new row is bound to the user, with the given model, registration number and color and the defaults, and every other row is unchanged |
| `DriverSerializers.CreateKeepsOneDriverPerUser` | driver/models.py:7 | a successful creation keeps at most one driver per user |
| `DriverSerializers.SecondCreateRefused` | driver/serializers.py:28-29 | after a user's driver exists, a second creation for that user is refused |
| `DriverSerializers.Create` | driver/serializers.py:25-31 | the endpoint returns the new id or the refusal, and the driver table becomes the matching result; the driver counter grows by one exactly on success |
| `DriverSerializers.ApplyUpdate` | driver/serializers.py:33-39 | a non-empty dictionary location is validated into a point, and its errors are raised; other submitted fields are written as given; user and ride requests never change |
| `DriverSerializers.PatchLocationAndAvailability` | driver/tests.py:64-82 | PATCHing latitude 3.234 / longitude 2.234 stores x = 2.234, y = 3.234; `available` can be set to false by the client |
| `DriverSerializers.Update` | driver/serializers.py:33-39 | the driver row becomes the update's result, or stays as it was on a validation error |

## Left out

- Accept, complete and reject: no view or serializer in the modelled files implements them. They are routed nowhere and appear only in tests.
- Transactions and concurrent requests: the modelled code has neither. Every operation here runs to completion alone.
- Geodesic and planar distance, and float parsing: these are library computations on floats. They are parameters of the operations.
- Notification delivery (websocket consumers, channel layer, JWT middleware) is asynchronous I/O. A push is a parameter `notify` that may fail.
- Laziness of the driver query: an exception raised while the query is evaluated, outside its `try`, is not modelled. Only a failure inside the `try` (`queryFails`) is.
- Login, signup and logout; the permission classes; URL routing; admin screens; settings other than `MAX_RADIUS`. These are framework wiring.
- The driver views: lookup of the caller's driver with 404, and deletion. `DriverSerializers.Update` takes the driver's id instead.
- Field-level validation that the REST framework runs before `create` is not modelled. `DriverSerializers.Create` receives already-validated data.
- DriverSerializers.ApplyUpdate models `update` called directly on the submitted value. Through the PATCH endpoint (driver/views.py:35-36) the framework first runs `validate_location` as the field hook, so `update` receives a point: a `null` location fails there with `TypeError`, and `{}` fails there with "required", before `update` runs. That hook path is not modelled.
- RiderSerializers.BuildRide: a `null` pickup or drop-off reaches `validate_location_data` and raises `TypeError` there. `RideInput` has no null value, so this path is not modelled; only an absent location (the `{}` default) is.
- JSON coordinate values, strings and numbers alike, are kept as their text, and `parse` stands for `float()` on them. `float()` raising `TypeError` on a value that is neither a string nor a number (`null`, a list, an object) is not modelled. Nor are values such as "nan", "inf" or "1e999", which `float()` accepts as NaN or infinity and the code stores in the point: `parse` yields only finite reals.
- Timestamps, the ETA, the newest-first ordering and the pagination of the listing, `__str__`, logging and `print`.
- Update in place: ride and driver rows are values in the store's maps. Changing a row replaces its entry, so aliasing between ORM objects is not modelled.
- Rides.Distance: the contract states only the zero case. The non-zero value is the `planar` parameter's result times 100.
