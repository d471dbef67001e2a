/** Identifiers, geographic points, optional values and results shared by every
    part of the dispatch model. */
module Common {

  /** Primary keys of the three tables the dispatch core touches. */
  type UserId = nat
  type RideId = nat
  type DriverId = nat

  /** A geographic point as GEOS builds it: x is the longitude, y the latitude.
      Coordinates are the values float parsing produced, taken as reals. */
  datatype Point = Point(x: real, y: real)

  /** A nullable column or an absent dictionary key. */
  datatype Option<+T> = None | Some(value: T) {
    function GetOr(default: T): T {
      match this
      case Some(v) => v
      case None => default
    }
  }

  /** Why an operation failed: the three validation errors the serializers
      raise, one constructor per message, and `NotAPoint`, which is not a
      validation error. */
  datatype ValidationError =
    | MissingCoordinates     // "Latitude and longitude are required."
    | InvalidCoordinates     // "Invalid latitude or longitude format."
    | DriverExists           // "Driver already exists for this user."
    | NotAPoint              // `update` writes an empty dict unconverted; the ORM's save then
                             // raises ValueError, a server error rather than a validation error

  /** Either the value an operation produced or the error it raised. */
  datatype Result<+T> = Success(value: T) | Failure(error: ValidationError)
}
