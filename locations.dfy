/** Turning a client-supplied location dictionary into a point. The rider and the
    driver serializers perform the same check, key by key. */
module Locations {
  import opened Common

  /** A JSON object as the client sent it; every value is kept as its text. */
  type LocationData = map<string, string>

  const LATITUDE := "latitude"
  const LONGITUDE := "longitude"

  /** The location check: both keys must be present, both values must parse as
      floats (`parse` stands for Python's `float`, a partial function), and the
      point takes the longitude as x and the latitude as y. */
  function ValidateLocationData(data: LocationData, parse: string -> Option<real>): (r: Result<Point>)
    ensures LATITUDE !in data || LONGITUDE !in data ==> r == Failure(MissingCoordinates)
    ensures LATITUDE in data && LONGITUDE in data ==>
              (r.Success? <==> parse(data[LATITUDE]).Some? && parse(data[LONGITUDE]).Some?)
    ensures LATITUDE in data && LONGITUDE in data && r.Failure? ==> r.error == InvalidCoordinates
    ensures r.Success? ==>
              LATITUDE in data && LONGITUDE in data &&
              r.value.x == parse(data[LONGITUDE]).value &&
              r.value.y == parse(data[LATITUDE]).value
  {
    if LATITUDE !in data || LONGITUDE !in data then
      Failure(MissingCoordinates)
    else
      match parse(data[LATITUDE])
      case None => Failure(InvalidCoordinates)
      case Some(latitude) =>
        match parse(data[LONGITUDE])
        case None => Failure(InvalidCoordinates)
        case Some(longitude) => Success(Point(longitude, latitude))
  }

  /** The dictionary a client would send for point `p`, given a way `format` to
      write a coordinate as text. */
  function LocationOf(p: Point, format: real -> string): LocationData {
    map[LATITUDE := format(p.y), LONGITUDE := format(p.x)]
  }

  /** Round trip: when float parsing reads back the two coordinates `format`
      wrote, the dictionary of a point validates to that very point (latitude
      and longitude are not swapped on the way in). */
  lemma ValidateLocationRoundTrip(p: Point, format: real -> string, parse: string -> Option<real>)
    requires parse(format(p.x)) == Some(p.x) && parse(format(p.y)) == Some(p.y)
    ensures ValidateLocationData(LocationOf(p, format), parse) == Success(p)
  {
    var data := LocationOf(p, format);
    assert data[LATITUDE] == format(p.y);
    assert data[LONGITUDE] == format(p.x);
  }
}
