/** GeoJSON points, as section 3.1.2 of RFC 7946 defines them: an object
    with `type` "Point" and `coordinates` holding one position, whose first
    element is the longitude and second the latitude (section 3.1.1). */
module GeoJson {
  import opened Outcomes
  import opened JsonTree

  /** A Jackson-serialised `{"type": "Point", "coordinates": position}`. */
  function Point(position: seq<real>): Json
  {
    JObject(map["type" := JString("Point"),
                "coordinates" := JArray(seq(|position|, i requires 0 <= i < |position| => JNumber(position[i])))])
  }

  /** The (longitude, latitude) a GeoJSON reader takes from a point. */
  function LonLatOf(point: Json): Option<(real, real)>
  {
    if point.JObject? && "coordinates" in point.fields && point.fields["coordinates"].JArray? then
      var items := point.fields["coordinates"].items;
      if |items| >= 2 && items[0].JNumber? && items[1].JNumber? then Some((items[0].n, items[1].n))
      else None
    else None
  }

  /** Longitude and latitude within the ranges of WGS 84 degrees. */
  predicate InRange(lon: real, lat: real)
  {
    -180.0 <= lon <= 180.0 && -90.0 <= lat <= 90.0
  }
}
