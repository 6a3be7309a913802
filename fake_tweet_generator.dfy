/** The first tweet generator (SimpleFakeTweetGenerator): no editable
    document and no `created_at`; the id is stored as text under both `id`
    and `id_str`, and `coordinates` carries `getLatLon`'s array unchanged. */
module FakeTweetGenerator {
  import opened Outcomes
  import opened JsonTree
  import opened Decimal
  import opened TweetId
  import GeoJson

  /** The `coordinates` member as written: a point holding `[lat, lon]`. */
  function CoordinatesAsWritten(lat: real, lon: real): (point: Json)
    ensures GeoJson.LonLatOf(point) == Some((lat, lon))
  {
    GeoJson.Point([lat, lon])
  }

  /** Read as RFC 7946 prescribes, that point has its longitude and latitude
      swapped: for a position in Adelaide the latitude read back is 138.604,
      which no latitude can be. */
  lemma CoordinatesSwapped()
    ensures GeoJson.InRange(138.604, -34.918)
    ensures GeoJson.LonLatOf(CoordinatesAsWritten(-34.918, 138.604)) == Some((-34.918, 138.604))
    ensures !GeoJson.InRange(-34.918, 138.604)
  {
  }

  /** `buildSimpleTweet`: a fresh record filled member by member. The clock
      (`timestamp`), the random digits and the form's fields are inputs;
      `lat` and `lon` are what `getLatLon` returns. */
  method BuildSimpleTweet(timestamp: nat, draws: seq<Digit>, text: string, screenName: string,
                          useGeo: bool, lat: real, lon: real)
    returns (tweet: Json)
    requires |draws| >= ID_LENGTH
    ensures tweet.JObject?
    ensures tweet.fields.Keys == {"id", "id_str", "text", "full_text", "user"}
                                 + (if useGeo then {"coordinates"} else {})
    ensures "created_at" !in tweet.fields
    ensures tweet.fields["id"] == tweet.fields["id_str"]
    ensures tweet.fields["id_str"].JString? && Canonical(tweet.fields["id_str"].s)
    ensures DecimalValue(tweet.fields["id_str"].s) == DecimalValue(IdText(timestamp, draws))
    ensures timestamp > 0 ==> tweet.fields["id_str"] == JString(IdText(timestamp, draws))
    ensures tweet.fields["text"] == tweet.fields["full_text"] == JString(text)
    ensures tweet.fields["user"] == JObject(map["screen_name" := JString(screenName)])
    ensures useGeo ==> tweet.fields["coordinates"] == CoordinatesAsWritten(lat, lon)
  {
    var fields: map<string, Json> := map[];
    var _, id := GenerateIdString(timestamp, draws);
    fields := fields["id" := JString(id)];
    fields := fields["id_str" := JString(id)];
    fields := fields["text" := JString(text)];
    fields := fields["full_text" := JString(text)];
    var user: map<string, Json> := map[];
    user := user["screen_name" := JString(screenName)];
    fields := fields["user" := JObject(user)];
    if useGeo {
      fields := fields["coordinates" := CoordinatesAsWritten(lat, lon)];
    }
    tweet := JObject(fields);
  }
}
