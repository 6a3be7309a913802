/** The tweet generator with an editable document (SimpleFakeTweetGeneratorUI).
    Its `get` answers Java null when a member on the path is missing, and
    the JSON null node when the member is there and holds null. */
module FakeTweetGeneratorUI {
  import opened Outcomes
  import opened JsonTree
  import opened JsonPath
  import opened Decimal
  import opened TweetId
  import GeoJson

  /** `getNested`: the node the path resolves to, or null. */
  function GetNested(obj: Json, path: string): (r: Option<Json>)
    ensures r == Lookup(obj, Segments(path))
    decreases |path|
  {
    if HasDot(path) then
      var head := Head(path);
      if obj.JObject? && head in obj.fields then GetNested(obj.fields[head], Tail(path))
      else None
    else if obj.JObject? && path in obj.fields then Some(obj.fields[path])
    else None
  }

  /** A missing member reads as null and a member holding JSON null as the
      null node, so the two are told apart. */
  lemma AbsentIsNotNull(obj: Json, path: string)
    requires !HasDot(path) && obj.JObject?
    ensures path !in obj.fields ==> GetNested(obj, path) == None
    ensures path in obj.fields && obj.fields[path] == JNull ==> GetNested(obj, path) == Some(JNull)
  {
  }

  /** The document model of the generator. */
  class TweetModel {
    var root: Json

    constructor (doc: Json)
      ensures root == doc
    {
      root := doc;
    }

    /** `get`: the resolved node, or null when resolution fails. */
    function Get(path: string): (r: Option<Json>)
      reads this
      ensures r == Lookup(root, Segments(path))
    {
      GetNested(root, path)
    }

    /** `set`. Only a `set` that stores changes the document; it then holds
        the converted value at the path, and everything not on the path is
        as before. */
    method Set(path: string, value: JavaValue) returns (outcome: SetOutcome)
      modifies this
      ensures (root, outcome) == SetAt(old(root), path, value)
      ensures !outcome.Stored? ==> root == old(root)
      ensures outcome.Stored? ==> Get(path) == Some(Convert(value).node)
      ensures outcome.Stored? ==> forall q :: !IsPrefix(q, Segments(path)) && !IsPrefix(Segments(path), q) ==>
                Lookup(root, q) == Lookup(old(root), q)
    {
      var before := root;
      var r := SetAt(root, path, value);
      root, outcome := r.0, r.1;
      if outcome.Stored? {
        SetThenLookup(before, path, value);
        forall q | !IsPrefix(q, Segments(path)) && !IsPrefix(Segments(path), q)
          ensures Lookup(root, q) == Lookup(before, q)
        {
          SetFrame(before, path, value, q);
        }
      }
    }
  }

  /** The `coordinates` member: a GeoJSON point holding `[lon, lat]`, the
      reverse of `getLatLon`'s order. */
  function Coordinates(lat: real, lon: real): (point: Json)
    ensures GeoJson.LonLatOf(point) == Some((lon, lat))
  {
    GeoJson.Point([lon, lat])
  }

  /** `buildSimpleTweet`: a fresh record filled member by member. The clock
      (`createdAt` and `timestamp`), the random digits and the form's fields
      are inputs; `lat` and `lon` are what `getLatLon` returns. */
  method BuildSimpleTweet(skipDate: bool, createdAt: string, timestamp: nat, draws: seq<Digit>,
                          text: string, screenName: string, useGeo: bool, lat: real, lon: real)
    returns (tweet: Json)
    requires |draws| >= ID_LENGTH
    ensures tweet.JObject?
    ensures tweet.fields.Keys == {"id", "id_str", "text", "full_text", "user"}
                                 + (if skipDate then {} else {"created_at"})
                                 + (if useGeo then {"coordinates"} else {})
    ensures !skipDate ==> tweet.fields["created_at"] == JString(createdAt)
    ensures tweet.fields["id_str"].JString? && Canonical(tweet.fields["id_str"].s)
    ensures DecimalValue(tweet.fields["id_str"].s) == DecimalValue(IdText(timestamp, draws))
    ensures tweet.fields["id"] == JNumber(DecimalValue(tweet.fields["id_str"].s) as real)
    ensures timestamp > 0 ==> tweet.fields["id_str"] == JString(IdText(timestamp, draws))
    ensures tweet.fields["text"] == tweet.fields["full_text"] == JString(text)
    ensures tweet.fields["user"] == JObject(map["screen_name" := JString(screenName)])
    ensures useGeo ==> tweet.fields["coordinates"] == GeoJson.Point([lon, lat])
    ensures useGeo ==> GeoJson.LonLatOf(tweet.fields["coordinates"]) == Some((lon, lat))
  {
    var fields: map<string, Json> := map[];
    var idValue, id := GenerateIdString(timestamp, draws);
    if !skipDate {
      fields := fields["created_at" := JString(createdAt)];
    }
    fields := fields["id" := JNumber(idValue as real)];
    fields := fields["id_str" := JString(id)];
    fields := fields["text" := JString(text)];
    fields := fields["full_text" := JString(text)];
    var user: map<string, Json> := map[];
    user := user["screen_name" := JString(screenName)];
    fields := fields["user" := JObject(user)];
    if useGeo {
      fields := fields["coordinates" := Coordinates(lat, lon)];
    }
    tweet := JObject(fields);
  }
}
