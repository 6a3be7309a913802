/** LatLongPairFormat: the formatter of the "latitude,longitude" text
    field. A text is accepted when it has exactly two comma-separated
    pieces, a latitude in [-90, 90] and a longitude in [-180, 180]; the
    value it yields is the text itself. */
module LatLongPairFormat {
  import opened Outcomes
  import opened Strings
  import opened TextFormat

  predicate LatitudeOk(v: Option<real>)
  {
    v.Some? && -90.0 <= v.value <= 90.0
  }

  predicate LongitudeOk(v: Option<real>)
  {
    v.Some? && -180.0 <= v.value <= 180.0
  }

  /** `stringToValue`: the part count is checked first, then the latitude,
      then the longitude; the first failing check decides the exception. */
  function StringToValue(text: string, parse: DoubleParser): (r: Result<string, ParseException>)
    ensures r.Ok? ==> r.value == text
    ensures var parts := Split(text, ',');
            r.Ok? <==> |parts| == 2 && LatitudeOk(parse(parts[0])) && LongitudeOk(parse(parts[1]))
  {
    var parts := Split(text, ',');
    if |parts| != 2 then
      var errorOffset := if |parts| > 2 then |parts[0]| + 1 + |parts[1]| else -1;
      Err(ParseException("Wrong number of commas", errorOffset))
    else
      match parse(parts[0])
      case None => Err(ParseException(parts[0] + " is not a valid double", 0))
      case Some(lat) =>
        if lat < -90.0 || lat > 90.0 then Err(ParseException("Latitude should be in [-90.0,90.0]", 0))
        else
          var lonOffset := |parts[0]| + 1;
          match parse(parts[1])
          case None => Err(ParseException(parts[1] + " is not a valid double", lonOffset))
          case Some(lon) =>
            if lon < -180.0 || lon > 180.0 then Err(ParseException("Longitude should be in [-180.0,180.0]", lonOffset))
            else Ok(text)
  }

  /** A wrong number of pieces is reported at -1 when there are fewer than
      two, and otherwise at the second comma: the text before it is the
      first piece, a comma and the second piece. */
  lemma WrongNumberOfCommas(text: string, parse: DoubleParser)
    requires |Split(text, ',')| != 2
    ensures |Split(text, ',')| < 2 ==> StringToValue(text, parse) == Err(ParseException("Wrong number of commas", -1))
    ensures var parts := Split(text, ',');
            |parts| > 2 ==>
              var second := |parts[0]| + 1 + |parts[1]|;
              second < |text| && text[second] == ',' && text[..second] == parts[0] + [','] + parts[1] &&
              StringToValue(text, parse) == Err(ParseException("Wrong number of commas", second))
  {
    if |Split(text, ',')| > 2 {
      SplitPrefixes(text, ',');
    }
  }

  /** A bad latitude is reported at offset 0, whatever the longitude. */
  lemma LatitudeError(text: string, parse: DoubleParser)
    requires |Split(text, ',')| == 2 && !LatitudeOk(parse(Split(text, ',')[0]))
    ensures var lat := Split(text, ',')[0];
            StringToValue(text, parse) ==
              Err(ParseException(if parse(lat).None? then lat + " is not a valid double"
                                 else "Latitude should be in [-90.0,90.0]", 0))
  {
  }

  /** A bad longitude after a good latitude is reported just after the
      first comma, where the longitude piece starts. */
  lemma LongitudeError(text: string, parse: DoubleParser)
    requires |Split(text, ',')| == 2
    requires LatitudeOk(parse(Split(text, ',')[0])) && !LongitudeOk(parse(Split(text, ',')[1]))
    ensures var parts := Split(text, ',');
            var offset := |parts[0]| + 1;
            offset + |parts[1]| <= |text| &&
            text[..offset] == parts[0] + [','] && text[offset..offset + |parts[1]|] == parts[1] &&
            StringToValue(text, parse) ==
              Err(ParseException(if parse(parts[1]).None? then parts[1] + " is not a valid double"
                                 else "Longitude should be in [-180.0,180.0]", offset))
  {
    SplitPrefixes(text, ',');
    var parts := Split(text, ',');
    var n := |parts[0]| + 1 + |parts[1]|;
    assert text[..n][..|parts[0]| + 1] == parts[0] + [','];
    assert text[..n][|parts[0]| + 1..] == parts[1];
  }

  /** `valueToString`: no value shows as the origin, a value (the accepted
      text) as itself. */
  function ValueToString(value: Option<string>): (shown: string)
    ensures value.None? ==> shown == "0.0,0.0" && Split(shown, ',') == ["0.0", "0.0"]
    ensures value.Some? ==> shown == value.value
  {
    match value
    case None =>
      assert "0.0,0.0" == "0.0" + [','] + "0.0" + "";
      SplitTwoFields("0.0", "0.0", "", ',');
      "0.0,0.0"
    case Some(s) => s
  }

  /** A latitude piece, a comma, a non-empty longitude piece and any
      number of trailing commas is accepted exactly when both numbers are
      in range. */
  lemma AcceptsPair(lat: string, lon: string, trailing: string, parse: DoubleParser)
    requires ',' !in lat && ',' !in lon && lon != "" && Only(trailing, ',')
    ensures StringToValue(lat + [','] + lon + trailing, parse).Ok?
            <==> LatitudeOk(parse(lat)) && LongitudeOk(parse(lon))
  {
    SplitTwoFields(lat, lon, trailing, ',');
  }

  /** And every accepted text has that form. */
  lemma AcceptedIsPair(text: string, parse: DoubleParser)
    requires StringToValue(text, parse).Ok?
    ensures var parts := Split(text, ',');
            var n := |parts[0]| + 1 + |parts[1]|;
            n <= |text| && text[..n] == parts[0] + [','] + parts[1] && Only(text[n..], ',') &&
            LatitudeOk(parse(parts[0])) && LongitudeOk(parse(parts[1]))
  {
    TwoFieldsOfSplit(text, ',');
  }

  /** The text shown for no value is accepted whenever "0.0" parses as
      zero, and an accepted value shows as a text that is accepted again. */
  lemma ValueToStringAccepted(value: Option<string>, parse: DoubleParser)
    requires parse("0.0") == Some(0.0)
    requires value.Some? ==> StringToValue(value.value, parse).Ok?
    ensures StringToValue(ValueToString(value), parse) == Ok(ValueToString(value))
  {
    if value.None? {
      assert "0.0,0.0" == "0.0" + [','] + "0.0" + "";
      SplitTwoFields("0.0", "0.0", "", ',');
    }
  }
}
