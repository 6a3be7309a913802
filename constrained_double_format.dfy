/** ConstrainedDoubleFormat: the formatter of a numeric text field whose
    value must lie between two inclusive bounds fixed at construction. */
module ConstrainedDoubleFormat {
  import opened Outcomes
  import opened TextFormat

  /** The formatter's two final fields. */
  datatype Format = Format(lowerBound: real, upperBound: real)

  datatype IllegalArgumentException = IllegalArgumentException(message: string)

  /** `Double.toString`, abstracted: how a bound is written in a message. */
  type DoubleShow = real -> string

  /** The constructor: bounds in the wrong order are refused; equal bounds
      are allowed. */
  function New(lowerBound: real, upperBound: real, show: DoubleShow): (r: Result<Format, IllegalArgumentException>)
    ensures r.Ok? <==> lowerBound <= upperBound
    ensures r.Ok? ==> r.value.lowerBound == lowerBound && r.value.upperBound == upperBound
    ensures r.Err? ==>
              r.error.message == "lowerBound[" + show(lowerBound) + "] must be less than upperBound[" + show(upperBound) + "]"
  {
    if lowerBound > upperBound then
      Err(IllegalArgumentException("lowerBound[" + show(lowerBound) + "] must be less than upperBound["
                                   + show(upperBound) + "]"))
    else
      Ok(Format(lowerBound, upperBound))
  }

  /** `stringToValue`: the parsed number when it lies within the bounds;
      every error is reported at offset 0. */
  function StringToValue(f: Format, text: string, parse: DoubleParser, show: DoubleShow): (r: Result<real, ParseException>)
    ensures r.Ok? <==> parse(text).Some? && f.lowerBound <= parse(text).value <= f.upperBound
    ensures r.Ok? ==> r.value == parse(text).value && f.lowerBound <= r.value <= f.upperBound
    ensures r.Err? ==> r.error.errorOffset == 0
    ensures parse(text).None? ==> r == Err(ParseException(text + " is not a valid double", 0))
    ensures parse(text).Some? && r.Err? ==>
              r.error.message == "Value must be in [" + show(f.lowerBound) + "," + show(f.upperBound) + "]"
  {
    match parse(text)
    case None => Err(ParseException(text + " is not a valid double", 0))
    case Some(d) =>
      if d < f.lowerBound || d > f.upperBound then
        Err(ParseException("Value must be in [" + show(f.lowerBound) + "," + show(f.upperBound) + "]", 0))
      else
        Ok(d)
  }

  /** `valueToString`: no value shows as "0.0", a number as its
      `Double.toString`. */
  function ValueToString(value: Option<real>, show: DoubleShow): (shown: string)
    ensures value.None? ==> shown == "0.0"
    ensures value.Some? ==> shown == show(value.value)
  {
    match value
    case None => "0.0"
    case Some(d) => show(d)
  }

  /** With equal bounds the field accepts exactly one number. */
  lemma EqualBoundsAcceptOneValue(f: Format, text: string, parse: DoubleParser, show: DoubleShow)
    requires f.lowerBound == f.upperBound
    ensures StringToValue(f, text, parse, show).Ok? <==> parse(text) == Some(f.lowerBound)
  {
  }

  /** What a field shows is accepted back, as the same number, exactly when
      that number lies within the bounds (for no value: when 0 does),
      given that the shown text parses back to the number. */
  lemma ValueToStringRoundTrip(f: Format, value: Option<real>, parse: DoubleParser, show: DoubleShow)
    requires parse("0.0") == Some(0.0)
    requires value.Some? ==> parse(show(value.value)) == value
    ensures var d := if value.Some? then value.value else 0.0;
            var r := StringToValue(f, ValueToString(value, show), parse, show);
            (r.Ok? <==> f.lowerBound <= d <= f.upperBound) && (r.Ok? ==> r.value == d)
  {
  }

  /** Every formatter built by the constructor has an accepted value: its
      lower bound, written as the parser reads it. */
  lemma ConstructedFormatAcceptsLowerBound(lowerBound: real, upperBound: real, parse: DoubleParser, show: DoubleShow)
    requires New(lowerBound, upperBound, show).Ok?
    requires parse(show(lowerBound)) == Some(lowerBound)
    ensures StringToValue(New(lowerBound, upperBound, show).value, show(lowerBound), parse, show) == Ok(lowerBound)
  {
  }
}
