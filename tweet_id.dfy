/** `generateID`: a plausible tweet id built from the clock and random
    digits. All three tools carry the same loop. */
module TweetId {
  import opened Decimal

  const ID_LENGTH: nat := 16

  /** How many random digits pad the clock's digits out to `ID_LENGTH`. */
  function Padding(timestamp: nat): nat
  {
    var t := |NatToDecimal(timestamp)|;
    if t < ID_LENGTH then ID_LENGTH - t else 0
  }

  function DigitsText(ds: seq<Digit>): (s: string)
    ensures |s| == |ds|
    ensures forall i :: 0 <= i < |ds| ==> s[i] == DigitChar(ds[i])
  {
    if ds == [] then "" else DigitsText(ds[..|ds| - 1]) + [DigitChar(ds[|ds| - 1])]
  }

  /** The id text generated at clock reading `timestamp` (milliseconds)
      when the random generator yields `draws` in turn. */
  function IdText(timestamp: nat, draws: seq<Digit>): (id: string)
    requires |draws| >= ID_LENGTH
    ensures AllDigits(id)
  {
    NatToDecimal(timestamp) + DigitsText(draws[..Padding(timestamp)])
  }

  /** The id is the clock's digits followed by one random digit per
      character missing from `ID_LENGTH`: its length is `ID_LENGTH`, or the
      clock's length when that is longer. */
  lemma IdTextLayout(timestamp: nat, draws: seq<Digit>)
    requires |draws| >= ID_LENGTH
    ensures var id, clock := IdText(timestamp, draws), NatToDecimal(timestamp);
            && |id| == (if |clock| < ID_LENGTH then ID_LENGTH else |clock|)
            && id[..|clock|] == clock
            && forall i :: |clock| <= i < |id| ==> id[i] == DigitChar(draws[i - |clock|])
  {
    var clock := NatToDecimal(timestamp);
    var pad := DigitsText(draws[..Padding(timestamp)]);
    assert IdText(timestamp, draws) == clock + pad;
    assert (clock + pad)[..|clock|] == clock;
  }

  /** The loop of `generateID`: start from the clock's digits and append
      random digits while the text is shorter than `ID_LENGTH`. `draws`
      stands for successive `Random.nextInt(10)` results; more are supplied
      than the loop can consume. */
  method GenerateIdText(timestamp: nat, draws: seq<Digit>) returns (id: string)
    requires |draws| >= ID_LENGTH
    ensures id == IdText(timestamp, draws)
  {
    var clock := NatToDecimal(timestamp);
    id := clock;
    var i := 0;
    while |id| < ID_LENGTH
      invariant i <= Padding(timestamp)
      invariant |id| == |clock| + i
      invariant id == clock + DigitsText(draws[..i])
      decreases ID_LENGTH - |id|
    {
      assert draws[..i + 1][..i] == draws[..i];
      id := id + [DigitChar(draws[i])];
      i := i + 1;
    }
  }

  /** `Long.valueOf` of the generated text, as the generator tools return
      it. When the clock reads after the epoch the text has no leading zero,
      so `Long.toString` of the value is the generated text again. */
  method GenerateIdLong(timestamp: nat, draws: seq<Digit>) returns (id: nat)
    requires |draws| >= ID_LENGTH
    ensures AllDigits(IdText(timestamp, draws))
    ensures id == DecimalValue(IdText(timestamp, draws))
    ensures timestamp > 0 ==> NatToDecimal(id) == IdText(timestamp, draws)
  {
    var text := GenerateIdText(timestamp, draws);
    id := DecimalValue(text);
    if timestamp > 0 {
      assert text[0] == NatToDecimal(timestamp)[0];
      ToStringOfValue(text);
    }
  }

  /** `generateID().toString()`: the generated id as a number and as the
      text `Long.toString` writes for it. */
  method GenerateIdString(timestamp: nat, draws: seq<Digit>) returns (value: nat, text: string)
    requires |draws| >= ID_LENGTH
    ensures Canonical(text) && DecimalValue(text) == value
    ensures value == DecimalValue(IdText(timestamp, draws))
    ensures timestamp > 0 ==> text == IdText(timestamp, draws)
  {
    value := GenerateIdLong(timestamp, draws);
    text := NatToDecimal(value);
    ValueOfToString(value);
  }
}
