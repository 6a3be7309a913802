/** What the Swing text formatters report: `java.text.ParseException`,
    a message and the offset in the text at which the error was found. */
module TextFormat {
  import opened Outcomes

  datatype ParseException = ParseException(message: string, errorOffset: int)

  /** `Double.parseDouble`, abstracted: the number a text denotes, or None
      where Java throws NumberFormatException. */
  type DoubleParser = string -> Option<real>
}
