/**
 * Dates read from the legacy text columns. Python's `datetime.strptime` is not modelled:
 * it is a parameter `parse` that, for a format and a text, yields the date it denotes or
 * nothing. What the model fixes is the order in which formats are tried.
 */
module Dates {

  import opened Options
  import opened Text

  datatype DateTime = DateTime(year: int, month: int, day: int, hour: int, minute: int, second: int)

  /** A `strptime` format such as `"%Y-%m-%d"`. */
  type Format = string

  /** `datetime.strptime(text, format)`, with `None` where Python raises `ValueError`. */
  type Parser = (Format, string) -> Option<DateTime>

  /** The date under the first format, in list order, that accepts `text`. */
  function FirstParse(formats: seq<Format>, text: string, parse: Parser): Option<DateTime>
  {
    if formats == [] then None
    else
      var d := parse(formats[0], text);
      if d.Some? then d else FirstParse(formats[1..], text, parse)
  }

  /** No date comes out exactly when no format accepts the text. */
  lemma {:induction false} FirstParseNone(formats: seq<Format>, text: string, parse: Parser)
    ensures FirstParse(formats, text, parse).None? <==>
            forall i | 0 <= i < |formats| :: parse(formats[i], text).None?
  {
    if formats != [] {
      FirstParseNone(formats[1..], text, parse);
      assert forall i | 1 <= i < |formats| :: formats[1..][i - 1] == formats[i];
    }
  }

  /** A date that comes out is the one of some accepting format, every earlier format rejecting. */
  lemma {:induction false} FirstParseSome(formats: seq<Format>, text: string, parse: Parser)
    requires FirstParse(formats, text, parse).Some?
    ensures exists i | 0 <= i < |formats| ::
      parse(formats[i], text) == FirstParse(formats, text, parse) &&
      forall j | 0 <= j < i :: parse(formats[j], text).None?
  {
    if parse(formats[0], text).None? {
      FirstParseSome(formats[1..], text, parse);
      var i :| 0 <= i < |formats| - 1 &&
        parse(formats[1..][i], text) == FirstParse(formats[1..], text, parse) &&
        forall j | 0 <= j < i :: parse(formats[1..][j], text).None?;
      assert forall j | 0 <= j < i + 1 :: parse(formats[j], text).None? by {
        forall j | 0 <= j < i + 1 ensures parse(formats[j], text).None? {
          if j > 0 {
            assert formats[j] == formats[1..][j - 1];
          }
        }
      }
      assert parse(formats[i + 1], text) == FirstParse(formats, text, parse);
    } else {
      assert parse(formats[0], text) == FirstParse(formats, text, parse);
    }
  }

  /** The value `parse_datetime_flexible` returns, for use by the stages that call it. */
  function FlexibleDate(text: Option<string>, formats: seq<Format>, parse: Parser): Option<DateTime>
  {
    if text.None? || text.value == [] then None else FirstParse(formats, Strip(text.value), parse)
  }

  /**
   * `parse_datetime_flexible`: an empty or missing text gives nothing; otherwise the
   * surrounding whitespace is dropped and the formats are tried in order.
   */
  method ParseDatetimeFlexible(text: Option<string>, formats: seq<Format>, parse: Parser)
    returns (r: Option<DateTime>)
    ensures text.None? || text.value == [] ==> r.None?
    ensures text.Some? && text.value != [] ==> r == FirstParse(formats, Strip(text.value), parse)
    ensures r == FlexibleDate(text, formats, parse)
  {
    if text.None? || text.value == [] {
      return None;
    }
    var s := Strip(text.value);
    for i := 0 to |formats|
      invariant FirstParse(formats, s, parse) == FirstParse(formats[i..], s, parse)
    {
      assert formats[i..][1..] == formats[i + 1..];
      var d := parse(formats[i], s);
      if d.Some? {
        return d;
      }
    }
    return None;
  }
}
