/**
 * `DateTime::Parse` and `DateTime::TryParse`: the cascade that turns a value
 * of any kind into the library's date-time, falling back on the month-name
 * rewrite and the clean-up when the host parser rejects a string.
 *
 * The host's own date parser and clock are not part of this model: they are
 * the functions of a `Host` record, and a host constructor that throws is a
 * `None` result.
 */
module DateParse {
  import opened Wrappers
  import MonthMatching
  import MonthNames
  import opened Sanitise

  /** The kinds of value `Parse` tells apart, in the order it tests them. */
  datatype Value<D, Z> =
    | Null
      /** Already one of the library's date-times. */
    | Own(date: D)
      /** Another host date-time, given by its text in the format 'y-m-d H:i:s' and its zone. */
    | HostDateTime(text: string, zone: Z)
    | ArrayOrObject
      /** An integer or an integer-like string: a Unix timestamp. */
    | IntegerLike(timestamp: int)
    | Str(s: string)
      /** Any other value, with the string it converts to, if it has one. */
    | Other(asString: Option<string>)

  /**
   * The host: `construct` builds a date-time from a text and an optional
   * zone, or throws (`None`); `timestampText` renders a timestamp, in the
   * zone if one is given, as 'y-m-d H:i:s' together with the zone used.
   */
  datatype Host<D, !Z> = Host(
    construct: (string, Option<Z>) -> Option<D>,
    timestampText: (int, Option<Z>) -> (string, Z))

  datatype Outcome<D> = Parsed(date: D) | NotParsed | Thrown

  /**
   * What the parser retries after the host rejected `s`: only digits, '.',
   * ':', '+', '/' and '-' with single spaces between them, keeping every one
   * of those characters of the rewritten input, in order.
   */
  function Fallback(s: string): (r: string)
    ensures CleanText(r)
    ensures Kept(r) == Kept(MonthNames.RewriteMonthNames(s))
  {
    CleanTrimmedShape(MonthNames.RewriteMonthNames(s));
    Trim(Clean(MonthNames.RewriteMonthNames(s)))
  }

  /** Builds from a host text; a throw here is not caught by `Parse`. */
  function Rebuild<D, Z>(host: Host<D, Z>, text: string, zone: Z): (r: Outcome<D>)
    ensures r.Parsed? <==> host.construct(text, Some(zone)).Some?
    ensures r.Parsed? ==> r.date == host.construct(text, Some(zone)).value
    ensures !r.NotParsed?
  {
    match host.construct(text, Some(zone))
    case Some(d) => Parsed(d)
    case None => Thrown
  }

  /**
   * The string branch: the text as it is, then the cleaned-up fallback,
   * unless the clean-up leaves nothing. Every throw is caught.
   */
  function ParseString<D, Z>(host: Host<D, Z>, s: string, zone: Option<Z>): (r: Outcome<D>)
    ensures !r.Thrown?
    ensures host.construct(s, zone).Some? ==> r == Parsed(host.construct(s, zone).value)
    ensures r.Parsed? && host.construct(s, zone).None? ==>
              Fallback(s) != "" && host.construct(Fallback(s), zone) == Some(r.date)
    ensures r.NotParsed? <==>
              host.construct(s, zone).None? && (Fallback(s) == "" || host.construct(Fallback(s), zone).None?)
  {
    match host.construct(s, zone)
    case Some(d) => Parsed(d)
    case None =>
      var t := Fallback(s);
      if t == "" then NotParsed
      else
        match host.construct(t, zone)
        case Some(d) => Parsed(d)
        case None => NotParsed
  }

  function Parse<D, Z>(host: Host<D, Z>, v: Value<D, Z>, zone: Option<Z>): (r: Outcome<D>)
    ensures v.Null? || v.ArrayOrObject? || v == Other(None) ==> r == NotParsed
    ensures v.Own? ==> r == Parsed(v.date)
    ensures r.Thrown? ==> v.HostDateTime? || v.IntegerLike?
    ensures v.HostDateTime? ==> r == Rebuild(host, v.text, v.zone)
    ensures v.IntegerLike? ==>
              r == Rebuild(host, host.timestampText(v.timestamp, zone).0, host.timestampText(v.timestamp, zone).1)
    ensures v.Str? ==> r == ParseString(host, v.s, zone)
    ensures v.Other? && v.asString.Some? ==> r == ParseString(host, v.asString.value, zone)
  {
    match v
    case Null => NotParsed
    case Own(d) => Parsed(d)
    case HostDateTime(text, z) => Rebuild(host, text, z)
    case ArrayOrObject => NotParsed
    case IntegerLike(ts) =>
      var (text, z) := host.timestampText(ts, zone);
      Rebuild(host, text, z)
    case Str(s) => ParseString(host, s, zone)
    case Other(o) =>
      match o
      case None => NotParsed
      case Some(s) => ParseString(host, s, zone)
  }

  /** `TryParse`: whether `Parse` gave a date-time, and the date-time if so; every throw is caught. */
  function TryParse<D, Z>(host: Host<D, Z>, v: Value<D, Z>, zone: Option<Z>): (r: (bool, Option<D>))
    ensures r.0 <==> Parse(host, v, zone).Parsed?
    ensures r.0 ==> r.1 == Some(Parse(host, v, zone).date)
    ensures !r.0 ==> r.1 == None
  {
    match Parse(host, v, zone)
    case Parsed(d) => (true, Some(d))
    case _ => (false, None)
  }

  /** A value `Parse` returned, given back to it, comes back unchanged. */
  lemma ParseOwnIsIdentity<D, Z>(host: Host<D, Z>, v: Value<D, Z>, zone: Option<Z>)
    requires Parse(host, v, zone).Parsed?
    ensures Parse(host, Own(Parse(host, v, zone).date), zone) == Parse(host, v, zone)
  {
  }

  /** A value that converts to a string parses exactly as that string does. */
  lemma OtherParsesAsString<D, Z>(host: Host<D, Z>, s: string, zone: Option<Z>)
    ensures Parse(host, Other(Some(s)), zone) == Parse(host, Str(s), zone)
  {
  }

  /** The fallback is empty exactly when the cleaned-up text is all trimmable white space. */
  lemma FallbackEmptyIff(s: string)
    ensures Fallback(s) == "" <==>
              forall i :: 0 <= i < |Clean(MonthNames.RewriteMonthNames(s))| ==>
                IsTrimmed(Clean(MonthNames.RewriteMonthNames(s))[i])
  {
    TrimEmptyIff(Clean(MonthNames.RewriteMonthNames(s)));
  }

  /** Clean text holds no month name and nothing to clean, so it is its own fallback. */
  lemma FallbackOfCleanText(s: string)
    requires CleanText(s)
    ensures Fallback(s) == s
  {
    assert MonthMatching.AllPlain(s);
    MonthNames.TablesWellFormed();
    MonthNames.PlainHoldsNoMonthName(s, MonthNames.LongGroups, 0);
    MonthNames.PlainHoldsNoMonthName(s, MonthNames.ShortGroups, 0);
    MonthNames.RewriteWithoutMonthName(s);
    CleanTextFixed(s);
  }

  /** Retrying the fallback would try the very same text again. */
  lemma FallbackIdempotent(s: string)
    ensures Fallback(Fallback(s)) == Fallback(s)
  {
    FallbackOfCleanText(Fallback(s));
  }

  /** The month-name rewrite turns "Januar" into "1.", which needs no clean-up. */
  lemma FallbackJanuar()
    ensures Fallback("Januar") == "1."
  {
    MonthNames.RewriteJanuarExample();
    var c := "1.";
    assert CleanText(c);
    CleanTextFixed(c);
  }

  /**
   * "Januar" is no date the host knows: the parser retries with "1.", and
   * whatever the host makes of that is the result.
   */
  lemma ParseJanuar<D, Z>(host: Host<D, Z>, s: string, zone: Option<Z>)
    requires s == "Januar" && host.construct(s, zone).None?
    ensures Parse(host, Str(s), zone) ==
              (match host.construct("1.", zone)
               case Some(d) => Parsed(d)
               case None => NotParsed)
  {
    FallbackJanuar();
  }
}
