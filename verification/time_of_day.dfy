/**
 * The `Time` value of the library: a time of day (hours, minutes, seconds)
 * that every operation keeps inside 00:00:00 .. 23:59:59. The source mutates
 * the receiver and returns it; here every mutator returns a new value.
 */
module TimeOfDay {
  import opened Wrappers
  import opened IntMath

  /** The last representable absolute second, 23:59:59. */
  const LastSecond: int := 86399

  datatype Time = Time(hours: int, minutes: int, seconds: int) {
    predicate Valid() {
      0 <= hours <= 23 && 0 <= minutes <= 59 && 0 <= seconds <= 59
    }
  }

  /** The class invariant: every `Time` the library hands out is in range. */
  type ValidTime = t: Time | t.Valid() witness Time(0, 0, 0)

  const StartOfDay: ValidTime := Time(0, 0, 0)
  const EndOfDay: ValidTime := Time(23, 59, 59)

  // ---------------------------------------------------------------------------
  // Absolute seconds
  // ---------------------------------------------------------------------------

  /** `getSecondsAbsolute`: the number of seconds since midnight. */
  function SecondsAbsolute(t: ValidTime): (r: int)
    ensures 0 <= r <= LastSecond
  {
    t.hours * 3600 + t.minutes * 60 + t.seconds
  }

  /** The clock fields are the digits of the absolute seconds in base 60. */
  lemma SecondsAbsoluteFields(t: ValidTime)
    ensures SecondsAbsolute(t) % 60 == t.seconds
    ensures (SecondsAbsolute(t) / 60) % 60 == t.minutes
    ensures SecondsAbsolute(t) / 3600 == t.hours
  {
    SecondsAbsoluteParts(t.hours, t.minutes, t.seconds);
  }

  lemma SecondsAbsoluteParts(h: nat, m: nat, s: nat)
    requires m < 60 && s < 60
    ensures (h * 3600 + m * 60 + s) % 60 == s
    ensures ((h * 3600 + m * 60 + s) / 60) % 60 == m
    ensures (h * 3600 + m * 60 + s) / 3600 == h
  {
    var r := h * 3600 + m * 60 + s;
    DivModOf(r, 60, h * 60 + m, s);
    DivModOf(h * 60 + m, 60, h, m);
    DivModOf(r, 3600, h, m * 60 + s);
  }

  /** Two valid times with the same absolute seconds are the same time. */
  lemma SecondsAbsoluteInjective(a: ValidTime, b: ValidTime)
    requires SecondsAbsolute(a) == SecondsAbsolute(b)
    ensures a == b
  {
    SecondsAbsoluteFields(a);
    SecondsAbsoluteFields(b);
  }

  /**
   * The staged decomposition of `setSecondsAbsolute` for an in-range value:
   * below one minute only seconds are set; below one hour minutes are the
   * exact quotient of what is left; otherwise minutes come from the remainder
   * modulo 3600 and hours from what is left after removing them.
   */
  function Decompose(v: int): (t: ValidTime)
    requires 0 <= v <= LastSecond
    ensures t.seconds == v % 60
    ensures t.minutes == (v / 60) % 60
    ensures t.hours == v / 3600
    ensures SecondsAbsolute(t) == v
  {
    if v < 60 then
      SecondsAbsoluteParts(0, 0, v);
      Time(0, 0, v)
    else
      var s := Rem(v, 60);
      var rest := v - s;
      DivNonNegative(v, 60);
      DivNonNegative(rest, 60);
      DecomposeArithmetic(v);
      if rest < 3600 then
        SecondsAbsoluteParts(0, Quot(rest, 60), s);
        Time(0, Quot(rest, 60), s)
      else
        var m := Quot(Rem(rest, 3600), 60);
        var hoursPart := rest - m * 60;
        DivNonNegative(rest, 3600);
        DivNonNegative(Rem(rest, 3600), 60);
        DivNonNegative(hoursPart, 3600);
        SecondsAbsoluteParts(Quot(hoursPart, 3600), m, s);
        Time(Quot(hoursPart, 3600), m, s)
  }

  /**
   * The staged decomposition undoes the absolute seconds: the minutes taken
   * from the remainder modulo 3600 leave an exact multiple of an hour.
   */
  lemma DecomposeArithmetic(v: int)
    requires 60 <= v <= LastSecond
    ensures var rest := v - v % 60;
            rest / 60 * 60 == rest
            && (rest < 3600 ==> rest / 60 < 60 && rest / 60 * 60 + v % 60 == v)
            && (rest >= 3600 ==>
                  var m := (rest % 3600) / 60;
                  var hoursPart := rest - m * 60;
                  m < 60 && hoursPart >= 0 && hoursPart / 3600 <= 23
                  && hoursPart / 3600 * 3600 + m * 60 + v % 60 == v)
  {
    var q := v / 60;
    var rest := v - v % 60;
    assert rest == 60 * q;
    ExactQuotient(q, 60);
    assert rest / 60 * 60 == rest;
    if rest >= 3600 {
      var a := rest / 3600;
      var m0 := q - 60 * a;
      assert rest % 3600 == 60 * m0;
      ExactQuotient(m0, 60);
      assert (rest % 3600) / 60 == m0;
      assert rest - m0 * 60 == 3600 * a;
      ExactQuotient(a, 3600);
    }
  }

  /**
   * `setSecondsAbsolute`: fails with an argument error outside [0, 86399]
   * (the receiver is then left as it was); otherwise yields the time whose
   * absolute seconds are `v`.
   */
  function SetSecondsAbsolute(v: int): (r: Result<ValidTime, ArgumentError<int>>)
    ensures r.Success? <==> 0 <= v <= LastSecond
    ensures r.Success? ==> SecondsAbsolute(r.value) == v
    ensures r.Failure? ==> r.error.argument == "secondsAbsolute" && r.error.value == v
  {
    if v < 0 then
      Failure(ArgumentError("secondsAbsolute", v, "An absolute-seconds time value can not be lower that 0!"))
    else if v > LastSecond then
      Failure(ArgumentError("secondsAbsolute", v, "An absolute-seconds time value can not be higher than 86399! (23:59:59)"))
    else
      Success(Decompose(v))
  }

  /** Setting the absolute seconds of any time gives back exactly that time. */
  lemma SetSecondsAbsoluteRoundTrip(t: ValidTime)
    ensures SetSecondsAbsolute(SecondsAbsolute(t)) == Success(t)
  {
    var r := SetSecondsAbsolute(SecondsAbsolute(t));
    SecondsAbsoluteInjective(r.value, t);
  }

  // ---------------------------------------------------------------------------
  // Construction and component setters (clamp, never fail)
  // ---------------------------------------------------------------------------

  /**
   * `Time::CurrentHour` reads `date('h')`, the hour on a 12-hour clock; the
   * wall clock is passed in explicitly.
   */
  function CurrentHour(wall: ValidTime): (h: int)
    ensures 1 <= h <= 12
    ensures h % 12 == wall.hours % 12
  {
    Hour12(wall)
  }

  /** The constructor: absent arguments come from the wall clock, all are clamped. */
  function Create(hour: Option<int>, minute: Option<int>, second: Option<int>, wall: ValidTime): (t: ValidTime)
    ensures t.hours == Clamp(if hour.Some? then hour.value else CurrentHour(wall), 0, 23)
    ensures t.minutes == (if minute.Some? then Clamp(minute.value, 0, 59) else wall.minutes)
    ensures t.seconds == (if second.Some? then Clamp(second.value, 0, 59) else wall.seconds)
  {
    var h := if hour.None? then CurrentHour(wall) else hour.value;
    var m := if minute.None? then wall.minutes else minute.value;
    var s := if second.None? then wall.seconds else second.value;
    Time(Clamp(h, 0, 23), Clamp(m, 0, 59), Clamp(s, 0, 59))
  }

  /** An absent hour is read from a 12-hour clock, so it is never after noon. */
  lemma CreateWithoutHourUsesTwelveHourClock(wall: ValidTime, minute: Option<int>, second: Option<int>)
    ensures 1 <= Create(None, minute, second, wall).hours <= 12
    ensures wall.hours > 12 ==> Create(None, minute, second, wall).hours == wall.hours - 12
  {
  }

  /** `setHour`: changes the hour only; a given value is clamped into [0, 23]. */
  function SetHour(t: ValidTime, value: Option<int>, wall: ValidTime): (r: ValidTime)
    ensures r.minutes == t.minutes && r.seconds == t.seconds
    ensures value.None? ==> r.hours == CurrentHour(wall)
    ensures value.Some? && 0 <= value.value <= 23 ==> r.hours == value.value
    ensures value.Some? && value.value < 0 ==> r.hours == 0
    ensures value.Some? && value.value > 23 ==> r.hours == 23
  {
    if value.None? then
      t.(hours := CurrentHour(wall))
    else
      var h := value.value;
      var h := if h < 0 then 0 else h;
      var h := if h > 23 then 23 else h;
      t.(hours := h)
  }

  /** `setMinute`: changes the minute only; a given value is clamped into [0, 59]. */
  function SetMinute(t: ValidTime, value: Option<int>, wall: ValidTime): (r: ValidTime)
    ensures r.hours == t.hours && r.seconds == t.seconds
    ensures value.None? ==> r.minutes == wall.minutes
    ensures value.Some? && 0 <= value.value <= 59 ==> r.minutes == value.value
    ensures value.Some? && value.value < 0 ==> r.minutes == 0
    ensures value.Some? && value.value > 59 ==> r.minutes == 59
  {
    if value.None? then
      t.(minutes := wall.minutes)
    else
      var m := value.value;
      var m := if m < 0 then 0 else m;
      var m := if m > 59 then 59 else m;
      t.(minutes := m)
  }

  /** `setSecond`: changes the second only; a given value is clamped into [0, 59]. */
  function SetSecond(t: ValidTime, value: Option<int>, wall: ValidTime): (r: ValidTime)
    ensures r.hours == t.hours && r.minutes == t.minutes
    ensures value.None? ==> r.seconds == wall.seconds
    ensures value.Some? && 0 <= value.value <= 59 ==> r.seconds == value.value
    ensures value.Some? && value.value < 0 ==> r.seconds == 0
    ensures value.Some? && value.value > 59 ==> r.seconds == 59
  {
    if value.None? then
      t.(seconds := wall.seconds)
    else
      var s := value.value;
      var s := if s < 0 then 0 else s;
      var s := if s > 59 then 59 else s;
      t.(seconds := s)
  }

  // ---------------------------------------------------------------------------
  // Predicates
  // ---------------------------------------------------------------------------

  /** `isStartOfDay`: the time is 00:00:00. */
  predicate IsStartOfDay(t: ValidTime)
    ensures IsStartOfDay(t) <==> SecondsAbsolute(t) == 0
  {
    t.hours == 0 && t.minutes == 0 && t.seconds == 0
  }

  /** `isEndOfDay`: the time is 23:59:59. */
  predicate IsEndOfDay(t: ValidTime)
    ensures IsEndOfDay(t) <==> SecondsAbsolute(t) == LastSecond
  {
    t.hours == 23 && t.minutes == 59 && t.seconds == 59
  }

  /** `isAnteMeridiem`: from 01:00:00 up to 12:59:59. */
  predicate IsAnteMeridiem(t: ValidTime)
    ensures IsAnteMeridiem(t) <==> 3600 <= SecondsAbsolute(t) < 13 * 3600
  {
    t.hours > 0 && t.hours < 13
  }

  /** `isPostMeridiem`: the complement, so the midnight hour counts as PM. */
  predicate IsPostMeridiem(t: ValidTime)
    ensures IsPostMeridiem(t) <==> SecondsAbsolute(t) < 3600 || 13 * 3600 <= SecondsAbsolute(t)
  {
    !IsAnteMeridiem(t)
  }

  /** `get12hHour`: the hour on a 12-hour dial (0 shows as 12, 13 as 1). */
  function Hour12(t: ValidTime): (h: int)
    ensures 1 <= h <= 12
    ensures h % 12 == t.hours % 12
  {
    if IsAnteMeridiem(t) then t.hours
    else if t.hours == 0 then 12
    else if t.hours > 12 then t.hours - 12
    else t.hours
  }

  /** `getMeridiem`: "am"/"AM" exactly for ante-meridiem times, "pm"/"PM" otherwise. */
  function Meridiem(t: ValidTime, lowercase: bool): (r: string)
    ensures |r| == 2
    ensures r[0] == (if IsAnteMeridiem(t) then (if lowercase then 'a' else 'A')
                     else (if lowercase then 'p' else 'P'))
    ensures r[1] == (if lowercase then 'm' else 'M')
  {
    if t.hours > 0 && t.hours < 13 then
      (if lowercase then "am" else "AM")
    else
      (if lowercase then "pm" else "PM")
  }

  // ---------------------------------------------------------------------------
  // Saturating arithmetic
  // ---------------------------------------------------------------------------

  /**
   * `addSeconds`: moves the time by `delta` seconds but stops at 00:00:00 and
   * 23:59:59 instead of wrapping into another day.
   */
  function AddSeconds(t: ValidTime, delta: int): (r: ValidTime)
    ensures SecondsAbsolute(r) == Clamp(SecondsAbsolute(t) + delta, 0, LastSecond)
    ensures delta >= 0 ==> SecondsAbsolute(t) <= SecondsAbsolute(r)
    ensures delta <= 0 ==> SecondsAbsolute(r) <= SecondsAbsolute(t)
  {
    if delta == 0 || (delta > 0 && IsEndOfDay(t)) || (delta < 0 && IsStartOfDay(t)) then
      t
    else
      var now := SecondsAbsolute(t);
      var v := Saturate(now + delta);
      assert delta >= 0 ==> now <= v;
      assert delta <= 0 ==> v <= now;
      // setSecondsAbsolute cannot fail: the saturated value is inside [0, 86399]
      Decompose(v)
  }

  /** The two guards of `addSeconds`: first the upper bound, then the lower one. */
  function Saturate(v: int): (r: int)
    ensures r == Clamp(v, 0, LastSecond)
  {
    var v := if v > LastSecond then LastSecond else v;
    if v < 0 then 0 else v
  }

  /**
   * The `TypeError` PHP raises, under `strict_types`, when `addSeconds` is
   * handed a float for its `int` parameter `seconds`: the product computed by
   * `addMinutes` or `addHours` left the 64-bit range and became a float.
   */
  datatype TypeError = TypeError(parameter: string)

  /** `addMinutes`: `addSeconds` by sixty times the count, if that product is still an int. */
  function AddMinutes(t: ValidTime, minutes: PhpInt): (r: Result<ValidTime, TypeError>)
    ensures r.Success? <==> MinInt <= 60 * minutes <= MaxInt
    ensures r.Success? ==> SecondsAbsolute(r.value) == Clamp(SecondsAbsolute(t) + 60 * minutes, 0, LastSecond)
    ensures r.Failure? ==> r.error == TypeError("seconds")
  {
    match MulInt(minutes, 60)
    case Some(seconds) => Success(AddSeconds(t, seconds))
    case None => Failure(TypeError("seconds"))
  }

  /** `addHours`: `addSeconds` by 3600 times the count, if that product is still an int. */
  function AddHours(t: ValidTime, hours: PhpInt): (r: Result<ValidTime, TypeError>)
    ensures r.Success? <==> MinInt <= 3600 * hours <= MaxInt
    ensures r.Success? ==> SecondsAbsolute(r.value) == Clamp(SecondsAbsolute(t) + 3600 * hours, 0, LastSecond)
    ensures r.Failure? ==> r.error == TypeError("seconds")
  {
    match MulInt(hours, 3600)
    case Some(seconds) => Success(AddSeconds(t, seconds))
    case None => Failure(TypeError("seconds"))
  }

  /**
   * The counts `addMinutes` and `addHours` accept without a `TypeError`:
   * |minutes| up to 153722867280912930 and |hours| up to 2562047788015215,
   * whatever the time.
   */
  lemma AddCountsInRange(t: ValidTime, minutes: PhpInt, hours: PhpInt)
    ensures AddMinutes(t, minutes).Success? <==> -153722867280912930 <= minutes <= 153722867280912930
    ensures AddHours(t, hours).Success? <==> -2562047788015215 <= hours <= 2562047788015215
  {
  }

  /** 12:00:00 moved by `PHP_INT_MAX` minutes raises the `TypeError` instead of reaching 23:59:59. */
  lemma AddMinutesOverflow()
    ensures AddMinutes(Time(12, 0, 0), MaxInt) == Failure(TypeError("seconds"))
    ensures AddMinutes(Time(12, 0, 0), 153722867280912930) == Success(EndOfDay)
  {
    var r := AddMinutes(Time(12, 0, 0), 153722867280912930);
    SecondsAbsoluteInjective(r.value, EndOfDay);
  }

  /** Saturation: nothing moves past the ends of the day. */
  lemma AddSecondsSaturates(delta: int)
    ensures delta > 0 ==> AddSeconds(EndOfDay, delta) == EndOfDay
    ensures delta < 0 ==> AddSeconds(StartOfDay, delta) == StartOfDay
    ensures delta >= LastSecond ==> forall t: ValidTime :: AddSeconds(t, delta) == EndOfDay
    ensures delta <= -LastSecond ==> forall t: ValidTime :: AddSeconds(t, delta) == StartOfDay
  {
    forall t: ValidTime
      ensures delta >= LastSecond ==> AddSeconds(t, delta) == EndOfDay
      ensures delta <= -LastSecond ==> AddSeconds(t, delta) == StartOfDay
    {
      if delta >= LastSecond {
        SecondsAbsoluteInjective(AddSeconds(t, delta), EndOfDay);
      }
      if delta <= -LastSecond {
        SecondsAbsoluteInjective(AddSeconds(t, delta), StartOfDay);
      }
    }
  }

  /** Without reaching a boundary, adding seconds is exact and invertible. */
  lemma AddSecondsInverse(t: ValidTime, delta: int)
    requires 0 <= SecondsAbsolute(t) + delta <= LastSecond
    ensures AddSeconds(AddSeconds(t, delta), -delta) == t
  {
    SecondsAbsoluteInjective(AddSeconds(AddSeconds(t, delta), -delta), t);
  }

  // ---------------------------------------------------------------------------
  // Comparison
  // ---------------------------------------------------------------------------

  /**
   * `compare` against another `Time`: `other <=> this`, i.e. 1 when the
   * other time is later. The doc-comment of the source promises the opposite sign.
   */
  function Compare(t: ValidTime, other: ValidTime): (r: int)
    ensures r == 1 <==> SecondsAbsolute(t) < SecondsAbsolute(other)
    ensures r == 0 <==> t == other
    ensures r == -1 <==> SecondsAbsolute(other) < SecondsAbsolute(t)
  {
    var val := SecondsAbsolute(other);
    var thi := SecondsAbsolute(t);
    if val == thi then
      SecondsAbsoluteInjective(t, other);
      0
    else if val < thi then -1
    else 1
  }

  /** Swapping the operands of `compare` negates its result. */
  lemma CompareAntisymmetric(a: ValidTime, b: ValidTime)
    ensures Compare(a, b) == -Compare(b, a)
  {
  }

  /** `equals` against another `Time`: equal absolute seconds, i.e. the same time. */
  predicate Equals(t: ValidTime, other: ValidTime)
    ensures Equals(t, other) <==> t == other
    ensures Equals(t, other) <==> Compare(t, other) == 0
  {
    if SecondsAbsolute(other) == SecondsAbsolute(t) then
      SecondsAbsoluteInjective(t, other);
      true
    else
      false
  }

  /** The test vectors: morning before lunch compares as 1, against the doc-comment's -1. */
  lemma CompareMorningLunch()
    ensures Compare(Time(5, 19, 52), Time(11, 54, 33)) == 1
    ensures Compare(Time(11, 54, 33), Time(5, 19, 52)) == -1
    ensures Compare(Time(5, 19, 52), Time(5, 19, 52)) == 0
  {
  }

  // ---------------------------------------------------------------------------
  // Array form and (de)serialisation
  // ---------------------------------------------------------------------------

  /** `toArray` / `__serialize`: the three fields under their plural names. */
  function ToArray(t: ValidTime): (a: map<string, int>)
    ensures a.Keys == {"hours", "minutes", "seconds"}
    ensures a["hours"] == t.hours && a["minutes"] == t.minutes && a["seconds"] == t.seconds
  {
    map["hours" := t.hours, "minutes" := t.minutes, "seconds" := t.seconds]
  }

  /** PHP's `empty($a[$k])` for integer entries: the key is missing or holds 0. */
  predicate IsEmpty(a: map<string, int>, key: string) {
    key !in a || a[key] == 0
  }

  /** `intval($a[$k])`: a missing key reads as null, whose integer value is 0. */
  function IntVal(a: map<string, int>, key: string): int {
    if key in a then a[key] else 0
  }

  /**
   * One field of `FromArray`: the plural key when it is non-empty, otherwise
   * the singular key, but only under the inverted test `empty(...)`, so the
   * singular key can only contribute the value 0.
   */
  function ArrayField(a: map<string, int>, plural: string, singular: string): (v: int)
    ensures v == (if plural in a then a[plural] else 0)
  {
    if !IsEmpty(a, plural) then IntVal(a, plural)
    else if IsEmpty(a, singular) then IntVal(a, singular)
    else 0
  }

  /** The three outcomes of `FromArray`: a time, `false`, or a thrown argument error. */
  datatype ArrayOutcome =
    | Built(time: ValidTime)
    | NotBuilt
    | Raised(error: ArgumentError<map<string, int>>)

  /**
   * `FromArray`: reads and clamps the three fields; an all-zero result is
   * rejected, by `false` or, with `throwOnError`, by an argument error.
   */
  function FromArray(a: map<string, int>, throwOnError: bool): (r: ArrayOutcome)
    ensures r.Built? <==> IntVal(a, "hours") > 0 || IntVal(a, "minutes") > 0 || IntVal(a, "seconds") > 0
    ensures r.NotBuilt? ==> !throwOnError
    ensures r.Raised? ==> throwOnError && r.error.value == a
    ensures r.Built? ==> r.time.hours == Clamp(IntVal(a, "hours"), 0, 23)
    ensures r.Built? ==> r.time.minutes == Clamp(IntVal(a, "minutes"), 0, 59)
    ensures r.Built? ==> r.time.seconds == Clamp(IntVal(a, "seconds"), 0, 59)
  {
    var hours := ArrayField(a, "hours", "hour");
    var minutes := ArrayField(a, "minutes", "minute");
    var seconds := ArrayField(a, "seconds", "second");
    var hours := Clamp(hours, 0, 23);
    var minutes := Clamp(minutes, 0, 59);
    var seconds := Clamp(seconds, 0, 59);
    if hours + minutes + seconds == 0 then
      if !throwOnError then NotBuilt
      else Raised(ArgumentError("array", a, "Invalid array format for time data!"))
    else
      Built(Time(hours, minutes, seconds))
  }

  /** The singular keys 'hour', 'minute' and 'second' never influence `FromArray`. */
  lemma FromArrayIgnoresSingularKeys(a: map<string, int>)
    ensures FromArray(a, false) == FromArray(a - {"hour", "minute", "second"}, false)
    ensures FromArray(a, true).Raised? == FromArray(a - {"hour", "minute", "second"}, true).Raised?
  {
    var b := a - {"hour", "minute", "second"};
    assert ("hours" in b <==> "hours" in a) && ("hours" in a ==> b["hours"] == a["hours"]);
    assert ("minutes" in b <==> "minutes" in a) && ("minutes" in a ==> b["minutes"] == a["minutes"]);
    assert ("seconds" in b <==> "seconds" in a) && ("seconds" in a ==> b["seconds"] == a["seconds"]);
  }

  /** `FromArray` inverts `toArray` except at midnight, which it rejects. */
  lemma FromArrayOfToArray(t: ValidTime, throwOnError: bool)
    ensures !IsStartOfDay(t) ==> FromArray(ToArray(t), throwOnError) == Built(t)
    ensures IsStartOfDay(t) ==> !FromArray(ToArray(t), throwOnError).Built?
  {
  }

  /** `__unserialize`: a rejected array (or any error) yields 00:00:00. */
  function Unserialize(data: map<string, int>): (t: ValidTime)
    ensures FromArray(data, false).Built? ==> t == FromArray(data, false).time
    ensures !FromArray(data, false).Built? ==> IsStartOfDay(t)
  {
    match FromArray(data, false)
    case Built(instance) => Time(instance.hours, instance.minutes, instance.seconds)
    case _ => StartOfDay
  }

  /** `__unserialize(__serialize())` restores every time, midnight included. */
  lemma SerializeRoundTrip(t: ValidTime)
    ensures Unserialize(ToArray(t)) == t
  {
    FromArrayOfToArray(t, false);
  }
}
