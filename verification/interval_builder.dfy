/**
 * `DateIntervalBuilder`: six signed counters set one by one or in groups,
 * turned into an ISO 8601 duration text such as "P2Y6M12DT8H27M14S" from
 * which the host builds its interval.
 *
 * The host's interval parser is modelled by `Decode`, which reads the
 * designator forms the builder writes: 'P', then the date units Y, M, D in
 * this order, then 'T' and the time units H, M, S in this order, each unit
 * a run of at most twelve digits and its letter, and at least one unit
 * after 'P' and after 'T'. The twelve-digit cap is the one of PHP's timelib
 * (`timelib_get_unsigned_nr` with a maximum length of 12), which is not part
 * of this model: after twelve digits the parser meets a digit where it expects
 * a unit letter and fails.
 */
module IntervalBuilder {
  import opened Wrappers
  import opened IntMath
  import opened Decimal

  datatype Builder = Builder(
    years: PhpInt, months: PhpInt, days: PhpInt,
    hours: PhpInt, minutes: PhpInt, seconds: PhpInt)

  /** The host interval: six magnitudes and the sign flag. */
  datatype Interval = Interval(y: nat, m: nat, d: nat, h: nat, i: nat, s: nat, invert: nat)

  function Init(): (b: Builder)
    ensures b.years == b.months == b.days == 0
    ensures b.hours == b.minutes == b.seconds == 0
  {
    Builder(0, 0, 0, 0, 0, 0)
  }

  function SetYears(b: Builder, v: PhpInt): (r: Builder)
    ensures r.years == v
    ensures r.months == b.months && r.days == b.days
    ensures r.hours == b.hours && r.minutes == b.minutes && r.seconds == b.seconds
  {
    b.(years := v)
  }

  function SetMonths(b: Builder, v: PhpInt): (r: Builder)
    ensures r.months == v
    ensures r.years == b.years && r.days == b.days
    ensures r.hours == b.hours && r.minutes == b.minutes && r.seconds == b.seconds
  {
    b.(months := v)
  }

  function SetDays(b: Builder, v: PhpInt): (r: Builder)
    ensures r.days == v
    ensures r.years == b.years && r.months == b.months
    ensures r.hours == b.hours && r.minutes == b.minutes && r.seconds == b.seconds
  {
    b.(days := v)
  }

  function SetHours(b: Builder, v: PhpInt): (r: Builder)
    ensures r.hours == v
    ensures r.years == b.years && r.months == b.months && r.days == b.days
    ensures r.minutes == b.minutes && r.seconds == b.seconds
  {
    b.(hours := v)
  }

  function SetMinutes(b: Builder, v: PhpInt): (r: Builder)
    ensures r.minutes == v
    ensures r.years == b.years && r.months == b.months && r.days == b.days
    ensures r.hours == b.hours && r.seconds == b.seconds
  {
    b.(minutes := v)
  }

  function SetSeconds(b: Builder, v: PhpInt): (r: Builder)
    ensures r.seconds == v
    ensures r.years == b.years && r.months == b.months && r.days == b.days
    ensures r.hours == b.hours && r.minutes == b.minutes
  {
    b.(seconds := v)
  }

  /** All three date counters at once: the same as the three single setters in a row. */
  function SetDateParts(b: Builder, years: PhpInt, months: PhpInt, days: PhpInt): (r: Builder)
    ensures r == SetDays(SetMonths(SetYears(b, years), months), days)
  {
    Builder(years, months, days, b.hours, b.minutes, b.seconds)
  }

  /** All three time counters at once: the same as the three single setters in a row. */
  function SetTimeParts(b: Builder, hours: PhpInt, minutes: PhpInt, seconds: PhpInt): (r: Builder)
    ensures r == SetSeconds(SetMinutes(SetHours(b, hours), minutes), seconds)
  {
    Builder(b.years, b.months, b.days, hours, minutes, seconds)
  }

  /** The six counters, in the order they are written. */
  datatype Counter = Years | Months | Days | Hours | Minutes | Seconds

  function Get(b: Builder, c: Counter): PhpInt {
    match c
    case Years => b.years
    case Months => b.months
    case Days => b.days
    case Hours => b.hours
    case Minutes => b.minutes
    case Seconds => b.seconds
  }

  /** The setter of counter `c`: it sets that counter and no other. */
  function Set(b: Builder, c: Counter, v: PhpInt): (r: Builder)
    ensures Get(r, c) == v
    ensures forall d :: d != c ==> Get(r, d) == Get(b, d)
  {
    match c
    case Years => SetYears(b, v)
    case Months => SetMonths(b, v)
    case Days => SetDays(b, v)
    case Hours => SetHours(b, v)
    case Minutes => SetMinutes(b, v)
    case Seconds => SetSeconds(b, v)
  }

  /** A builder is determined by its six counters. */
  lemma CountersDetermine(a: Builder, b: Builder)
    requires forall c :: Get(a, c) == Get(b, c)
    ensures a == b
  {
    assert Get(a, Years) == Get(b, Years) && Get(a, Months) == Get(b, Months);
    assert Get(a, Days) == Get(b, Days) && Get(a, Hours) == Get(b, Hours);
    assert Get(a, Minutes) == Get(b, Minutes) && Get(a, Seconds) == Get(b, Seconds);
  }

  /** Setters of different counters can be applied in either order. */
  lemma SettersCommute(b: Builder, c1: Counter, v1: PhpInt, c2: Counter, v2: PhpInt)
    requires c1 != c2
    ensures Set(Set(b, c1, v1), c2, v2) == Set(Set(b, c2, v2), c1, v1)
  {
    var l, r := Set(Set(b, c1, v1), c2, v2), Set(Set(b, c2, v2), c1, v1);
    forall c
      ensures Get(l, c) == Get(r, c)
    {
    }
    CountersDetermine(l, r);
  }

  /**
   * `abs($n)` printed as text. The one 64-bit value without a positive
   * counterpart, the smallest, turns into a float, which prints with
   * fourteen significant digits.
   */
  function AbsText(n: PhpInt): (r: string)
    ensures n != MinInt ==> AllDigits(r) && Value(r) == Abs(n)
    ensures n == MinInt ==> |r| > 1 && IsDigit(r[0]) && r[1] == '.'
    ensures Numeral(r)
  {
    if n == MinInt then "9.2233720368548E+18"
    else
      ValueOfDigits(Abs(n));
      Digits(Abs(n))
  }

  /** `text` followed by `unit` when `present`, else nothing. */
  function Unit(present: bool, text: string, unit: char): string {
    if present then text + [unit] else ""
  }

  /** One unit of the duration text: the magnitude and its letter, or nothing for a zero counter. */
  function Part(n: PhpInt, unit: char): string {
    Unit(n != 0, AbsText(n), unit)
  }

  /**
   * The time section as the source builds it, from the three magnitudes'
   * texts: the first unit present carries the 'T', and a flag keeps it from
   * being written twice.
   */
  function TimeSection(hasH: bool, hasM: bool, hasS: bool, h: string, m: string, s: string): string {
    var hp := if hasH then "T" + h + "H" else "";
    var mp := if hasM then (if hasH then "" else "T") + m + "M" else "";
    var sp := if hasS then (if hasH || hasM then "" else "T") + s + "S" else "";
    hp + mp + sp
  }

  function TimePart(hours: PhpInt, minutes: PhpInt, seconds: PhpInt): string {
    TimeSection(hours != 0, minutes != 0, seconds != 0, AbsText(hours), AbsText(minutes), AbsText(seconds))
  }

  /** The duration text built from the six counters. */
  function SpecText(b: Builder): string {
    "P" + Part(b.years, 'Y') + Part(b.months, 'M') + Part(b.days, 'D')
    + TimePart(b.hours, b.minutes, b.seconds)
  }

  /** The time section is empty, or one 'T' followed by the units present. */
  lemma TimeSectionShape(hasH: bool, hasM: bool, hasS: bool, h: string, m: string, s: string)
    ensures TimeSection(hasH, hasM, hasS, h, m, s) ==
              if !hasH && !hasM && !hasS then ""
              else "T" + Unit(hasH, h, 'H') + Unit(hasM, m, 'M') + Unit(hasS, s, 'S')
  {
    var hu, mu, su := Unit(hasH, h, 'H'), Unit(hasM, m, 'M'), Unit(hasS, s, 'S');
    if hasH {
      assert "T" + h + "H" == "T" + hu;
    } else if hasM {
      assert "" + "T" + m + "M" == "T" + hu + mu;
    } else if hasS {
      assert "" + "T" + s + "S" == "T" + hu + mu + su;
    }
  }

  lemma TimePartShape(hours: PhpInt, minutes: PhpInt, seconds: PhpInt)
    ensures TimePart(hours, minutes, seconds) ==
              if hours == 0 && minutes == 0 && seconds == 0 then ""
              else "T" + Part(hours, 'H') + Part(minutes, 'M') + Part(seconds, 'S')
  {
    TimeSectionShape(hours != 0, minutes != 0, seconds != 0, AbsText(hours), AbsText(minutes), AbsText(seconds));
  }

  /** The position of a unit letter among Y, M, D (before 'T') or H, M, S (after it). */
  function UnitIndex(c: char, inTime: bool): (r: Option<nat>)
    ensures r.Some? ==> (if inTime then 3 <= r.value < 6 else r.value < 3)
    ensures r.Some? ==> c != 'T' && !IsDigit(c)
  {
    if !inTime && c == 'Y' then Some(0)
    else if !inTime && c == 'M' then Some(1)
    else if !inTime && c == 'D' then Some(2)
    else if inTime && c == 'H' then Some(3)
    else if inTime && c == 'M' then Some(4)
    else if inTime && c == 'S' then Some(5)
    else None
  }

  /** The length of the run of digits `s` begins with. */
  function DigitRun(s: string): (n: nat)
    ensures n <= |s|
    ensures forall i :: 0 <= i < n ==> IsDigit(s[i])
    ensures n < |s| ==> !IsDigit(s[n])
    decreases |s|
  {
    if |s| == 0 || !IsDigit(s[0]) then 0 else 1 + DigitRun(s[1..])
  }

  const NoUnits: seq<nat> := [0, 0, 0, 0, 0, 0]

  /** The host reads at most this many digits of one number. */
  const MaxNumberDigits: nat := 12

  /** The smallest magnitude whose numeral is longer than the host reads: 10^12. */
  const NumberLimit: nat := 1_000_000_000_000

  /**
   * Reads the units of a duration text after 'P': `k` is the first unit
   * still allowed, so every unit comes after the ones before it, and no
   * number may be longer than `MaxNumberDigits`.
   */
  function DecodeUnits(s: string, k: nat, inTime: bool): (r: Option<seq<nat>>)
    ensures r.Some? ==> |r.value| == 6
    decreases |s|
  {
    if |s| == 0 then Some(NoUnits)
    else if s[0] == 'T' then
      if inTime || |s| == 1 then None else DecodeUnits(s[1..], 3, true)
    else
      var n := DigitRun(s);
      if n == 0 || n == |s| || n > MaxNumberDigits then None
      else
        match UnitIndex(s[n], inTime)
        case None => None
        case Some(j) =>
          if j < k then None
          else
            match DecodeUnits(s[n + 1..], j + 1, inTime)
            case None => None
            case Some(v) => Some(v[j := Value(s[..n])])
  }

  /** The host's reading of a duration text: years, months, days, hours, minutes, seconds. */
  function Decode(s: string): (r: Option<seq<nat>>)
    ensures r.Some? ==> |r.value| == 6 && |s| > 1 && s[0] == 'P'
  {
    if |s| < 2 || s[0] != 'P' then None else DecodeUnits(s[1..], 0, false)
  }

  /** What the builder writes for a magnitude: a numeral, or the float text of the one value without a magnitude. */
  predicate Numeral(t: string) {
    |t| > 0 && IsDigit(t[0]) && (AllDigits(t) || (|t| > 1 && t[1] == '.'))
  }

  /** The result of reading the rest, with `x` in slot `j`. */
  function Place(o: Option<seq<nat>>, j: nat, x: nat): Option<seq<nat>> {
    match o
    case None => None
    case Some(v) => if j < |v| then Some(v[j := x]) else None
  }

  /**
   * What reading a unit with text `t` in slot `j` makes of the reading `o`
   * of the rest: nothing changes for an absent unit, a numeral of at most
   * twelve digits fills its slot, anything else makes the text unreadable.
   */
  function TextExpect(present: bool, t: string, j: nat, o: Option<seq<nat>>): Option<seq<nat>> {
    if !present then o else if !AllDigits(t) || |t| > MaxNumberDigits then None else Place(o, j, Value(t))
  }

  lemma {:induction false} DigitRunOfNumeral(t: string, rest: string)
    requires AllDigits(t)
    requires |rest| > 0 && !IsDigit(rest[0])
    ensures DigitRun(t + rest) == |t|
    decreases |t|
  {
    if |t| > 0 {
      assert (t + rest)[1..] == t[1..] + rest;
      DigitRunOfNumeral(t[1..], rest);
    } else {
      assert t + rest == rest;
    }
  }

  /** The reading of a text that begins with a run of `n` digits and a unit letter. */
  lemma DecodeUnitAt(s: string, n: nat, k: nat, inTime: bool, j: nat)
    requires 0 < n < |s| && n <= MaxNumberDigits && DigitRun(s) == n && s[0] != 'T'
    requires UnitIndex(s[n], inTime) == Some(j) && k <= j
    ensures DecodeUnits(s, k, inTime) == Place(DecodeUnits(s[n + 1..], j + 1, inTime), j, Value(s[..n]))
  {
  }

  /** A unit with a plain numeral: its value lands in its slot of the reading of the rest. */
  lemma UnitStepDigits(t: string, c: char, rest: string, k: nat, inTime: bool, j: nat)
    requires 0 < |t| <= MaxNumberDigits && AllDigits(t)
    requires UnitIndex(c, inTime) == Some(j) && k <= j
    ensures DecodeUnits(t + [c] + rest, k, inTime) == Place(DecodeUnits(rest, j + 1, inTime), j, Value(t))
  {
    var s := t + [c] + rest;
    DigitRunOfNumeral(t, [c] + rest);
    assert s == t + ([c] + rest);
    assert s[0] == t[0];
    assert s[|t|] == c;
    assert s[..|t|] == t;
    assert s[|t| + 1..] == rest;
    DecodeUnitAt(s, |t|, k, inTime, j);
  }

  /** A numeral longer than the host reads is unreadable. */
  lemma UnitStepLong(t: string, c: char, rest: string, k: nat, inTime: bool)
    requires AllDigits(t) && |t| > MaxNumberDigits && !IsDigit(c)
    ensures DecodeUnits(t + [c] + rest, k, inTime) == None
  {
    var s := t + [c] + rest;
    DigitRunOfNumeral(t, [c] + rest);
    assert s == t + ([c] + rest);
    assert s[0] == t[0];
  }

  /** A unit written as a float is unreadable. */
  lemma UnitStepFloat(t: string, c: char, rest: string, k: nat, inTime: bool)
    requires |t| > 1 && IsDigit(t[0]) && t[1] == '.'
    ensures DecodeUnits(t + [c] + rest, k, inTime) == None
  {
    var s := t + [c] + rest;
    assert s[0] == t[0] && s[1] == '.';
    assert DigitRun(s[1..]) == 0;
  }

  /** One unit read off the front of the text. */
  lemma UnitStep(present: bool, t: string, c: char, rest: string, k: nat, inTime: bool, j: nat)
    requires UnitIndex(c, inTime) == Some(j) && k <= j
    requires present ==> Numeral(t)
    ensures DecodeUnits(Unit(present, t, c) + rest, k, inTime) ==
              if !present then DecodeUnits(rest, k, inTime)
              else TextExpect(present, t, j, DecodeUnits(rest, j + 1, inTime))
  {
    if !present {
      assert Unit(present, t, c) + rest == rest;
    } else {
      assert Unit(present, t, c) + rest == t + [c] + rest;
      if AllDigits(t) && |t| <= MaxNumberDigits {
        UnitStepDigits(t, c, rest, k, inTime, j);
      } else if AllDigits(t) {
        UnitStepLong(t, c, rest, k, inTime);
      } else {
        UnitStepFloat(t, c, rest, k, inTime);
      }
    }
  }

  /** `rest` reads as `o` whichever unit up to `k0` is the first still allowed. */
  predicate DecodesFrom(rest: string, inTime: bool, k0: nat, o: Option<seq<nat>>) {
    forall k :: 0 <= k <= k0 ==> DecodeUnits(rest, k, inTime) == o
  }

  lemma EmptyDecodes(inTime: bool, k0: nat)
    ensures DecodesFrom("", inTime, k0, Some(NoUnits))
  {
  }

  lemma UnitLayer(present: bool, t: string, c: char, j: nat, inTime: bool, rest: string, o: Option<seq<nat>>)
    requires UnitIndex(c, inTime) == Some(j)
    requires present ==> Numeral(t)
    requires DecodesFrom(rest, inTime, j + 1, o)
    ensures DecodesFrom(Unit(present, t, c) + rest, inTime, j, TextExpect(present, t, j, o))
  {
    forall k | 0 <= k <= j
      ensures DecodeUnits(Unit(present, t, c) + rest, k, inTime) == TextExpect(present, t, j, o)
    {
      UnitStep(present, t, c, rest, k, inTime, j);
    }
  }

  /** Passing the 'T' switches to the time units. */
  lemma TimeMarkLayer(body: string, o: Option<seq<nat>>)
    requires |body| > 0 && DecodesFrom(body, true, 3, o)
    ensures DecodesFrom("T" + body, false, 3, o)
  {
    forall k | 0 <= k <= 3
      ensures DecodeUnits("T" + body, k, false) == o
    {
      assert ("T" + body)[0] == 'T';
      assert ("T" + body)[1..] == body;
    }
  }

  /** The reading of the time units after the 'T'. */
  lemma DecodeTimeUnits(ph: bool, pm: bool, ps: bool, h: string, m: string, s: string)
    requires (ph ==> Numeral(h)) && (pm ==> Numeral(m)) && (ps ==> Numeral(s))
    ensures DecodesFrom(Unit(ph, h, 'H') + Unit(pm, m, 'M') + Unit(ps, s, 'S'), true, 3,
                        TextExpect(ph, h, 3, TextExpect(pm, m, 4, TextExpect(ps, s, 5, Some(NoUnits)))))
  {
    EmptyDecodes(true, 6);
    assert Unit(ps, s, 'S') + "" == Unit(ps, s, 'S');
    UnitLayer(ps, s, 'S', 5, true, "", Some(NoUnits));
    var o5 := TextExpect(ps, s, 5, Some(NoUnits));
    UnitLayer(pm, m, 'M', 4, true, Unit(ps, s, 'S'), o5);
    var ms := Unit(pm, m, 'M') + Unit(ps, s, 'S');
    UnitLayer(ph, h, 'H', 3, true, ms, TextExpect(pm, m, 4, o5));
    assert Unit(ph, h, 'H') + Unit(pm, m, 'M') + Unit(ps, s, 'S') == Unit(ph, h, 'H') + ms;
  }

  lemma PrefixAssoc(a: string, b: string, c: string)
    ensures "T" + a + b + c == "T" + (a + b + c)
  {
  }

  lemma UnitsNonEmpty(ph: bool, pm: bool, ps: bool, h: string, m: string, s: string)
    requires ph || pm || ps
    ensures |Unit(ph, h, 'H') + Unit(pm, m, 'M') + Unit(ps, s, 'S')| > 0
  {
  }

  /** The reading of the time section, in date mode: nothing, or 'T' and the time units. */
  lemma DecodeTimeSection(ph: bool, pm: bool, ps: bool, h: string, m: string, s: string)
    requires (ph ==> Numeral(h)) && (pm ==> Numeral(m)) && (ps ==> Numeral(s))
    ensures DecodesFrom(TimeSection(ph, pm, ps, h, m, s), false, 3,
                        TextExpect(ph, h, 3, TextExpect(pm, m, 4, TextExpect(ps, s, 5, Some(NoUnits)))))
  {
    TimeSectionShape(ph, pm, ps, h, m, s);
    if !ph && !pm && !ps {
      EmptyDecodes(false, 3);
    } else {
      var hu, mu, su := Unit(ph, h, 'H'), Unit(pm, m, 'M'), Unit(ps, s, 'S');
      DecodeTimeUnits(ph, pm, ps, h, m, s);
      UnitsNonEmpty(ph, pm, ps, h, m, s);
      PrefixAssoc(hu, mu, su);
      TimeMarkLayer(hu + mu + su,
                    TextExpect(ph, h, 3, TextExpect(pm, m, 4, TextExpect(ps, s, 5, Some(NoUnits)))));
    }
  }

  /** The reading of the date units followed by a time section read as `ot`. */
  lemma DecodeDateUnits(py: bool, pm: bool, pd: bool, y: string, m: string, d: string, time: string, ot: Option<seq<nat>>)
    requires (py ==> Numeral(y)) && (pm ==> Numeral(m)) && (pd ==> Numeral(d))
    requires DecodesFrom(time, false, 3, ot)
    ensures DecodeUnits(Unit(py, y, 'Y') + Unit(pm, m, 'M') + Unit(pd, d, 'D') + time, 0, false) ==
              TextExpect(py, y, 0, TextExpect(pm, m, 1, TextExpect(pd, d, 2, ot)))
  {
    UnitLayer(pd, d, 'D', 2, false, time, ot);
    var dt := Unit(pd, d, 'D') + time;
    UnitLayer(pm, m, 'M', 1, false, dt, TextExpect(pd, d, 2, ot));
    var mdt := Unit(pm, m, 'M') + dt;
    UnitLayer(py, y, 'Y', 0, false, mdt, TextExpect(pm, m, 1, TextExpect(pd, d, 2, ot)));
    assert Unit(py, y, 'Y') + Unit(pm, m, 'M') + Unit(pd, d, 'D') + time == Unit(py, y, 'Y') + mdt;
  }

  /** A counter that is the smallest 64-bit value makes the text unreadable. */
  predicate HasMin(b: Builder) {
    b.years == MinInt || b.months == MinInt || b.days == MinInt
    || b.hours == MinInt || b.minutes == MinInt || b.seconds == MinInt
  }

  /**
   * A counter whose magnitude has more digits than the host reads; the
   * smallest 64-bit value is one of them.
   */
  predicate Oversized(b: Builder) {
    Abs(b.years) >= NumberLimit || Abs(b.months) >= NumberLimit || Abs(b.days) >= NumberLimit
    || Abs(b.hours) >= NumberLimit || Abs(b.minutes) >= NumberLimit || Abs(b.seconds) >= NumberLimit
  }

  predicate IsZero(b: Builder) {
    b.years == 0 && b.months == 0 && b.days == 0
    && b.hours == 0 && b.minutes == 0 && b.seconds == 0
  }

  /** The magnitudes the host reads back, in the order of the text. */
  function Magnitudes(b: Builder): seq<nat> {
    [Abs(b.years), Abs(b.months), Abs(b.days), Abs(b.hours), Abs(b.minutes), Abs(b.seconds)]
  }

  /**
   * What reading a counter's unit in slot `j` makes of the reading `o` of
   * the rest: a zero counter is absent, a magnitude of 10^12 or more is
   * unreadable, any other counter puts its magnitude in its slot.
   */
  function Expect(n: PhpInt, j: nat, o: Option<seq<nat>>): Option<seq<nat>> {
    if n == 0 then o else if Abs(n) >= NumberLimit then None else Place(o, j, Abs(n))
  }

  lemma NumberLimitDigits()
    ensures Pow10(MaxNumberDigits) == NumberLimit
  {
  }

  /** The counter's text reads as the counter's magnitude. */
  lemma ExpectOfText(n: PhpInt, j: nat, o: Option<seq<nat>>)
    ensures TextExpect(n != 0, AbsText(n), j, o) == Expect(n, j, o)
  {
    if n != 0 && n != MinInt {
      assert AbsText(n) == Digits(Abs(n));
      DigitsAtMost(Abs(n), MaxNumberDigits);
      NumberLimitDigits();
    }
  }

  /** The text after 'P' is the date units followed by the time section. */
  lemma SpecBody(b: Builder)
    ensures SpecText(b)[0] == 'P'
    ensures SpecText(b)[1..] == Part(b.years, 'Y') + Part(b.months, 'M') + Part(b.days, 'D')
                            + TimePart(b.hours, b.minutes, b.seconds)
  {
    DropLead(Part(b.years, 'Y'), Part(b.months, 'M'), Part(b.days, 'D'), TimePart(b.hours, b.minutes, b.seconds));
  }

  lemma DropLead(x: string, y: string, z: string, w: string)
    ensures ("P" + x + y + z + w)[0] == 'P'
    ensures ("P" + x + y + z + w)[1..] == x + y + z + w
  {
  }

  /** The reading of everything after 'P', one slot per counter. */
  lemma DecodeSpecLayers(b: Builder)
    ensures DecodeUnits(SpecText(b)[1..], 0, false) ==
              Expect(b.years, 0, Expect(b.months, 1, Expect(b.days, 2,
                Expect(b.hours, 3, Expect(b.minutes, 4, Expect(b.seconds, 5, Some(NoUnits)))))))
  {
    var h, m, s := AbsText(b.hours), AbsText(b.minutes), AbsText(b.seconds);
    DecodeTimeSection(b.hours != 0, b.minutes != 0, b.seconds != 0, h, m, s);
    ExpectOfText(b.seconds, 5, Some(NoUnits));
    var o5 := Expect(b.seconds, 5, Some(NoUnits));
    ExpectOfText(b.minutes, 4, o5);
    var o4 := Expect(b.minutes, 4, o5);
    ExpectOfText(b.hours, 3, o4);
    var o3 := Expect(b.hours, 3, o4);
    DecodeDateUnits(b.years != 0, b.months != 0, b.days != 0,
                    AbsText(b.years), AbsText(b.months), AbsText(b.days),
                    TimePart(b.hours, b.minutes, b.seconds), o3);
    ExpectOfText(b.days, 2, o3);
    var o2 := Expect(b.days, 2, o3);
    ExpectOfText(b.months, 1, o2);
    var o1 := Expect(b.months, 1, o2);
    ExpectOfText(b.years, 0, o1);
    SpecBody(b);
  }

  /** A counter's slot filled in a reading that succeeded. */
  lemma ExpectSome(n: PhpInt, j: nat, v: seq<nat>)
    requires j < |v| && v[j] == 0
    ensures Expect(n, j, Some(v)) == if Abs(n) >= NumberLimit then None else Some(v[j := Abs(n)])
  {
    if n == 0 {
      assert v[j := 0] == v;
    }
  }

  lemma ExpectNone(n: PhpInt, j: nat)
    ensures Expect(n, j, None) == None
  {
  }

  /** Once a counter is oversized, the whole reading fails. */
  lemma ExpectChainOversized(b: Builder)
    requires Oversized(b)
    ensures Expect(b.years, 0, Expect(b.months, 1, Expect(b.days, 2,
              Expect(b.hours, 3, Expect(b.minutes, 4, Expect(b.seconds, 5, Some(NoUnits))))))) == None
  {
    var o5 := Expect(b.seconds, 5, Some(NoUnits));
    var o4 := Expect(b.minutes, 4, o5);
    var o3 := Expect(b.hours, 3, o4);
    var o2 := Expect(b.days, 2, o3);
    var o1 := Expect(b.months, 1, o2);
    if Abs(b.seconds) >= NumberLimit {
      assert o5 == None;
    } else if Abs(b.minutes) >= NumberLimit {
      assert o4 == None;
    } else if Abs(b.hours) >= NumberLimit {
      assert o3 == None;
    } else if Abs(b.days) >= NumberLimit {
      assert o2 == None;
    } else if Abs(b.months) >= NumberLimit {
      assert o1 == None;
    }
  }

  /** Without an oversized counter, the reading is the six magnitudes. */
  lemma ExpectChainMagnitudes(b: Builder)
    requires !Oversized(b)
    ensures Expect(b.years, 0, Expect(b.months, 1, Expect(b.days, 2,
              Expect(b.hours, 3, Expect(b.minutes, 4, Expect(b.seconds, 5, Some(NoUnits)))))))
            == Some(Magnitudes(b))
  {
    var v5 := NoUnits[5 := Abs(b.seconds)];
    var v4 := v5[4 := Abs(b.minutes)];
    var v3 := v4[3 := Abs(b.hours)];
    var v2 := v3[2 := Abs(b.days)];
    var v1 := v2[1 := Abs(b.months)];
    var v0 := v1[0 := Abs(b.years)];
    ExpectSome(b.seconds, 5, NoUnits);
    ExpectSome(b.minutes, 4, v5);
    ExpectSome(b.hours, 3, v4);
    ExpectSome(b.days, 2, v3);
    ExpectSome(b.months, 1, v2);
    ExpectSome(b.years, 0, v1);
    assert v0 == Magnitudes(b);
  }

  /** The text after 'P' reads back as the magnitudes, unless a counter is oversized. */
  lemma DecodeUnitsOfSpecText(b: Builder)
    ensures DecodeUnits(SpecText(b)[1..], 0, false) ==
              if Oversized(b) then None else Some(Magnitudes(b))
  {
    DecodeSpecLayers(b);
    if Oversized(b) {
      ExpectChainOversized(b);
    } else {
      ExpectChainMagnitudes(b);
    }
  }

  /**
   * The duration text `toDateInterval` hands to the host. The host reads it
   * back as the magnitudes of the six counters; it rejects the text when all
   * counters are zero ("P" alone) or when a magnitude needs more than twelve
   * digits, the smallest 64-bit value (written as a float) among them.
   */
  function Spec(b: Builder): (r: string)
    ensures Decode(r) == if IsZero(b) || Oversized(b) then None else Some(Magnitudes(b))
  {
    DecodeUnitsOfSpecText(b);
    assert IsZero(b) ==> SpecText(b) == "P";
    assert !IsZero(b) ==> |SpecText(b)| > 1;
    SpecText(b)
  }

  /**
   * `toDateInterval`: the host interval built from the duration text, with
   * the sign flag set when asked for; the host's exception becomes a failure.
   */
  function ToDateInterval(b: Builder, invert: bool): (r: Result<Interval, string>)
    ensures r.Success? <==> !IsZero(b) && !Oversized(b)
    ensures r.Success? ==>
              r.value.y == Abs(b.years) && r.value.m == Abs(b.months) && r.value.d == Abs(b.days)
              && r.value.h == Abs(b.hours) && r.value.i == Abs(b.minutes) && r.value.s == Abs(b.seconds)
    ensures r.Success? ==> r.value.invert == (if invert then 1 else 0)
  {
    match Decode(Spec(b))
    case None => Failure("Unknown or bad format (" + Spec(b) + ")")
    case Some(v) => Success(Interval(v[0], v[1], v[2], v[3], v[4], v[5], if invert then 1 else 0))
  }

  /** Twelve nines of seconds are read back; 10^12 seconds make the host reject the text. */
  lemma SecondsAtNumberLimit(invert: bool)
    ensures ToDateInterval(SetSeconds(Init(), 999_999_999_999), invert).Success?
    ensures ToDateInterval(SetSeconds(Init(), 1_000_000_000_000), invert).Failure?
    ensures ToDateInterval(SetSeconds(Init(), MinInt), invert).Failure?
  {
  }

  /** A builder fresh from `Init` has no unit to write, and the host rejects its "P". */
  lemma InitIsRejected(invert: bool)
    ensures Spec(Init()) == "P"
    ensures ToDateInterval(Init(), invert).Failure?
  {
  }

  /** Counters of the same magnitude are written alike. */
  lemma PartsOfMagnitude(a: PhpInt, b: PhpInt, unit: char)
    requires a != MinInt && b != MinInt && Abs(a) == Abs(b)
    ensures Part(a, unit) == Part(b, unit)
    ensures AbsText(a) == AbsText(b)
  {
  }

  /** Only the magnitudes of the counters are written. */
  lemma SpecOfMagnitudes(a: Builder, b: Builder)
    requires !HasMin(a) && !HasMin(b) && Magnitudes(a) == Magnitudes(b)
    ensures Spec(a) == Spec(b)
  {
    assert Magnitudes(a)[0] == Magnitudes(b)[0];
    assert Magnitudes(a)[1] == Magnitudes(b)[1];
    assert Magnitudes(a)[2] == Magnitudes(b)[2];
    assert Magnitudes(a)[3] == Magnitudes(b)[3];
    assert Magnitudes(a)[4] == Magnitudes(b)[4];
    assert Magnitudes(a)[5] == Magnitudes(b)[5];
    PartsOfMagnitude(a.years, b.years, 'Y');
    PartsOfMagnitude(a.months, b.months, 'M');
    PartsOfMagnitude(a.days, b.days, 'D');
    PartsOfMagnitude(a.hours, b.hours, 'H');
    PartsOfMagnitude(a.minutes, b.minutes, 'M');
    PartsOfMagnitude(a.seconds, b.seconds, 'S');
    SameParts(a, b);
  }

  /** Negating every counter changes the text not at all. */
  lemma SpecIgnoresSign(b: Builder)
    requires !HasMin(b)
    ensures Spec(Builder(-b.years, -b.months, -b.days, -b.hours, -b.minutes, -b.seconds)) == Spec(b)
  {
    var n := Builder(-b.years, -b.months, -b.days, -b.hours, -b.minutes, -b.seconds);
    assert Magnitudes(n) == Magnitudes(b);
    SpecOfMagnitudes(n, b);
  }

  /** Two builders whose units are written alike have the same text. */
  lemma SameParts(a: Builder, b: Builder)
    requires Part(a.years, 'Y') == Part(b.years, 'Y') && Part(a.months, 'M') == Part(b.months, 'M')
    requires Part(a.days, 'D') == Part(b.days, 'D')
    requires TimePart(a.hours, a.minutes, a.seconds) == TimePart(b.hours, b.minutes, b.seconds)
    ensures Spec(a) == Spec(b)
  {
  }

  /** The builder of the library's own test: 2 years, 6 months, 12 days, 8 h 27 min 14 s. */
  function ExampleBuilder(): (b: Builder)
    ensures b == Builder(2, 6, 12, 8, 27, 14)
  {
    SetSeconds(SetMinutes(SetHours(SetDays(SetMonths(SetYears(Init(), 2), 6), 12), 8), 27), 14)
  }

  /** The magnitudes of the example as text. */
  lemma ExampleNumerals()
    ensures AbsText(2) == "2" && AbsText(6) == "6" && AbsText(8) == "8"
    ensures AbsText(12) == "12" && AbsText(27) == "27" && AbsText(14) == "14"
  {
    assert Digits(12) == Digits(1) + [DigitChar(2)];
    assert Digits(27) == Digits(2) + [DigitChar(7)];
    assert Digits(14) == Digits(1) + [DigitChar(4)];
  }

  lemma ExampleSpecText()
    ensures "P" + "2Y" + "6M" + "12D" + ("T" + "8H" + "27M" + "14S") == "P2Y6M12DT8H27M14S"
  {
  }

  lemma ExampleSpec()
    ensures Spec(ExampleBuilder()) == "P2Y6M12DT8H27M14S"
  {
    ExampleSpecOfCounters();
  }

  lemma ExampleSpecOfCounters()
    ensures SpecText(ExampleBuilder()) == "P2Y6M12DT8H27M14S"
  {
    var b := ExampleBuilder();
    ExampleNumerals();
    assert Part(b.years, 'Y') == "2Y" && Part(b.months, 'M') == "6M" && Part(b.days, 'D') == "12D";
    TimeSectionShape(true, true, true, "8", "27", "14");
    assert TimePart(b.hours, b.minutes, b.seconds) == "T" + "8H" + "27M" + "14S";
    ExampleSpecText();
  }

  lemma ExampleInterval()
    ensures ToDateInterval(ExampleBuilder(), false) == Success(Interval(2, 6, 12, 8, 27, 14, 0))
  {
  }
}
