/**
 * The calendar arithmetic of `DateTime`: the leap-year test, the computed
 * Easter Sunday, the quarter and the week of the month.
 */
module Calendar {
  import opened IntMath

  /** A calendar date as `DateTime::Create(year, month, day)` receives it. */
  datatype Date = Date(year: int, month: int, day: int)

  // ---------------------------------------------------------------------------
  // Leap years
  // ---------------------------------------------------------------------------

  /** PHP's `a % b == 0` agrees with Dafny's, whatever the sign of `a`. */
  lemma RemZero(a: int, b: int)
    requires b > 0
    ensures Rem(a, b) == 0 <==> a % b == 0
  {
    if a < 0 {
      DivNonNegative(-a, b);
      if (-a) % b == 0 {
        MultipleNegated(-a, b);
      }
      if a % b == 0 {
        MultipleNegated(a, b);
      }
    }
  }

  /** A multiple of `b` stays one when negated. */
  lemma MultipleNegated(a: int, b: int)
    requires b > 0 && a % b == 0
    ensures (-a) % b == 0
  {
    var q := a / b;
    assert a == b * q;
    NegateProduct(b, q);
    ExactQuotient(-q, b);
  }

  /**
   * `LeapYear` as written: divisible by 4, not by 100, and not by 400. The
   * last conjunct can never be the one that fails, so every century year is
   * a common year, 2000 and 2400 included.
   */
  function LeapYear(year: int): (r: bool)
    ensures r <==> year % 4 == 0 && year % 100 != 0
  {
    RemZero(year, 4);
    RemZero(year, 100);
    RemZero(year, 400);
    (Rem(year, 4) == 0 && !(Rem(year, 100) == 0)) && Rem(year, 400) != 0
  }

  /** The Gregorian rule the method is documented to implement. */
  function GregorianLeapYear(year: int): (r: bool)
    ensures r <==> (year % 4 == 0 && year % 100 != 0) || year % 400 == 0
  {
    RemZero(year, 4);
    RemZero(year, 100);
    RemZero(year, 400);
    (Rem(year, 4) == 0 && Rem(year, 100) != 0) || Rem(year, 400) == 0
  }

  /** The two rules disagree exactly on the multiples of 400. */
  lemma LeapYearDiffersOnlyEvery400Years(year: int)
    ensures LeapYear(year) != GregorianLeapYear(year) <==> year % 400 == 0
  {
  }

  /** 2000 is a leap year of the Gregorian calendar but not one of `LeapYear`. */
  lemma LeapYear2000()
    ensures !LeapYear(2000) && GregorianLeapYear(2000)
    ensures LeapYear(2024) && GregorianLeapYear(2024)
    ensures !LeapYear(1900) && !GregorianLeapYear(1900)
  {
  }

  /** The Gregorian rule repeats every 400 years. */
  lemma GregorianLeapYearPeriodic(year: int)
    ensures GregorianLeapYear(year + 400) == GregorianLeapYear(year)
  {
    assert (year + 400) % 4 == year % 4;
    assert (year + 400) % 100 == year % 100;
    assert (year + 400) % 400 == year % 400;
  }

  // ---------------------------------------------------------------------------
  // Easter Sunday, computed branch
  // ---------------------------------------------------------------------------

  /** `gz`: the golden number, 1..19 for years from 0 on. */
  function GoldenNumber(year: int): (gz: int)
    ensures year >= 0 ==> 1 <= gz <= 19
  {
    Rem(year, 19) + 1
  }

  /** `jhd`: the number of the century the year falls in. */
  function Century(year: int): int {
    Div(year, 100) + 1
  }

  /** `ksj`: the solar correction, the days dropped by century years. */
  function SolarCorrection(year: int): int {
    Div(3 * Century(year), 4) - 12
  }

  /** `corr`: the lunar correction. */
  function LunarCorrection(year: int): int {
    Div(8 * Century(year) + 5, 25) - 5
  }

  /**
   * `so`: the offset that places day numbers of March on weekdays. From year
   * 0 on it is the year plus its Gregorian leap days, plus 2; as 365 leaves 1
   * modulo 7, each year moves the weekdays of March on by one day, and by two
   * after a leap day.
   */
  function WeekdayOffset(year: int): (r: int)
    ensures year >= 0 ==> r == year + year / 4 - year / 100 + year / 400 + 2
  {
    OffsetCountsLeapDays(year);
    Div(5 * year, 4) - SolarCorrection(year) - 10
  }

  /** `5 * year / 4` and the solar correction together count the Gregorian leap days. */
  lemma OffsetCountsLeapDays(year: int)
    ensures year >= 0 ==>
              Div(5 * year, 4) - SolarCorrection(year) - 10 == year + year / 4 - year / 100 + year / 400 + 2
  {
    if year >= 0 {
      var k, s := year / 100, year % 100;
      var q, rr := k / 4, k % 4;
      DivNonNegative(year, 100);
      DivNonNegative(5 * year, 4);
      DivNonNegative(3 * (k + 1), 4);
      DivModOf(5 * year, 4, year + year / 4, year % 4);
      DivModOf(3 * (k + 1), 4, 3 * q + rr, 3 - rr);
      DivModOf(year, 400, q, 100 * rr + s);
    }
  }

  /** `pakte` before its correction: the epact, the age of the moon on new year's day. */
  function RawEpact(year: int): (p: int)
    ensures -30 < p < 30
  {
    Rem(11 * GoldenNumber(year) + 20 + LunarCorrection(year) - SolarCorrection(year), 30)
  }

  /**
   * The correction of `pakte` as written: `(pakte === 25 || gz === 11) &&
   * pakte === 24`, which fires only for 24 in the eleventh year of the cycle.
   */
  function Epact(year: int): (p: int)
    ensures p != RawEpact(year) <==> RawEpact(year) == 24 && GoldenNumber(year) == 11
    ensures p == RawEpact(year) || p == RawEpact(year) + 1
  {
    var raw := RawEpact(year);
    if (raw == 25 || GoldenNumber(year) == 11) && raw == 24 then raw + 1 else raw
  }

  /**
   * Clavius' correction, which the condition evidently means: an epact of 24,
   * or of 25 after the eleventh year of the cycle, counts one more.
   */
  function ClaviusEpact(year: int): (p: int)
    ensures p != RawEpact(year) <==> RawEpact(year) == 24 || (RawEpact(year) == 25 && GoldenNumber(year) > 11)
    ensures p == RawEpact(year) || p == RawEpact(year) + 1
    ensures p != 24
  {
    var raw := RawEpact(year);
    if raw == 24 || (raw == 25 && GoldenNumber(year) > 11) then raw + 1 else raw
  }

  /** The paschal full moon as a day of March (32 is April 1), never before March 21. */
  function FullMoonDay(epact: int): (n: int)
    ensures -30 < epact <= 30 ==> 21 <= n <= 73
    ensures n == 44 - epact || n == 74 - epact
  {
    var n := 44 - epact;
    if n < 21 then n + 30 else n
  }

  /** The Sunday after day `n` of March, given the weekday offset `so`. */
  function SundayAfter(so: int, n: int): (e: int)
    ensures so + n >= 0 ==> n < e <= n + 7 && (so + e) % 7 == 0
  {
    n + 7 - Rem(so + n, 7)
  }

  /**
   * The source's conversion of a day of March into month and day. The leap
   * flag is added to the day number and then subtracted again, so day n of
   * March (1 to 61) becomes March n or April n - 31 in every year.
   */
  function MonthDay(year: int, n: int): (d: Date)
    ensures 1 <= n <= 61 ==> d == if n <= 31 then Date(year, 3, n) else Date(year, 4, n - 31)
  {
    MarchCountQuotients(n);
    var a := if LeapYear(year) then 1 else 0;
    var n1 := n + a + 59;
    var nt := (if n1 > 59 + a then n1 + 2 - a else n1) + 91;
    var m := Div(20 * nt, 611);
    Date(year, m - 2, nt - Div(611 * m, 20))
  }

  /** The quotients `MonthDay` forms for the days of March and April. */
  lemma MarchCountQuotients(n: int)
    ensures 1 <= n <= 61 ==> Div(20 * (n + 152), 611) == if n <= 31 then 5 else 6
    ensures Div(611 * 5, 20) == 152 && Div(611 * 6, 20) == 183
  {
    DivNonNegative(611 * 5, 20);
    DivNonNegative(611 * 6, 20);
    if 1 <= n <= 61 {
      DivNonNegative(20 * (n + 152), 611);
      if n <= 31 {
        assert (20 * (n + 152)) / 611 == 5;
      } else {
        assert (20 * (n + 152)) / 611 == 6;
      }
    }
  }

  /**
   * The computed branch as written. For the years 0 to 9999 Easter falls
   * between March 22 and April 26.
   */
  function ComputedEaster(year: int): (d: Date)
    ensures 0 <= year <= 9999 ==>
              d.year == year && ((d.month == 3 && 22 <= d.day <= 31) || (d.month == 4 && 1 <= d.day <= 26))
  {
    var n := SundayAfter(WeekdayOffset(year), FullMoonDay(Epact(year)));
    if 0 <= year <= 9999 then
      ComputedEasterInSeason(year);
      MonthDay(year, n)
    else
      MonthDay(year, n)
  }

  /**
   * The computed branch with Clavius' correction. For the years 0 to 9999
   * Easter falls between March 22 and April 25.
   */
  function CorrectedComputedEaster(year: int): (d: Date)
    ensures 0 <= year <= 9999 ==>
              d.year == year && ((d.month == 3 && 22 <= d.day <= 31) || (d.month == 4 && 1 <= d.day <= 25))
  {
    var n := SundayAfter(WeekdayOffset(year), FullMoonDay(ClaviusEpact(year)));
    if 0 <= year <= 9999 then
      CorrectedEasterInSeason(year);
      MonthDay(year, n)
    else
      MonthDay(year, n)
  }

  /**
   * `EasterSunday`: between 1970 and 2037 PHP's `easter_date` answers (a
   * parameter here); every other year is computed.
   */
  function EasterSunday(year: int, easterDate: int -> Date): (d: Date)
    ensures 1969 < year < 2038 ==> d == easterDate(year)
    ensures (year <= 1969 || year >= 2038) ==> d == ComputedEaster(year)
  {
    if year > 1969 && year < 2038 then easterDate(year) else ComputedEaster(year)
  }

  /** `EasterSunday` with the corrected epact. */
  function EasterSundayCorrected(year: int, easterDate: int -> Date): (d: Date)
    ensures 1969 < year < 2038 ==> d == easterDate(year)
    ensures (year <= 1969 || year >= 2038) ==> d == CorrectedComputedEaster(year)
  {
    if year > 1969 && year < 2038 then easterDate(year) else CorrectedComputedEaster(year)
  }

  /** The corrections stay small for the years 0 to 9999. */
  lemma CorrectionBounds(year: int)
    requires 0 <= year <= 9999
    ensures 1 <= Century(year) <= 100
    ensures -12 <= SolarCorrection(year) <= 63
    ensures -5 <= LunarCorrection(year) <= 27
    ensures -36 <= LunarCorrection(year) - SolarCorrection(year) <= 7
    ensures WeekdayOffset(year) >= 0
  {
    DivNonNegative(year, 100);
    var j := Century(year);
    DivNonNegative(3 * j, 4);
    DivNonNegative(8 * j + 5, 25);
    DivNonNegative(5 * year, 4);
  }

  /** The epact before correction lies in -5..29 for the years 0 to 9999. */
  lemma RawEpactBounds(year: int)
    requires 0 <= year <= 9999
    ensures -5 <= RawEpact(year) <= 29
  {
    CorrectionBounds(year);
    DivNonNegative(year, 19);
    var x := 11 * GoldenNumber(year) + 20 + LunarCorrection(year) - SolarCorrection(year);
    assert -5 <= x;
    if x >= 0 {
      DivNonNegative(x, 30);
    }
  }

  /**
   * With Clavius' correction the paschal full moon falls between March 21 and
   * April 18, and the Sunday after it is day 22 to 56 counted from March 1.
   */
  lemma CorrectedEasterInSeason(year: int)
    requires 0 <= year <= 9999
    ensures 21 <= FullMoonDay(ClaviusEpact(year)) <= 49
    ensures var n := SundayAfter(WeekdayOffset(year), FullMoonDay(ClaviusEpact(year)));
      22 <= n <= 56 && (WeekdayOffset(year) + n) % 7 == 0
  {
    RawEpactBounds(year);
    CorrectionBounds(year);
  }

  /**
   * As written, an uncorrected epact of 24 puts the full moon on April 19 and
   * the Sunday after it as late as day 57 counted from March 1 (April 26).
   */
  lemma ComputedEasterInSeason(year: int)
    requires 0 <= year <= 9999
    ensures 21 <= FullMoonDay(Epact(year)) <= 50
    ensures var n := SundayAfter(WeekdayOffset(year), FullMoonDay(Epact(year)));
      22 <= n <= 57 && (WeekdayOffset(year) + n) % 7 == 0
  {
    RawEpactBounds(year);
    CorrectionBounds(year);
  }

  /** Both rules agree whenever the epact needs no correction. */
  lemma EasterRulesAgree(year: int)
    requires RawEpact(year) != 24 && !(RawEpact(year) == 25 && GoldenNumber(year) > 11)
    ensures ComputedEaster(year) == CorrectedComputedEaster(year)
  {
  }

  /** The test vector for 1960: epact 2, full moon on April 10, Easter on April 17. */
  lemma ComputedEaster1960()
    ensures ComputedEaster(1960) == Date(1960, 4, 17)
  {
    assert GoldenNumber(1960) == 4 && Century(1960) == 20;
    assert SolarCorrection(1960) == 3 && LunarCorrection(1960) == 1;
    assert WeekdayOffset(1960) == 2437 && RawEpact(1960) == 2 && Epact(1960) == 2;
    assert SundayAfter(2437, 42) == 48;
  }

  /** The test vector for 1961. */
  lemma ComputedEaster1961()
    ensures ComputedEaster(1961) == Date(1961, 4, 2)
  {
    assert GoldenNumber(1961) == 5 && Century(1961) == 20;
    assert SolarCorrection(1961) == 3 && LunarCorrection(1961) == 1;
    assert WeekdayOffset(1961) == 2438 && RawEpact(1961) == 13 && Epact(1961) == 13;
    assert SundayAfter(2438, 31) == 33;
  }

  /** The test vector for 1962: an uncorrected epact of 24 that does no harm. */
  lemma ComputedEaster1962()
    ensures ComputedEaster(1962) == Date(1962, 4, 22)
  {
    assert GoldenNumber(1962) == 6 && Century(1962) == 20;
    assert SolarCorrection(1962) == 3 && LunarCorrection(1962) == 1;
    assert WeekdayOffset(1962) == 2439 && RawEpact(1962) == 24 && Epact(1962) == 24;
    assert SundayAfter(2439, 50) == 53;
  }

  /** The test vector for 1963. */
  lemma ComputedEaster1963()
    ensures ComputedEaster(1963) == Date(1963, 4, 14)
  {
    assert GoldenNumber(1963) == 7 && Century(1963) == 20;
    assert SolarCorrection(1963) == 3 && LunarCorrection(1963) == 1;
    assert WeekdayOffset(1963) == 2440 && RawEpact(1963) == 5 && Epact(1963) == 5;
    assert SundayAfter(2440, 39) == 45;
  }

  /**
   * 2076 is computed: its uncorrected epact is 24 in the sixth year of the
   * cycle, so the full moon lands on April 19 and Easter on April 26 instead
   * of April 19.
   */
  lemma ComputedEaster2076()
    ensures RawEpact(2076) == 24 && GoldenNumber(2076) == 6
    ensures ComputedEaster(2076) == Date(2076, 4, 26)
    ensures CorrectedComputedEaster(2076) == Date(2076, 4, 19)
  {
    EasterTerms2076();
    assert SundayAfter(2582, 50) == 57;
    assert SundayAfter(2582, 49) == 50;
  }

  /** The terms of the computation for 2076. */
  lemma EasterTerms2076()
    ensures RawEpact(2076) == 24 && GoldenNumber(2076) == 6
    ensures WeekdayOffset(2076) == 2582 && Epact(2076) == 24 && ClaviusEpact(2076) == 25
  {
    assert Century(2076) == 21;
    assert SolarCorrection(2076) == 3 && LunarCorrection(2076) == 1;
  }

  /** 1954: an epact of 25 late in the cycle gives April 25 instead of April 18. */
  lemma ComputedEaster1954()
    ensures RawEpact(1954) == 25 && GoldenNumber(1954) == 17
    ensures ComputedEaster(1954) == Date(1954, 4, 25)
    ensures CorrectedComputedEaster(1954) == Date(1954, 4, 18)
  {
    EasterTerms1954();
    assert SundayAfter(2429, 49) == 56;
    assert SundayAfter(2429, 48) == 49;
  }

  /** The terms of the computation for 1954. */
  lemma EasterTerms1954()
    ensures RawEpact(1954) == 25 && GoldenNumber(1954) == 17
    ensures WeekdayOffset(1954) == 2429 && Epact(1954) == 25 && ClaviusEpact(1954) == 26
  {
    assert Century(1954) == 20;
    assert SolarCorrection(1954) == 3 && LunarCorrection(1954) == 1;
  }

  // ---------------------------------------------------------------------------
  // Quarter and week of the month
  // ---------------------------------------------------------------------------

  /** `getQuarter`: the quarter a month (1..12) belongs to. */
  function Quarter(month: int): (q: int)
    requires 1 <= month <= 12
    ensures 1 <= q <= 4
    ensures 3 * (q - 1) < month <= 3 * q
  {
    (month - Rem(month, 3)) / 3 + (if Rem(month, 3) == 0 then 0 else 1)
  }

  /** The quarter is the only q whose three months contain the month. */
  lemma QuarterUnique(month: int, q: int)
    requires 1 <= month <= 12
    requires 3 * (q - 1) < month <= 3 * q
    ensures Quarter(month) == q
  {
  }

  /** `getWeekOfMonth`: `ceil(day / 7)`, the week of the month a day (1..31) falls in. */
  function WeekOfMonth(day: int): (w: int)
    requires 1 <= day <= 31
    ensures 1 <= w <= 5
    ensures 7 * (w - 1) < day <= 7 * w
  {
    if day % 7 == 0 then day / 7 else day / 7 + 1
  }

  /** The week is the only w whose seven days contain the day. */
  lemma WeekOfMonthUnique(day: int, w: int)
    requires 1 <= day <= 31
    requires 7 * (w - 1) < day <= 7 * w
    ensures WeekOfMonth(day) == w
  {
  }
}
