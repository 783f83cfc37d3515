# Niirrty.Date core, modelled in Dafny

A Dafny model of the self-contained integer and string logic of the PHP
library Niirrty.Date. It covers four parts:

- **The `Time` value** (`src/Time.php`), in `time_of_day.dfy` and `time_format.dfy`.
  - A time of day kept inside 00:00:00 .. 23:59:59.
  - Its clamping constructor and setters.
  - `setSecondsAbsolute`, which fails loudly.
  - Saturating `addSeconds`, `addMinutes` and `addHours`.
  - The start/end-of-day and AM/PM predicates.
  - `compare` and `equals` between two `Time` values.
  - `toArray`, `FromArray` and `__serialize`/`__unserialize`.
  - The escape-aware `format` mini-language with its four whole-string fast paths, and `__toString`.
- **Calendar arithmetic of `DateTime`** (`src/DateTime.php`), in `calendar.dfy` and `int_math.dfy`.
  - `LeapYear` and the `div` helper.
  - The computed branch of `EasterSunday`.
  - `getQuarter` of a month and `getWeekOfMonth` of a day.
- **The `DateTime::Parse` cascade** (`src/DateTime.php`), in `date_parse.dfy`.
  - Its fallback: the month-name rewrite (`month_matching.dfy`, `month_names.dfy`), then the clean-up of the text (`sanitise.dfy`).
  - `TryParse`.
- **`DateIntervalBuilder`** (`src/DateIntervalBuilder.php`), in `interval_builder.dfy`.
  - Six signed counters.
  - The ISO 8601 duration text ("format with designators", ISO 8601:2004 section 4.4.3.2) that `toDateInterval` hands to the host.

Conventions of the model:

- **Immutable values.** The source mutates the receiver and returns `$this`. Here every mutator is a pure function that returns a new value. The class invariant of `Time` is the subset type `TimeOfDay.ValidTime`.
- **PHP arithmetic.** `%` keeps the sign of the dividend and `div` truncates toward zero. `IntMath.Rem`, `IntMath.Quot` and `IntMath.Div` spell this out; Dafny's own operators are Euclidean.
- **64-bit integers.** The counters of the interval builder and the counts of `addMinutes`/`addHours` are `IntMath.PhpInt`, the 64-bit range. There a product can leave that range: PHP turns it into a float (`IntMath.MulInt`), and since the files declare `strict_types=1` (src/Time.php:11), handing that float to an `int` parameter raises a `TypeError`. Every other integer parameter (years, months, days, the seconds of `addSeconds`, the parts given to `Create` and the setters) is an unbounded `int`. Those operations either clamp or range-check their arguments, or only add and divide, so the 64-bit bound changes nothing inside PHP's range. The one product outside it is `5 * $year` in the Easter computation (see `Calendar.EasterSunday` under Left out).
- **Format constants.** `format` compares its argument with `TimeFormat::X->value` (src/Time.php:557, 568, 578, 588), and the tests pass `TimeFormat::X->value` in (tests/Niirrty/Date/Tests/TimeTest.php:285-292). The model reads `->value` as the constant's string, because only a string-backed enum makes those tests meaningful. As declared at src/TimeFormat.php:22, `TimeFormat` is an interface of plain string constants; `->value` on a string reads null, so none of the four fast paths would ever be taken. Every format would then go through the scan, and 'H:i A' would print the 24-hour hour (`TimeFormatting.Short12hThroughInterpreter`). The second finding below holds under either reading: the constant 'H:i A' does not print what its comment and the tests expect.
- **Characters, not bytes.**
  - Strings are sequences of code points. `format`, `preg_replace` (without the `u` flag) and `trim` work on bytes in PHP.
  - On valid UTF-8 input the two views agree. No byte of a multi-byte character is a directive, a backslash, an ASCII letter or one of the kept characters.
  - Case folding is ASCII-only, as PCRE's `i` flag is without `u`.
- **The host is a parameter.** The host `\DateTime` constructor, its timestamp rendering and PHP's `easter_date` are not visible to the model, so they are function-valued parameters. `DateParse.Host` holds the first two; `easterDate` is a parameter of `Calendar.EasterSunday`. A constructor that throws is `None`.
- **The wall clock is a parameter.** It is passed as an explicit `ValidTime` (`wall`).

Where the code and its documentation disagree, the model follows the code:

- `compare` returns `other <=> this`: 1 when the other time is later. The doc-comment at `src/Time.php:679-680` promises the opposite sign. The library's own test agrees with the code (`TimeOfDay.CompareMorningLunch`).
- `SHORT_12H` is the string 'H:i A', although its comment reads 'h:i A'. See Findings.

## Model

| member | source | states |
|---|---|---|
| IntMath.Clamp | src/Time.php:84-86 | `min(hi, max(lo, v))` is the point of [lo, hi] nearest to v: v itself inside, lo below, hi above |
| IntMath.Rem | src/DateTime.php:1480 | PHP's `%` with a positive divisor: the remainder of truncating division, strictly between -b and b, with the sign of the dividend |
| IntMath.Quot | src/DateTime.php:1534-1539 | the quotient truncated toward zero: for a >= 0 the largest q with b*q <= a, for a < 0 the smallest q with a <= b*q |
| IntMath.Div | src/DateTime.php:1534-1539 | `div(a, b) = (a - a % b) / b` is an exact division and equals the truncated quotient |
| IntMath.MulInt | src/Time.php:511 | PHP's `*` on two ints stays an int, equal to the product, exactly when the product is inside the 64-bit range |
| IntMath.DivNonNegative | src/DateTime.php:1534-1539 | for non-negative operands `div` and PHP's `%` agree with floor division and the Euclidean remainder |
| Decimal.ValueOfDigits | src/Time.php:645-646 | the `(string)` cast of a non-negative int reads back as the same number |
| Decimal.Pad2 | src/Time.php:345-355 | `%'.02d` of a clock field is two digits whose value is the field |
| TimeOfDay.SecondsAbsolute | src/Time.php:144-154 | the absolute seconds of a valid time lie in [0, 86399] |
| TimeOfDay.SecondsAbsoluteFields | src/Time.php:144-154 | seconds, minutes and hours are the base-60 digits of the absolute seconds |
| TimeOfDay.SecondsAbsoluteInjective | src/Time.php:144-154 | two valid times with the same absolute seconds are the same time |
| TimeOfDay.Decompose | src/Time.php:291-331 | the staged decomposition of an in-range value gives seconds v % 60, minutes (v / 60) % 60, hours v / 3600, and its absolute seconds are v |
| TimeOfDay.DecomposeArithmetic | src/Time.php:303-331 | after the seconds are removed the rest is a whole number of minutes; with an hour or more, the minutes from the remainder modulo 3600 leave a whole number of hours at most 23, and the parts add up to v |
| TimeOfDay.SetSecondsAbsolute | src/Time.php:274-333 | succeeds exactly for 0 <= v <= 86399, and then the absolute seconds of the result are v; otherwise an argument error naming 'secondsAbsolute' and carrying v |
| TimeOfDay.SetSecondsAbsoluteRoundTrip | src/Time.php:274-333 | setting the absolute seconds of any time gives back exactly that time |
| TimeOfDay.CurrentHour | src/Time.php:947-952 | `date('h')` is an hour in 1..12 that agrees with the wall-clock hour modulo 12 |
| TimeOfDay.Create | src/Time.php:64-92 | each given argument is clamped into its range; an absent minute or second is the wall clock's; an absent hour is the clamped 12-hour `CurrentHour` |
| TimeOfDay.CreateWithoutHourUsesTwelveHourClock | src/Time.php:68-71 | without an hour the constructor never yields an afternoon hour: it is in 1..12, and the wall hour minus 12 after noon |
| TimeOfDay.SetHour | src/Time.php:168-194 | only the hour changes; a given value lands in [0, 23] (below gives 0, above gives 23); none gives the 12-hour `CurrentHour` |
| TimeOfDay.SetMinute | src/Time.php:203-229 | only the minute changes; a given value lands in [0, 59]; none gives the wall clock's minute |
| TimeOfDay.SetSecond | src/Time.php:238-264 | only the second changes; a given value lands in [0, 59]; none gives the wall clock's second |
| TimeOfDay.IsStartOfDay | src/Time.php:411-421 | holds exactly when the absolute seconds are 0 |
| TimeOfDay.IsEndOfDay | src/Time.php:393-403 | holds exactly when the absolute seconds are 86399 |
| TimeOfDay.IsAnteMeridiem | src/Time.php:429-436 | holds exactly from 01:00:00 to 12:59:59 |
| TimeOfDay.IsPostMeridiem | src/Time.php:444-449 | the exact complement, so the hour after midnight is PM |
| TimeOfDay.Hour12 | src/Time.php:800-820 | the 12-hour hour is in 1..12 and agrees with the 24-hour hour modulo 12 (0 shows as 12, 13 as 1) |
| TimeOfDay.Meridiem | src/Time.php:829-841 | two letters: 'a'/'A' exactly for ante-meridiem times, else 'p'/'P', then 'm'/'M' by the case flag |
| TimeOfDay.AddSeconds | src/Time.php:460-497 | the new absolute seconds are old + delta clamped into [0, 86399]; the time never moves against the sign of delta |
| TimeOfDay.Saturate | src/Time.php:480-490 | the two guards, the upper bound first, amount to clamping into [0, 86399] |
| TimeOfDay.AddMinutes | src/Time.php:508-513 | succeeds exactly when 60 times the count is still a 64-bit int, and then moves the absolute seconds by that much, clamped into the day; otherwise the `TypeError` for the `seconds` parameter of `addSeconds` |
| TimeOfDay.AddHours | src/Time.php:524-529 | succeeds exactly when 3600 times the count is still a 64-bit int, and then moves the absolute seconds by that much, clamped into the day; otherwise the `TypeError` for `seconds` |
| TimeOfDay.AddCountsInRange | src/Time.php:508-529 | whatever the time, `addMinutes` accepts exactly the counts of magnitude up to 153722867280912930 and `addHours` those up to 2562047788015215 |
| TimeOfDay.AddMinutesOverflow | src/Time.php:508-513 | 12:00:00 moved by `PHP_INT_MAX` minutes raises the `TypeError`; moved by the largest accepted count it reaches 23:59:59 |
| TimeOfDay.AddSecondsSaturates | src/Time.php:463-467 | 23:59:59 does not move forward and 00:00:00 not backward; a delta of a whole day or more sends every time to the end (or start) of the day |
| TimeOfDay.AddSecondsInverse | src/Time.php:460-497 | when no bound is reached, adding delta and then -delta gives back the original time |
| TimeOfDay.Compare | src/Time.php:687-705 | 1 exactly when the other time is later, 0 exactly for equal times, -1 exactly when it is earlier |
| TimeOfDay.CompareAntisymmetric | src/Time.php:700-703 | swapping the operands negates the result |
| TimeOfDay.Equals | src/Time.php:726-733 | two `Time` values are equal exactly when they are the same time, i.e. when `compare` gives 0 |
| TimeOfDay.CompareMorningLunch | tests/Niirrty/Date/Tests/TimeTest.php:298-305 | 05:19:52 against 11:54:33 compares as 1, the reverse as -1, a time with itself as 0 |
| TimeOfDay.ToArray | src/Time.php:362-371 | exactly the keys 'hours', 'minutes', 'seconds', holding the three fields |
| TimeOfDay.ArrayField | src/Time.php:1009-1018 | because of the inverted `empty()` test, a field is the plural entry when present and 0 otherwise: the singular key never adds anything |
| TimeOfDay.FromArray | src/Time.php:1006-1034 | builds a time exactly when some field is positive, each field then clamped; otherwise `false`, or an argument error carrying the array when asked to throw |
| TimeOfDay.FromArrayIgnoresSingularKeys | src/Time.php:1009-1018 | removing 'hour', 'minute' and 'second' never changes the outcome |
| TimeOfDay.FromArrayOfToArray | src/Time.php:1006-1034 | `FromArray` inverts `toArray` for every time but midnight, which it rejects |
| TimeOfDay.Unserialize | src/Time.php:1068-1092 | an accepted array gives its time; a rejected one gives 00:00:00 |
| TimeOfDay.SerializeRoundTrip | src/Time.php:1061-1092 | unserialising the serialised array restores every time, midnight included |
| TimeFormatting.SubstituteMeaning | src/Time.php:641-651 | 'a'/'A' print the meridiem; 'g'/'h' the 12-hour hour and 'G'/'H' the 24-hour hour, 'h'/'H' with two digits; 'i' and 's' the two-digit minutes and seconds |
| TimeFormatting.InterpretRun | src/Time.php:597-674 | a run of backslashes and the character after it print the same, whatever follows |
| TimeFormatting.EscapeRule | src/Time.php:612-639 | before a directive an even run of n backslashes prints n/2 of them and the directive's value, and an odd run prints (n-1)/2 and the letter itself; before any other character all n are printed |
| TimeFormatting.InterpretTrailingBackslashes | src/Time.php:597-674 | backslashes still pending at the end of the format print nothing |
| TimeFormatting.InterpretPlainText | src/Time.php:664-670 | text without backslashes and directives is copied unchanged |
| TimeFormatting.InterpretAppend | src/Time.php:597-674 | a format that does not end inside a run of backslashes can be printed in two pieces |
| TimeFormatting.Format | src/Time.php:552-676 | every format other than the four constants goes through the scan; the short 12-hour constant prints, for every time, what the scan prints for 'h:i A': the two-digit 12-hour hour, the minutes and the meridiem |
| TimeFormatting.FormatIsInterpret | src/Time.php:557-597 | a format longer than every constant never takes a fast path |
| TimeFormatting.Full12hFastPathAgrees | src/Time.php:557-566 | the 'h:i:s A' fast path prints what the scan prints |
| TimeFormatting.Full24hFastPathAgrees | src/Time.php:578-586 | the 'H:i:s' fast path prints what the scan prints |
| TimeFormatting.Short24hFastPathAgrees | src/Time.php:588-595 | the 'H:i' fast path prints what the scan prints |
| TimeFormatting.Short12hThroughInterpreter | src/TimeFormat.php:44 | 'H:i A' through the scan prints the two-digit 24-hour hour |
| TimeFormatting.Short12hFastPathDiverges | src/Time.php:568-576 | at 18:18:04 the 'H:i A' fast path prints "06:18 PM" while the scan of the same format prints "18:18 PM" |
| TimeFormatting.Short12hIntendedAgrees | src/TimeFormat.php:41-44 | 'h:i A' through the scan prints the padded 12-hour hour, the minutes and the meridiem, as the fast path does |
| TimeFormatting.FormatIntended | src/Time.php:552-676 | with the short 12-hour constant spelled 'h:i A', every format prints exactly what the scan prints |
| TimeFormatting.ToString | src/Time.php:345-355 | eight characters 'HH:MM:SS' whose two-digit groups read as the hours, minutes and seconds |
| TimeFormatting.ToStringIsFull24h | src/Time.php:345-355 | `__toString` prints what `format('H:i:s')` prints |
| TimeFormatting.ToStringRoundTrip | src/Time.php:345-355 | reading the string form back gives the same time |
| TimeFormatting.FormatMorningExample | tests/Niirrty/Date/Tests/TimeTest.php:280 | 'aAgGhHis' at 05:19:52 prints "amAM5505051952" |
| TimeFormatting.FormatEveningExample | tests/Niirrty/Date/Tests/TimeTest.php:281 | 'aAgGhHis' at 18:18:04 prints "pmPM61806181804" |
| TimeFormatting.FormatSingleEscapeExample | tests/Niirrty/Date/Tests/TimeTest.php:282 | one backslash escapes 'A': "amA5505051952" |
| TimeFormatting.FormatDoubleEscapeExample | tests/Niirrty/Date/Tests/TimeTest.php:283 | two backslashes print one and leave 'A' active: "am\AM5505051952" |
| TimeFormatting.FormatTripleEscapeExample | tests/Niirrty/Date/Tests/TimeTest.php:284 | three backslashes print one and escape 'A'; before '_' the backslash is kept: "am\A5\_505051952" |
| TimeFormatting.FormatFastPathExample | tests/Niirrty/Date/Tests/TimeTest.php:285-294 | 'h:i:s A' at 18:18:04 and at 00:18:04 prints "06:18:04 PM" and "12:18:04 PM"; 05:19:52 prints as "05:19:52" |
| Calendar.LeapYear | src/DateTime.php:1548-1557 | as written: a leap year exactly when divisible by 4 and not by 100 (the 400 conjunct never decides) |
| Calendar.GregorianLeapYear | src/DateTime.php:1541-1547 | the documented Gregorian rule: divisible by 4 and not by 100, or divisible by 400 |
| Calendar.LeapYearDiffersOnlyEvery400Years | src/DateTime.php:1548-1557 | the rule as written and the Gregorian rule disagree exactly on the multiples of 400 |
| Calendar.LeapYear2000 | tests/Niirrty/Date/Tests/DateTimeTest.php:664-672 | 2000 is Gregorian but not a leap year as written; 2024 is both; 1900 is neither |
| Calendar.GoldenNumber | src/DateTime.php:1475 | the golden number is in 1..19 for years from 0 on |
| Calendar.RawEpact | src/DateTime.php:1480 | the uncorrected epact lies strictly between -30 and 30 |
| Calendar.RawEpactBounds | src/DateTime.php:1475-1480 | for the years 0 to 9999 the uncorrected epact lies in [-5, 29] |
| Calendar.CorrectionBounds | src/DateTime.php:1476-1479 | for the years 0 to 9999 the century, solar and lunar corrections stay small and the weekday offset is non-negative |
| Calendar.WeekdayOffset | src/DateTime.php:1476-1479 | from year 0 on, `so` is the year plus its Gregorian leap days (year/4 - year/100 + year/400) plus 2, the count that moves March's weekdays on by one per year and two after a leap day |
| Calendar.Epact | src/DateTime.php:1482-1485 | as written the epact is bumped by one exactly when it is 24 in the eleventh year of the cycle |
| Calendar.ClaviusEpact | src/DateTime.php:1482-1485 | the intended correction: bumped exactly for 24, or for 25 after the eleventh year; never 24 afterwards |
| Calendar.FullMoonDay | src/DateTime.php:1487-1491 | the paschal full moon is 44 or 74 minus the epact, a day of March from the 21st on |
| Calendar.SundayAfter | src/DateTime.php:1492 | the next day after n, at most a week on, that falls on a Sunday |
| Calendar.MonthDay | src/DateTime.php:1493-1518 | day n of March (1..61) becomes March n or April n-31 in every year; the leap flag added and removed again cancels |
| Calendar.EasterSunday | src/DateTime.php:1463-1532 | from 1970 to 2037 the host's `easter_date` decides; every other year is computed |
| Calendar.ComputedEasterInSeason | src/DateTime.php:1475-1492 | as written, for years 0..9999 the full moon falls from March 21 to April 19 and the Sunday after it is day 22 to 57 from March 1, with (so + n) a multiple of 7 |
| Calendar.CorrectedEasterInSeason | src/DateTime.php:1475-1492 | with the intended correction the full moon falls by April 18 and the Sunday after it is day 22 to 56 from March 1 |
| Calendar.ComputedEaster | src/DateTime.php:1475-1520 | as written, for years 0..9999 the computed Easter is in the same year, between March 22 and April 26 |
| Calendar.CorrectedComputedEaster | src/DateTime.php:1475-1520 | with Clavius' correction, for years 0..9999 Easter falls between March 22 and April 25 |
| Calendar.EasterRulesAgree | src/DateTime.php:1482-1485 | both rules give the same Easter whenever the epact needs no correction |
| Calendar.ComputedEaster1960 | tests/Niirrty/Date/Tests/DateTimeTest.php:654 | 1960 gives April 17 |
| Calendar.ComputedEaster1961 | tests/Niirrty/Date/Tests/DateTimeTest.php:655 | 1961 gives April 2 |
| Calendar.ComputedEaster1962 | tests/Niirrty/Date/Tests/DateTimeTest.php:656 | 1962 gives April 22 |
| Calendar.ComputedEaster1963 | tests/Niirrty/Date/Tests/DateTimeTest.php:657 | 1963 gives April 14 |
| Calendar.ComputedEaster2076 | src/DateTime.php:1482-1485 | 2076 has epact 24 in year 6 of the cycle: as written Easter falls on April 26, corrected on April 19 |
| Calendar.ComputedEaster1954 | src/DateTime.php:1482-1485 | 1954 has epact 25 in year 17: as written April 25, corrected April 18 |
| Calendar.Quarter | src/DateTime.php:226-233 | the quarter of a month 1..12 is the q in 1..4 with 3(q-1) < month <= 3q |
| Calendar.QuarterUnique | src/DateTime.php:226-233 | no other q has the month among its three months |
| Calendar.WeekOfMonth | src/DateTime.php:374-379 | `ceil(day / 7)` of a day 1..31 is the w in 1..5 with 7(w-1) < day <= 7w |
| Calendar.WeekOfMonthUnique | src/DateTime.php:374-379 | no other w has the day among its seven days |
| MonthMatching.Fold | src/DateTime.php:50-78 | the `i` flag without `u`: exactly A-Z fold to a-z, every other character stays |
| MonthMatching.FirstAlternative | src/DateTime.php:50-78 | the alternative chosen at a position is the first listed that matches there; none listed before it matches |
| MonthMatching.NoAlternativeAfterReplace | src/DateTime.php:1086-1090 | after one alternation is replaced everywhere, none of its names occurs in the output |
| MonthMatching.OccursInOutput | src/DateTime.php:1086-1090 | the replacement creates no name: every name in the output was in the input |
| MonthMatching.ReplaceAll | src/DateTime.php:1086-1090 | one alternation replaced everywhere, the first listed alternative winning at each position; text in which no alternative occurs is left as it is |
| MonthMatching.ReplaceAllAroundPlain | src/DateTime.php:1086-1090 | the replacement works in place: a plain character (digit, space, `.`, `:`, `+`, `/`, `-`) stays where it stands and the text on each side of it is replaced on its own |
| MonthMatching.ReplaceAllOfName | src/DateTime.php:1086-1090 | a text that is exactly one matched name becomes exactly one copy of the replacement |
| MonthMatching.ReplaceAllKeepsPlain | src/DateTime.php:1086-1090 | plain text passes through the replacement unchanged |
| MonthMatching.ReplaceAllIdempotent | src/DateTime.php:1086-1090 | replacing an alternation twice changes nothing the second time |
| MonthMatching.ReplaceGroupsClears | src/DateTime.php:1082-1090 | after the alternations are applied one after another, none of their names is left |
| MonthMatching.ReplaceGroupsKeepsNoneOccurs | src/DateTime.php:1082-1090 | a later array of patterns does not bring back names an earlier one removed |
| MonthMatching.ReplaceGroups | src/DateTime.php:1082-1090 | the alternations applied one after another, each to the output of the one before; text without any of their names passes through unchanged |
| MonthNames.TablesWellFormed | src/DateTime.php:50-78 | every name of the 24 tables is non-empty and holds no digit or other kept character, and the replacements are "1." to "12." |
| MonthNames.RewriteMonthNames | src/DateTime.php:1080-1090 | long month names first, then abbreviations; after the rewrite no long or short month name is left anywhere |
| MonthNames.RewriteWithoutMonthName | src/DateTime.php:1080-1090 | text without month names is not changed |
| MonthNames.RewriteMonthNamesIdempotent | src/DateTime.php:1080-1090 | rewriting twice is rewriting once |
| MonthNames.JanuarYearInJanuaryGroup | src/DateTime.php:51 | the January alternation turns "Januar 2015" into "1. 2015": the name is replaced in place and the year is kept |
| MonthNames.RewriteJanuarExample | src/DateTime.php:51 | "Januar" becomes "1.", found after "january", "januaro" and "januari" fail |
| MonthNames.CervenecInJuneGroup | src/DateTime.php:55-57 | the June group meets July's "červenec" first and turns it into "6.ec" through "červen" |
| MonthNames.ListopadIsOctober | src/DateTime.php:60-61 | "listopad" is listed under October and November; from October on it always becomes "10." |
| Sanitise.Collapse | src/DateTime.php:1092 | the output holds only kept characters and spaces, each space followed by a kept character; it starts with a space exactly when the input starts outside the class |
| Sanitise.CollapseKeepsKept | src/DateTime.php:1092 | the kept characters of the input survive, in order, and no other is added |
| Sanitise.CollapseIdempotent | src/DateTime.php:1092 | collapsing twice is collapsing once |
| Sanitise.CollapseOfUnkept | src/DateTime.php:1092 | a non-empty run of characters outside the kept set becomes one space |
| Sanitise.CollapseAppend | src/DateTime.php:1092 | two texts that meet at a kept character collapse separately: the collapse of the whole is the two collapses joined |
| Sanitise.CollapseInPlaceExample | src/DateTime.php:1092 | each run is replaced where it stands: "1a2" becomes "1 2" and "1ab" becomes "1 " |
| Sanitise.Squash | src/DateTime.php:1092 | the output has no two white-space characters in a row and starts with white space exactly when the input does |
| Sanitise.SquashWithoutRun | src/DateTime.php:1092 | text without a run of white space is left alone |
| Sanitise.SquashOfRun | src/DateTime.php:1092 | a run of two or more white-space characters becomes one space |
| Sanitise.SquashAppend | src/DateTime.php:1092 | two texts that do not meet inside a run of white space squash separately: the squash of the whole is the two squashes joined |
| Sanitise.SquashAfterCollapse | src/DateTime.php:1092 | after the collapse the `\s{2,}` pass has nothing to do |
| Sanitise.Trim | src/DateTime.php:1095-1102 | the trimmed text is a window of the input with only stripped characters before and after it, and it neither starts nor ends with a character `trim` strips |
| Sanitise.TrimEmptyIff | src/DateTime.php:1095 | the trim is empty exactly when every character is one `trim` strips |
| Sanitise.TrimIdempotent | src/DateTime.php:1095-1102 | trimming twice is trimming once |
| Sanitise.Clean | src/DateTime.php:1092 | the two replacements leave kept characters with single spaces between them, and a leading space exactly when the input starts outside the kept set |
| Sanitise.CleanTrimmedShape | src/DateTime.php:1092-1102 | what goes back to the host holds kept characters with single spaces between them, none at either end, and exactly the input's kept characters in order |
| Sanitise.CleanTextFixed | src/DateTime.php:1092-1102 | text already in that shape passes through the clean-up unchanged |
| Sanitise.CleanExample | tests/Niirrty/Date/Tests/DateTimeTest.php:519-521 | "2015-07-29 \r\n\t 00:10:20" becomes "2015-07-29 00:10:20" |
| DateParse.ParseString | src/DateTime.php:1074-1107 | never throws; a text the host accepts is returned as built; otherwise the cleaned-up fallback is tried unless it is empty, and nothing is parsed exactly when both attempts fail or the fallback is empty |
| DateParse.Rebuild | src/DateTime.php:1030-1034 | a host date-time or a timestamp is rebuilt from its text and zone; a host rejection is an uncaught throw |
| DateParse.Parse | src/DateTime.php:1015-1109 | null, arrays, `stdClass` objects and values without a string give nothing; an own date-time comes back unchanged; a host date-time is rebuilt from its text and zone, and a timestamp from the host's rendering of it in the given zone; only those two branches can throw; strings and stringable values take the string branch |
| DateParse.TryParse | src/DateTime.php:1122-1139 | true exactly when `Parse` yields a date-time, handing it out; otherwise the out-value is null |
| DateParse.ParseOwnIsIdentity | src/DateTime.php:1024-1028 | a parsed value, parsed again, comes back unchanged |
| DateParse.OtherParsesAsString | src/DateTime.php:1053-1070 | a value with a string form parses exactly as that string |
| DateParse.Fallback | src/DateTime.php:1080-1102 | the retried text is clean (kept characters, single inner spaces, none at either end) and keeps every kept character of the rewritten input, in order |
| DateParse.FallbackEmptyIff | src/DateTime.php:1095-1098 | the cascade gives up early exactly when the cleaned text is all trimmable white space |
| DateParse.FallbackIdempotent | src/DateTime.php:1080-1102 | the fallback of the fallback is the fallback itself |
| DateParse.ParseJanuar | src/DateTime.php:1074-1107 | "Januar" rejected by the host is retried as "1." |
| IntervalBuilder.Init | src/DateIntervalBuilder.php:43-48 | all six counters start at 0 |
| IntervalBuilder.SetYears | src/DateIntervalBuilder.php:55-62 | sets the years and leaves the five other counters as they were |
| IntervalBuilder.SetMonths | src/DateIntervalBuilder.php:69-76 | sets the months and nothing else |
| IntervalBuilder.SetDays | src/DateIntervalBuilder.php:83-90 | sets the days and nothing else |
| IntervalBuilder.SetHours | src/DateIntervalBuilder.php:114-121 | sets the hours and nothing else |
| IntervalBuilder.SetMinutes | src/DateIntervalBuilder.php:128-135 | sets the minutes and nothing else |
| IntervalBuilder.SetSeconds | src/DateIntervalBuilder.php:142-149 | sets the seconds and nothing else |
| IntervalBuilder.SetDateParts | src/DateIntervalBuilder.php:98-107 | the same as setting years, months and days one by one |
| IntervalBuilder.SetTimeParts | src/DateIntervalBuilder.php:157-166 | the same as setting hours, minutes and seconds one by one |
| IntervalBuilder.Set | src/DateIntervalBuilder.php:55-149 | the setter of a counter sets that counter to the value and leaves the five others as they were |
| IntervalBuilder.SettersCommute | src/DateIntervalBuilder.php:55-149 | for every two different counters, setting one and then the other gives the same builder as the other order |
| IntervalBuilder.AbsText | src/DateIntervalBuilder.php:179-186 | `abs(n)` as text reads back as the magnitude; the smallest 64-bit value turns into a float text instead |
| IntervalBuilder.TimeSectionShape | src/DateIntervalBuilder.php:182-186 | the flag writes 'T' exactly once, right before the first present time unit, and not at all when none is present |
| IntervalBuilder.Spec | src/DateIntervalBuilder.php:174-187 | reading the duration text back gives the magnitudes of the six counters in order, 'M' before 'T' as months and after it as minutes; the text is unreadable exactly for an all-zero builder or one with a magnitude of 10^12 or more (the smallest 64-bit value among them) |
| IntervalBuilder.ToDateInterval | src/DateIntervalBuilder.php:174-195 | succeeds exactly when no counter is oversized and not all are zero; the interval's fields are the counters' magnitudes and `invert` is 1 exactly when asked |
| IntervalBuilder.SecondsAtNumberLimit | src/DateIntervalBuilder.php:187-189 | 999999999999 seconds give an interval; 10^12 seconds and the smallest 64-bit value make the host reject the text |
| IntervalBuilder.InitIsRejected | src/DateIntervalBuilder.php:177-189 | a fresh builder writes just "P", which the host rejects |
| IntervalBuilder.SpecIgnoresSign | src/DateIntervalBuilder.php:179-186 | negating every counter leaves the text unchanged: the direction is carried only by `invert` |
| IntervalBuilder.SpecOfMagnitudes | src/DateIntervalBuilder.php:179-186 | builders with the same magnitudes write the same text |
| IntervalBuilder.ExampleSpec | tests/Niirrty/Date/Tests/DateIntervalBuilderTest.php:34-37 | 2 years, 6 months, 12 days, 8 h 27 min 14 s are written as "P2Y6M12DT8H27M14S" |
| IntervalBuilder.ExampleInterval | tests/Niirrty/Date/Tests/DateIntervalBuilderTest.php:34-44 | that builder gives the interval 2, 6, 12, 8, 27, 14, not inverted |

## Left out

- Host `\DateTime` behaviour: its string grammar, timestamps, time zones and interval arithmetic. This also covers every method that only forwards to it (getters, `add*`/`move*`, `equals`, `FromFormat`, `Create`, ...). The constructor and the timestamp rendering are the uninterpreted functions of `DateParse.Host`.
- The 'y-m-d H:i:s' re-encoding at src/DateTime.php:1033 and src/DateTime.php:1050 belongs to the host. The model takes the host's text as given.
- The `easter_date` branch for 1970 to 2037 is a foreign call, passed in as `easterDate`. The Europe/Berlin zone fix-up at src/DateTime.php:1524-1528 needs the time-zone database.
- Calendar.EasterSunday: the model forms `5 * year` (`Calendar.WeekdayOffset`) exactly for every year. In PHP the product at src/DateTime.php:1479 leaves the 64-bit range and becomes a float once |year| exceeds 1844674407370955161 (PHP_INT_MAX / 5). `self::div` then works on that float, and the model does not follow it there.
- The wall clock (`Current*`, `Now`) is read by the source. Here it is an explicit `wall` argument.
- `Type`/`TypeTool` belong to an external library. Two of their decisions are the caller's choice of `DateParse.Value` here. `TypeTool::IsInteger` (src/DateTime.php:1041) decides between `IntegerLike` and `Str`. The conversion of other values to strings (src/DateTime.php:1053-1070) is the optional string of `Value.Other`.
- `Time::Parse`, `Time::TryParse`, `Time::FromString` and the non-`Time` branches of `compare` and `equals` all go through host parsing.
- The legacy `serialize()`/`unserialize()` (src/Time.php:757-785) use PHP's serialisation format. `DateTime::FromFile` reads the file system.
- `FromArray` entries that are not integers (strings, floats) are left out. The model reads integer entries only, as `map<string, int>`.
- MonthNames.RewriteJanuarExample, MonthNames.CervenecInJuneGroup, MonthNames.ListopadIsOctober: the concrete month-name cases are proved for the group that decides them. Proving that no earlier group touches "červenec" would mean checking well over a hundred names against it, so the whole-rewrite result for it is not stated. For "listopad" the result is stated from the October group on.
- IntervalBuilder.AbsText: the float text of `abs(PHP_INT_MIN)` is modelled only by its shape (a digit, then '.'), not its exact digits. The host rejects that text either way.
- The host's interval parser accepts more forms than the ones the builder writes (week units, fractions, the combined form). `IntervalBuilder.Decode` reads only the designator forms the builder can produce. Its limit of twelve digits per number is taken from PHP's timelib, which is not part of this model.
- `TimeOfDay.Create` models the constructor and the static `Create`. The `(int)` casts at src/Time.php:88-90 are no-ops on the clamped ints.

## Findings

| source | as written | input that shows it | evidently intended | confidence | as-written member | corrected member |
|---|---|---|---|---|---|---|
| src/DateTime.php:1552-1555 | `(y % 4 == 0 and !(y % 100 == 0)) and (y % 400 != 0)`: every century year is common | 2000: `LeapYear(2000)` is false | the Gregorian rule, `(y % 4 == 0 and y % 100 != 0) or y % 400 == 0` | high, not executed | Calendar.LeapYear (Calendar.LeapYear2000) | Calendar.GregorianLeapYear (Calendar.LeapYearDiffersOnlyEvery400Years) |
| src/TimeFormat.php:44 | `SHORT_12H = 'H:i A'`, whose fast path (src/Time.php:568-576) prints the 12-hour hour | 18:18:04 with 'H:i A': the fast path prints "06:18 PM", the scan of the same format "18:18 PM" | 'h:i A', as the comment and the tests read | high, not executed | TimeFormatting.Format (TimeFormatting.Short12hFastPathDiverges) | TimeFormatting.FormatIntended (TimeFormatting.Short12hIntendedAgrees) |
| src/DateTime.php:1482 | `(pakte === 25 \|\| gz === 11) && pakte === 24`: only an epact of 24 in year 11 of the cycle is corrected | 2076 (epact 24, year 6): Easter April 26 instead of April 19; 1954 (epact 25, year 17): April 25 instead of April 18 | Clavius' rule: 24, or 25 after year 11, counts one more | medium, not executed | Calendar.Epact (Calendar.ComputedEaster2076) | Calendar.ClaviusEpact (Calendar.CorrectedComputedEaster) |
