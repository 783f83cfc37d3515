/**
 * Rendering a `Time`: the escape-aware `format` mini-language, its four
 * whole-string fast paths and the `HH:MM:SS` string form.
 */
module TimeFormatting {
  import opened TimeOfDay
  import opened Decimal
  import opened Wrappers

  /** The four `TimeFormat` constants. */
  const Full24h: string := "H:i:s"
  const Short24h: string := "H:i"
  const Full12h: string := "h:i:s A"
  /** Spelled with a 24-hour `H`, although its documentation reads 'h:i A'. */
  const Short12h: string := "H:i A"
  /** The short 12-hour format as its documentation spells it. */
  const Short12hIntended: string := "h:i A"

  const Backslash: char := '\\'

  /** The directive characters `a A g G h H i s`. */
  predicate IsDirective(c: char) {
    c == 'a' || c == 'A' || c == 'g' || c == 'G' || c == 'h' || c == 'H' || c == 'i' || c == 's'
  }

  function Backslashes(n: nat): (r: string)
    ensures |r| == n
  {
    if n == 0 then "" else Backslashes(n - 1) + [Backslash]
  }

  lemma {:induction false} BackslashesOnly(n: nat)
    ensures forall i :: 0 <= i < n ==> Backslashes(n)[i] == Backslash
  {
    if n > 0 {
      BackslashesOnly(n - 1);
      assert Backslashes(n) == Backslashes(n - 1) + [Backslash];
    }
  }

  /** What a directive character stands for. */
  function Substitute(t: ValidTime, c: char): (r: string)
    requires IsDirective(c)
  {
    match c
    case 'a' => Meridiem(t, true)
    case 'A' => Meridiem(t, false)
    case 'g' => Digits(Hour12(t))
    case 'G' => Digits(t.hours)
    case 'h' => Pad2(Hour12(t))
    case 'H' => Pad2(t.hours)
    case 'i' => Pad2(t.minutes)
    case 's' => Pad2(t.seconds)
  }

  /**
   * The directives print the meridiem, the 12- or 24-hour hour (unpadded for
   * 'g' and 'G', two digits for 'h' and 'H'), and the two-digit minutes and
   * seconds.
   */
  lemma SubstituteMeaning(t: ValidTime, c: char)
    requires IsDirective(c)
    ensures c == 'a' || c == 'A' ==> Substitute(t, c) == Meridiem(t, c == 'a')
    ensures c == 'g' || c == 'h' ==> AllDigits(Substitute(t, c)) && Value(Substitute(t, c)) == Hour12(t)
    ensures c == 'G' || c == 'H' ==> AllDigits(Substitute(t, c)) && Value(Substitute(t, c)) == t.hours
    ensures c == 'i' ==> AllDigits(Substitute(t, c)) && Value(Substitute(t, c)) == t.minutes
    ensures c == 's' ==> AllDigits(Substitute(t, c)) && Value(Substitute(t, c)) == t.seconds
    ensures c == 'h' || c == 'H' || c == 'i' || c == 's' ==> |Substitute(t, c)| == 2
  {
    ValueOfDigits(Hour12(t));
    ValueOfDigits(t.hours);
  }

  /** What a character preceded by `n` backslashes turns into. */
  function EscapedChar(t: ValidTime, n: nat, c: char): string
    requires c != Backslash
  {
    if IsDirective(c) then
      if n > 0 && n % 2 != 0 then
        // odd count: the directive is escaped
        Backslashes((n - 1) / 2) + [c]
      else
        Backslashes(n / 2) + Substitute(t, c)
    else
      Backslashes(n) + [c]
  }

  /**
   * The generic interpreter: a left-to-right scan of `f` carrying the count of
   * backslashes seen since the last other character.
   */
  function Interpret(t: ValidTime, f: string, pending: nat): string
    decreases |f|
  {
    if |f| == 0 then
      ""  // backslashes left pending at the end are dropped
    else if f[0] == Backslash then
      Interpret(t, f[1..], pending + 1)
    else
      EscapedChar(t, pending, f[0]) + Interpret(t, f[1..], 0)
  }

  /** One step of the scan over a character that is not a backslash. */
  lemma InterpretStep(t: ValidTime, c: char, rest: string, pending: nat)
    requires c != Backslash
    ensures Interpret(t, [c] + rest, pending) == EscapedChar(t, pending, c) + Interpret(t, rest, 0)
  {
    assert ([c] + rest)[0] == c;
    assert ([c] + rest)[1..] == rest;
  }

  /** One step of the scan over a backslash: it is only counted. */
  lemma InterpretBackslashStep(t: ValidTime, rest: string, pending: nat)
    ensures Interpret(t, [Backslash] + rest, pending) == Interpret(t, rest, pending + 1)
  {
    assert ([Backslash] + rest)[0] == Backslash;
    assert ([Backslash] + rest)[1..] == rest;
  }

  /** What an unescaped character turns into. */
  function Render(t: ValidTime, c: char): string {
    if IsDirective(c) then Substitute(t, c) else [c]
  }

  /** One step of the scan over a character with no backslash before it. */
  lemma InterpretPlainStep(t: ValidTime, c: char, rest: string)
    requires c != Backslash
    ensures Interpret(t, [c] + rest, 0) == Render(t, c) + Interpret(t, rest, 0)
  {
    InterpretStep(t, c, rest, 0);
    EscapedPlain(t, c);
  }

  /** With no backslash before it, a character renders as itself or its directive's value. */
  lemma EscapedPlain(t: ValidTime, c: char)
    requires c != Backslash
    ensures EscapedChar(t, 0, c) == Render(t, c)
  {
    assert Backslashes(0) == "";
  }

  /** A format that does not end inside a run of backslashes can be rendered piecewise. */
  lemma {:induction false} InterpretAppend(t: ValidTime, f: string, g: string, pending: nat)
    requires |f| > 0 && f[|f| - 1] != Backslash
    ensures Interpret(t, f + g, pending) == Interpret(t, f, pending) + Interpret(t, g, 0)
    decreases |f|
  {
    var fg := f + g;
    assert fg[0] == f[0];
    assert fg[1..] == f[1..] + g;
    if f[0] == Backslash {
      InterpretAppend(t, f[1..], g, pending + 1);
    } else if |f| == 1 {
      assert f[1..] + g == g;
    } else {
      InterpretAppend(t, f[1..], g, 0);
    }
  }

  /**
   * Run-length escaping: a run of `n` backslashes and the character after it
   * are rendered together, independently of what follows.
   */
  lemma {:induction false} InterpretRun(t: ValidTime, n: nat, c: char, rest: string, pending: nat)
    requires c != Backslash
    ensures Interpret(t, Backslashes(n) + [c] + rest, pending) == EscapedChar(t, pending + n, c) + Interpret(t, rest, 0)
    decreases n
  {
    var f := Backslashes(n) + [c] + rest;
    if n == 0 {
      assert f == [c] + rest;
      InterpretStep(t, c, rest, pending);
    } else {
      BackslashesCons(n);
      assert f[0] == Backslash;
      assert f[1..] == Backslashes(n - 1) + [c] + rest;
      assert Interpret(t, f, pending) == Interpret(t, f[1..], pending + 1);
      InterpretRun(t, n - 1, c, rest, pending + 1);
      var m := pending + 1 + (n - 1);
      assert m == pending + n;
    }
  }

  /**
   * The escape rule of the scan: before a directive, an even run of `n`
   * backslashes prints half of them and the directive's value, an odd run
   * prints (n - 1) / 2 of them and the directive letter itself; before any
   * other character the whole run is printed.
   */
  lemma EscapeRule(t: ValidTime, n: nat, c: char, rest: string)
    requires c != Backslash
    ensures IsDirective(c) && n % 2 == 0 ==>
              Interpret(t, Backslashes(n) + [c] + rest, 0) == Backslashes(n / 2) + Substitute(t, c) + Interpret(t, rest, 0)
    ensures IsDirective(c) && n % 2 == 1 ==>
              Interpret(t, Backslashes(n) + [c] + rest, 0) == Backslashes((n - 1) / 2) + [c] + Interpret(t, rest, 0)
    ensures !IsDirective(c) ==>
              Interpret(t, Backslashes(n) + [c] + rest, 0) == Backslashes(n) + [c] + Interpret(t, rest, 0)
  {
    InterpretRun(t, n, c, rest, 0);
  }

  lemma BackslashesCons(n: nat)
    requires n > 0
    ensures Backslashes(n) == [Backslash] + Backslashes(n - 1)
  {
    BackslashesOnly(n);
    BackslashesOnly(n - 1);
    assert forall i :: 0 <= i < n ==> Backslashes(n)[i] == ([Backslash] + Backslashes(n - 1))[i];
  }

  /** Backslashes still pending at the end of the format produce nothing. */
  lemma {:induction false} InterpretTrailingBackslashes(t: ValidTime, n: nat, pending: nat)
    ensures Interpret(t, Backslashes(n), pending) == ""
    decreases n
  {
    if n > 0 {
      BackslashesCons(n);
      assert Backslashes(n) == [Backslash] + Backslashes(n - 1);
      InterpretBackslashStep(t, Backslashes(n - 1), pending);
      InterpretTrailingBackslashes(t, n - 1, pending + 1);
    }
  }

  /** Text without backslashes and directives is copied unchanged. */
  lemma {:induction false} InterpretPlainText(t: ValidTime, f: string)
    requires forall i :: 0 <= i < |f| ==> f[i] != Backslash && !IsDirective(f[i])
    ensures Interpret(t, f, 0) == f
    decreases |f|
  {
    if |f| > 0 {
      InterpretPlainText(t, f[1..]);
      assert f == [f[0]] + f[1..];
      InterpretStep(t, f[0], f[1..], 0);
    }
  }

  /**
   * `format`: the four constant formats are answered directly, every other
   * format string goes through the generic interpreter.
   */
  function Format(t: ValidTime, f: string): (r: string)
    ensures f !in {Full12h, Short12h, Full24h, Short24h} ==> r == Interpret(t, f, 0)
    ensures f == Short12h ==> |r| == 8 && AllDigits(r[..2]) && Value(r[..2]) == Hour12(t)
    ensures f == Short12h ==> r == Interpret(t, Short12hIntended, 0)
  {
    if f == Full12h then
      Pad2(Hour12(t)) + (":" + (Pad2(t.minutes) + (":" + (Pad2(t.seconds) + (" " + (Meridiem(t, false)))))))
    else if f == Short12h then
      Short12hIntendedAgrees(t);
      assert (Pad2(Hour12(t)) + (":" + (Pad2(t.minutes) + (" " + (Meridiem(t, false))))))[..2] == Pad2(Hour12(t));
      Pad2(Hour12(t)) + (":" + (Pad2(t.minutes) + (" " + (Meridiem(t, false)))))
    else if f == Full24h then
      Pad2(t.hours) + (":" + (Pad2(t.minutes) + (":" + (Pad2(t.seconds)))))
    else if f == Short24h then
      Pad2(t.hours) + (":" + (Pad2(t.minutes)))
    else
      Interpret(t, f, 0)
  }

  /** What each character of the constant formats renders as. */
  lemma RenderTable(t: ValidTime)
    ensures Render(t, 'a') == Meridiem(t, true) && Render(t, 'A') == Meridiem(t, false)
    ensures Render(t, 'g') == Digits(Hour12(t)) && Render(t, 'G') == Digits(t.hours)
    ensures Render(t, 'h') == Pad2(Hour12(t)) && Render(t, 'H') == Pad2(t.hours)
    ensures Render(t, 'i') == Pad2(t.minutes) && Render(t, 's') == Pad2(t.seconds)
    ensures Render(t, ':') == ":" && Render(t, ' ') == " "
  {
    RenderMeridiemAndHours(t);
    RenderPadded(t);
    RenderSeparators(t);
  }

  lemma RenderMeridiemAndHours(t: ValidTime)
    ensures Render(t, 'a') == Meridiem(t, true) && Render(t, 'A') == Meridiem(t, false)
    ensures Render(t, 'g') == Digits(Hour12(t)) && Render(t, 'G') == Digits(t.hours)
  {
  }

  lemma RenderPadded(t: ValidTime)
    ensures Render(t, 'h') == Pad2(Hour12(t)) && Render(t, 'H') == Pad2(t.hours)
    ensures Render(t, 'i') == Pad2(t.minutes) && Render(t, 's') == Pad2(t.seconds)
  {
    RenderPaddedHours(t);
    RenderPaddedMinutesSeconds(t);
  }

  lemma RenderPaddedHours(t: ValidTime)
    ensures Render(t, 'h') == Pad2(Hour12(t)) && Render(t, 'H') == Pad2(t.hours)
  {
  }

  lemma RenderPaddedMinutesSeconds(t: ValidTime)
    ensures Render(t, 'i') == Pad2(t.minutes) && Render(t, 's') == Pad2(t.seconds)
  {
  }

  lemma RenderSeparators(t: ValidTime)
    ensures Render(t, ':') == ":" && Render(t, ' ') == " "
  {
  }

  /** A format that starts with a character other than a backslash. */
  lemma InterpretCons(t: ValidTime, c: char, rest: string)
    requires c != Backslash
    ensures Interpret(t, [c] + rest, 0) == Render(t, c) + Interpret(t, rest, 0)
  {
    InterpretPlainStep(t, c, rest);
  }

  /** A format of one character other than a backslash. */
  lemma InterpretOne(t: ValidTime, c: char)
    requires c != Backslash
    ensures Interpret(t, [c], 0) == Render(t, c)
  {
    InterpretCons(t, c, "");
    assert [c] + "" == [c];
    assert Render(t, c) + "" == Render(t, c);
  }

  lemma InterpretTwo(t: ValidTime, a: char, b: char)
    requires a != Backslash && b != Backslash
    ensures Interpret(t, [a, b], 0) == Render(t, a) + Render(t, b)
  {
    InterpretOne(t, b);
    InterpretCons(t, a, [b]);
    assert [a] + [b] == [a, b];
  }

  lemma InterpretThree(t: ValidTime, a: char, b: char, c: char)
    requires a != Backslash && b != Backslash && c != Backslash
    ensures Interpret(t, [a, b, c], 0) == Render(t, a) + (Render(t, b) + Render(t, c))
  {
    InterpretTwo(t, b, c);
    InterpretCons(t, a, [b, c]);
    assert [a] + [b, c] == [a, b, c];
  }

  lemma InterpretFour(t: ValidTime, a: char, b: char, c: char, d: char)
    requires a != Backslash && b != Backslash && c != Backslash && d != Backslash
    ensures Interpret(t, [a, b, c, d], 0) == Render(t, a) + (Render(t, b) + (Render(t, c) + Render(t, d)))
  {
    InterpretThree(t, b, c, d);
    InterpretCons(t, a, [b, c, d]);
    assert [a] + [b, c, d] == [a, b, c, d];
  }

  lemma InterpretFive(t: ValidTime, a: char, b: char, c: char, d: char, e: char)
    requires a != Backslash && b != Backslash && c != Backslash && d != Backslash && e != Backslash
    ensures Interpret(t, [a, b, c, d, e], 0)
         == Render(t, a) + (Render(t, b) + (Render(t, c) + (Render(t, d) + Render(t, e))))
  {
    InterpretFour(t, b, c, d, e);
    InterpretCons(t, a, [b, c, d, e]);
    assert [a] + [b, c, d, e] == [a, b, c, d, e];
  }

  /** The first half of 'h:i:s A' through the interpreter. */
  lemma InterpretHourMinute12(t: ValidTime)
    ensures Interpret(t, "h:i", 0) == Pad2(Hour12(t)) + (":" + Pad2(t.minutes))
  {
    InterpretThree(t, 'h', ':', 'i');
    RenderTable(t);
  }

  /** The second half of 'h:i:s A' through the interpreter. */
  lemma InterpretSecondMeridiem(t: ValidTime)
    ensures Interpret(t, ":s A", 0) == ":" + (Pad2(t.seconds) + (" " + Meridiem(t, false)))
  {
    InterpretFour(t, ':', 's', ' ', 'A');
    RenderTable(t);
  }

  /** The 'h:i:s A' fast path prints what the interpreter would print. */
  lemma Full12hFastPathAgrees(t: ValidTime)
    ensures Format(t, Full12h) == Interpret(t, Full12h, 0)
  {
    assert "h:i" + ":s A" == Full12h;
    InterpretAppend(t, "h:i", ":s A", 0);
    InterpretHourMinute12(t);
    InterpretSecondMeridiem(t);
    var hour, minute := Pad2(Hour12(t)), Pad2(t.minutes);
    var tail := ":" + (Pad2(t.seconds) + (" " + Meridiem(t, false)));
    ConcatAssoc(hour, ":" + minute, tail);
    ConcatAssoc(":", minute, tail);
  }

  lemma ConcatAssoc(x: string, y: string, z: string)
    ensures (x + y) + z == x + (y + z)
  {
  }

  /** The 'H:i:s' fast path prints what the interpreter would print. */
  lemma Full24hFastPathAgrees(t: ValidTime)
    ensures Format(t, Full24h) == Interpret(t, Full24h, 0)
  {
    InterpretFive(t, 'H', ':', 'i', ':', 's');
    RenderTable(t);
  }

  /** The 'H:i' fast path prints what the interpreter would print. */
  lemma Short24hFastPathAgrees(t: ValidTime)
    ensures Format(t, Short24h) == Interpret(t, Short24h, 0)
  {
    InterpretThree(t, 'H', ':', 'i');
    RenderTable(t);
  }

  /** 'h:i A' through the interpreter, the output the intended fast path must match. */
  lemma Short12hIntendedAgrees(t: ValidTime)
    ensures Interpret(t, Short12hIntended, 0)
         == Pad2(Hour12(t)) + (":" + (Pad2(t.minutes) + (" " + (Meridiem(t, false)))))
  {
    InterpretFive(t, 'h', ':', 'i', ' ', 'A');
    RenderTable(t);
  }

  /** The short 12-hour constant spelled 'H:i A' renders through the interpreter with a 24-hour hour. */
  lemma Short12hThroughInterpreter(t: ValidTime)
    ensures Interpret(t, Short12h, 0)
         == Pad2(t.hours) + (":" + (Pad2(t.minutes) + (" " + (Meridiem(t, false)))))
  {
    InterpretFive(t, 'H', ':', 'i', ' ', 'A');
    RenderTable(t);
  }

  /** The fourth does not: at 18:18 'H:i A' prints the 12-hour hour, the interpreter the 24-hour one. */
  lemma Short12hFastPathDiverges()
    ensures Format(Time(18, 18, 4), Short12h) == "06:18 PM"
    ensures Interpret(Time(18, 18, 4), Short12h, 0) == "18:18 PM"
  {
    var t: ValidTime := Time(18, 18, 4);
    EveningText(t);
    Short12hThroughInterpreter(t);
    assert Format(t, Short12h) == "06" + (":" + ("18" + (" " + "PM")));
  }

  /** The numerals and meridiem printed at 18:18:04. */
  lemma EveningText(t: ValidTime)
    requires t == Time(18, 18, 4)
    ensures Hour12(t) == 6
    ensures Pad2(Hour12(t)) == "06" && Pad2(t.hours) == "18" && Pad2(t.minutes) == "18" && Pad2(t.seconds) == "04"
    ensures Digits(Hour12(t)) == "6" && Digits(t.hours) == "18"
    ensures Meridiem(t, false) == "PM" && Meridiem(t, true) == "pm"
    ensures "pm" + ("PM" + ("6" + ("18" + ("06" + ("18" + ("18" + "04")))))) == "pmPM61806181804"
  {
    ExampleNumerals();
  }

  /** `format` with the short 12-hour constant spelled 'h:i A'. */
  function FormatIntended(t: ValidTime, f: string): (r: string)
    ensures r == Interpret(t, f, 0)
  {
    Full12hFastPathAgrees(t);
    Full24hFastPathAgrees(t);
    Short24hFastPathAgrees(t);
    Short12hIntendedAgrees(t);
    if f == Full12h then
      Pad2(Hour12(t)) + (":" + (Pad2(t.minutes) + (":" + (Pad2(t.seconds) + (" " + (Meridiem(t, false)))))))
    else if f == Short12hIntended then
      Pad2(Hour12(t)) + (":" + (Pad2(t.minutes) + (" " + (Meridiem(t, false)))))
    else if f == Full24h then
      Pad2(t.hours) + (":" + (Pad2(t.minutes) + (":" + (Pad2(t.seconds)))))
    else if f == Short24h then
      Pad2(t.hours) + (":" + (Pad2(t.minutes)))
    else
      Interpret(t, f, 0)
  }

  /** `__toString`: zero-padded 'HH:MM:SS'. */
  function ToString(t: ValidTime): (r: string)
    ensures |r| == 8 && r[2] == ':' && r[5] == ':'
    ensures AllDigits(r[0..2]) && Value(r[0..2]) == t.hours
    ensures AllDigits(r[3..5]) && Value(r[3..5]) == t.minutes
    ensures AllDigits(r[6..8]) && Value(r[6..8]) == t.seconds
  {
    var hh, mm, ss := Pad2(t.hours), Pad2(t.minutes), Pad2(t.seconds);
    var r := hh + (":" + (mm + (":" + ss)));
    assert r[0..2] == hh;
    assert r[3..5] == mm;
    assert r[6..8] == ss;
    r
  }

  /** `__toString` prints what the format 'H:i:s' prints. */
  lemma ToStringIsFull24h(t: ValidTime)
    ensures ToString(t) == Format(t, Full24h)
    ensures ToString(t) == Interpret(t, Full24h, 0)
  {
    Full24hFastPathAgrees(t);
  }

  /** Reads 'HH:MM:SS' back into a time. */
  function ParseClock(s: string): (r: Option<ValidTime>)
  {
    if |s| == 8 && s[2] == ':' && s[5] == ':'
       && (forall i :: 0 <= i < 8 && i != 2 && i != 5 ==> IsDigit(s[i]))
    then
      var h := Value(s[0..2]);
      var m := Value(s[3..5]);
      var sec := Value(s[6..8]);
      if h <= 23 && m <= 59 && sec <= 59 then Some(Time(h, m, sec)) else None
    else None
  }

  /** The string form determines the time: reading it back gives the same time. */
  lemma ToStringRoundTrip(t: ValidTime)
    ensures ParseClock(ToString(t)) == Some(t)
  {
    var s := ToString(t);
    assert forall i :: 0 <= i < 2 ==> s[0..2][i] == s[i];
    assert forall i :: 0 <= i < 2 ==> s[3..5][i] == s[3 + i];
    assert forall i :: 0 <= i < 2 ==> s[6..8][i] == s[6 + i];
  }

  /** The tail 'hHis' of the test formats through the interpreter. */
  lemma InterpretPaddedTail(t: ValidTime)
    ensures Interpret(t, "hHis", 0) == Pad2(Hour12(t)) + (Pad2(t.hours) + (Pad2(t.minutes) + Pad2(t.seconds)))
  {
    InterpretFour(t, 'h', 'H', 'i', 's');
    RenderTable(t);
  }

  /** The tail 'gGhHis' of the test formats through the interpreter. */
  lemma InterpretHourTail(t: ValidTime)
    ensures Interpret(t, "gGhHis", 0) == Digits(Hour12(t)) + (Digits(t.hours) + Interpret(t, "hHis", 0))
  {
    InterpretCons(t, 'G', "hHis");
    InterpretCons(t, 'g', "GhHis");
    assert "gGhHis" == ['g'] + "GhHis";
    assert "GhHis" == ['G'] + "hHis";
    RenderTable(t);
  }

  /** Every directive once, without escapes. */
  lemma InterpretAllDirectives(t: ValidTime)
    ensures Interpret(t, "aAgGhHis", 0) == Meridiem(t, true) + (Meridiem(t, false) + Interpret(t, "gGhHis", 0))
  {
    InterpretCons(t, 'A', "gGhHis");
    InterpretCons(t, 'a', "AgGhHis");
    assert "aAgGhHis" == ['a'] + "AgGhHis";
    assert "AgGhHis" == ['A'] + "gGhHis";
    RenderTable(t);
  }

  /** What the runs in the escaped test formats turn into. */
  lemma EscapedRuns(t: ValidTime)
    ensures EscapedChar(t, 1, 'A') == "A"
    ensures EscapedChar(t, 2, 'A') == "\\" + Meridiem(t, false)
    ensures EscapedChar(t, 3, 'A') == "\\A"
    ensures EscapedChar(t, 1, '_') == "\\_"
  {
    assert Backslashes(0) == "";
    assert Backslashes(1) == "\\";
  }

  /** A character with no backslash before it, then a run of backslashes and the character it escapes. */
  lemma InterpretCharThenRun(t: ValidTime, c: char, n: nat, d: char, rest: string)
    requires c != Backslash && d != Backslash
    ensures Interpret(t, [c] + (Backslashes(n) + [d] + rest), 0)
         == Render(t, c) + (EscapedChar(t, n, d) + Interpret(t, rest, 0))
  {
    var run := Backslashes(n) + [d] + rest;
    InterpretPlainStep(t, c, run);
    InterpretRun(t, n, d, rest, 0);
    assert 0 + n == n;
    var tail := Interpret(t, run, 0);
    assert tail == EscapedChar(t, n, d) + Interpret(t, rest, 0);
    assert Interpret(t, [c] + run, 0) == Render(t, c) + tail;
  }

  /** The numerals the test vectors print. */
  lemma ExampleNumerals()
    ensures Digits(5) == "5" && Digits(6) == "6" && Digits(18) == "18"
    ensures Pad2(4) == "04" && Pad2(5) == "05" && Pad2(6) == "06"
    ensures Pad2(18) == "18" && Pad2(19) == "19" && Pad2(52) == "52"
  {
  }

  /** The numerals and meridiem printed at 05:19:52. */
  lemma MorningText(t: ValidTime)
    requires t == Time(5, 19, 52)
    ensures Hour12(t) == 5
    ensures Pad2(Hour12(t)) == "05" && Pad2(t.hours) == "05" && Pad2(t.minutes) == "19" && Pad2(t.seconds) == "52"
    ensures Digits(Hour12(t)) == "5" && Digits(t.hours) == "5"
    ensures Meridiem(t, true) == "am" && Meridiem(t, false) == "AM"
    ensures "am" + ("AM" + "5505051952") == "amAM5505051952"
  {
    ExampleNumerals();
  }

  /** The tail 'hHis' at 05:19:52. */
  lemma MorningPadded(t: ValidTime)
    requires t == Time(5, 19, 52)
    ensures Interpret(t, "hHis", 0) == "05051952"
  {
    InterpretPaddedTail(t);
    MorningText(t);
    assert "05" + ("05" + ("19" + "52")) == "05051952";
  }

  /** The tail 'gGhHis' at 05:19:52. */
  lemma MorningHours(t: ValidTime)
    requires t == Time(5, 19, 52)
    ensures Interpret(t, "gGhHis", 0) == "5505051952"
  {
    InterpretHourTail(t);
    MorningPadded(t);
    MorningText(t);
    assert "5" + ("5" + "05051952") == "5505051952";
  }

  /** The tail 'GhHis' at 05:19:52. */
  lemma MorningHourTail(t: ValidTime)
    requires t == Time(5, 19, 52)
    ensures Interpret(t, "GhHis", 0) == "505051952"
  {
    InterpretCons(t, 'G', "hHis");
    assert "GhHis" == ['G'] + "hHis";
    RenderTable(t);
    MorningPadded(t);
    MorningText(t);
    assert "5" + "05051952" == "505051952";
  }

  /** The format test vector without escapes for 05:19:52. */
  lemma FormatMorningExample(t: ValidTime)
    requires t == Time(5, 19, 52)
    ensures Format(t, "aAgGhHis") == "amAM5505051952"
  {
    FormatIsInterpret(t, "aAgGhHis");
    InterpretAllDirectives(t);
    MorningHours(t);
    MorningText(t);
  }

  /** Formats longer than the constants never take a fast path. */
  lemma FormatIsInterpret(t: ValidTime, f: string)
    requires |f| > |Full12h|
    ensures Format(t, f) == Interpret(t, f, 0)
  {
    assert f != Full12h && f != Short12h && f != Full24h && f != Short24h;
  }

  /** The meridiem directive at 05:19:52, plain and after two backslashes. */
  lemma MorningMeridiem(t: ValidTime)
    requires t == Time(5, 19, 52)
    ensures Render(t, 'a') == "am" && Render(t, 'g') == "5"
    ensures EscapedChar(t, 2, 'A') == "\\AM"
  {
    MorningText(t);
    RenderTable(t);
    EscapedRuns(t);
  }

  lemma SingleEscapeSplit()
    ensures "a\\AgGhHis" == ['a'] + (Backslashes(1) + ['A'] + "gGhHis")
    ensures "am" + ("A" + "5505051952") == "amA5505051952"
  {
    assert Backslashes(1) == "\\";
  }

  lemma DoubleEscapeSplit()
    ensures "a\\\\AgGhHis" == ['a'] + (Backslashes(2) + ['A'] + "gGhHis")
    ensures "am" + ("\\AM" + "5505051952") == "am\\AM5505051952"
  {
    assert Backslashes(2) == "\\\\";
  }

  lemma UnderscoreSplit()
    ensures "g\\_GhHis" == ['g'] + (Backslashes(1) + ['_'] + "GhHis")
    ensures "5" + ("\\_" + "505051952") == "5\\_505051952"
  {
    assert Backslashes(1) == "\\";
  }

  lemma TripleEscapeSplit()
    ensures "a\\\\\\Ag\\_GhHis" == ['a'] + (Backslashes(3) + ['A'] + "g\\_GhHis")
    ensures "am" + ("\\A" + "5\\_505051952") == "am\\A5\\_505051952"
  {
    assert Backslashes(3) == "\\\\\\";
  }

  /** One backslash escapes the directive after it (test vector for 05:19:52). */
  lemma FormatSingleEscapeExample(t: ValidTime)
    requires t == Time(5, 19, 52)
    ensures Format(t, "a\\AgGhHis") == "amA5505051952"
  {
    FormatIsInterpret(t, "a\\AgGhHis");
    SingleEscapeSplit();
    InterpretCharThenRun(t, 'a', 1, 'A', "gGhHis");
    EscapedRuns(t);
    MorningMeridiem(t);
    MorningHours(t);
  }

  /** Two backslashes print one and leave the directive active (test vector for 05:19:52). */
  lemma FormatDoubleEscapeExample(t: ValidTime)
    requires t == Time(5, 19, 52)
    ensures Format(t, "a\\\\AgGhHis") == "am\\AM5505051952"
  {
    FormatIsInterpret(t, "a\\\\AgGhHis");
    DoubleEscapeSplit();
    InterpretCharThenRun(t, 'a', 2, 'A', "gGhHis");
    MorningMeridiem(t);
    MorningHours(t);
  }

  /** An escaped character that is not a directive keeps its backslash (part of a test vector). */
  lemma EscapedUnderscoreExample(t: ValidTime)
    requires t == Time(5, 19, 52)
    ensures Interpret(t, "g\\_GhHis", 0) == "5\\_505051952"
  {
    UnderscoreSplit();
    InterpretCharThenRun(t, 'g', 1, '_', "GhHis");
    EscapedRuns(t);
    MorningMeridiem(t);
    MorningHourTail(t);
  }

  /**
   * Three backslashes print one and escape the directive; before a character
   * that is not a directive every backslash is kept (test vector for 05:19:52).
   */
  lemma FormatTripleEscapeExample(t: ValidTime)
    requires t == Time(5, 19, 52)
    ensures Format(t, "a\\\\\\Ag\\_GhHis") == "am\\A5\\_505051952"
  {
    FormatIsInterpret(t, "a\\\\\\Ag\\_GhHis");
    TripleEscapeSplit();
    InterpretCharThenRun(t, 'a', 3, 'A', "g\\_GhHis");
    EscapedRuns(t);
    MorningMeridiem(t);
    EscapedUnderscoreExample(t);
  }

  /** The format test vector without escapes for 18:18:04. */
  lemma FormatEveningExample(t: ValidTime)
    requires t == Time(18, 18, 4)
    ensures Format(t, "aAgGhHis") == "pmPM61806181804"
  {
    FormatIsInterpret(t, "aAgGhHis");
    InterpretAllDirectives(t);
    InterpretHourTail(t);
    InterpretPaddedTail(t);
    EveningText(t);
  }

  /** The fast-path test vectors, midnight's hour showing as 12 PM. */
  lemma FormatFastPathExample()
    ensures Format(Time(18, 18, 4), Full12h) == "06:18:04 PM"
    ensures Format(Time(0, 18, 4), Full12h) == "12:18:04 PM"
    ensures ToString(Time(5, 19, 52)) == "05:19:52"
  {
    EveningFull12h(Time(18, 18, 4));
    MidnightFull12h(Time(0, 18, 4));
    MorningClock(Time(5, 19, 52));
  }

  lemma EveningFull12h(t: ValidTime)
    requires t == Time(18, 18, 4)
    ensures Format(t, Full12h) == "06:18:04 PM"
  {
    EveningText(t);
    assert Format(t, Full12h) == "06" + (":" + ("18" + (":" + ("04" + (" " + "PM")))));
  }

  lemma MidnightFull12h(t: ValidTime)
    requires t == Time(0, 18, 4)
    ensures Format(t, Full12h) == "12:18:04 PM"
  {
    assert Hour12(t) == 12 && Meridiem(t, false) == "PM";
    assert Pad2(12) == "12" && Pad2(18) == "18" && Pad2(4) == "04";
    assert Format(t, Full12h) == "12" + (":" + ("18" + (":" + ("04" + (" " + "PM")))));
  }

  lemma MorningClock(t: ValidTime)
    requires t == Time(5, 19, 52)
    ensures ToString(t) == "05:19:52"
  {
    MorningText(t);
    assert ToString(t) == "05" + (":" + ("19" + (":" + "52")));
  }
}
