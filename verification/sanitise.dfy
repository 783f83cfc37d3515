/**
 * The clean-up the date parser applies after the month-name rewrite: every
 * run of characters outside [0-9.:+/-] becomes one space, every run of two
 * or more white-space characters becomes one space, and the result is
 * trimmed before it goes back to the host parser.
 */
module Sanitise {

  /** The characters the clean-up keeps: digits and . : + / - */
  predicate IsKept(c: char) {
    '0' <= c <= '9' || c == '.' || c == ':' || c == '+' || c == '/' || c == '-'
  }

  /** The class `\s`: space, tab, line feed, vertical tab, form feed, carriage return. */
  predicate IsSpace(c: char) {
    c == ' ' || c == '\t' || c == '\n' || c == '\U{B}' || c == '\U{C}' || c == '\r'
  }

  /** What `trim` strips by default: space, tab, line feed, carriage return, NUL, vertical tab. */
  predicate IsTrimmed(c: char) {
    c == ' ' || c == '\t' || c == '\n' || c == '\r' || c == '\0' || c == '\U{B}'
  }

  /** The kept characters of `s`, in order. */
  function Kept(s: string): string
    decreases |s|
  {
    if |s| == 0 then ""
    else if IsKept(s[0]) then [s[0]] + Kept(s[1..])
    else Kept(s[1..])
  }

  lemma {:induction false} KeptAppend(a: string, b: string)
    ensures Kept(a + b) == Kept(a) + Kept(b)
    decreases |a|
  {
    if |a| == 0 {
      assert a + b == b;
    } else {
      assert (a + b)[0] == a[0];
      assert (a + b)[1..] == a[1..] + b;
      KeptAppend(a[1..], b);
    }
  }

  lemma {:induction false} KeptOfUnkept(s: string)
    requires forall i :: 0 <= i < |s| ==> !IsKept(s[i])
    ensures Kept(s) == ""
    decreases |s|
  {
    if |s| > 0 {
      KeptOfUnkept(s[1..]);
    }
  }

  /** The length of the run of characters outside the kept class `s` begins with. */
  function UnkeptRun(s: string): (n: nat)
    ensures n <= |s|
    ensures forall i :: 0 <= i < n ==> !IsKept(s[i])
    ensures n < |s| ==> IsKept(s[n])
    decreases |s|
  {
    if |s| == 0 || IsKept(s[0]) then 0 else 1 + UnkeptRun(s[1..])
  }

  /** No space is followed by another space, and none ends the string. */
  predicate SpacesSeparateKept(r: string) {
    forall i :: 0 <= i < |r| && r[i] == ' ' ==> i + 1 < |r| && IsKept(r[i + 1])
  }

  /**
   * `preg_replace('~[^0-9.:+/-]+~', ' ', s)`: every maximal run of other
   * characters becomes a single space.
   */
  function Collapse(s: string): (r: string)
    ensures forall i :: 0 <= i < |r| ==> IsKept(r[i]) || r[i] == ' '
    ensures |s| > 0 ==> |r| > 0 && (r[0] == ' ' <==> !IsKept(s[0]))
    ensures forall i :: 0 <= i && i + 1 < |r| && r[i] == ' ' ==> IsKept(r[i + 1])
    ensures |s| == 0 <==> |r| == 0
    decreases |s|
  {
    if |s| == 0 then ""
    else if IsKept(s[0]) then [s[0]] + Collapse(s[1..])
    else
      var n := UnkeptRun(s);
      " " + Collapse(s[n..])
  }

  /** The collapse keeps every kept character, in order, and adds none. */
  lemma {:induction false} CollapseKeepsKept(s: string)
    ensures Kept(Collapse(s)) == Kept(s)
    decreases |s|
  {
    if |s| > 0 {
      if IsKept(s[0]) {
        CollapseKeepsKept(s[1..]);
        assert Kept(Collapse(s)) == [s[0]] + Kept(Collapse(s[1..]));
      } else {
        var n := UnkeptRun(s);
        CollapseKeepsKept(s[n..]);
        assert Kept(Collapse(s)) == Kept(Collapse(s[n..]));
        assert s == s[..n] + s[n..];
        KeptAppend(s[..n], s[n..]);
        KeptOfUnkept(s[..n]);
      }
    }
  }

  /** The run length is the one position that ends the run of characters outside the class. */
  lemma UnkeptRunIs(s: string, n: nat)
    requires n <= |s| && (n < |s| ==> IsKept(s[n]))
    requires forall i :: 0 <= i < n ==> !IsKept(s[i])
    ensures UnkeptRun(s) == n
  {
  }

  /** A non-empty run of characters outside the class becomes exactly one space. */
  lemma CollapseOfUnkept(s: string)
    requires |s| > 0 && forall i :: 0 <= i < |s| ==> !IsKept(s[i])
    ensures Collapse(s) == " "
  {
    UnkeptRunIs(s, |s|);
    assert s[|s|..] == "";
  }

  /**
   * The collapse works in place: text cut next to a kept character
   * collapses piece by piece, so no run is merged across the cut and no
   * space moves past a kept character.
   */
  lemma {:induction false} CollapseAppend(a: string, b: string)
    requires a == "" || b == "" || IsKept(a[|a| - 1]) || IsKept(b[0])
    ensures Collapse(a + b) == Collapse(a) + Collapse(b)
    decreases |a|
  {
    if a == "" {
      assert a + b == b;
    } else if b == "" {
      assert a + b == a;
    } else if IsKept(a[0]) {
      CollapseAppend(a[1..], b);
      CollapseAppendKept(a, b);
    } else if UnkeptRun(a) < |a| {
      CollapseAppend(a[UnkeptRun(a)..], b);
      CollapseAppendRun(a, b);
    } else {
      CollapseAppendWholeRun(a, b);
    }
  }

  /** One step of an append law: the head of the whole, then the rest split in two. */
  lemma JoinStep(h: string, x: string, y: string, whole: string, rest: string, first: string)
    requires whole == h + rest && rest == x + y && first == h + x
    ensures whole == first + y
  {
  }

  /** `CollapseAppend` past a kept first character, given the law for the rest of `a`. */
  lemma CollapseAppendKept(a: string, b: string)
    requires |a| > 0 && IsKept(a[0])
    requires Collapse(a[1..] + b) == Collapse(a[1..]) + Collapse(b)
    ensures Collapse(a + b) == Collapse(a) + Collapse(b)
  {
    var ab := a + b;
    assert ab[0] == a[0];
    assert ab[1..] == a[1..] + b;
    JoinStep([a[0]], Collapse(a[1..]), Collapse(b), Collapse(ab), Collapse(ab[1..]), Collapse(a));
  }

  /** `CollapseAppend` past a run that ends inside `a`, given the law for the rest of `a`. */
  lemma CollapseAppendRun(a: string, b: string)
    requires |a| > 0 && !IsKept(a[0]) && UnkeptRun(a) < |a|
    requires Collapse(a[UnkeptRun(a)..] + b) == Collapse(a[UnkeptRun(a)..]) + Collapse(b)
    ensures Collapse(a + b) == Collapse(a) + Collapse(b)
  {
    var ab := a + b;
    var m := UnkeptRun(a);
    UnkeptRunIs(ab, m);
    assert ab[m..] == a[m..] + b;
    JoinStep(" ", Collapse(a[m..]), Collapse(b), Collapse(ab), Collapse(ab[m..]), Collapse(a));
  }

  /** `CollapseAppend` when `a` is one run and `b` begins with a kept character. */
  lemma CollapseAppendWholeRun(a: string, b: string)
    requires |a| > 0 && UnkeptRun(a) == |a| && |b| > 0 && IsKept(b[0])
    ensures Collapse(a + b) == Collapse(a) + Collapse(b)
  {
    var ab := a + b;
    UnkeptRunIs(ab, |a|);
    assert ab[|a|..] == b;
    CollapseOfUnkept(a);
  }

  /** A run between two kept characters becomes a space in its place: "1a2" gives "1 2". */
  lemma CollapseInPlaceExample()
    ensures Collapse("1a2") == "1 2"
    ensures Collapse("1ab") == "1 "
  {
    CollapseAppend("1", "a2");
    CollapseAppend("a", "2");
    CollapseOfUnkept("a");
    CollapseAppend("1", "ab");
    CollapseOfUnkept("ab");
  }

  /** Text of kept characters and single spaces between them is left alone. */
  lemma {:induction false} CollapseFixesClean(s: string)
    requires forall i :: 0 <= i < |s| ==> IsKept(s[i]) || s[i] == ' '
    requires forall i :: 0 <= i && i + 1 < |s| && s[i] == ' ' ==> IsKept(s[i + 1])
    ensures Collapse(s) == s
    decreases |s|
  {
    if |s| > 0 {
      CollapseFixesClean(s[1..]);
      if !IsKept(s[0]) {
        assert UnkeptRun(s) == 1 by {
          if |s| > 1 {
            assert IsKept(s[1]);
          }
        }
      }
    }
  }

  lemma CollapseIdempotent(s: string)
    ensures Collapse(Collapse(s)) == Collapse(s)
  {
    CollapseFixesClean(Collapse(s));
  }

  /** The length of the run of white space `s` begins with. */
  function SpaceRun(s: string): (n: nat)
    ensures n <= |s|
    ensures forall i :: 0 <= i < n ==> IsSpace(s[i])
    ensures n < |s| ==> !IsSpace(s[n])
    decreases |s|
  {
    if |s| == 0 || !IsSpace(s[0]) then 0 else 1 + SpaceRun(s[1..])
  }

  /** No white-space character is directly followed by another. */
  predicate NoDoubleSpace(r: string) {
    forall i :: 0 <= i && i + 1 < |r| ==> !(IsSpace(r[i]) && IsSpace(r[i + 1]))
  }

  /**
   * `preg_replace('~\s{2,}~', ' ', s)`: every run of two or more white-space
   * characters becomes one space; a single one stays as it is.
   */
  function Squash(s: string): (r: string)
    ensures |s| > 0 ==> |r| > 0 && (IsSpace(r[0]) <==> IsSpace(s[0]))
    ensures |s| > 0 && !IsSpace(s[0]) ==> r[0] == s[0]
    ensures NoDoubleSpace(r)
    ensures |s| == 0 <==> |r| == 0
    decreases |s|
  {
    if |s| == 0 then ""
    else if |s| > 1 && IsSpace(s[0]) && IsSpace(s[1]) then
      var n := SpaceRun(s);
      " " + Squash(s[n..])
    else [s[0]] + Squash(s[1..])
  }

  lemma SpaceRunIs(s: string, n: nat)
    requires n <= |s| && (n < |s| ==> !IsSpace(s[n]))
    requires forall i :: 0 <= i < n ==> IsSpace(s[i])
    ensures SpaceRun(s) == n
  {
  }

  /** A run of two or more white-space characters becomes exactly one space. */
  lemma SquashOfRun(s: string)
    requires |s| >= 2 && forall i :: 0 <= i < |s| ==> IsSpace(s[i])
    ensures Squash(s) == " "
  {
    SpaceRunIs(s, |s|);
    assert s[|s|..] == "";
  }

  /** `Squash` on text that does not begin with two white-space characters. */
  lemma SquashStepPlain(s: string)
    requires |s| > 0 && !(|s| > 1 && IsSpace(s[0]) && IsSpace(s[1]))
    ensures Squash(s) == [s[0]] + Squash(s[1..])
  {
  }

  /** `Squash` on text that begins with a run of two or more white-space characters. */
  lemma SquashStepRun(s: string)
    requires |s| > 1 && IsSpace(s[0]) && IsSpace(s[1])
    ensures Squash(s) == " " + Squash(s[SpaceRun(s)..])
  {
  }

  /**
   * The squash works in place: text cut next to a character outside `\s`
   * squashes piece by piece, so no run is merged across the cut.
   */
  lemma {:induction false} SquashAppend(a: string, b: string)
    requires a == "" || b == "" || !IsSpace(a[|a| - 1]) || !IsSpace(b[0])
    ensures Squash(a + b) == Squash(a) + Squash(b)
    decreases |a|
  {
    if a == "" {
      assert a + b == b;
    } else if b == "" {
      assert a + b == a;
    } else if !(IsSpace(a[0]) && IsSpace((a + b)[1])) {
      SquashAppend(a[1..], b);
      SquashAppendPlain(a, b);
    } else if SpaceRun(a) < |a| {
      assert |a| > 1 && a[1] == (a + b)[1];
      SquashAppend(a[SpaceRun(a)..], b);
      SquashAppendRun(a, b);
    } else {
      SquashAppendWholeRun(a, b);
    }
  }

  /** `SquashAppend` past a first character that starts no run, given the law for the rest of `a`. */
  lemma SquashAppendPlain(a: string, b: string)
    requires |a| > 0 && |b| > 0 && !(IsSpace(a[0]) && IsSpace((a + b)[1]))
    requires Squash(a[1..] + b) == Squash(a[1..]) + Squash(b)
    ensures Squash(a + b) == Squash(a) + Squash(b)
  {
    var ab := a + b;
    assert ab[0] == a[0];
    assert ab[1..] == a[1..] + b;
    assert |a| > 1 ==> ab[1] == a[1];
    SquashStepPlain(ab);
    SquashStepPlain(a);
    JoinStep([a[0]], Squash(a[1..]), Squash(b), Squash(ab), Squash(ab[1..]), Squash(a));
  }

  /** `SquashAppend` past a run that ends inside `a`, given the law for the rest of `a`. */
  lemma SquashAppendRun(a: string, b: string)
    requires |a| > 1 && IsSpace(a[0]) && IsSpace(a[1]) && SpaceRun(a) < |a|
    requires Squash(a[SpaceRun(a)..] + b) == Squash(a[SpaceRun(a)..]) + Squash(b)
    ensures Squash(a + b) == Squash(a) + Squash(b)
  {
    var ab := a + b;
    var m := SpaceRun(a);
    assert ab[0] == a[0] && ab[1] == a[1];
    SquashStepRun(ab);
    SquashStepRun(a);
    SpaceRunIs(ab, m);
    assert ab[m..] == a[m..] + b;
    JoinStep(" ", Squash(a[m..]), Squash(b), Squash(ab), Squash(ab[m..]), Squash(a));
  }

  /** `SquashAppend` when `a` is all white space and `b` begins with something else. */
  lemma SquashAppendWholeRun(a: string, b: string)
    requires |a| > 0 && |b| > 0 && !IsSpace(b[0])
    requires IsSpace(a[0]) && IsSpace((a + b)[1]) && SpaceRun(a) == |a|
    ensures Squash(a + b) == Squash(a) + Squash(b)
  {
    var ab := a + b;
    assert |a| > 1;
    SquashStepRun(ab);
    SpaceRunIs(ab, |a|);
    assert ab[|a|..] == b;
    SquashOfRun(a);
  }

  /** Text without two white-space characters in a row is left alone. */
  lemma {:induction false} SquashWithoutRun(s: string)
    requires NoDoubleSpace(s)
    ensures Squash(s) == s
    decreases |s|
  {
    if |s| > 0 {
      SquashWithoutRun(s[1..]);
    }
  }

  lemma SquashIdempotent(s: string)
    ensures Squash(Squash(s)) == Squash(s)
  {
    SquashWithoutRun(Squash(s));
  }

  /** The squash has nothing left to do after the collapse. */
  lemma SquashAfterCollapse(s: string)
    ensures Squash(Collapse(s)) == Collapse(s)
  {
    var c := Collapse(s);
    forall i | 0 <= i && i + 1 < |c|
      ensures !(IsSpace(c[i]) && IsSpace(c[i + 1]))
    {
      if IsSpace(c[i]) {
        assert c[i] == ' ';
        assert IsKept(c[i + 1]);
      }
    }
    SquashWithoutRun(c);
  }

  /** `ltrim`: what is left once the leading trimmed characters are gone. */
  function TrimStart(s: string): (r: string)
    ensures |r| <= |s| && r == s[|s| - |r|..]
    ensures forall i :: 0 <= i < |s| - |r| ==> IsTrimmed(s[i])
    ensures |r| > 0 ==> !IsTrimmed(r[0])
    decreases |s|
  {
    if |s| > 0 && IsTrimmed(s[0]) then TrimStart(s[1..]) else s
  }

  /** `rtrim`: what is left once the trailing trimmed characters are gone. */
  function TrimEnd(s: string): (r: string)
    ensures |r| <= |s| && r == s[..|r|]
    ensures forall i :: |r| <= i < |s| ==> IsTrimmed(s[i])
    ensures |r| > 0 ==> !IsTrimmed(r[|r| - 1])
    decreases |s|
  {
    if |s| > 0 && IsTrimmed(s[|s| - 1]) then TrimEnd(s[..|s| - 1]) else s
  }

  /** `r` stands at offset `i` of `s`, and everything around it is a trimmed character. */
  predicate TrimmedWindow(s: string, r: string, i: nat) {
    i + |r| <= |s| && r == s[i..i + |r|]
    && (forall k :: 0 <= k < i ==> IsTrimmed(s[k]))
    && (forall k :: i + |r| <= k < |s| ==> IsTrimmed(s[k]))
  }

  /** `trim` with its default character list. */
  function Trim(s: string): (r: string)
    ensures |r| > 0 ==> !IsTrimmed(r[0]) && !IsTrimmed(r[|r| - 1])
    ensures exists i :: TrimmedWindow(s, r, i)
  {
    var t := TrimStart(s);
    var r := TrimEnd(t);
    TrimmedWindowOfEnds(s, t, r);
    r
  }

  /** Trimming the start and then the end leaves a window of the input. */
  lemma TrimmedWindowOfEnds(s: string, t: string, r: string)
    requires |t| <= |s| && t == s[|s| - |t|..] && (forall i :: 0 <= i < |s| - |t| ==> IsTrimmed(s[i]))
    requires |r| <= |t| && r == t[..|r|] && (forall i :: |r| <= i < |t| ==> IsTrimmed(t[i]))
    ensures TrimmedWindow(s, r, |s| - |t|)
  {
    var i := |s| - |t|;
    assert forall k :: i + |r| <= k < |s| ==> s[k] == t[k - i];
  }

  /** `trim` gives the empty string exactly when every character is trimmed. */
  lemma TrimEmptyIff(s: string)
    ensures Trim(s) == "" <==> forall i :: 0 <= i < |s| ==> IsTrimmed(s[i])
  {
  }

  lemma TrimIdempotent(s: string)
    ensures Trim(Trim(s)) == Trim(s)
  {
    var r := Trim(s);
    if |r| > 0 {
      assert TrimStart(r) == r;
      assert TrimEnd(r) == r;
    }
  }

  /** Trimming drops no kept character: every trimmed character is outside the class. */
  lemma {:induction false} KeptOfTrimStart(s: string)
    ensures Kept(TrimStart(s)) == Kept(s)
    decreases |s|
  {
    if |s| > 0 && IsTrimmed(s[0]) {
      KeptOfTrimStart(s[1..]);
    }
  }

  lemma {:induction false} KeptOfTrimEnd(s: string)
    ensures Kept(TrimEnd(s)) == Kept(s)
    decreases |s|
  {
    if |s| > 0 && IsTrimmed(s[|s| - 1]) {
      var init := s[..|s| - 1];
      KeptOfTrimEnd(init);
      assert s == init + [s[|s| - 1]];
      KeptAppend(init, [s[|s| - 1]]);
      assert Kept([s[|s| - 1]]) == "";
    }
  }

  lemma KeptOfTrim(s: string)
    ensures Kept(Trim(s)) == Kept(s)
  {
    KeptOfTrimStart(s);
    KeptOfTrimEnd(TrimStart(s));
  }

  /** The shape the collapse leaves: kept characters and spaces, each space followed by a kept one if anything. */
  predicate Collapsed(c: string) {
    (forall i :: 0 <= i < |c| ==> IsKept(c[i]) || c[i] == ' ')
    && (forall i :: 0 <= i && i + 1 < |c| && c[i] == ' ' ==> IsKept(c[i + 1]))
  }

  lemma CollapsedSlice(c: string, lo: nat, hi: nat)
    requires Collapsed(c) && lo <= hi <= |c|
    ensures Collapsed(c[lo..hi])
  {
    var d := c[lo..hi];
    forall i | 0 <= i && i + 1 < |d| && d[i] == ' '
      ensures IsKept(d[i + 1])
    {
      assert d[i] == c[lo + i] && d[i + 1] == c[lo + i + 1];
    }
  }

  /** Trimming a collapsed string leaves no space at either end. */
  lemma TrimCollapsed(c: string)
    requires Collapsed(c)
    ensures Collapsed(Trim(c)) && SpacesSeparateKept(Trim(c))
  {
    var a := TrimStart(c);
    CollapsedSlice(c, |c| - |a|, |c|);
    var r := TrimEnd(a);
    CollapsedSlice(a, 0, |r|);
  }

  /** A string that neither starts nor ends with a trimmed character is its own trim. */
  lemma TrimWithoutEdges(c: string)
    requires |c| > 0 && !IsTrimmed(c[0]) && !IsTrimmed(c[|c| - 1])
    ensures Trim(c) == c
  {
    assert TrimStart(c) == c;
  }

  /**
   * The clean-up, up to and excluding the trim: kept characters with single
   * spaces between them, and a leading space exactly when the input starts
   * with another character.
   */
  function Clean(s: string): (r: string)
    ensures Collapsed(r)
    ensures |s| > 0 ==> |r| > 0 && (r[0] == ' ' <==> !IsKept(s[0]))
  {
    SquashAfterCollapse(s);
    Squash(Collapse(s))
  }

  /** Text the clean-up and the trim leave as it is. */
  predicate CleanText(s: string) {
    Collapsed(s) && SpacesSeparateKept(s) && (|s| > 0 ==> s[0] != ' ')
  }

  /**
   * What goes back to the host parser: kept characters with single spaces
   * between them, none at either end, and exactly the kept characters of the
   * input, in order.
   */
  lemma CleanTrimmedShape(s: string)
    ensures CleanText(Trim(Clean(s)))
    ensures Kept(Trim(Clean(s))) == Kept(s)
  {
    SquashAfterCollapse(s);
    TrimCollapsed(Collapse(s));
    KeptOfTrim(Collapse(s));
    CollapseKeepsKept(s);
  }

  /** Clean text passes through the clean-up and the trim unchanged. */
  lemma CleanTextFixed(s: string)
    requires CleanText(s)
    ensures Trim(Clean(s)) == s
  {
    CollapseFixesClean(s);
    CleanTextHasNoRun(s);
    SquashWithoutRun(s);
    assert Clean(s) == s;
    if |s| > 0 {
      CleanTextEdges(s);
      TrimWithoutEdges(s);
    }
  }

  /** Clean text never has two white-space characters in a row. */
  lemma CleanTextHasNoRun(s: string)
    requires CleanText(s)
    ensures forall i :: 0 <= i && i + 1 < |s| ==> !(IsSpace(s[i]) && IsSpace(s[i + 1]))
  {
    forall i | 0 <= i && i + 1 < |s|
      ensures !(IsSpace(s[i]) && IsSpace(s[i + 1]))
    {
      if IsSpace(s[i]) {
        assert s[i] == ' ';
      }
    }
  }

  /** Clean text begins and ends with a kept character. */
  lemma CleanTextEdges(s: string)
    requires CleanText(s) && |s| > 0
    ensures !IsTrimmed(s[0]) && !IsTrimmed(s[|s| - 1])
  {
  }

  /** A prefix of kept characters passes through the collapse unchanged. */
  lemma {:induction false} CollapseKeptPrefix(a: string, b: string)
    requires forall i :: 0 <= i < |a| ==> IsKept(a[i])
    ensures Collapse(a + b) == a + Collapse(b)
    decreases |a|
  {
    if |a| > 0 {
      assert (a + b)[1..] == a[1..] + b;
      CollapseKeptPrefix(a[1..], b);
    } else {
      assert a + b == b;
    }
  }

  /** A run of other characters before a kept one is measured exactly. */
  lemma {:induction false} UnkeptRunBefore(a: string, b: string)
    requires forall i :: 0 <= i < |a| ==> !IsKept(a[i])
    requires |b| > 0 && IsKept(b[0])
    ensures UnkeptRun(a + b) == |a|
    decreases |a|
  {
    if |a| > 0 {
      assert (a + b)[1..] == a[1..] + b;
      UnkeptRunBefore(a[1..], b);
    } else {
      assert a + b == b;
    }
  }

  /** A run of mixed white space before a time collapses to one space. */
  lemma CollapseGapExample(gap: string, time: string)
    requires gap == " \r\n\t " && time == "00:10:20"
    ensures Collapse(gap + time) == " " + time
  {
    UnkeptRunBefore(gap, time);
    assert (gap + time)[5..] == time;
    CollapseFixesClean(time);
  }

  /** The collapse of a date and a time separated by a run of mixed white space. */
  lemma CollapseExample(date: string, gap: string, time: string)
    requires date == "2015-07-29" && gap == " \r\n\t " && time == "00:10:20"
    ensures Collapse(date + gap + time) == date + " " + time
  {
    assert date + gap + time == date + (gap + time);
    CollapseKeptPrefix(date, gap + time);
    CollapseGapExample(gap, time);
    assert date + (" " + time) == date + " " + time;
  }

  /** The example's text, in its three parts and after the collapse. */
  lemma ExampleParts()
    ensures "2015-07-29" + " \r\n\t " + "00:10:20" == "2015-07-29 \r\n\t 00:10:20"
    ensures "2015-07-29" + " " + "00:10:20" == "2015-07-29 00:10:20"
  {
  }

  /** The whole clean-up of the same date: nothing left for the squash or the trim. */
  lemma CleanExample(s: string)
    requires s == "2015-07-29 \r\n\t 00:10:20"
    ensures Trim(Clean(s)) == "2015-07-29 00:10:20"
  {
    ExampleParts();
    CollapseExample("2015-07-29", " \r\n\t ", "00:10:20");
    var c := "2015-07-29 00:10:20";
    CleanOfCollapse(s, c);
    assert c[0] == '2' && c[|c| - 1] == '0';
    TrimWithoutEdges(c);
  }

  /** After the collapse the squash has nothing to do, so the clean-up is the collapse. */
  lemma CleanOfCollapse(s: string, c: string)
    requires Collapse(s) == c
    ensures Clean(s) == c
  {
    SquashAfterCollapse(s);
  }
}
