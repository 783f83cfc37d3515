/**
 * The pattern matching behind the month-name rewrite: a case-insensitive
 * alternation of literal names, replaced everywhere by a fixed string such as "12.".
 *
 * Strings are sequences of code points. The patterns carry the `i` flag but
 * not `u`, so only the ASCII letters A-Z fold to lower case; on valid UTF-8
 * input this byte-wise matching agrees with matching code points.
 */
module MonthMatching {
  import opened Wrappers

  /**
   * The characters no name contains: digits, '.', ':', '+', '/', '-' and the
   * space. Replacements are made of them, and so is cleaned-up date text.
   */
  predicate IsPlain(c: char) {
    '0' <= c <= '9' || c == '.' || c == ':' || c == '+' || c == '/' || c == '-' || c == ' '
  }

  predicate AllPlain(s: string) {
    forall i :: 0 <= i < |s| ==> IsPlain(s[i])
  }

  /**
   * A usable alternative: not empty, and every character above ':', which
   * is the largest plain character, so none of them is plain.
   */
  predicate NameOk(p: string) {
    |p| > 0 && forall i :: 0 <= i < |p| ==> p[i] > ':'
  }

  predicate GroupWellFormed(alts: seq<string>) {
    forall k :: 0 <= k < |alts| ==> NameOk(alts[k])
  }

  /** A replacement usable by the rewrite: a non-empty run of plain characters. */
  predicate ReplacementOk(rep: string) {
    |rep| > 0 && AllPlain(rep)
  }

  /** ASCII-only case folding: A-Z become a-z, every other character stays. */
  function Fold(c: char): (f: char)
    ensures IsPlain(f) <==> IsPlain(c)
    ensures 'A' <= c <= 'Z' ==> 'a' <= f <= 'z' && f as int == c as int + 32
    ensures !('A' <= c <= 'Z') ==> f == c
  {
    if 'A' <= c <= 'Z' then (c as int + 32) as char else c
  }

  /** `s` begins with `p`, compared case-insensitively. */
  predicate StartsWithFold(s: string, p: string)
    ensures StartsWithFold(s, p) ==> |p| <= |s|
    decreases |p|
  {
    |p| == 0 || (|s| > 0 && Fold(s[0]) == Fold(p[0]) && StartsWithFold(s[1..], p[1..]))
  }

  /** `p` occurs somewhere in `s`, compared case-insensitively. */
  predicate OccursIn(s: string, p: string)
    decreases |s|
  {
    StartsWithFold(s, p) || (|s| > 0 && OccursIn(s[1..], p))
  }

  /**
   * The alternative an alternation tries first and that matches at the start
   * of `s`, searching from index `k` on: alternatives are tried in the order
   * they are listed, and the first that matches wins, even if a later one
   * would match more.
   */
  function FirstAlternative(s: string, alts: seq<string>, k: nat): (r: Option<nat>)
    requires k <= |alts|
    ensures r.Some? ==> k <= r.value < |alts| && StartsWithFold(s, alts[r.value])
    ensures r.Some? ==> forall j :: k <= j < r.value ==> !StartsWithFold(s, alts[j])
    ensures r.None? ==> forall j :: k <= j < |alts| ==> !StartsWithFold(s, alts[j])
    decreases |alts| - k
  {
    if k == |alts| then None
    else if StartsWithFold(s, alts[k]) then Some(k)
    else FirstAlternative(s, alts, k + 1)
  }

  /** No alternative of `alts` occurs anywhere in `s`. */
  predicate NoAlternative(s: string, alts: seq<string>) {
    forall j :: 0 <= j < |alts| ==> !OccursIn(s, alts[j])
  }

  /**
   * `preg_replace` of one alternation: the scan tries each position from the
   * left, replaces the first listed alternative that matches there and goes
   * on after it, or copies the character and moves one position on. Text in
   * which no alternative occurs is left as it is.
   */
  function ReplaceAll(s: string, alts: seq<string>, rep: string): (r: string)
    requires GroupWellFormed(alts)
    ensures NoAlternative(s, alts) ==> r == s
    decreases |s|
  {
    if |s| == 0 then ""
    else
      match FirstAlternative(s, alts, 0)
      case Some(k) => rep + ReplaceAll(s[|alts[k]|..], alts, rep)
      case None =>
        assert NoAlternative(s, alts) ==> NoAlternative(s[1..], alts);
        [s[0]] + ReplaceAll(s[1..], alts, rep)
  }

  /** A prefix of plain characters cannot begin a name. */
  lemma PlainPrefixNoStart(rep: string, t: string, p: string)
    requires ReplacementOk(rep) && NameOk(p)
    ensures !StartsWithFold(rep + t, p)
  {
    assert (rep + t)[0] == rep[0];
    assert IsPlain(Fold(rep[0]));
    assert !IsPlain(Fold(p[0]));
  }

  /** A name found after a run of plain characters was found in what follows the run. */
  lemma {:induction false} OccursAfterPlain(rep: string, t: string, p: string)
    requires AllPlain(rep) && NameOk(p)
    requires OccursIn(rep + t, p)
    ensures OccursIn(t, p)
    decreases |rep|
  {
    if |rep| > 0 {
      PlainPrefixNoStart(rep, t, p);
      assert (rep + t)[1..] == rep[1..] + t;
      OccursAfterPlain(rep[1..], t, p);
    } else {
      assert rep + t == t;
    }
  }

  /** Plain text holds no name. */
  lemma PlainHoldsNoName(s: string, p: string)
    requires AllPlain(s) && NameOk(p)
    ensures !OccursIn(s, p)
  {
    if OccursIn(s, p) {
      assert s + "" == s;
      OccursAfterPlain(s, "", p);
    }
  }

  /** Plain text passes through a replacement unchanged. */
  lemma ReplaceAllKeepsPlain(s: string, alts: seq<string>, rep: string)
    requires GroupWellFormed(alts) && AllPlain(s)
    ensures ReplaceAll(s, alts, rep) == s
  {
    forall j | 0 <= j < |alts|
      ensures !OccursIn(s, alts[j])
    {
      PlainHoldsNoName(s, alts[j]);
    }
  }

  /** An occurrence in a suffix is an occurrence. */
  lemma {:induction false} OccursInSuffix(s: string, j: nat, p: string)
    requires j <= |s|
    requires OccursIn(s[j..], p)
    ensures OccursIn(s, p)
    decreases j
  {
    if j > 0 {
      assert s[1..][j - 1..] == s[j..];
      OccursInSuffix(s[1..], j - 1, p);
    }
  }

  /**
   * A name the output begins with was already at the start of the input: the
   * replacements hold no letters, so a match can only lie in copied text.
   */
  lemma {:induction false} StartsInOutput(s: string, alts: seq<string>, rep: string, p: string)
    requires GroupWellFormed(alts) && ReplacementOk(rep) && NameOk(p)
    requires StartsWithFold(ReplaceAll(s, alts, rep), p)
    ensures StartsWithFold(s, p)
    decreases |s|
  {
    if |s| > 0 {
      match FirstAlternative(s, alts, 0)
      case Some(k) =>
        assert false;
      case None =>
        var rest := ReplaceAll(s[1..], alts, rep);
        assert ([s[0]] + rest)[1..] == rest;
        if |p| > 1 {
          StartsInOutput(s[1..], alts, rep, p[1..]);
        }
    }
  }

  /** Every name that occurs in the output already occurred in the input. */
  lemma {:induction false} OccursInOutput(s: string, alts: seq<string>, rep: string, p: string)
    requires GroupWellFormed(alts) && ReplacementOk(rep) && NameOk(p)
    requires OccursIn(ReplaceAll(s, alts, rep), p)
    ensures OccursIn(s, p)
    decreases |s|
  {
    if |s| > 0 {
      match FirstAlternative(s, alts, 0)
      case Some(k) =>
        var s' := s[|alts[k]|..];
        OccursAfterPlain(rep, ReplaceAll(s', alts, rep), p);
        OccursInOutput(s', alts, rep, p);
        OccursInSuffix(s, |alts[k]|, p);
      case None =>
        var rest := ReplaceAll(s[1..], alts, rep);
        assert ([s[0]] + rest)[1..] == rest;
        if StartsWithFold(ReplaceAll(s, alts, rep), p) {
          StartsInOutput(s, alts, rep, p);
        } else {
          OccursInOutput(s[1..], alts, rep, p);
        }
    }
  }

  /** After the replacement no alternative of the group occurs anywhere. */
  lemma {:induction false} NoAlternativeAfterReplace(s: string, alts: seq<string>, rep: string, j: nat)
    requires GroupWellFormed(alts) && ReplacementOk(rep) && j < |alts|
    ensures !OccursIn(ReplaceAll(s, alts, rep), alts[j])
    decreases |s|
  {
    var p := alts[j];
    if |s| == 0 {
      assert !StartsWithFold("", p);
    } else {
      match FirstAlternative(s, alts, 0)
      case Some(k) =>
        var s' := s[|alts[k]|..];
        NoAlternativeAfterReplace(s', alts, rep, j);
        if OccursIn(ReplaceAll(s, alts, rep), p) {
          OccursAfterPlain(rep, ReplaceAll(s', alts, rep), p);
        }
      case None =>
        var rest := ReplaceAll(s[1..], alts, rep);
        assert ([s[0]] + rest)[1..] == rest;
        NoAlternativeAfterReplace(s[1..], alts, rep, j);
        if StartsWithFold(ReplaceAll(s, alts, rep), p) {
          StartsInOutput(s, alts, rep, p);
        }
    }
  }

  /** Replacing a group twice changes nothing the second time. */
  lemma ReplaceAllIdempotent(s: string, alts: seq<string>, rep: string)
    requires GroupWellFormed(alts) && ReplacementOk(rep)
    ensures ReplaceAll(ReplaceAll(s, alts, rep), alts, rep) == ReplaceAll(s, alts, rep)
  {
    forall j | 0 <= j < |alts|
      ensures !OccursIn(ReplaceAll(s, alts, rep), alts[j])
    {
      NoAlternativeAfterReplace(s, alts, rep, j);
    }
    assert NoAlternative(ReplaceAll(s, alts, rep), alts);
  }

  /** A name, whose characters are none of them plain, cannot match across a plain character. */
  lemma {:induction false} StartsAcrossPlain(a: string, c: char, b: string, p: string)
    requires IsPlain(c) && forall i :: 0 <= i < |p| ==> !IsPlain(p[i])
    ensures StartsWithFold(a + [c] + b, p) <==> StartsWithFold(a, p)
    decreases |a|
  {
    var s := a + [c] + b;
    if |p| > 0 {
      if |a| == 0 {
        assert s[0] == c;
        assert !IsPlain(Fold(p[0]));
      } else {
        assert s[0] == a[0];
        assert s[1..] == a[1..] + [c] + b;
        StartsAcrossPlain(a[1..], c, b, p[1..]);
      }
    }
  }

  /** The alternative chosen at the start of `a` is unchanged by what follows a plain character. */
  lemma {:induction false} FirstAlternativeAcrossPlain(a: string, c: char, b: string, alts: seq<string>, k: nat)
    requires GroupWellFormed(alts) && IsPlain(c) && k <= |alts|
    ensures FirstAlternative(a + [c] + b, alts, k) == FirstAlternative(a, alts, k)
    decreases |alts| - k
  {
    if k < |alts| {
      StartsAcrossPlain(a, c, b, alts[k]);
      FirstAlternativeAcrossPlain(a, c, b, alts, k + 1);
    }
  }

  /** Regrouping a concatenation, kept apart so that no recursive definition is in sight. */
  lemma Regroup(h: string, x: string, c: char, y: string, whole: string, rest: string)
    requires whole == h + rest && rest == x + [c] + y
    ensures whole == (h + x) + [c] + y
  {
  }

  /** Dropping a prefix of `a` from `a + [c] + b`. */
  lemma DropAcross(a: string, c: char, b: string, n: nat)
    requires n <= |a|
    ensures (a + [c] + b)[n..] == a[n..] + [c] + b
  {
  }

  /** One step of `ReplaceAll` where a name starts the text. */
  lemma ReplaceAllMatched(s: string, alts: seq<string>, rep: string, k: nat)
    requires GroupWellFormed(alts) && |s| > 0 && FirstAlternative(s, alts, 0) == Some(k)
    ensures ReplaceAll(s, alts, rep) == rep + ReplaceAll(s[|alts[k]|..], alts, rep)
  {
  }

  /** One step of `ReplaceAll` where no name starts the text. */
  lemma ReplaceAllUnmatched(s: string, alts: seq<string>, rep: string)
    requires GroupWellFormed(alts) && |s| > 0 && FirstAlternative(s, alts, 0).None?
    ensures ReplaceAll(s, alts, rep) == [s[0]] + ReplaceAll(s[1..], alts, rep)
  {
  }

  /** The step of `ReplaceAllAroundPlain` where a name starts the text. */
  lemma AroundPlainMatched(a: string, c: char, b: string, alts: seq<string>, rep: string, k: nat)
    requires GroupWellFormed(alts) && IsPlain(c) && |a| > 0
    requires FirstAlternative(a, alts, 0) == Some(k) && FirstAlternative(a + [c] + b, alts, 0) == Some(k)
    requires ReplaceAll(a[|alts[k]|..] + [c] + b, alts, rep)
             == ReplaceAll(a[|alts[k]|..], alts, rep) + [c] + ReplaceAll(b, alts, rep)
    ensures ReplaceAll(a + [c] + b, alts, rep) == ReplaceAll(a, alts, rep) + [c] + ReplaceAll(b, alts, rep)
  {
    var n := |alts[k]|;
    var s := a + [c] + b;
    DropAcross(a, c, b, n);
    ReplaceAllMatched(s, alts, rep, k);
    ReplaceAllMatched(a, alts, rep, k);
    Regroup(rep, ReplaceAll(a[n..], alts, rep), c, ReplaceAll(b, alts, rep),
            ReplaceAll(s, alts, rep), ReplaceAll(s[n..], alts, rep));
  }

  /** The step of `ReplaceAllAroundPlain` where no name starts the text. */
  lemma AroundPlainUnmatched(a: string, c: char, b: string, alts: seq<string>, rep: string)
    requires GroupWellFormed(alts) && IsPlain(c) && |a| > 0
    requires FirstAlternative(a, alts, 0).None? && FirstAlternative(a + [c] + b, alts, 0).None?
    requires ReplaceAll(a[1..] + [c] + b, alts, rep) == ReplaceAll(a[1..], alts, rep) + [c] + ReplaceAll(b, alts, rep)
    ensures ReplaceAll(a + [c] + b, alts, rep) == ReplaceAll(a, alts, rep) + [c] + ReplaceAll(b, alts, rep)
  {
    var s := a + [c] + b;
    assert s[0] == a[0];
    DropAcross(a, c, b, 1);
    ReplaceAllUnmatched(s, alts, rep);
    ReplaceAllUnmatched(a, alts, rep);
    Regroup([a[0]], ReplaceAll(a[1..], alts, rep), c, ReplaceAll(b, alts, rep),
            ReplaceAll(s, alts, rep), ReplaceAll(s[1..], alts, rep));
  }

  /**
   * The replacement works in place: a plain character stays where it stands,
   * and the text on either side of it is replaced on its own.
   */
  lemma {:induction false} ReplaceAllAroundPlain(a: string, c: char, b: string, alts: seq<string>, rep: string)
    requires GroupWellFormed(alts) && IsPlain(c)
    ensures ReplaceAll(a + [c] + b, alts, rep) == ReplaceAll(a, alts, rep) + [c] + ReplaceAll(b, alts, rep)
    decreases |a|
  {
    FirstAlternativeAcrossPlain(a, c, b, alts, 0);
    if |a| == 0 {
      assert a + [c] + b == [c] + b;
      assert ([c] + b)[1..] == b;
      assert FirstAlternative(a, alts, 0).None?;
    } else {
      match FirstAlternative(a, alts, 0)
      case Some(k) =>
        ReplaceAllAroundPlain(a[|alts[k]|..], c, b, alts, rep);
        AroundPlainMatched(a, c, b, alts, rep, k);
      case None =>
        ReplaceAllAroundPlain(a[1..], c, b, alts, rep);
        AroundPlainUnmatched(a, c, b, alts, rep);
    }
  }

  /** Text replaced by `rep`, then a plain character and plain text: only the first part changes. */
  lemma ReplaceAllThenPlain(a: string, c: char, b: string, alts: seq<string>, rep: string, s: string, r: string)
    requires GroupWellFormed(alts) && IsPlain(c) && AllPlain(b)
    requires ReplaceAll(a, alts, rep) == rep && s == a + [c] + b && r == rep + [c] + b
    ensures ReplaceAll(s, alts, rep) == r
  {
    ReplaceAllKeepsPlain(b, alts, rep);
    ReplaceAllAroundPlain(a, c, b, alts, rep);
  }

  /** A name matched as a whole becomes exactly one copy of the replacement. */
  lemma ReplaceAllOfName(s: string, alts: seq<string>, rep: string, k: nat)
    requires GroupWellFormed(alts) && FirstAlternative(s, alts, 0) == Some(k) && |s| == |alts[k]|
    ensures ReplaceAll(s, alts, rep) == rep
  {
    assert s[|alts[k]|..] == "";
  }

  /** Every alternation is well formed and every replacement is a run of plain characters. */
  predicate TableOk(groups: seq<seq<string>>, reps: seq<string>) {
    |groups| == |reps|
    && (forall g :: 0 <= g < |groups| ==> GroupWellFormed(groups[g]))
    && (forall g :: 0 <= g < |reps| ==> ReplacementOk(reps[g]))
  }

  /**
   * `preg_replace` with an array of patterns and an array of replacements:
   * the alternations from index `k` on are applied one after the other, each
   * to the output of the one before, group `g` being replaced by `reps[g]`.
   * Text in which no name of those groups occurs passes through unchanged.
   */
  function ReplaceGroups(s: string, groups: seq<seq<string>>, reps: seq<string>, k: nat): (r: string)
    requires TableOk(groups, reps) && k <= |groups|
    ensures NoneOccurs(s, groups, k) ==> r == s
    decreases |groups| - k
  {
    if k == |groups| then s
    else
      assert NoneOccurs(s, groups, k) ==> NoAlternative(s, groups[k]);
      ReplaceGroups(ReplaceAll(s, groups[k], reps[k]), groups, reps, k + 1)
  }

  /** No alternative of the groups from index `k` on occurs in `s`. */
  predicate NoneOccurs(s: string, groups: seq<seq<string>>, k: nat) {
    forall g, j :: k <= g < |groups| && 0 <= j < |groups[g]| ==> !OccursIn(s, groups[g][j])
  }

  /** Applying the groups never creates a name that was not there before. */
  lemma {:induction false} ReplaceGroupsKeepsAbsent(s: string, groups: seq<seq<string>>, reps: seq<string>, k: nat, p: string)
    requires TableOk(groups, reps) && k <= |groups| && NameOk(p)
    requires !OccursIn(s, p)
    ensures !OccursIn(ReplaceGroups(s, groups, reps, k), p)
    decreases |groups| - k
  {
    if k < |groups| {
      var s' := ReplaceAll(s, groups[k], reps[k]);
      if OccursIn(s', p) {
        OccursInOutput(s, groups[k], reps[k], p);
      }
      ReplaceGroupsKeepsAbsent(s', groups, reps, k + 1, p);
    }
  }

  /** After the groups from index `k` on are applied, none of their names is left. */
  lemma {:induction false} ReplaceGroupsClears(s: string, groups: seq<seq<string>>, reps: seq<string>, k: nat)
    requires TableOk(groups, reps) && k <= |groups|
    ensures NoneOccurs(ReplaceGroups(s, groups, reps, k), groups, k)
    decreases |groups| - k
  {
    if k < |groups| {
      var s' := ReplaceAll(s, groups[k], reps[k]);
      var r := ReplaceGroups(s', groups, reps, k + 1);
      ReplaceGroupsClears(s', groups, reps, k + 1);
      forall j | 0 <= j < |groups[k]|
        ensures !OccursIn(r, groups[k][j])
      {
        NoAlternativeAfterReplace(s, groups[k], reps[k], j);
        ReplaceGroupsKeepsAbsent(s', groups, reps, k + 1, groups[k][j]);
      }
      NoneOccursStep(r, groups, k);
    }
  }

  lemma NoneOccursStep(s: string, groups: seq<seq<string>>, k: nat)
    requires k < |groups| && NoneOccurs(s, groups, k + 1) && NoAlternative(s, groups[k])
    ensures NoneOccurs(s, groups, k)
  {
  }

  /** A later pass keeps the names an earlier pass removed away. */
  lemma ReplaceGroupsKeepsNoneOccurs(s: string, groups: seq<seq<string>>, reps: seq<string>, other: seq<seq<string>>)
    requires TableOk(groups, reps)
    requires forall g :: 0 <= g < |other| ==> GroupWellFormed(other[g])
    requires NoneOccurs(s, other, 0)
    ensures NoneOccurs(ReplaceGroups(s, groups, reps, 0), other, 0)
  {
    forall g, j | 0 <= g < |other| && 0 <= j < |other[g]|
      ensures !OccursIn(ReplaceGroups(s, groups, reps, 0), other[g][j])
    {
      ReplaceGroupsKeepsAbsent(s, groups, reps, 0, other[g][j]);
    }
  }
}
