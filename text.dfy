/** The string operations the views use: `trim`, `split(',')`, `join`, `toLowerCase`,
    `includes`, `/\s+/g` replacement, `parseInt` and number-to-string. */
module Text {

  import opened Wrappers

  /** The characters JavaScript's `trim` and `\s` treat as white space, restricted to a
      fixed set: the ASCII ones, NO-BREAK SPACE, IDEOGRAPHIC SPACE and the byte-order mark. */
  predicate IsWhitespace(c: char) {
    c == ' ' || c == '\t' || c == '\n' || c == '\r' || c == '\U{000B}' || c == '\U{000C}'
    || c == '\U{00A0}' || c == '\U{3000}' || c == '\U{FEFF}'
  }

  predicate NoWhitespace(s: string) {
    forall i :: 0 <= i < |s| ==> !IsWhitespace(s[i])
  }

  /** Every character of w is white space. */
  predicate AllWhitespace(w: string) {
    forall i :: 0 <= i < |w| ==> IsWhitespace(w[i])
  }

  /** Neither starts nor ends with white space. */
  predicate IsTrimmed(s: string) {
    s == [] || (!IsWhitespace(s[0]) && !IsWhitespace(s[|s| - 1]))
  }

  /** `trimStart`: drops the leading white space and nothing else. */
  function TrimStart(s: string): (r: string)
    ensures r == [] || !IsWhitespace(r[0])
    ensures |r| <= |s| && r == s[|s| - |r|..]
    ensures AllWhitespace(s[..|s| - |r|])
  {
    if s != [] && IsWhitespace(s[0]) then TrimStart(s[1..]) else s
  }

  /** `trimEnd`: drops the trailing white space and nothing else. */
  function TrimEnd(s: string): (r: string)
    ensures r == [] || !IsWhitespace(r[|r| - 1])
    ensures |r| <= |s| && r == s[..|r|]
    ensures AllWhitespace(s[|r|..])
  {
    if s != [] && IsWhitespace(s[|s| - 1]) then TrimEnd(s[..|s| - 1]) else s
  }

  /** `s.trim()`: the slice of s left between its leading and trailing white space. */
  function Trim(s: string): (r: string)
    ensures IsTrimmed(r)
    ensures var i := |s| - |TrimStart(s)|;
            && i + |r| <= |s|
            && (forall k :: 0 <= k < |r| ==> r[k] == s[i + k])
            && AllWhitespace(s[..i]) && AllWhitespace(s[i + |r|..])
  {
    var t := TrimStart(s);
    var r := TrimEnd(t);
    TrimmedSlice(s, t, r);
    r
  }

  /** Trimming in two steps: r, a prefix of the suffix t of s that drops only white
      space at the end, is a slice of s with only white space after it, and it is
      trimmed when t starts and r ends with a non-white-space character. */
  lemma TrimmedSlice(s: string, t: string, r: string)
    requires |t| <= |s| && t == s[|s| - |t|..]
    requires |r| <= |t| && r == t[..|r|]
    requires AllWhitespace(t[|r|..])
    requires t == [] || !IsWhitespace(t[0])
    requires r == [] || !IsWhitespace(r[|r| - 1])
    ensures IsTrimmed(r)
    ensures var i := |s| - |t|;
            && r == s[i..i + |r|]
            && AllWhitespace(s[i + |r|..])
  {
    assert r != [] ==> r[0] == t[0];
    var i := |s| - |t|;
    assert forall k :: 0 <= k < |r| ==> r[k] == t[k] == s[i + k];
    assert t[|r|..] == s[i + |r|..];
  }

  /** Trimming a string that is already trimmed changes nothing. */
  lemma TrimTrimmed(s: string)
    requires IsTrimmed(s)
    ensures Trim(s) == s
  {
  }

  /** Leading white space disappears under trim. */
  lemma {:induction false} TrimLeadingWhitespace(ws: string, s: string)
    requires forall i :: 0 <= i < |ws| ==> IsWhitespace(ws[i])
    ensures Trim(ws + s) == Trim(s)
  {
    if ws != [] {
      assert (ws + s)[1..] == ws[1..] + s;
      TrimLeadingWhitespace(ws[1..], s);
    } else {
      assert ws + s == s;
    }
  }

  /** ASCII `toLowerCase` of one character. */
  function LowerChar(c: char): char {
    if 'A' <= c <= 'Z' then (c as int + 32) as char else c
  }

  /** ASCII `toLowerCase`. */
  function Lower(s: string): (r: string)
    ensures |r| == |s|
    ensures forall i :: 0 <= i < |s| ==> r[i] == LowerChar(s[i])
  {
    if s == [] then [] else [LowerChar(s[0])] + Lower(s[1..])
  }

  /** `s.includes(t)`. */
  predicate Contains(s: string, t: string)
    decreases |s|
  {
    t <= s || (s != [] && Contains(s[1..], t))
  }

  predicate OccursAt(s: string, t: string, i: int) {
    0 <= i && i + |t| <= |s| && s[i..i + |t|] == t
  }

  /** `includes` holds exactly when t occurs at some position of s. */
  lemma ContainsOccurrence(s: string, t: string)
    ensures Contains(s, t) <==> exists i :: OccursAt(s, t, i)
  {
    if Contains(s, t) {
      ContainsGivesOccurrence(s, t);
    }
    if exists i :: OccursAt(s, t, i) {
      var i :| OccursAt(s, t, i);
      OccurrenceGivesContains(s, t, i);
    }
  }

  /** A string that `includes` t has an occurrence of t. */
  lemma {:induction false} ContainsGivesOccurrence(s: string, t: string)
    requires Contains(s, t)
    ensures exists i :: OccursAt(s, t, i)
    decreases |s|
  {
    if t <= s {
      assert OccursAt(s, t, 0);
    } else {
      ContainsGivesOccurrence(s[1..], t);
      var i :| OccursAt(s[1..], t, i);
      assert s[i + 1..i + 1 + |t|] == s[1..][i..i + |t|];
      assert OccursAt(s, t, i + 1);
    }
  }

  /** An occurrence of t at position i makes s `include` t. */
  lemma {:induction false} OccurrenceGivesContains(s: string, t: string, i: int)
    requires OccursAt(s, t, i)
    ensures Contains(s, t)
    decreases i
  {
    if i == 0 {
      assert s[..|t|] == t;
    } else {
      assert s[1..][i - 1..i - 1 + |t|] == s[i..i + |t|];
      OccurrenceGivesContains(s[1..], t, i - 1);
    }
  }

  /** `includes('')` is true of every string. */
  lemma ContainsEmpty(s: string)
    ensures Contains(s, "")
  {
  }

  /** `s.split(sep)` for a one-character separator: one more part than there are
      separators, the empty string giving `[""]`. */
  function Split(s: string, sep: char): (parts: seq<string>)
    ensures |parts| >= 1
  {
    if s == [] then [[]]
    else
      var rest := Split(s[1..], sep);
      if s[0] == sep then [[]] + rest
      else [[s[0]] + rest[0]] + rest[1..]
  }

  /** `parts.join(sep)`. */
  function Join(parts: seq<string>, sep: string): (r: string)
    ensures parts == [] ==> r == []
    ensures parts != [] ==> parts[0] <= r
  {
    if parts == [] then []
    else if |parts| == 1 then parts[0]
    else parts[0] + sep + Join(parts[1..], sep)
  }

  lemma {:induction false} SplitNoSeparator(s: string, sep: char)
    requires sep !in s
    ensures Split(s, sep) == [s]
  {
    if s != [] {
      SplitNoSeparator(s[1..], sep);
      assert [s[0]] + s[1..] == s;
    }
  }

  /** Splitting at the first separator. */
  lemma {:induction false} SplitAtSeparator(a: string, b: string, sep: char)
    requires sep !in a
    ensures Split(a + [sep] + b, sep) == [a] + Split(b, sep)
  {
    if a == [] {
      assert a + [sep] + b == [sep] + b;
      assert ([sep] + b)[1..] == b;
    } else {
      SplitAtSeparator(a[1..], b, sep);
      assert (a + [sep] + b)[1..] == a[1..] + [sep] + b;
      assert [a[0]] + a[1..] == a;
    }
  }

  /** No part of a split contains the separator. */
  lemma {:induction false} SplitPartsNoSeparator(s: string, sep: char)
    ensures forall i :: 0 <= i < |Split(s, sep)| ==> sep !in Split(s, sep)[i]
  {
    if s != [] {
      SplitPartsNoSeparator(s[1..], sep);
    }
  }

  /** Trimming only removes characters. */
  lemma TrimKeepsOnly(s: string)
    ensures forall c :: c in Trim(s) ==> c in s
  {
    var t := TrimStart(s);
    assert forall c :: c in t ==> c in s;
  }

  /** Joining the parts of a split with the same separator gives the string back. */
  lemma {:induction false} JoinSplit(s: string, sep: char)
    ensures Join(Split(s, sep), [sep]) == s
  {
    if s != [] {
      JoinSplit(s[1..], sep);
      var rest := Split(s[1..], sep);
      assert [s[0]] + s[1..] == s;
      if s[0] == sep {
        JoinAfterSeparator(rest, sep);
      } else {
        assert rest == [rest[0]] + rest[1..];
        JoinAfterChar(s[0], rest[0], rest[1..], sep);
      }
    }
  }

  /** A split that starts with an empty part joins back with a leading separator. */
  lemma JoinAfterSeparator(rest: seq<string>, sep: char)
    requires |rest| >= 1
    ensures Join([[]] + rest, [sep]) == [sep] + Join(rest, [sep])
  {
    var parts := [[]] + rest;
    assert parts[0] == [] && parts[1..] == rest;
  }

  /** A character glued to the first part joins back in front of the rest. */
  lemma JoinAfterChar(c: char, first: string, tail: seq<string>, sep: char)
    ensures Join([[c] + first] + tail, [sep]) == [c] + Join([first] + tail, [sep])
  {
    var longer, shorter := [[c] + first] + tail, [first] + tail;
    if tail == [] {
      assert |longer| == 1 && |shorter| == 1;
    } else {
      assert longer[0] == [c] + first && longer[1..] == tail;
      assert shorter[0] == first && shorter[1..] == tail;
      var t := Join(tail, [sep]);
      calc {
        Join(longer, [sep]);
        ([c] + first) + [sep] + t;
        [c] + (first + [sep] + t);
        [c] + Join(shorter, [sep]);
      }
    }
  }

  /** `s.replace(/\s+/g, '-')`: every maximal run of white space becomes one '-'. */
  function ReplaceWhitespaceRuns(s: string): (r: string)
    ensures NoWhitespace(r) && |r| <= |s|
  {
    ReplaceRuns(s, false)
  }

  /** inRun: the previous character was white space (and has already produced its '-'). */
  function ReplaceRuns(s: string, inRun: bool): (r: string)
    ensures NoWhitespace(r)
    ensures |r| <= |s|
  {
    if s == [] then []
    else if IsWhitespace(s[0]) then
      (if inRun then [] else "-") + ReplaceRuns(s[1..], true)
    else [s[0]] + ReplaceRuns(s[1..], false)
  }

  /** Whether a white-space run is still open after reading s from state inRun. */
  function RunOpenAfter(s: string, inRun: bool): bool {
    if s == [] then inRun else IsWhitespace(s[|s| - 1])
  }

  /** Every maximal run of white space becomes exactly one '-': a non-empty run between
      text that does not touch it (or the ends of the string) is replaced by a single
      '-', and the text on either side is replaced on its own. */
  lemma ReplaceRunsCollapse(a: string, w: string, b: string)
    requires w != [] && AllWhitespace(w)
    requires a == [] || !IsWhitespace(a[|a| - 1])
    requires b == [] || !IsWhitespace(b[0])
    ensures ReplaceWhitespaceRuns(a + w + b) == ReplaceWhitespaceRuns(a) + "-" + ReplaceWhitespaceRuns(b)
  {
    assert a + w + b == a + (w + b);
    assert !RunOpenAfter(a, false) && RunOpenAfter(w, false);
    var x, y := ReplaceRuns(a, false), ReplaceRuns(b, false);
    calc {
      ReplaceWhitespaceRuns(a + w + b);
      ReplaceRuns(a + (w + b), false);
      { ReplaceRunsConcat(a, w + b, false); }
      x + ReplaceRuns(w + b, false);
      { ReplaceRunsConcat(w, b, false); }
      x + (ReplaceRuns(w, false) + ReplaceRuns(b, true));
      { ReplaceRunsWhitespace(w, false); ReplaceRunsCleanStart(b); }
      x + ("-" + y);
      x + "-" + y;
    }
  }

  /** Replacing runs in a concatenation: the second part starts in the state the first
      part leaves. */
  lemma {:induction false} ReplaceRunsConcat(a: string, b: string, inRun: bool)
    ensures ReplaceRuns(a + b, inRun) == ReplaceRuns(a, inRun) + ReplaceRuns(b, RunOpenAfter(a, inRun))
  {
    if a == [] {
      assert a + b == b;
    } else {
      assert (a + b)[0] == a[0];
      assert (a + b)[1..] == a[1..] + b;
      var next := IsWhitespace(a[0]);
      var head := if next then (if inRun then [] else "-") else [a[0]];
      assert RunOpenAfter(a[1..], next) == RunOpenAfter(a, inRun);
      calc {
        ReplaceRuns(a + b, inRun);
        head + ReplaceRuns(a[1..] + b, next);
        { ReplaceRunsConcat(a[1..], b, next); }
        head + (ReplaceRuns(a[1..], next) + ReplaceRuns(b, RunOpenAfter(a, inRun)));
        (head + ReplaceRuns(a[1..], next)) + ReplaceRuns(b, RunOpenAfter(a, inRun));
        ReplaceRuns(a, inRun) + ReplaceRuns(b, RunOpenAfter(a, inRun));
      }
    }
  }

  /** A run of white space yields one '-' when it opens a run and nothing when it
      continues one. */
  lemma {:induction false} ReplaceRunsWhitespace(w: string, inRun: bool)
    requires AllWhitespace(w)
    ensures ReplaceRuns(w, inRun) == if w == [] || inRun then [] else "-"
  {
    if w != [] {
      ReplaceRunsWhitespace(w[1..], true);
    }
  }

  /** Text that does not start with white space is replaced the same way whether or
      not a run was open before it. */
  lemma ReplaceRunsCleanStart(b: string)
    requires b == [] || !IsWhitespace(b[0])
    ensures ReplaceRuns(b, true) == ReplaceRuns(b, false)
  {
  }

  /** The characters other than white space and '-' survive the replacement, in order. */
  lemma {:induction false} ReplaceRunsKeepsText(s: string, inRun: bool)
    ensures Visible(ReplaceRuns(s, inRun)) == Visible(s)
  {
    if s != [] {
      VisibleConcat([s[0]], s[1..]);
      var r := ReplaceRuns(s, inRun);
      var rest := ReplaceRuns(s[1..], IsWhitespace(s[0]));
      if IsWhitespace(s[0]) {
        VisibleConcat(if inRun then [] else "-", rest);
        ReplaceRunsKeepsText(s[1..], true);
      } else {
        VisibleConcat([s[0]], rest);
        ReplaceRunsKeepsText(s[1..], false);
      }
    }
  }

  /** The characters of s that are neither white space nor '-'. */
  function Visible(s: string): string {
    if s == [] then [] else Shown(s[0]) + Visible(s[1..])
  }

  /** The one character c contributes to `Visible`. */
  function Shown(c: char): string {
    if IsWhitespace(c) || c == '-' then [] else [c]
  }

  lemma {:induction false} VisibleConcat(a: string, b: string)
    ensures Visible(a + b) == Visible(a) + Visible(b)
  {
    if a == [] {
      assert a + b == b;
    } else {
      assert (a + b)[0] == a[0];
      assert (a + b)[1..] == a[1..] + b;
      calc {
        Visible(a + b);
        Shown(a[0]) + Visible(a[1..] + b);
        { VisibleConcat(a[1..], b); }
        Shown(a[0]) + (Visible(a[1..]) + Visible(b));
        (Shown(a[0]) + Visible(a[1..])) + Visible(b);
        Visible(a) + Visible(b);
      }
    }
  }

  /** A string without white space is left unchanged. */
  lemma {:induction false} ReplaceRunsNoWhitespace(s: string, inRun: bool)
    requires NoWhitespace(s)
    ensures ReplaceRuns(s, inRun) == s
  {
    if s != [] {
      ReplaceRunsNoWhitespace(s[1..], false);
    }
  }

  // ---------------------------------------------------------------------------
  // Decimal numbers

  predicate IsDigit(c: char) { '0' <= c <= '9' }

  function DigitChar(d: int): char
    requires 0 <= d < 10
  {
    ('0' as int + d) as char
  }

  /** Decimal digits of n, no leading zeros ("0" for zero). */
  function NatToDigits(n: nat): (r: string)
    ensures |r| >= 1
    ensures forall i :: 0 <= i < |r| ==> IsDigit(r[i])
    decreases n
  {
    if n < 10 then [DigitChar(n)] else NatToDigits(n / 10) + [DigitChar(n % 10)]
  }

  /** `String(n)` for an integer. */
  function IntToString(n: int): (r: string)
    ensures |r| >= 1
    ensures r[0] == '-' <==> n < 0
    ensures n >= 0 ==> IsDigit(r[0])
  {
    if n < 0 then "-" + NatToDigits(-n) else NatToDigits(n)
  }

  /** Value of a string of decimal digits. */
  function DigitsValue(s: string): nat
    requires forall i :: 0 <= i < |s| ==> IsDigit(s[i])
  {
    if s == [] then 0
    else
      var last := s[|s| - 1];
      assert IsDigit(last);
      DigitsValue(s[..|s| - 1]) * 10 + (last as int - '0' as int)
  }

  /** The longest prefix of digits. */
  function DigitPrefix(s: string): (r: string)
    ensures r <= s
    ensures forall i :: 0 <= i < |r| ==> IsDigit(r[i])
    ensures r == s || !IsDigit(s[|r|])
  {
    if s != [] && IsDigit(s[0]) then [s[0]] + DigitPrefix(s[1..]) else []
  }

  /** `parseInt(text)` (radix 10): leading white space, an optional sign, then as many
      digits as there are; `None` stands for NaN, the result when there is no digit. */
  function ParseInt(text: string): (r: Option<int>)
    ensures r.None? <==> DigitPrefix(SignFree(TrimStart(text))) == []
  {
    var t := TrimStart(text);
    var negative := t != [] && t[0] == '-';
    var digits := DigitPrefix(SignFree(t));
    if digits == [] then None
    else
      var v: int := DigitsValue(digits);
      Some(if negative then -v else v)
  }

  /** The text after an optional leading sign. */
  function SignFree(t: string): string {
    if t != [] && (t[0] == '-' || t[0] == '+') then t[1..] else t
  }

  /** `parseInt(text) || 0`: NaN (and zero) become zero. */
  function ParseIntOrZero(text: string): (n: int)
    ensures n == 0 <==> ParseInt(text).None? || ParseInt(text) == Some(0)
    ensures ParseInt(text).Some? ==> n == ParseInt(text).value
  {
    match ParseInt(text)
    case None => 0
    case Some(v) => v
  }

  lemma {:induction false} DigitsRoundTrip(n: nat)
    ensures DigitsValue(NatToDigits(n)) == n
    decreases n
  {
    if n >= 10 {
      DigitsRoundTrip(n / 10);
      var d := NatToDigits(n / 10) + [DigitChar(n % 10)];
      assert d[..|d| - 1] == NatToDigits(n / 10);
    }
  }

  lemma {:induction false} DigitPrefixAll(s: string)
    requires forall i :: 0 <= i < |s| ==> IsDigit(s[i])
    ensures DigitPrefix(s) == s
  {
    if s != [] {
      DigitPrefixAll(s[1..]);
    }
  }

  /** `parseInt(String(n)) == n`: the number the page prints is the number it reads back. */
  lemma ParseIntRoundTrip(n: int)
    ensures ParseInt(IntToString(n)) == Some(n)
  {
    var s := IntToString(n);
    var digits := NatToDigits(if n < 0 then -n else n);
    assert !IsWhitespace(s[0]);
    assert TrimStart(s) == s;
    if n < 0 {
      assert SignFree(s) == digits;
    } else {
      assert SignFree(s) == digits;
    }
    DigitPrefixAll(digits);
    DigitsRoundTrip(if n < 0 then -n else n);
  }

  /** A number written with an explicit '+' sign reads back as itself. */
  lemma ParsePlusSigned(n: nat)
    ensures ParseInt("+" + NatToDigits(n)) == Some(n)
  {
    var digits := NatToDigits(n);
    var s := "+" + digits;
    assert TrimStart(s) == s;
    assert SignFree(s) == digits;
    DigitPrefixAll(digits);
    DigitsRoundTrip(n);
  }
}
