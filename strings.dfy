/** String primitives of JavaScript that the mod loader relies on
    (`indexOf`, `lastIndexOf`, `split`, `join`, `startsWith`, `String(n)`
    and `parseInt(s, 10)`), written out so that the rest of the model can
    reason about them. Strings are sequences of characters. */
module Strings {
  import opened Wrappers

  /** `s.indexOf(c)`: the first index of `c`, or -1. */
  function IndexOf(s: string, c: char): (r: int)
    ensures -1 <= r < |s|
    ensures r >= 0 ==> s[r] == c
  {
    if |s| == 0 then -1
    else
      var k := IndexOf(s[..|s| - 1], c);
      if k >= 0 then k
      else if s[|s| - 1] == c then |s| - 1
      else -1
  }

  /** No occurrence of `c` comes before the one `indexOf` finds. */
  lemma {:induction false} IndexOfFirst(s: string, c: char)
    ensures forall j :: 0 <= j < |s| && (IndexOf(s, c) < 0 || j < IndexOf(s, c)) ==> s[j] != c
  {
    if |s| > 0 {
      IndexOfFirst(s[..|s| - 1], c);
    }
  }

  /** `s.lastIndexOf(c)`: the last index of `c`, or -1. */
  function LastIndexOf(s: string, c: char): (r: int)
    ensures -1 <= r < |s|
    ensures r >= 0 ==> s[r] == c
  {
    if |s| == 0 then -1
    else if s[|s| - 1] == c then |s| - 1
    else LastIndexOf(s[..|s| - 1], c)
  }

  /** No occurrence of `c` comes after the one `lastIndexOf` finds. */
  lemma {:induction false} LastIndexOfLast(s: string, c: char)
    ensures forall j :: LastIndexOf(s, c) < j < |s| ==> s[j] != c
  {
    if |s| > 0 && s[|s| - 1] != c {
      LastIndexOfLast(s[..|s| - 1], c);
    }
  }

  /** Both searches find nothing exactly when the character does not occur. */
  lemma {:induction false} NotFound(s: string, c: char)
    ensures IndexOf(s, c) < 0 <==> c !in s
    ensures LastIndexOf(s, c) < 0 <==> c !in s
  {
    IndexOfFirst(s, c);
    LastIndexOfLast(s, c);
    if c in s {
      var j :| 0 <= j < |s| && s[j] == c;
    }
  }

  predicate StartsWith(s: string, prefix: string) {
    |prefix| <= |s| && s[..|prefix|] == prefix
  }

  /** The text after the last `sep` of `s` (all of `s` when there is
      none). */
  function LastPiece(s: string, sep: char): (r: string)
    ensures sep !in r
    ensures |r| <= |s|
  {
    if |s| == 0 || s[|s| - 1] == sep then "" else LastPiece(s[..|s| - 1], sep) + [s[|s| - 1]]
  }

  lemma {:induction false} LastPieceWhole(s: string, sep: char)
    requires sep !in s
    ensures LastPiece(s, sep) == s
  {
    if |s| > 0 {
      LastPieceWhole(s[..|s| - 1], sep);
    }
  }

  lemma {:induction false} LastPieceAfter(a: string, b: string, sep: char)
    requires sep !in b
    ensures LastPiece(a + [sep] + b, sep) == b
  {
    var s := a + [sep] + b;
    if |b| > 0 {
      assert s[..|s| - 1] == a + [sep] + b[..|b| - 1];
      LastPieceAfter(a, b[..|b| - 1], sep);
    }
  }

  /** `s.split(sep)` for a one-character separator: the pieces between
      separators, in order; the empty string gives one empty piece. */
  function Split(s: string, sep: char): (parts: seq<string>)
    ensures |parts| >= 1
  {
    var k := LastIndexOf(s, sep);
    if k < 0 then [s] else Split(s[..k], sep) + [LastPiece(s, sep)]
  }

  /** No piece of a split contains the separator. */
  lemma {:induction false} SplitPieces(s: string, sep: char)
    ensures forall k :: 0 <= k < |Split(s, sep)| ==> sep !in Split(s, sep)[k]
  {
    var k := LastIndexOf(s, sep);
    if k < 0 {
      NotFound(s, sep);
    } else {
      SplitPieces(s[..k], sep);
    }
  }

  lemma {:induction false} SplitNoSeparator(s: string, sep: char)
    requires sep !in s
    ensures Split(s, sep) == [s]
  {
    NotFound(s, sep);
  }

  /** A separator followed by a separator-free tail closes the last piece. */
  lemma {:induction false} SplitLast(a: string, b: string, sep: char)
    requires sep !in b
    ensures Split(a + [sep] + b, sep) == Split(a, sep) + [b]
  {
    var s := a + [sep] + b;
    assert s[|a|] == sep;
    assert forall j :: |a| < j < |s| ==> s[j] == b[j - |a| - 1];
    LastIndexOfLast(s, sep);
    assert LastIndexOf(s, sep) == |a|;
    assert s[..|a|] == a;
    LastPieceAfter(a, b, sep);
  }

  /** A string with a separator is its text before the last separator, the
      separator, and the last piece. */
  lemma {:induction false} LastPieceSplit(s: string, sep: char)
    requires LastIndexOf(s, sep) >= 0
    ensures s == s[..LastIndexOf(s, sep)] + [sep] + LastPiece(s, sep)
  {
    if s[|s| - 1] != sep {
      var init := s[..|s| - 1];
      LastPieceSplit(init, sep);
      assert s == init + [s[|s| - 1]];
    }
  }

  /** Splitting at a separator splits each side independently. */
  lemma {:induction false} SplitConcat(a: string, b: string, sep: char)
    ensures Split(a + [sep] + b, sep) == Split(a, sep) + Split(b, sep)
    decreases |b|
  {
    var k := LastIndexOf(b, sep);
    if k < 0 {
      NotFound(b, sep);
      SplitLast(a, b, sep);
      SplitNoSeparator(b, sep);
    } else {
      var b1 := b[..k];
      var b2 := LastPiece(b, sep);
      LastPieceSplit(b, sep);
      assert a + [sep] + b == (a + [sep] + b1) + [sep] + b2;
      SplitLast(a + [sep] + b1, b2, sep);
      SplitConcat(a, b1, sep);
    }
  }

  /** `parts.join(sep)`. */
  function Join(parts: seq<string>, sep: string): (r: string)
    ensures |parts| == 1 ==> r == parts[0]
  {
    if |parts| == 0 then ""
    else if |parts| == 1 then parts[0]
    else Join(parts[..|parts| - 1], sep) + sep + parts[|parts| - 1]
  }

  /** Splitting a join of separator-free pieces gives the pieces back. */
  lemma {:induction false} SplitJoin(parts: seq<string>, sep: char)
    requires |parts| >= 1
    requires forall k :: 0 <= k < |parts| ==> sep !in parts[k]
    ensures Split(Join(parts, [sep]), sep) == parts
  {
    if |parts| == 1 {
      SplitNoSeparator(parts[0], sep);
    } else {
      var init := parts[..|parts| - 1];
      SplitJoin(init, sep);
      SplitLast(Join(init, [sep]), parts[|parts| - 1], sep);
    }
  }

  predicate IsDigit(c: char) { '0' <= c <= '9' }

  function DigitValue(c: char): nat
    requires IsDigit(c)
  {
    (c as int - '0' as int) as nat
  }

  function DigitChar(d: nat): (c: char)
    requires d < 10
    ensures IsDigit(c) && DigitValue(c) == d
  {
    ('0' as int + d) as char
  }

  /** `String(n)` for a non-negative integer: its decimal digits. */
  function NatToString(n: nat): (s: string)
    ensures |s| >= 1
    ensures forall k :: 0 <= k < |s| ==> IsDigit(s[k])
  {
    if n < 10 then [DigitChar(n)] else NatToString(n / 10) + [DigitChar(n % 10)]
  }

  /** `String(i)` for an integer. */
  function IntToString(i: int): string {
    if i < 0 then "-" + NatToString(-i) else NatToString(i)
  }

  /** The value of the decimal digits `s[start..end]`. */
  function DigitsValue(s: string, start: nat, end: nat): nat
    requires start <= end <= |s|
    requires forall k :: start <= k < end ==> IsDigit(s[k])
    decreases end - start
  {
    if end == start then 0 else DigitsValue(s, start, end - 1) * 10 + DigitValue(s[end - 1])
  }

  /** The value of digits does not depend on what follows them. */
  lemma {:induction false} DigitsValuePrefix(a: string, b: string, end: nat)
    requires end <= |a|
    requires forall k :: 0 <= k < end ==> IsDigit(a[k])
    ensures DigitsValue(a + b, 0, end) == DigitsValue(a, 0, end)
  {
    if end > 0 {
      DigitsValuePrefix(a, b, end - 1);
    }
  }

  /** The value of digits does not depend on what precedes them. */
  lemma {:induction false} DigitsValueShift(c: char, d: string, end: nat)
    requires end <= |d|
    requires forall k :: 0 <= k < end ==> IsDigit(d[k])
    ensures DigitsValue([c] + d, 1, end + 1) == DigitsValue(d, 0, end)
  {
    if end > 0 {
      DigitsValueShift(c, d, end - 1);
    }
  }

  /** The characters that `parseInt` skips before the number. */
  predicate IsWhiteSpace(c: char) {
    c == '\t' || c == '\n' || c == '\U{000B}' || c == '\U{000C}' || c == '\r' || c == ' '
    || c == '\U{00A0}' || c == '\U{1680}' || ('\U{2000}' <= c <= '\U{200A}')
    || c == '\U{2028}' || c == '\U{2029}' || c == '\U{202F}' || c == '\U{205F}'
    || c == '\U{3000}' || c == '\U{FEFF}'
  }

  /** The index of the first character at or after `i` that is not white
      space. */
  function SkipWhiteSpace(s: string, i: nat): (j: nat)
    requires i <= |s|
    ensures i <= j <= |s|
    ensures forall k :: i <= k < j ==> IsWhiteSpace(s[k])
    ensures j < |s| ==> !IsWhiteSpace(s[j])
    decreases |s| - i
  {
    if i < |s| && IsWhiteSpace(s[i]) then SkipWhiteSpace(s, i + 1) else i
  }

  /** The end of the run of decimal digits that starts at `i`. */
  function DigitsEnd(s: string, i: nat): (j: nat)
    requires i <= |s|
    ensures i <= j <= |s|
    ensures forall k :: i <= k < j ==> IsDigit(s[k])
    ensures j < |s| ==> !IsDigit(s[j])
    decreases |s| - i
  {
    if i < |s| && IsDigit(s[i]) then DigitsEnd(s, i + 1) else i
  }

  /** `parseInt(s, 10)`: `None` stands for NaN. Leading white space and a sign
      are accepted, and parsing stops at the first non-digit. */
  function ParseInt(s: string): Option<int> {
    var t := SkipWhiteSpace(s, 0);
    var negative := t < |s| && s[t] == '-';
    var start := if t < |s| && (s[t] == '-' || s[t] == '+') then t + 1 else t;
    var end := DigitsEnd(s, start);
    if end == start then None
    else
      var magnitude: int := DigitsValue(s, start, end);
      Some(if negative then -magnitude else magnitude)
  }

  lemma {:induction false} NatToStringValue(n: nat)
    ensures DigitsValue(NatToString(n), 0, |NatToString(n)|) == n
  {
    if n >= 10 {
      var front := NatToString(n / 10);
      NatToStringValue(n / 10);
      DigitsValuePrefix(front, [DigitChar(n % 10)], |front|);
    }
  }

  /** A run of digits reaches the end of a string made of digits. */
  lemma {:induction false} DigitsToEnd(s: string, i: nat)
    requires i <= |s|
    requires forall k :: i <= k < |s| ==> IsDigit(s[k])
    ensures DigitsEnd(s, i) == |s|
    decreases |s| - i
  {
    if i < |s| {
      DigitsToEnd(s, i + 1);
    }
  }

  /** A string of digits parses to its value. */
  lemma {:induction false} DigitsParse(d: string)
    requires |d| >= 1
    requires forall k :: 0 <= k < |d| ==> IsDigit(d[k])
    ensures ParseInt(d) == Some(DigitsValue(d, 0, |d|) as int)
  {
    assert SkipWhiteSpace(d, 0) == 0;
    DigitsToEnd(d, 0);
  }

  /** A minus sign before a string of digits negates its value. */
  lemma {:induction false} NegatedDigitsParse(d: string)
    requires |d| >= 1
    requires forall k :: 0 <= k < |d| ==> IsDigit(d[k])
    ensures ParseInt("-" + d) == Some(-(DigitsValue(d, 0, |d|) as int))
  {
    var s := "-" + d;
    assert s[0] == '-' && SkipWhiteSpace(s, 0) == 0;
    DigitsToEnd(s, 1);
    DigitsValueShift('-', d, |d|);
  }

  /** `parseInt(String(i), 10) == i`: the decimal round trip that the stored
      log flags rely on. */
  lemma {:induction false} ParseIntOfIntToString(i: int)
    ensures ParseInt(IntToString(i)) == Some(i)
  {
    var m: nat := if i < 0 then -i else i;
    NatToStringValue(m);
    if i < 0 {
      NegatedDigitsParse(NatToString(m));
    } else {
      DigitsParse(NatToString(m));
    }
  }
}
