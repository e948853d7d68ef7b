/**
 * Character and string primitives the cleaning functions are written with:
 * digits and decimal values, Python's whitespace set and `strip()`,
 * ASCII lower-casing, substring search and `split`.
 */
module Text {
  import opened Wrappers

  // ---------------------------------------------------------------------------
  // Digits and decimal values
  // ---------------------------------------------------------------------------

  /** The characters the regular expression class `\d` matches (ASCII only). */
  predicate IsDigit(c: char) {
    '0' <= c <= '9'
  }

  predicate AllDigits(s: string) {
    forall k :: 0 <= k < |s| ==> IsDigit(s[k])
  }

  predicate NoDigits(s: string) {
    forall k :: 0 <= k < |s| ==> !IsDigit(s[k])
  }

  function DigitValue(c: char): (d: nat)
    requires IsDigit(c)
    ensures d < 10
  {
    (c as int) - ('0' as int)
  }

  function DigitChar(d: nat): (c: char)
    requires d < 10
    ensures IsDigit(c) && DigitValue(c) == d
  {
    (('0' as int) + d) as char
  }

  /** The value of a run of decimal digits, as Python's `int()` reads it (leading zeros allowed). */
  function DecimalValue(s: string): nat
    requires AllDigits(s)
  {
    if s == [] then 0 else DecimalValue(s[..|s| - 1]) * 10 + DigitValue(s[|s| - 1])
  }

  /** The decimal rendering of `n`, without leading zeros ("0" for zero). */
  function Render(n: nat): (s: string)
    ensures |s| >= 1 && AllDigits(s)
  {
    if n < 10 then [DigitChar(n)] else Render(n / 10) + [DigitChar(n % 10)]
  }

  /** Reading a rendered number gives the number back. */
  lemma {:induction false} DecimalValueOfRender(n: nat)
    ensures DecimalValue(Render(n)) == n
  {
    var s := Render(n);
    if n >= 10 {
      DecimalValueOfRender(n / 10);
      assert s[..|s| - 1] == Render(n / 10);
    }
  }

  // ---------------------------------------------------------------------------
  // First maximal run of digits (leftmost match of `\d+`)
  // ---------------------------------------------------------------------------

  /** Index of the first digit of `s` at or after `i`, or `|s|` when there is none. */
  function FirstDigitFrom(s: string, i: nat): (j: nat)
    requires i <= |s|
    ensures i <= j <= |s|
    ensures forall k :: i <= k < j ==> !IsDigit(s[k])
    ensures j < |s| ==> IsDigit(s[j])
    decreases |s| - i
  {
    if i == |s| || IsDigit(s[i]) then i else FirstDigitFrom(s, i + 1)
  }

  /** End (exclusive) of the run of digits that starts at `i`. */
  function DigitsEnd(s: string, i: nat): (j: nat)
    requires i <= |s|
    ensures i <= j <= |s|
    ensures forall k :: i <= k < j ==> IsDigit(s[k])
    ensures j < |s| ==> !IsDigit(s[j])
    decreases |s| - i
  {
    if i == |s| || !IsDigit(s[i]) then i else DigitsEnd(s, i + 1)
  }

  /**
   * What `re.search(r"\d+", s)` matches: the first maximal run of digits.
   * It is absent exactly when `s` holds no digit; otherwise it is non-empty,
   * made of digits, preceded only by non-digits and not followed by a digit.
   */
  function FirstDigitRun(s: string): (r: Option<string>)
    ensures r.None? <==> NoDigits(s)
    ensures r.Some? ==>
      var i := FirstDigitFrom(s, 0);
      var j := DigitsEnd(s, i);
      && i < j
      && r.value == s[i..j]
      && AllDigits(r.value)
      && NoDigits(s[..i])
      && (j == |s| || !IsDigit(s[j]))
  {
    var i := FirstDigitFrom(s, 0);
    if i == |s| then None else Some(s[i..DigitsEnd(s, i)])
  }

  /**
   * Text without digits, then a run of digits, then text that does not start
   * with a digit: that run is the first maximal run of digits, whatever the
   * text before it and with its leading zeros.
   */
  lemma FirstRunAfterDigitFreePrefix(pre: string, d: string, rest: string)
    requires NoDigits(pre) && d != [] && AllDigits(d)
    requires rest == [] || !IsDigit(rest[0])
    ensures FirstDigitRun(pre + d + rest) == Some(d)
  {
    var s := pre + d + rest;
    var i, j := |pre|, |pre| + |d|;
    assert forall k :: 0 <= k < i ==> s[k] == pre[k];
    assert forall k :: i <= k < j ==> s[k] == d[k - i];
    assert j < |s| ==> s[j] == rest[0];
    FirstDigitFromOver(s, 0, i);
    DigitsEndOver(s, i, j);
    assert s[i..j] == d;
  }

  /** Only non-digits from `i` up to a digit (or the end) at `j`: the search from `i` stops at `j`. */
  lemma {:induction false} FirstDigitFromOver(s: string, i: nat, j: nat)
    requires i <= j <= |s|
    requires forall k :: i <= k < j ==> !IsDigit(s[k])
    requires j == |s| || IsDigit(s[j])
    ensures FirstDigitFrom(s, i) == j
    decreases j - i
  {
    if i < j {
      FirstDigitFromOver(s, i + 1, j);
    }
  }

  /** A run of digits from `i` up to a non-digit (or the end) at `j` ends at `j`. */
  lemma {:induction false} DigitsEndOver(s: string, i: nat, j: nat)
    requires i <= j <= |s|
    requires forall k :: i <= k < j ==> IsDigit(s[k])
    requires j == |s| || !IsDigit(s[j])
    ensures DigitsEnd(s, i) == j
    decreases j - i
  {
    if i < j {
      DigitsEndOver(s, i + 1, j);
    }
  }

  // ---------------------------------------------------------------------------
  // Whitespace and strip()
  // ---------------------------------------------------------------------------

  /** The characters Python's `str.isspace()` accepts, which `str.strip()` removes. */
  predicate IsSpace(c: char) {
    || c == ' '
    || '\t' <= c <= '\r'
    || '\U{1C}' <= c <= '\U{1F}'
    || c == '\U{85}' || c == '\U{A0}' || c == '\U{1680}'
    || '\U{2000}' <= c <= '\U{200A}'
    || c == '\U{2028}' || c == '\U{2029}' || c == '\U{202F}' || c == '\U{205F}' || c == '\U{3000}'
  }

  /** Every character of `s` is whitespace. */
  predicate AllSpace(s: string) {
    forall k :: 0 <= k < |s| ==> IsSpace(s[k])
  }

  /** `s` with its leading whitespace removed: a suffix of `s`, what was cut is all whitespace. */
  function TrimStart(s: string): (r: string)
    ensures |r| <= |s| && r == s[|s| - |r|..]
    ensures AllSpace(s[..|s| - |r|])
    ensures r == [] || !IsSpace(r[0])
  {
    if s != [] && IsSpace(s[0]) then
      var r := TrimStart(s[1..]);
      assert s[1..][|s| - 1 - |r|..] == s[|s| - |r|..];
      assert forall k :: 1 <= k < |s| - |r| ==> s[k] == s[1..][k - 1];
      r
    else s
  }

  /** `s` with its trailing whitespace removed: a prefix of `s`, what was cut is all whitespace. */
  function TrimEnd(s: string): (r: string)
    ensures |r| <= |s| && r == s[..|r|]
    ensures AllSpace(s[|r|..])
    ensures r == [] || !IsSpace(r[|r| - 1])
  {
    if s != [] && IsSpace(s[|s| - 1]) then
      var r := TrimEnd(s[..|s| - 1]);
      assert forall k :: |r| <= k < |s| - 1 ==> s[k] == s[..|s| - 1][k];
      r
    else s
  }

  /** Python's `str.strip()` with no argument: never longer, and no whitespace left at either end. */
  function Strip(s: string): (r: string)
    ensures |r| <= |s|
    ensures r == [] || (!IsSpace(r[0]) && !IsSpace(r[|r| - 1]))
  {
    var t := TrimStart(s);
    var r := TrimEnd(t);
    assert r != [] ==> r[0] == t[0];
    r
  }

  /**
   * `Strip(s)` is the slice of `s` left once the whitespace on both sides is
   * cut: everything before and after the slice is whitespace.
   */
  lemma StripIsTrimmedSlice(s: string)
    ensures exists i, j :: 0 <= i <= j <= |s| && Strip(s) == s[i..j] && AllSpace(s[..i]) && AllSpace(s[j..])
  {
    var i, j := StripBounds(s);
  }

  lemma StripBounds(s: string) returns (i: nat, j: nat)
    ensures i <= j <= |s| && Strip(s) == s[i..j] && AllSpace(s[..i]) && AllSpace(s[j..])
  {
    var t := TrimStart(s);
    var r := TrimEnd(t);
    i := |s| - |t|;
    j := i + |r|;
    assert t == s[i..];
    assert r == s[i..j] by {
      assert r == t[..|r|];
    }
    assert s[j..] == t[|r|..];
  }

  // ---------------------------------------------------------------------------
  // Lower-casing and substring search
  // ---------------------------------------------------------------------------

  function LowerChar(c: char): (l: char)
    ensures !('A' <= l <= 'Z')
  {
    if 'A' <= c <= 'Z' then (c as int + 32) as char else c
  }

  /**
   * `str.lower()` restricted to ASCII: character by character, 'A'..'Z' become
   * 'a'..'z' and everything else is kept, so no upper-case ASCII letter is left.
   */
  function Lower(s: string): (r: string)
    ensures |r| == |s|
    ensures forall k :: 0 <= k < |s| ==> r[k] == LowerChar(s[k])
    ensures forall k :: 0 <= k < |r| ==> !('A' <= r[k] <= 'Z')
  {
    seq(|s|, k requires 0 <= k < |s| => LowerChar(s[k]))
  }

  /** A lower-case letter appears in `Lower(s)` only where `s` has it in either case. */
  lemma LetterAbsentAfterLower(s: string, c: char)
    requires 'a' <= c <= 'z'
    requires c !in s && (c as int - 32) as char !in s
    ensures c !in Lower(s)
  {
  }

  /** A character that is not a letter appears in `Lower(s)` only where `s` has it. */
  lemma OtherAbsentAfterLower(s: string, c: char)
    requires !('a' <= c <= 'z') && !('A' <= c <= 'Z')
    requires c !in s
    ensures c !in Lower(s)
  {
  }

  /** Lower-casing twice is lower-casing once. */
  lemma LowerIdempotent(s: string)
    ensures Lower(Lower(s)) == Lower(s)
  {
  }

  /** Lower-casing works character by character, so it distributes over concatenation. */
  lemma LowerAppend(s: string, t: string)
    ensures Lower(s + t) == Lower(s) + Lower(t)
  {
  }

  /**
   * Python's `pattern in s` for strings: `pattern` occurs as a contiguous
   * slice of `s`. The empty pattern is in every text; a longer pattern than
   * the text never is.
   */
  predicate Contains(s: string, pattern: string)
    ensures pattern == [] ==> Contains(s, pattern)
    ensures Contains(s, pattern) ==> |pattern| <= |s|
    decreases |s|
  {
    pattern <= s || (s != [] && Contains(s[1..], pattern))
  }

  /** `pattern` sits in `s` at position `i`. */
  predicate OccursAt(s: string, pattern: string, i: int) {
    0 <= i && i + |pattern| <= |s| && s[i..i + |pattern|] == pattern
  }

  /** Substring search agrees with "there is a position where the slice equals the pattern". */
  lemma {:induction false} ContainsAt(s: string, pattern: string)
    ensures Contains(s, pattern) <==> exists i :: OccursAt(s, pattern, i)
    decreases |s|
  {
    if pattern <= s {
      assert OccursAt(s, pattern, 0);
    } else if s != [] {
      ContainsAt(s[1..], pattern);
      if exists i :: OccursAt(s, pattern, i) {
        var i :| OccursAt(s, pattern, i);
        assert i != 0;
        assert OccursAt(s[1..], pattern, i - 1);
      }
      if Contains(s[1..], pattern) {
        var i :| OccursAt(s[1..], pattern, i);
        assert OccursAt(s, pattern, i + 1);
      }
    }
  }

  /** A pattern with a character that `s` lacks does not occur in `s`. */
  lemma MissingCharMeansNoMatch(s: string, pattern: string, c: char)
    requires c in pattern && c !in s
    ensures !Contains(s, pattern)
  {
    ContainsAt(s, pattern);
  }

  /** A pattern holding a lower-case letter that `s` lacks in either case does not occur in `Lower(s)`. */
  lemma LetterRulesOutPattern(s: string, pattern: string, c: char)
    requires 'a' <= c <= 'z' && c in pattern
    requires c !in s && (c as int - 32) as char !in s
    ensures !Contains(Lower(s), pattern)
  {
    LetterAbsentAfterLower(s, c);
    MissingCharMeansNoMatch(Lower(s), pattern, c);
  }

  /** Text appended after a match keeps the match. */
  lemma {:induction false} ContainsExtendRight(s: string, t: string, pattern: string)
    requires Contains(s, pattern)
    ensures Contains(s + t, pattern)
    decreases |s|
  {
    if pattern <= s {
      assert (s + t)[..|pattern|] == s[..|pattern|];
    } else {
      assert (s + t)[1..] == s[1..] + t;
      ContainsExtendRight(s[1..], t, pattern);
    }
  }

  /** Text prepended before a match keeps the match. */
  lemma {:induction false} ContainsExtendLeft(s: string, t: string, pattern: string)
    requires Contains(t, pattern)
    ensures Contains(s + t, pattern)
    decreases |s|
  {
    if s == [] {
      assert s + t == t;
    } else {
      assert (s + t)[1..] == s[1..] + t;
      ContainsExtendLeft(s[1..], t, pattern);
    }
  }

  // ---------------------------------------------------------------------------
  // split(sep)
  // ---------------------------------------------------------------------------

  /** The pieces joined back with `sep` between them (the inverse of `Split`). */
  function Join(parts: seq<string>, sep: char): string
    requires |parts| >= 1
  {
    if |parts| == 1 then parts[0] else parts[0] + [sep] + Join(parts[1..], sep)
  }

  /**
   * Python's `s.split(sep)` for a one-character separator: at least one piece,
   * no piece holds the separator, and the pieces joined with it give `s` back.
   */
  function Split(s: string, sep: char): (parts: seq<string>)
    ensures |parts| >= 1
    ensures forall k :: 0 <= k < |parts| ==> sep !in parts[k]
    ensures Join(parts, sep) == s
    decreases |s|
  {
    if s == [] then [[]]
    else
      var rest := Split(s[1..], sep);
      if s[0] == sep then [[]] + rest
      else
        assert sep !in [s[0]] + rest[0];
        [[s[0]] + rest[0]] + rest[1..]
  }

  function Last<T>(xs: seq<T>): T
    requires |xs| >= 1
  {
    xs[|xs| - 1]
  }

  /**
   * `s.split(sep)[-1]` is the suffix of `s` after its last separator: it holds
   * no separator, and either it is all of `s` or the character before it is `sep`.
   */
  lemma {:induction false} LastPieceIsFinalSegment(s: string, sep: char)
    ensures var p := Last(Split(s, sep));
      && |p| <= |s|
      && p == s[|s| - |p|..]
      && sep !in p
      && (|p| == |s| || s[|s| - |p| - 1] == sep)
    decreases |s|
  {
    if s != [] {
      var t := s[1..];
      LastPieceIsFinalSegment(t, sep);
      LastPieceStep(s, sep);
      if !(s[0] != sep && |Split(t, sep)| == 1) {
        SuffixOfTail(s, |Last(Split(t, sep))|);
      }
    }
  }

  /** A suffix of the tail of `s` is the suffix of `s` of the same length, with the same character before it. */
  lemma SuffixOfTail(s: string, n: nat)
    requires n < |s|
    ensures s[1..][|s| - 1 - n..] == s[|s| - n..]
    ensures n < |s| - 1 ==> s[1..][|s| - 2 - n] == s[|s| - n - 1]
  {
  }

  /** The last piece of `s` is all of `s` or the last piece of its tail. */
  lemma LastPieceStep(s: string, sep: char)
    requires s != []
    ensures var rest := Split(s[1..], sep);
      Last(Split(s, sep)) == if s[0] != sep && |rest| == 1 then s else Last(rest)
  {
    var t := s[1..];
    var rest := Split(t, sep);
    if s[0] == sep {
      assert Split(s, sep) == [[]] + rest;
    } else if |rest| == 1 {
      assert Join(rest, sep) == rest[0] == t;
      assert Split(s, sep) == [[s[0]] + t];
      assert [s[0]] + t == s;
    } else {
      assert Split(s, sep) == [[s[0]] + rest[0]] + rest[1..];
    }
  }

  /** A string without the separator splits into itself alone. */
  lemma SplitWithoutSeparator(s: string, sep: char)
    requires sep !in s
    ensures Split(s, sep) == [s]
  {
  }
}
