/**
 * The few `java.lang.String` operations the scraper relies on, written out with
 * the exact character classes Java uses. A Java string is a `seq<char>` here.
 */
module JavaStrings {

  /** `String.trim()` removes every leading and trailing char whose code is at most U+0020. */
  predicate IsTrimmable(c: char) {
    c <= ' '
  }

  /** Java's `String.trim()`: it is empty exactly when every character was trimmable, and
      otherwise neither end is trimmable. */
  function Trim(s: string): (r: string)
    ensures r == [] <==> forall i :: 0 <= i < |s| ==> IsTrimmable(s[i])
    ensures r != [] ==> !IsTrimmable(r[0]) && !IsTrimmable(r[|r| - 1])
    decreases |s|
  {
    if s == [] then s
    else if IsTrimmable(s[0]) then
      assert forall i :: 1 <= i < |s| ==> s[i] == s[1..][i - 1];
      Trim(s[1..])
    else if IsTrimmable(s[|s| - 1]) then
      assert forall i :: 0 <= i < |s| - 1 ==> s[i] == s[..|s| - 1][i];
      Trim(s[..|s| - 1])
    else s
  }

  /** How many leading characters `trim` removes. */
  function TrimOffset(s: string): (k: nat)
    ensures k + |Trim(s)| <= |s|
    decreases |s|
  {
    if s == [] then 0
    else if IsTrimmable(s[0]) then 1 + TrimOffset(s[1..])
    else if IsTrimmable(s[|s| - 1]) then TrimOffset(s[..|s| - 1])
    else 0
  }

  /** What is left is the contiguous part of `s` that starts after the removed prefix. */
  lemma {:induction false} TrimKeepsMiddle(s: string)
    ensures forall i :: 0 <= i < |Trim(s)| ==> Trim(s)[i] == s[TrimOffset(s) + i]
    decreases |s|
  {
    if s != [] && IsTrimmable(s[0]) {
      TrimKeepsMiddle(s[1..]);
    } else if s != [] && IsTrimmable(s[|s| - 1]) {
      TrimKeepsMiddle(s[..|s| - 1]);
    }
  }

  /** Every character `trim` removes, before or after what is left, is trimmable. */
  lemma {:induction false} TrimDropsOnlyTrimmable(s: string)
    ensures forall i :: 0 <= i < TrimOffset(s) ==> IsTrimmable(s[i])
    ensures forall i :: TrimOffset(s) + |Trim(s)| <= i < |s| ==> IsTrimmable(s[i])
    decreases |s|
  {
    if s != [] && IsTrimmable(s[0]) {
      var t := s[1..];
      TrimDropsOnlyTrimmable(t);
      assert forall i :: 1 <= i < |s| ==> s[i] == t[i - 1];
    } else if s != [] && IsTrimmable(s[|s| - 1]) {
      var t := s[..|s| - 1];
      TrimDropsOnlyTrimmable(t);
      assert forall i :: 0 <= i < |t| ==> s[i] == t[i];
    }
  }

  /** Trimming twice is the same as trimming once. */
  lemma TrimIdempotent(s: string)
    ensures Trim(Trim(s)) == Trim(s)
  {
  }

  /** `Character.isWhitespace`: Unicode space, line and paragraph separators other than the
      non-breaking ones (U+00A0, U+2007, U+202F), plus the ASCII controls U+0009-U+000D and U+001C-U+001F. */
  predicate IsJavaWhitespace(c: char) {
    c == ' ' || ('\t' <= c <= '\r') || ('\U{1C}' <= c <= '\U{1F}')
    || c == '\U{1680}' || ('\U{2000}' <= c <= '\U{2006}') || ('\U{2008}' <= c <= '\U{200A}')
    || c == '\U{2028}' || c == '\U{2029}' || c == '\U{205F}' || c == '\U{3000}'
  }

  /** Java's `String.isBlank()`: empty, or only whitespace. */
  predicate IsBlank(s: string) {
    forall i :: 0 <= i < |s| ==> IsJavaWhitespace(s[i])
  }

  /** `isBlank()` and `trim().isEmpty()` are different tests: an em space is blank but
      survives `trim`, a U+0001 control is not blank but is trimmed away, and spaces, tabs
      and line feeds are caught by both. */
  lemma BlankDiffersFromTrimmedEmpty()
    ensures IsBlank("\U{2003}") && Trim("\U{2003}") == "\U{2003}"
    ensures !IsBlank("\U{1}") && Trim("\U{1}") == []
    ensures IsBlank(" \t\n") && Trim(" \t\n") == []
  {
    assert !IsJavaWhitespace("\U{1}"[0]);
  }

  /** `sub` occurs in `s` starting at index `i`. */
  predicate InfixAt(s: string, sub: string, i: int) {
    0 <= i <= |s| - |sub| && s[i..i + |sub|] == sub
  }

  /** Java's `String.contains(CharSequence)`. */
  predicate Contains(s: string, sub: string) {
    exists i | 0 <= i <= |s| - |sub| :: InfixAt(s, sub, i)
  }

  /** What `.` refuses to match in a `java.util.regex` pattern without DOTALL. */
  predicate IsLineTerminator(c: char) {
    c == '\n' || c == '\r' || c == '\U{85}' || c == '\U{2028}' || c == '\U{2029}'
  }

  /** `\d` without UNICODE_CHARACTER_CLASS. */
  predicate IsAsciiDigit(c: char) {
    '0' <= c <= '9'
  }

  /** `s.matches(".*\\d+.*")`: the whole string must match, and `.` stops at a line terminator,
      so the text needs a digit and no line terminator at all. */
  predicate MatchesDigitPattern(s: string) {
    (exists i :: 0 <= i < |s| && IsAsciiDigit(s[i]))
    && (forall i :: 0 <= i < |s| ==> !IsLineTerminator(s[i]))
  }

  /** The regular expression read literally: `.*` matches `s[..i]`, `\d+` matches `s[i..j]`
      and `.*` matches `s[j..]`. */
  predicate DigitRunSplit(s: string, i: int, j: int) {
    0 <= i < j <= |s|
    && (forall k :: 0 <= k < i ==> !IsLineTerminator(s[k]))
    && (forall k :: i <= k < j ==> IsAsciiDigit(s[k]))
    && (forall k :: j <= k < |s| ==> !IsLineTerminator(s[k]))
  }

  /** The predicate agrees with the pattern: `s` matches exactly when it splits into a run of
      no line terminators, a non-empty run of digits, and a run of no line terminators. */
  lemma DigitPatternIsRegex(s: string)
    ensures MatchesDigitPattern(s) <==> exists i, j :: DigitRunSplit(s, i, j)
  {
    if MatchesDigitPattern(s) {
      var i :| 0 <= i < |s| && IsAsciiDigit(s[i]);
      assert DigitRunSplit(s, i, i + 1);
    }
    if exists i, j :: DigitRunSplit(s, i, j) {
      var i, j :| DigitRunSplit(s, i, j);
      assert IsAsciiDigit(s[i]);
      forall k | 0 <= k < |s| ensures !IsLineTerminator(s[k]) {
        if i <= k < j {
          assert IsAsciiDigit(s[k]);
        }
      }
    }
  }

  /** The pieces of `s` between occurrences of `sep`, empty pieces included. */
  function Pieces(s: string, sep: char): (r: seq<string>)
    ensures |r| >= 1
    ensures forall k :: 0 <= k < |r| ==> sep !in r[k]
    ensures sep !in s ==> r == [s]
  {
    if s == [] then [[]]
    else
      var rest := Pieces(s[1..], sep);
      assert sep !in s ==> sep !in s[1..] && [s[0]] + s[1..] == s;
      if s[0] == sep then [[]] + rest
      else [[s[0]] + rest[0]] + rest[1..]
  }

  /** Gluing the pieces back together with `sep` gives the original string. */
  function Join(ps: seq<string>, sep: char): string {
    if |ps| <= 1 then (if ps == [] then [] else ps[0])
    else ps[0] + [sep] + Join(ps[1..], sep)
  }

  lemma {:induction false} JoinPieces(s: string, sep: char)
    ensures Join(Pieces(s, sep), sep) == s
  {
    if s != [] {
      var rest := Pieces(s[1..], sep);
      JoinPieces(s[1..], sep);
      if s[0] == sep {
        assert Pieces(s, sep) == [[]] + rest;
        assert ([[]] + rest)[1..] == rest;
      } else {
        var ps := Pieces(s, sep);
        assert ps == [[s[0]] + rest[0]] + rest[1..];
        if |rest| == 1 {
          assert ps == [[s[0]] + rest[0]];
        } else {
          assert ps[1..] == rest[1..];
          assert Join(rest, sep) == rest[0] + [sep] + Join(rest[1..], sep);
        }
      }
    }
  }

  /** The first piece is the prefix of `s` up to the first separator. */
  lemma {:induction false} FirstPiece(s: string, sep: char)
    ensures |Pieces(s, sep)[0]| <= |s| && Pieces(s, sep)[0] == s[..|Pieces(s, sep)[0]|]
    ensures s != [] && s[0] != sep ==> Pieces(s, sep)[0] != []
  {
    if s != [] {
      FirstPiece(s[1..], sep);
    }
  }

  /** The last piece is empty only when `s` is empty or ends with the separator. */
  lemma {:induction false} LastPiece(s: string, sep: char)
    ensures var ps := Pieces(s, sep); ps[|ps| - 1] == [] <==> s == [] || s[|s| - 1] == sep
  {
    if s != [] {
      LastPiece(s[1..], sep);
      var rest := Pieces(s[1..], sep);
      if s[0] != sep && |rest| == 1 {
        assert Pieces(s, sep) == [[s[0]] + rest[0]];
        if |s| > 1 {
          assert s[1..][|s[1..]| - 1] == s[|s| - 1];
        }
      } else if |s| > 1 {
        assert s[1..][|s[1..]| - 1] == s[|s| - 1];
      }
    }
  }

  function DropTrailingEmpty(ps: seq<string>): (r: seq<string>)
    ensures |r| <= |ps| && r == ps[..|r|]
    ensures r == [] || r[|r| - 1] != []
    ensures forall k :: |r| <= k < |ps| ==> ps[k] == []
  {
    if ps != [] && ps[|ps| - 1] == [] then DropTrailingEmpty(ps[..|ps| - 1]) else ps
  }

  /** `s.split(String.valueOf(sep))`: without any separator the whole string comes back as
      the only element; otherwise the pieces come back in order, with the trailing empty
      ones, and only those, removed. */
  function Split(s: string, sep: char): (r: seq<string>)
    ensures sep !in s ==> r == [s]
    ensures sep in s ==> |r| <= |Pieces(s, sep)| && r == Pieces(s, sep)[..|r|]
    ensures sep in s ==> r == [] || r[|r| - 1] != []
    ensures sep in s ==> forall k :: |r| <= k < |Pieces(s, sep)| ==> Pieces(s, sep)[k] == []
    ensures forall k :: 0 <= k < |r| ==> sep !in r[k]
  {
    if sep !in s then [s] else DropTrailingEmpty(Pieces(s, sep))
  }

  /** A string that neither starts nor ends with the separator splits into all its pieces,
      and the first of them starts with the string's first character. */
  lemma SplitInner(s: string, sep: char)
    requires s != [] && s[0] != sep && s[|s| - 1] != sep
    ensures Split(s, sep) == Pieces(s, sep)
    ensures Split(s, sep)[0] != [] && Split(s, sep)[0][0] == s[0]
  {
    LastPiece(s, sep);
    FirstPiece(s, sep);
  }

  function DigitChar(d: nat): (c: char)
    requires d < 10
    ensures IsAsciiDigit(c)
  {
    (('0' as int) + d) as char
  }

  /** `Integer.toString(n)` for a non-negative `n`. */
  function NatToString(n: nat): (r: string)
    ensures |r| >= 1
    ensures forall i :: 0 <= i < |r| ==> IsAsciiDigit(r[i])
    ensures r[0] == '0' ==> n == 0
  {
    if n < 10 then [DigitChar(n)] else NatToString(n / 10) + [DigitChar(n % 10)]
  }

  /** `Integer.parseInt` on a string of ASCII digits. */
  function DecimalValue(s: string): nat
    requires forall i :: 0 <= i < |s| ==> IsAsciiDigit(s[i])
  {
    if s == [] then 0
    else
      assert IsAsciiDigit(s[|s| - 1]);
      DecimalValue(s[..|s| - 1]) * 10 + (s[|s| - 1] as int - '0' as int)
  }

  lemma {:induction false} NatToStringRoundTrip(n: nat)
    ensures DecimalValue(NatToString(n)) == n
  {
    if n >= 10 {
      NatToStringRoundTrip(n / 10);
      var r := NatToString(n);
      assert r[..|r| - 1] == NatToString(n / 10);
    }
  }

  /** `String.valueOf(c).repeat(n)`. */
  function Repeat(c: char, n: nat): (r: string)
    ensures |r| == n && forall i :: 0 <= i < n ==> r[i] == c
  {
    seq(n, _ => c)
  }
}
