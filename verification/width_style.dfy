/**
 * The progress extraction `style.replaceAll(".*width:\\s*([\\d.]+%).*", "$1")`.
 *
 * For a style on one line the pattern either matches the whole string, and the
 * string becomes the captured group, or matches nowhere, and the string comes back
 * unchanged. The leading `.*` is greedy, so the capture comes from the LAST
 * "width:" that is followed by optional whitespace, a run of digits and dots, and '%'.
 */
module WidthStyle {
  import opened Wrappers

  /** `\s` in `java.util.regex`: space, tab, newline, vertical tab, form feed, carriage return. */
  predicate IsRegexSpace(c: char) {
    c == ' ' || c == '\t' || c == '\n' || c == '\U{B}' || c == '\U{C}' || c == '\r'
  }

  /** `[\d.]` */
  predicate IsNumberChar(c: char) {
    '0' <= c <= '9' || c == '.'
  }

  /** What group 1 of the pattern can hold: digits and dots, at least one, then '%'. */
  predicate IsPercentToken(t: string) {
    |t| >= 2 && t[|t| - 1] == '%' && forall k :: 0 <= k < |t| - 1 ==> IsNumberChar(t[k])
  }

  /** The end of the greedy `\s*` run that starts at `i`. */
  function SkipSpaces(s: string, i: nat): (j: nat)
    requires i <= |s|
    ensures i <= j <= |s|
    ensures forall k :: i <= k < j ==> IsRegexSpace(s[k])
    ensures j == |s| || !IsRegexSpace(s[j])
    decreases |s| - i
  {
    if i < |s| && IsRegexSpace(s[i]) then SkipSpaces(s, i + 1) else i
  }

  /** The end of the greedy `[\d.]+` run that starts at `i`. */
  function SkipNumber(s: string, i: nat): (j: nat)
    requires i <= |s|
    ensures i <= j <= |s|
    ensures forall k :: i <= k < j ==> IsNumberChar(s[k])
    ensures j == |s| || !IsNumberChar(s[j])
    decreases |s| - i
  {
    if i < |s| && IsNumberChar(s[i]) then SkipNumber(s, i + 1) else i
  }

  /** Group 1 when `width:\s*([\d.]+%)` matches at index `i`. */
  function PercentAt(s: string, i: nat): (r: Option<string>)
    requires i <= |s|
    ensures r.Some? ==> IsPercentToken(r.value)
  {
    if i + 6 <= |s| && s[i..i + 6] == "width:" then
      var k := SkipSpaces(s, i + 6);
      var m := SkipNumber(s, k);
      if k < m < |s| && s[m] == '%' then Some(s[k..m + 1]) else None
    else None
  }

  /** Group 1 of the match whose "width:" starts last among the first `n` indices. */
  function LastPercent(s: string, n: nat): (r: Option<string>)
    requires n <= |s|
    ensures r.Some? ==> IsPercentToken(r.value)
  {
    if n == 0 then None
    else if PercentAt(s, n - 1).Some? then PercentAt(s, n - 1)
    else LastPercent(s, n - 1)
  }

  /** The pattern matches with its "width:" starting at index `i`. */
  predicate MatchAt(s: string, i: int) {
    0 <= i <= |s| && PercentAt(s, i).Some?
  }

  /** The scan finds nothing exactly when no index below `n` matches. */
  lemma {:induction false} LastPercentNone(s: string, n: nat)
    requires n <= |s|
    ensures LastPercent(s, n).None? <==> forall i :: 0 <= i < n ==> !MatchAt(s, i)
  {
    if n > 0 {
      LastPercentNone(s, n - 1);
      if MatchAt(s, n - 1) {
        assert LastPercent(s, n) == PercentAt(s, n - 1);
      } else {
        assert LastPercent(s, n) == LastPercent(s, n - 1);
      }
    }
  }

  /** The greatest matching index below `n`, or -1 when there is none. */
  function LastMatchIndex(s: string, n: nat): (i: int)
    requires n <= |s|
    ensures -1 <= i < n
  {
    if n == 0 then -1 else if MatchAt(s, n - 1) then n - 1 else LastMatchIndex(s, n - 1)
  }

  /** What the scan finds is the capture at the greatest matching index below `n`, and no
      index above it matches. */
  lemma {:induction false} LastPercentIsLastMatch(s: string, n: nat)
    requires n <= |s|
    ensures LastMatchIndex(s, n) >= 0 ==> MatchAt(s, LastMatchIndex(s, n))
    ensures LastPercent(s, n) == if LastMatchIndex(s, n) < 0 then None else PercentAt(s, LastMatchIndex(s, n))
    ensures forall j :: LastMatchIndex(s, n) < j < n ==> !MatchAt(s, j)
  {
    if n > 0 {
      if MatchAt(s, n - 1) {
        assert LastMatchIndex(s, n) == n - 1 && LastPercent(s, n) == PercentAt(s, n - 1);
      } else {
        LastPercentIsLastMatch(s, n - 1);
        assert LastMatchIndex(s, n) == LastMatchIndex(s, n - 1) && LastPercent(s, n) == LastPercent(s, n - 1);
      }
    }
  }

  /** The result of the `replaceAll`: the captured percentage, or the untouched style. */
  function WidthRewrite(style: string): (r: string)
    ensures r == style || IsPercentToken(r)
    ensures LastPercent(style, |style|).None? ==> r == style
  {
    match LastPercent(style, |style|)
    case Some(p) => p
    case None => style
  }

  /** For every style: with no match anywhere the style comes back whole; otherwise the
      result is the capture of the match whose "width:" starts last. */
  lemma WidthRewriteIsLastCapture(style: string)
    ensures (forall i :: 0 <= i < |style| ==> !MatchAt(style, i)) ==> WidthRewrite(style) == style
    ensures (exists i :: 0 <= i < |style| && MatchAt(style, i)) ==>
      exists i :: (0 <= i < |style| && MatchAt(style, i) && WidthRewrite(style) == PercentAt(style, i).value
        && forall j :: i < j < |style| ==> !MatchAt(style, j))
  {
    LastPercentNone(style, |style|);
    LastPercentIsLastMatch(style, |style|);
  }

  /** "width: 45%;" yields the captured "45%". */
  lemma WidthRewriteCaptures()
    ensures WidthRewrite("width: 45%;") == "45%"
  {
    var s := "width: 45%;";
    assert s[0..6] == "width:";
    assert SkipSpaces(s, 6) == 7;
    assert SkipNumber(s, 7) == 9;
    assert s[7..10] == "45%";
    assert PercentAt(s, 4) == None by { assert s[4..10][0] != 'w'; }
    assert PercentAt(s, 3) == None by { assert s[3..9][0] != 'w'; }
    assert PercentAt(s, 2) == None by { assert s[2..8][0] != 'w'; }
    assert PercentAt(s, 1) == None by { assert s[1..7][0] != 'w'; }
    assert PercentAt(s, 5) == None by { assert s[5..11][0] != 'w'; }
    assert LastPercent(s, 11) == LastPercent(s, 1);
  }

  /** A width in pixels does not match, so the whole style string is kept as the progress. */
  lemma WidthRewriteKeepsUnmatchedStyle()
    ensures WidthRewrite("width: 50px") == "width: 50px"
  {
    var s := "width: 50px";
    assert s[0..6] == "width:";
    assert SkipSpaces(s, 6) == 7;
    assert SkipNumber(s, 7) == 9;
    assert PercentAt(s, 0) == None;
    assert PercentAt(s, 5) == None by { assert s[5..11][0] != 'w'; }
    assert PercentAt(s, 4) == None by { assert s[4..10][0] != 'w'; }
    assert PercentAt(s, 3) == None by { assert s[3..9][0] != 'w'; }
    assert PercentAt(s, 2) == None by { assert s[2..8][0] != 'w'; }
    assert PercentAt(s, 1) == None by { assert s[1..7][0] != 'w'; }
    assert LastPercent(s, 11) == LastPercent(s, 0);
  }

  /** With two matching declarations the later one wins, even inside "max-width". */
  lemma WidthRewriteTakesLastMatch()
    ensures WidthRewrite("width: 45%; max-width: 100%") == "100%"
  {
    var s := "width: 45%; max-width: 100%";
    assert s[16..22] == "width:";
    assert SkipSpaces(s, 22) == 23;
    assert SkipNumber(s, 23) == 26;
    assert s[23..27] == "100%";
    assert PercentAt(s, 21) == None by { assert s[21..27][0] != 'w'; }
    assert PercentAt(s, 20) == None by { assert s[20..26][0] != 'w'; }
    assert PercentAt(s, 19) == None by { assert s[19..25][0] != 'w'; }
    assert PercentAt(s, 18) == None by { assert s[18..24][0] != 'w'; }
    assert PercentAt(s, 17) == None by { assert s[17..23][0] != 'w'; }
    assert LastPercent(s, 27) == LastPercent(s, 17);
  }
}
