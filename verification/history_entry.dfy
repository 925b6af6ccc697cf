/**
 * One watch-history record and its one-line rendering (HistoryEntry.java).
 * Every field is a Java `String` that may be null, hence `Option<string>`.
 */
module Entries {
  import opened Wrappers
  import opened JavaStrings

  /** The immutable seven-field record. Two records are equal exactly when their fields are. */
  datatype HistoryEntry = HistoryEntry(
    seriesTitle: Option<string>,
    episodeTitle: Option<string>,
    seasonInfo: Option<string>,
    episodeNumber: Option<string>,
    watchedDate: Option<string>,
    progress: Option<string>,
    url: Option<string>)

  /** An optional field is printed only when it is non-null and not blank. */
  predicate Shown(field: Option<string>) {
    field.Some? && !IsBlank(field.value)
  }

  /** `prefix + field + suffix` when the field is shown, nothing otherwise. */
  function Segment(prefix: string, field: Option<string>, suffix: string): string {
    if Shown(field) then prefix + field.value + suffix else ""
  }

  /** The leading "[date] series" part, where null (and only null) falls back to a placeholder. */
  function Head(e: HistoryEntry): string {
    "[" + e.watchedDate.GetOr("Unknown Date") + "] " + e.seriesTitle.GetOr("Unknown Series")
  }

  /** The first line of the rendering: the head and the four optional inline segments. */
  function Summary(e: HistoryEntry): string {
    Head(e) + Segment(" - ", e.seasonInfo, "") + Segment(" - ", e.episodeNumber, "")
    + Segment(": ", e.episodeTitle, "") + Segment(" (", e.progress, ")")
  }

  /** The indented second line that carries the URL. */
  function UrlLine(url: string): string {
    "    URL: " + url
  }

  /** `HistoryEntry.toLogLine()`: it starts with the head, and after the summary it holds
      nothing but a line feed and the URL line, present exactly when the URL is shown. */
  function ToLogLine(e: HistoryEntry): (r: string)
    ensures |Head(e)| <= |r| && r[..|Head(e)|] == Head(e)
    ensures r == Summary(e) + (if Shown(e.url) then ['\n'] + UrlLine(e.url.value) else [])
  {
    var r := Summary(e) + Segment("\n    URL: ", e.url, "");
    assert Shown(e.url) ==> Segment("\n    URL: ", e.url, "") == ['\n'] + UrlLine(e.url.value);
    assert r == Head(e) + (r[|Head(e)|..]);
    r
  }

  /** `HistoryEntry.toString()` delegates to `toLogLine()`. */
  function ToString(e: HistoryEntry): (r: string)
    ensures r == ToLogLine(e)
  {
    ToLogLine(e)
  }

  /** A field that holds no line feed. */
  predicate NoLineFeed(field: Option<string>) {
    field.None? || '\n' !in field.value
  }

  /** The URL suffix is the only line break `toLogLine` adds: when no field holds one,
      the rendering has a line feed exactly when the URL is shown, and it splits there
      into the summary and the indented URL line. */
  lemma LogLineBreaksOnlyBeforeUrl(e: HistoryEntry)
    requires NoLineFeed(e.seriesTitle) && NoLineFeed(e.episodeTitle) && NoLineFeed(e.seasonInfo)
    requires NoLineFeed(e.episodeNumber) && NoLineFeed(e.watchedDate) && NoLineFeed(e.progress)
    requires NoLineFeed(e.url)
    ensures '\n' !in Summary(e)
    ensures '\n' in ToLogLine(e) <==> Shown(e.url)
    ensures Split(ToLogLine(e), '\n') == if Shown(e.url) then [Summary(e), UrlLine(e.url.value)] else [Summary(e)]
  {
    var sum := Summary(e);
    assert '\n' !in Head(e);
    assert '\n' !in sum;
    if Shown(e.url) {
      var tail := UrlLine(e.url.value);
      var line := ToLogLine(e);
      assert line[|sum|] == '\n';
      assert '\n' !in tail;
      assert '\n' in line by { assert line[|sum|] in line; }
      PiecesAtSeparator(sum, tail, '\n');
      assert Split(line, '\n') == DropTrailingEmpty([sum, tail]);
      assert [sum, tail][1] != [];
    } else {
      assert ToLogLine(e) == sum;
    }
  }

  /** Splitting `a`, the separator and `b`, neither part holding the separator, gives
      exactly `a` and `b`. */
  lemma {:induction false} PiecesAtSeparator(a: string, b: string, sep: char)
    requires sep !in a && sep !in b
    ensures Pieces(a + ([sep] + b), sep) == [a, b]
  {
    if a == [] {
      assert a + ([sep] + b) == [sep] + b;
      assert ([sep] + b)[1..] == b;
    } else {
      PiecesAtSeparator(a[1..], b, sep);
      assert (a + ([sep] + b))[1..] == a[1..] + ([sep] + b);
      assert [a[0]] + a[1..] == a;
    }
  }

  /** A blank optional field prints exactly like a null one. */
  lemma BlankOptionalFieldsPrintAsNull(e: HistoryEntry)
    ensures Shown(e.seasonInfo) || ToLogLine(e) == ToLogLine(e.(seasonInfo := None))
    ensures Shown(e.episodeNumber) || ToLogLine(e) == ToLogLine(e.(episodeNumber := None))
    ensures Shown(e.episodeTitle) || ToLogLine(e) == ToLogLine(e.(episodeTitle := None))
    ensures Shown(e.progress) || ToLogLine(e) == ToLogLine(e.(progress := None))
    ensures Shown(e.url) || ToLogLine(e) == ToLogLine(e.(url := None))
  {
  }

  /** The date has no blank check: an empty date prints as it is, and only a null one
      falls back to the placeholder. */
  lemma DateHasNoBlankCheck(e: HistoryEntry)
    ensures e.watchedDate == Some("") ==> ToLogLine(e)[..3] == "[] "
    ensures e.watchedDate.None? ==> ToLogLine(e)[..15] == "[Unknown Date] "
  {
    if e.watchedDate == Some("") {
      assert Head(e)[..3] == "[] ";
    }
    if e.watchedDate.None? {
      assert Head(e)[..15] == "[Unknown Date] ";
    }
  }

  /** With every field present and not blank the segments come in their fixed order. */
  lemma LogLineSegmentOrder(s: string, t: string, si: string, n: string, d: string, p: string, u: string)
    requires !IsBlank(t) && !IsBlank(si) && !IsBlank(n) && !IsBlank(p) && !IsBlank(u)
    ensures ToLogLine(HistoryEntry(Some(s), Some(t), Some(si), Some(n), Some(d), Some(p), Some(u)))
      == "[" + d + "] " + s + " - " + si + " - " + n + ": " + t + " (" + p + ")" + "\n    URL: " + u
  {
  }

  /** The record "Show A" / "Ep 1" watched 2024-01-01 at https://x/watch/1, other fields
      null, renders as the two lines "[2024-01-01] Show A: Ep 1" and
      "    URL: https://x/watch/1" joined by a line feed. */
  lemma LogLineExample()
    ensures ToLogLine(HistoryEntry(Some("Show A"), Some("Ep 1"), None, None, Some("2024-01-01"), None, Some("https://x/watch/1")))
      == "[2024-01-01] Show A: Ep 1" + ("\n" + "    URL: https://x/watch/1")
  {
    var e := HistoryEntry(Some("Show A"), Some("Ep 1"), None, None, Some("2024-01-01"), None, Some("https://x/watch/1"));
    assert !IsJavaWhitespace("https://x/watch/1"[0]);
    assert UrlLine("https://x/watch/1") == "    URL: https://x/watch/1";
    ExampleSummary();
  }

  /** The first line of that example. */
  lemma ExampleSummary()
    ensures Summary(HistoryEntry(Some("Show A"), Some("Ep 1"), None, None, Some("2024-01-01"), None, Some("https://x/watch/1")))
      == "[2024-01-01] Show A: Ep 1"
  {
    var e := HistoryEntry(Some("Show A"), Some("Ep 1"), None, None, Some("2024-01-01"), None, Some("https://x/watch/1"));
    assert !IsJavaWhitespace("Ep 1"[0]);
    assert Head(e) == "[2024-01-01] Show A";
  }
}
