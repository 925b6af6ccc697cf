/**
 * The text `exportToFile` writes: a fixed header, two lines per entry and a fixed trailer.
 * Each element of a line sequence is one `write` followed by `newLine()`; the clock reading
 * for "Generated:" is a parameter.
 */
module Report {
  import opened JavaStrings
  import opened Entries

  /** `"=".repeat(80)`. */
  const Rule: string := Repeat('=', 80)
  const Title: string := "CRUNCHYROLL WATCH HISTORY EXPORT"
  const Footer: string := "END OF EXPORT"

  /** The six header lines: rule, title, timestamp, count, rule and an empty line. */
  function Header(generated: string, total: nat): seq<string> {
    [Rule, Title, "Generated: " + generated, "Total Entries: " + NatToString(total), Rule, ""]
  }

  /** `String.format("[%d] %s", number, logLine)`. */
  function EntryLine(number: nat, logLine: string): string {
    "[" + NatToString(number) + "] " + logLine
  }

  /** The rendered log lines of the entries, in order. */
  function LogLines(entries: seq<HistoryEntry>): (r: seq<string>)
    ensures |r| == |entries|
  {
    seq(|entries|, i requires 0 <= i < |entries| => ToLogLine(entries[i]))
  }

  /** The numbered line and the empty line written for each log line, numbered from 1. */
  function EntryLines(logLines: seq<string>): seq<string> {
    if logLines == [] then []
    else EntryLines(logLines[..|logLines| - 1]) + [EntryLine(|logLines|, logLines[|logLines| - 1]), ""]
  }

  const Trailer: seq<string> := [Rule, Footer, Rule]

  /** Everything `exportToFile` writes, in order: the header, two lines per entry, the trailer. */
  function ExportLines(generated: string, entries: seq<HistoryEntry>): (lines: seq<string>)
    ensures |lines| == 9 + 2 * |entries|
    ensures lines[..6] == Header(generated, |entries|)
    ensures lines[|lines| - 3..] == Trailer
  {
    EntryLinesLayout(LogLines(entries));
    Header(generated, |entries|) + EntryLines(LogLines(entries)) + Trailer
  }

  /** Two lines per entry: log line `i` (from 0) gives its numbered line at `2 * i` and an
      empty line right after it. */
  lemma {:induction false} EntryLinesLayout(logLines: seq<string>)
    ensures |EntryLines(logLines)| == 2 * |logLines|
    ensures forall i :: 0 <= i < |logLines| ==>
      EntryLines(logLines)[2 * i] == EntryLine(i + 1, logLines[i]) && EntryLines(logLines)[2 * i + 1] == ""
  {
    if logLines != [] {
      var init := logLines[..|logLines| - 1];
      EntryLinesLayout(init);
      forall i | 0 <= i < |init|
        ensures EntryLines(logLines)[2 * i] == EntryLine(i + 1, logLines[i])
        ensures EntryLines(logLines)[2 * i + 1] == ""
      {
        assert init[i] == logLines[i];
      }
    }
  }

  /** The whole layout: 9 + 2n lines, the header, each entry's numbered line followed by an
      empty line, and the trailer. The rule is 80 '=' characters. */
  lemma ExportLayout(generated: string, entries: seq<HistoryEntry>)
    ensures var lines := ExportLines(generated, entries);
      && |lines| == 9 + 2 * |entries|
      && lines[..6] == Header(generated, |entries|)
      && (forall i :: 0 <= i < |entries| ==>
            lines[6 + 2 * i] == EntryLine(i + 1, ToLogLine(entries[i])) && lines[7 + 2 * i] == "")
      && lines[|lines| - 3..] == [Rule, Footer, Rule]
    ensures |Rule| == 80 && forall k :: 0 <= k < 80 ==> Rule[k] == '='
  {
    var lines := ExportLines(generated, entries);
    var body := EntryLines(LogLines(entries));
    EntryLinesLayout(LogLines(entries));
    assert lines == Header(generated, |entries|) + body + Trailer;
    assert forall j :: 0 <= j < |body| ==> lines[6 + j] == body[j];
    assert lines[|lines| - 3..] == Trailer;
  }

  /** The count line reads back as the number of entries. */
  lemma TotalEntriesReadsBack(generated: string, entries: seq<HistoryEntry>)
    ensures |ExportLines(generated, entries)| > 3
    ensures var line := ExportLines(generated, entries)[3];
      && |line| > 15 && line[..15] == "Total Entries: "
      && (forall k :: 15 <= k < |line| ==> IsAsciiDigit(line[k]))
      && DecimalValue(line[15..]) == |entries|
  {
    ExportLayout(generated, entries);
    var digits := NatToString(|entries|);
    var line := ExportLines(generated, entries)[3];
    assert line == "Total Entries: " + digits;
    assert line[15..] == digits;
    NatToStringRoundTrip(|entries|);
  }

  /** A numbered line opens with the number in brackets, which reads back as the number,
      and then holds the log line unchanged. */
  lemma EntryLineReadsBack(number: nat, logLine: string)
    ensures var line, digits := EntryLine(number, logLine), NatToString(number);
      && line[0] == '[' && line[1..1 + |digits|] == digits && DecimalValue(digits) == number
      && line[1 + |digits|..3 + |digits|] == "] " && line[3 + |digits|..] == logLine
  {
    var digits := NatToString(number);
    var line := EntryLine(number, logLine);
    assert line == ['['] + digits + "] " + logLine;
    NatToStringRoundTrip(number);
  }

  /** `exportToFile`: the header, then for each entry its numbered line and an empty line,
      then the trailer, written one after another. */
  method ExportToFile(generated: string, entries: seq<HistoryEntry>) returns (lines: seq<string>)
    ensures lines == ExportLines(generated, entries)
  {
    lines := Header(generated, |entries|);
    for i := 0 to |entries|
      invariant lines == Header(generated, |entries|) + EntryLines(LogLines(entries)[..i])
    {
      assert LogLines(entries)[..i + 1][..i] == LogLines(entries)[..i];
      lines := lines + [EntryLine(i + 1, ToLogLine(entries[i])), ""];
    }
    assert LogLines(entries)[..|entries|] == LogLines(entries);
    lines := lines + Trailer;
  }
}
