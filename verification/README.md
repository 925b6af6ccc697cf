# Crunchyroll watch-history scraper, modelled in Dafny

The scraper logs in to Crunchyroll, opens the watch-history page and collects one
`HistoryEntry` per history card. It scrolls until no new cards appear, then writes a
plain-text report. This project models the history-extraction pipeline of
`CrunchyrollHistoryScraper` and the `HistoryEntry` record. The browser is replaced by
an abstract DOM (`Dom`): every Selenium lookup is a map lookup, and a lookup that
Selenium would answer by throwing is simply absent. The one exception is an attribute
read on a nested element: an element records which of its `getAttribute` calls throw.

Modules, in dependency order:

- `Wrappers`: `Option`, which stands for a Java reference that may be null.
- `JavaStrings`: the `java.lang.String` operations the code relies on. These are
  `trim`, `isBlank`, `contains`, `split("\n")`, `matches(".*\\d+.*")`, `repeat` and
  integer formatting, each with Java's exact character classes.
- `Dom`: pages, cards and nested elements.
- `WidthStyle`: the `replaceAll(".*width:\\s*([\\d.]+%).*", "$1")` applied to a
  progress bar's `style` attribute.
- `Entries`: the seven-field record, `toLogLine` and `toString`.
- `CardLocator`: `findHistoryCards`, which returns the cards of the first selector, in a
  fixed order of eight, that finds any.
- `FieldExtractor`: `extractEntryFromCard`. It has one selector chain per field, the
  season/episode classification, the line-split fallback for the titles and the
  validity gate.
- `Scraper`: `scrapeHistory`. It runs rounds of locating cards, extracting records and
  deduplicating by URL. A stall counter, the scroll script and the settle delay decide
  when to stop.
- `Report`: the lines `exportToFile` writes.

Each loop of the source is a method with its invariants. The methods are
`FindHistoryCards`, the `Read*` field loops, `ExtractEntryFromCard`, `CollectCards`,
`ScrapeHistory` and `ExportToFile`. Each is proved equal to a specification function,
and the lemmas state what the source promises about those functions.

### The browser oracle

A `Scraper.Browser` fixes what the live site would do:

- `pages[k]` is the page seen after `k` scrolls;
- `settledPage` is the page once scrolling stops revealing anything;
- `scriptFailures` is the set of rounds whose `scrollDown` throws;
- `interrupts` is the set of rounds whose `Thread.sleep` is interrupted.

Rounds are numbered from 1, and round `n` reads the page left by `n - 1` scrolls.
`Iterate(feed, k)` is the state of the loop variables after `k` rounds. `EndOfRound(b, n)`
says how round `n` ends: it goes on, or it ends by the stall break, the failing scroll
script, the interrupt or the while guard.

### Where the code and its design notes differ (the model follows the code)

- A record whose URL is null is dropped by the dedup step, never kept
  (`Scraper.OfferRejects`).
- The bound of 100 on `scrollAttempts` is not a bound on rounds. Every round that adds an
  entry resets the counter (`Scraper.GrowthNeverReachesCap`). Termination comes only
  from the page settling: `ScrapeHistory` ends within 101 rounds of the last new page.
- The while guard can end the loop only while no entry has been found
  (`Scraper.LoopExit`). With entries, three stalled rounds break the loop first.
- An exception thrown by `scrollDown` is not caught anywhere in `scrapeHistory`. It
  leaves the method and throws away everything found (`ScrapeResult.SessionLost`).
- A progress style that mentions "width" without a percentage match is kept whole
  (`WidthStyle.WidthRewriteKeepsUnmatchedStyle`). Because the leading `.*` is greedy,
  the last match wins (`WidthStyle.WidthRewriteIsLastCapture`), even inside `max-width`
  (`WidthStyle.WidthRewriteTakesLastMatch`).
- "Contains a digit" is `matches(".*\\d+.*")`. A text holding a line terminator never
  matches (`FieldExtractor.ClassifyEpisodeExamples`).
- A title element whose text is empty sets the title to `""`, not null. That is enough
  to keep the line-split fallback from running
  (`FieldExtractor.FallbackOnlyWithoutTitleElements`).
- The date is printed without a blank check: `""` prints as `[] `, and only null
  prints as `[Unknown Date] ` (`Entries.DateHasNoBlankCheck`).

## Model

| member | source | states |
|---|---|---|
| `JavaStrings.Trim` | src/main/java/com/crunchyroll/scraper/CrunchyrollHistoryScraper.java:259 | `trim()` is empty exactly when every character is at most U+0020; otherwise neither end is such a character |
| `JavaStrings.TrimKeepsMiddle` | src/main/java/com/crunchyroll/scraper/CrunchyrollHistoryScraper.java:259 | the trimmed string is the contiguous part of the input starting after the removed prefix |
| `JavaStrings.TrimDropsOnlyTrimmable` | src/main/java/com/crunchyroll/scraper/CrunchyrollHistoryScraper.java:259 | every character removed before or after the kept part is at most U+0020 |
| `JavaStrings.TrimIdempotent` | src/main/java/com/crunchyroll/scraper/CrunchyrollHistoryScraper.java:343 | trimming an already trimmed text changes nothing |
| `JavaStrings.BlankDiffersFromTrimmedEmpty` | src/main/java/com/crunchyroll/scraper/HistoryEntry.java:25 | `isBlank()` and `trim().isEmpty()` disagree: an em space is blank but survives `trim`, a U+0001 control is not blank but is trimmed away |
| `JavaStrings.DigitPatternIsRegex` | src/main/java/com/crunchyroll/scraper/CrunchyrollHistoryScraper.java:296 | a text satisfies `matches(".*\\d+.*")` exactly when it splits into a run without line terminators, a non-empty run of ASCII digits and another run without line terminators |
| `JavaStrings.Pieces` | src/main/java/com/crunchyroll/scraper/CrunchyrollHistoryScraper.java:345 | the pieces between separators: at least one, none holds the separator, and without a separator the string is its only piece |
| `JavaStrings.JoinPieces` | src/main/java/com/crunchyroll/scraper/CrunchyrollHistoryScraper.java:345 | joining the pieces with the separator gives back the original text |
| `JavaStrings.FirstPiece` | src/main/java/com/crunchyroll/scraper/CrunchyrollHistoryScraper.java:345 | the first piece is the prefix up to the first separator, and it is non-empty when the text starts with another character |
| `JavaStrings.LastPiece` | src/main/java/com/crunchyroll/scraper/CrunchyrollHistoryScraper.java:345 | the last piece is empty exactly when the text is empty or ends with the separator |
| `JavaStrings.Split` | src/main/java/com/crunchyroll/scraper/CrunchyrollHistoryScraper.java:345 | `split("\n")` returns the text itself when it has no line feed; otherwise it returns the pieces in order with the trailing empty ones, and only those, removed, so the last one kept is non-empty; no element holds a line feed |
| `JavaStrings.SplitInner` | src/main/java/com/crunchyroll/scraper/CrunchyrollHistoryScraper.java:345 | `split("\n")` of a text that neither starts nor ends with a line feed keeps every piece, and the first piece starts with the text's first character |
| `JavaStrings.NatToString` | src/main/java/com/crunchyroll/scraper/CrunchyrollHistoryScraper.java:378 | the decimal form of a count is a non-empty run of ASCII digits, with no leading zero unless the count is 0 |
| `JavaStrings.NatToStringRoundTrip` | src/main/java/com/crunchyroll/scraper/CrunchyrollHistoryScraper.java:378 | the decimal digits read back as the number they were written from |
| `JavaStrings.Repeat` | src/main/java/com/crunchyroll/scraper/CrunchyrollHistoryScraper.java:372 | `"=".repeat(n)` is exactly n copies of the character |
| `WidthStyle.SkipSpaces` | src/main/java/com/crunchyroll/scraper/CrunchyrollHistoryScraper.java:316 | `\s*` consumes the longest run of regex whitespace |
| `WidthStyle.SkipNumber` | src/main/java/com/crunchyroll/scraper/CrunchyrollHistoryScraper.java:316 | `[\d.]+` consumes the longest run of digits and dots |
| `WidthStyle.PercentAt` | src/main/java/com/crunchyroll/scraper/CrunchyrollHistoryScraper.java:316 | a match of `width:\s*([\d.]+%)` at an index captures a percentage token |
| `WidthStyle.LastPercent` | src/main/java/com/crunchyroll/scraper/CrunchyrollHistoryScraper.java:316 | the capture of the last matching position is a percentage token |
| `WidthStyle.LastPercentNone` | src/main/java/com/crunchyroll/scraper/CrunchyrollHistoryScraper.java:316 | the scan finds nothing exactly when no index below the bound matches |
| `WidthStyle.LastPercentIsLastMatch` | src/main/java/com/crunchyroll/scraper/CrunchyrollHistoryScraper.java:316 | what the scan finds is the capture at the greatest matching index, and no index above it matches |
| `WidthStyle.WidthRewrite` | src/main/java/com/crunchyroll/scraper/CrunchyrollHistoryScraper.java:316 | the rewritten style is a percentage token or the untouched style, and it is the untouched style when nothing matches |
| `WidthStyle.WidthRewriteIsLastCapture` | src/main/java/com/crunchyroll/scraper/CrunchyrollHistoryScraper.java:316 | for every style: no match anywhere gives the style back whole; otherwise the result is the capture of the match whose "width:" starts last |
| `WidthStyle.WidthRewriteCaptures` | src/main/java/com/crunchyroll/scraper/CrunchyrollHistoryScraper.java:316 | `"width: 45%;"` becomes `"45%"` |
| `WidthStyle.WidthRewriteKeepsUnmatchedStyle` | src/main/java/com/crunchyroll/scraper/CrunchyrollHistoryScraper.java:316 | `"width: 50px"` does not match and comes back whole |
| `WidthStyle.WidthRewriteTakesLastMatch` | src/main/java/com/crunchyroll/scraper/CrunchyrollHistoryScraper.java:316 | with two matching declarations the later one is captured, even inside `max-width` |
| `Entries.ToLogLine` | src/main/java/com/crunchyroll/scraper/HistoryEntry.java:20-46 | the rendering starts with `[date] series`, and after the inline summary it holds only a line feed and the URL line, present exactly when the URL is non-null and not blank |
| `Entries.ToString` | src/main/java/com/crunchyroll/scraper/HistoryEntry.java:48-51 | `toString()` is `toLogLine()` |
| `Entries.LogLineBreaksOnlyBeforeUrl` | src/main/java/com/crunchyroll/scraper/HistoryEntry.java:41-43 | when no field holds a line feed, the rendering has one exactly when the URL is shown, and it splits there into the summary and the indented URL line |
| `Entries.PiecesAtSeparator` | src/main/java/com/crunchyroll/scraper/HistoryEntry.java:42 | two separator-free parts joined by the separator split back into exactly those two parts |
| `Entries.BlankOptionalFieldsPrintAsNull` | src/main/java/com/crunchyroll/scraper/HistoryEntry.java:25-43 | each of the five optional segments prints the same for a blank value as for null |
| `Entries.DateHasNoBlankCheck` | src/main/java/com/crunchyroll/scraper/HistoryEntry.java:22 | an empty date prints as `[] ` and only a null one as `[Unknown Date] ` |
| `Entries.LogLineSegmentOrder` | src/main/java/com/crunchyroll/scraper/HistoryEntry.java:22-43 | with every field present and not blank the rendering is date, series, season, episode number, episode title, progress, then the URL line, in that order with their fixed separators |
| `Entries.LogLineExample` | src/main/java/com/crunchyroll/scraper/HistoryEntry.java:20-46 | "Show A" / "Ep 1" / "2024-01-01" / "https://x/watch/1" renders as `[2024-01-01] Show A: Ep 1`, a line feed and `    URL: https://x/watch/1` |
| `Entries.ExampleSummary` | src/main/java/com/crunchyroll/scraper/HistoryEntry.java:22-39 | the first line of that example, with the null season, number and progress segments left out |
| `CardLocator.FirstMatchIsFirstYield` | src/main/java/com/crunchyroll/scraper/CrunchyrollHistoryScraper.java:212-218 | the result is the list of the first selector, in declared order, that yields a non-empty list, whatever the others give |
| `CardLocator.FirstMatchEmpty` | src/main/java/com/crunchyroll/scraper/CrunchyrollHistoryScraper.java:212-224 | the result is empty exactly when every selector throws or finds nothing |
| `CardLocator.FindHistoryCards` | src/main/java/com/crunchyroll/scraper/CrunchyrollHistoryScraper.java:197-225 | the loop with its early return yields exactly the located cards |
| `FieldExtractor.TitleIsFirstText` | src/main/java/com/crunchyroll/scraper/CrunchyrollHistoryScraper.java:256-262 | the first selector whose element has non-empty trimmed text decides the title |
| `FieldExtractor.TitleWithoutText` | src/main/java/com/crunchyroll/scraper/CrunchyrollHistoryScraper.java:256-262 | without non-empty text the title is `""` when some element was found, and unchanged when none was |
| `FieldExtractor.TitleNullIffNothingFound` | src/main/java/com/crunchyroll/scraper/CrunchyrollHistoryScraper.java:249-262 | a title stays null exactly when no selector of its chain finds an element |
| `FieldExtractor.UrlSources` | src/main/java/com/crunchyroll/scraper/CrunchyrollHistoryScraper.java:236-246 | a card whose tag reads as "a" or "A" gives its own `href` and no nested element matters; any other card gives the `href` of its nested `/watch/` link when that link exists and the read does not throw, and its own attributes do not matter; an unreadable tag gives null |
| `FieldExtractor.LinkTagIsOneLetter` | src/main/java/com/crunchyroll/scraper/CrunchyrollHistoryScraper.java:238 | `"a".equalsIgnoreCase(tag)` holds for exactly the one-letter tags "a" and "A" |
| `FieldExtractor.Classify` | src/main/java/com/crunchyroll/scraper/CrunchyrollHistoryScraper.java:294-298 | a text with both 'S' and 'E' is season information; otherwise it is an episode number exactly when it matches `.*\d+.*`; never both |
| `FieldExtractor.ClassifySeasonExamples` | src/main/java/com/crunchyroll/scraper/CrunchyrollHistoryScraper.java:293-295 | "S1 E12" and "Season 1, Episode 12" are season information |
| `FieldExtractor.ClassifyEpisodeExamples` | src/main/java/com/crunchyroll/scraper/CrunchyrollHistoryScraper.java:296-297 | "Episode 12" is an episode number; a text broken by a line feed, or one without a digit, is neither |
| `FieldExtractor.MetaIsFirstText` | src/main/java/com/crunchyroll/scraper/CrunchyrollHistoryScraper.java:288-302 | the first non-empty meta text is classified and the search stops there, whatever the classification |
| `FieldExtractor.MetaWithoutText` | src/main/java/com/crunchyroll/scraper/CrunchyrollHistoryScraper.java:288-302 | without any non-empty meta text both season and episode number stay null |
| `FieldExtractor.ProgressFrom` | src/main/java/com/crunchyroll/scraper/CrunchyrollHistoryScraper.java:310-320 | the progress is a percentage token or a whole style mentioning "width", and it is null when no selector finds an element |
| `FieldExtractor.ProgressIsFirstFound` | src/main/java/com/crunchyroll/scraper/CrunchyrollHistoryScraper.java:310-320 | the first element found whose `style` can be read decides the progress, even when the style gives nothing; an element whose read throws is passed over |
| `FieldExtractor.DateIsFirstUsable` | src/main/java/com/crunchyroll/scraper/CrunchyrollHistoryScraper.java:329-338 | the first element with a non-empty date decides it, its visible text taking precedence over `datetime` |
| `FieldExtractor.AnyFoundMeans` | src/main/java/com/crunchyroll/scraper/CrunchyrollHistoryScraper.java:258 | some selector of a chain finds an element exactly when one of its selectors does |
| `FieldExtractor.DateWithoutUsable` | src/main/java/com/crunchyroll/scraper/CrunchyrollHistoryScraper.java:329-338 | without a usable date the field is left at what the last element found gave (null, or "" when its text was empty and its `datetime` empty or unreadable), or unchanged when no selector finds anything |
| `FieldExtractor.LineFallbackSeries` | src/main/java/com/crunchyroll/scraper/CrunchyrollHistoryScraper.java:341-351 | card text that is not blank always gives a non-empty series title: its first line |
| `FieldExtractor.FallbackOnlyWithoutTitleElements` | src/main/java/com/crunchyroll/scraper/CrunchyrollHistoryScraper.java:341-351 | the line-split fallback decides the titles exactly when no series and no episode selector finds an element |
| `FieldExtractor.Extract` | src/main/java/com/crunchyroll/scraper/CrunchyrollHistoryScraper.java:353-357 | every record a card yields carries a URL or a series title |
| `FieldExtractor.ExtractGate` | src/main/java/com/crunchyroll/scraper/CrunchyrollHistoryScraper.java:353-357 | no record exactly when there is no URL and no series title after chains and fallback; a record carries every field exactly as the chains and the fallback produced it |
| `FieldExtractor.ReadTitle` | src/main/java/com/crunchyroll/scraper/CrunchyrollHistoryScraper.java:256-262 | the title loop computes the title chain |
| `FieldExtractor.ReadMeta` | src/main/java/com/crunchyroll/scraper/CrunchyrollHistoryScraper.java:288-302 | the meta loop computes the meta chain |
| `FieldExtractor.ReadProgress` | src/main/java/com/crunchyroll/scraper/CrunchyrollHistoryScraper.java:310-320 | the progress loop computes the progress chain |
| `FieldExtractor.ReadDate` | src/main/java/com/crunchyroll/scraper/CrunchyrollHistoryScraper.java:329-338 | the date loop computes the date chain |
| `FieldExtractor.ExtractEntryFromCard` | src/main/java/com/crunchyroll/scraper/CrunchyrollHistoryScraper.java:227-358 | the method yields exactly the record the chains, the fallback and the gate define |
| `Scraper.RecordsAt` | src/main/java/com/crunchyroll/scraper/CrunchyrollHistoryScraper.java:154-156 | the records of a round are the cards' extractions, card by card in order |
| `Scraper.UrlSetMembers` | src/main/java/com/crunchyroll/scraper/CrunchyrollHistoryScraper.java:144 | a URL is in the set of entry URLs exactly when some entry carries it |
| `Scraper.OfferEffect` | src/main/java/com/crunchyroll/scraper/CrunchyrollHistoryScraper.java:157-160 | after one card the record's URL, if it has one, is among the seen URLs, and the record is appended, as the only change to the list, exactly when its URL is non-null and was not seen |
| `Scraper.OfferKeepsDedup` | src/main/java/com/crunchyroll/scraper/CrunchyrollHistoryScraper.java:157-160 | one card keeps every entry's URL non-null and distinct and `seenUrls` equal to the entry URLs, and at most appends one entry at the end |
| `Scraper.OfferRejects` | src/main/java/com/crunchyroll/scraper/CrunchyrollHistoryScraper.java:157 | a null or already seen URL changes nothing, so the same record twice counts once |
| `Scraper.OfferAllGrows` | src/main/java/com/crunchyroll/scraper/CrunchyrollHistoryScraper.java:154-167 | a round never changes or drops an entry already held and never forgets a URL |
| `Scraper.OfferAllKeepsDedup` | src/main/java/com/crunchyroll/scraper/CrunchyrollHistoryScraper.java:154-167 | a whole round keeps the dedup invariant |
| `Scraper.OfferAllCovers` | src/main/java/com/crunchyroll/scraper/CrunchyrollHistoryScraper.java:154-167 | after a round every record with a URL has that URL among the seen ones |
| `Scraper.OfferAllSeen` | src/main/java/com/crunchyroll/scraper/CrunchyrollHistoryScraper.java:154-167 | a round whose URLs were all seen changes nothing |
| `Scraper.OfferAllIdempotent` | src/main/java/com/crunchyroll/scraper/CrunchyrollHistoryScraper.java:154-167 | offering the same cards a second time changes nothing |
| `Scraper.OfferAllFromRecords` | src/main/java/com/crunchyroll/scraper/CrunchyrollHistoryScraper.java:154-167 | every entry a round adds is one of its records |
| `Scraper.IterateInvariant` | src/main/java/com/crunchyroll/scraper/CrunchyrollHistoryScraper.java:150-181 | after any number of rounds the dedup invariant holds, `previousCount` is the entry count, and the counter is at most the rounds run |
| `Scraper.IterateAppendOnly` | src/main/java/com/crunchyroll/scraper/CrunchyrollHistoryScraper.java:159 | the list after an earlier round is a prefix of the list after a later one |
| `Scraper.IterateFromFeed` | src/main/java/com/crunchyroll/scraper/CrunchyrollHistoryScraper.java:152-160 | every entry held is a record some earlier round was fed |
| `Scraper.EntriesComeFromCards` | src/main/java/com/crunchyroll/scraper/CrunchyrollHistoryScraper.java:152-160 | every entry is what `extractEntryFromCard` gave for a card located on a page the loop read |
| `Scraper.StallRule` | src/main/java/com/crunchyroll/scraper/CrunchyrollHistoryScraper.java:172-181 | a round adding nothing increments the counter and keeps `previousCount`; a round adding something resets the counter and records the new size |
| `Scraper.CounterStep` | src/main/java/com/crunchyroll/scraper/CrunchyrollHistoryScraper.java:172-173 | a round raises `scrollAttempts` by at most one |
| `Scraper.StallCounts` | src/main/java/com/crunchyroll/scraper/CrunchyrollHistoryScraper.java:172-177 | three rounds in a row adding nothing to a non-empty list meet the stall break condition |
| `Scraper.StallEndsLoop` | src/main/java/com/crunchyroll/scraper/CrunchyrollHistoryScraper.java:172-177 | such a third round ends the scrape by the stall break |
| `Scraper.GrowthNeverReachesCap` | src/main/java/com/crunchyroll/scraper/CrunchyrollHistoryScraper.java:178-181 | while every round adds an entry the counter stays 0, so neither the stall break nor the while guard ends any round |
| `Scraper.BrowserSettles` | src/main/java/com/crunchyroll/scraper/CrunchyrollHistoryScraper.java:152 | once the pages are used up every round reads the same cards |
| `Scraper.SettledStays` | src/main/java/com/crunchyroll/scraper/CrunchyrollHistoryScraper.java:154-160 | after one round on the settled page no later round changes the entries or the seen URLs |
| `Scraper.SettledRound` | src/main/java/com/crunchyroll/scraper/CrunchyrollHistoryScraper.java:172-173 | every round past the first settled one adds nothing, so it counts as stalled |
| `Scraper.ContinuesMeans` | src/main/java/com/crunchyroll/scraper/CrunchyrollHistoryScraper.java:150 | rounds that each went on mean every round before the current one went on |
| `Scraper.LoopExit` | src/main/java/com/crunchyroll/scraper/CrunchyrollHistoryScraper.java:150-191 | when the loop is left the round is the first that does not go on, it is the failing scroll exactly when the body left by it, the entries are URL-unique, the while guard ends it only with no entries, `scrollAttempts` is at most 100 and `previousCount` is the entry count |
| `Scraper.CollectCards` | src/main/java/com/crunchyroll/scraper/CrunchyrollHistoryScraper.java:154-167 | the inner loop leaves the entries and seen URLs that offering the round's records in order defines |
| `Scraper.PlayRound` | src/main/java/com/crunchyroll/scraper/CrunchyrollHistoryScraper.java:152-190 | one pass of the body moves the loop variables one round on and reports the break that ends it, checked in the source's order |
| `Scraper.ScrapeHistory` | src/main/java/com/crunchyroll/scraper/CrunchyrollHistoryScraper.java:141-195 | the scrape ends at the first round that does not go on, within 101 rounds of the page settling; it returns that round's URL-unique entries, nothing when the scroll threw, and an empty list when the while guard ended it; `scrollAttempts` never exceeds 100 and `previousCount` is the entry count |
| `Report.EntryLinesLayout` | src/main/java/com/crunchyroll/scraper/CrunchyrollHistoryScraper.java:384-388 | two lines per entry: the 1-based numbered line, then an empty line |
| `Report.ExportLines` | src/main/java/com/crunchyroll/scraper/CrunchyrollHistoryScraper.java:371-395 | the report has 9 + 2n lines, opening with the six header lines and closing with the three trailer lines |
| `Report.ExportLayout` | src/main/java/com/crunchyroll/scraper/CrunchyrollHistoryScraper.java:371-395 | 9 + 2n lines: the six header lines, each entry's numbered log line followed by an empty line, and the three trailer lines; the rule is 80 '=' |
| `Report.TotalEntriesReadsBack` | src/main/java/com/crunchyroll/scraper/CrunchyrollHistoryScraper.java:378 | the count line is "Total Entries: " and digits that read back as the number of entries |
| `Report.EntryLineReadsBack` | src/main/java/com/crunchyroll/scraper/CrunchyrollHistoryScraper.java:385 | a numbered line is `[`, digits that read back as the number, `] ` and the log line unchanged |
| `Report.ExportToFile` | src/main/java/com/crunchyroll/scraper/CrunchyrollHistoryScraper.java:365-399 | the writes, in order, give exactly the layout above |

## Left out

- `BrowserManager` (driver setup, options, timeouts, `quit`) is not part of this model.
  It is lifecycle glue over Selenium.
- `login`, `handleCookieConsent` and `navigateToHistory`
  (CrunchyrollHistoryScraper.java:60-139), `takeScreenshot` and `main` are waits, clicks
  and argument parsing against a live site.
- `scrollDown` is not modelled. The set of rounds whose script throws stands for it.
  `Thread.sleep(1500)` is not modelled either. The set of rounds whose sleep is
  interrupted stands for it. Setting the interrupt flag again has no effect inside the
  model.
- The browser's page sequence is finite and then stays fixed (`settledPage`). A site
  that reveals new cards on every scroll forever, which would keep the source looping
  forever, cannot be expressed.
- Selenium calls that throw, including stale element references, become absent lookups.
  A nested element whose `getText` throws, or whose `getCssValue("width")` (line 313)
  throws, is treated as not found. Both calls come before the field is assigned, and each
  selector belongs to one field's chain, so the chain's `catch` moves on to the next
  selector just as for a missing element. A throwing `getAttribute` is recorded on the
  element instead (`Dom.ReadFails`). In the date chain it leaves the field at the `""`
  already assigned (lines 332-337). In the progress chain it passes over the element
  without the `break` (lines 314-319). A throwing `getTagName` on the card, or a throwing
  `getAttribute("href")` on the card itself, is modelled as null; either way the URL
  stays null. Selenium calls are modelled as answering the same way each time they are
  made.
- The per-card `catch` at CrunchyrollHistoryScraper.java:161-166 never fires: every call
  in `extractEntryFromCard` already has its own `catch`.
- The value of `getCssValue("width")` (line 313) is not modelled; it is never used.
- File creation and writing, and `LocalDateTime.now()`. The report is the sequence of
  lines written, each followed by the platform line separator. The "Generated:"
  timestamp is a parameter.
- `String.format("%d")` is modelled with ASCII digits; locales with other digits are
  not modelled.
- Java strings are sequences of UTF-16 code units. Here they are sequences of Unicode
  scalar values, so surrogate pairs are not modelled.
- `WidthStyle.WidthRewrite`: models the regular expression only for a style on one line.
  `.` does not cross a line terminator, and styles spanning lines are not modelled.
- `Scraper.ScrapeHistory`: the number of rounds is a ghost out-parameter. The source has
  no such counter; it is what the postcondition speaks about.
- `Scraper.CollectCards` and `Scraper.PlayRound` are the inner loop and one pass of the
  loop body of `scrapeHistory`. They are split out as methods to keep the proofs small.
- The captcha wait, profile selection and attach-and-poll modes are not modelled; the
  scraper's code does not contain them.
