/**
 * `extractEntryFromCard`: one record from one card, every field read through its own
 * ordered chain of selectors, with a line-split fallback for the titles and a validity gate.
 */
module FieldExtractor {
  import opened Wrappers
  import opened JavaStrings
  import opened Dom
  import opened Entries
  import opened WidthStyle

  const WatchLinkSelector: Selector := "a[href*='/watch/']"
  const SeriesSelectors: seq<Selector> :=
    ["[data-t='series-title']", ".series-title", "h5", "[class*='series']", ".title a"]
  const EpisodeSelectors: seq<Selector> :=
    ["[data-t='episode-title']", ".episode-title", "h6", "[class*='episode']", ".subtitle"]
  const MetaSelectors: seq<Selector> :=
    ["[data-t='episode-info']", ".episode-info", "[class*='season']", ".meta-info", "span[class*='episode']"]
  const ProgressSelectors: seq<Selector> := ["[data-t='progress']", ".progress-bar", "[class*='progress']"]
  const DateSelectors: seq<Selector> := ["[data-t='watched-date']", ".watched-date", "time", "[class*='date']"]

  /** `"a".equalsIgnoreCase(tag)`: no other character folds to 'a'. */
  predicate IsLinkTag(tag: string) {
    tag == "a" || tag == "A"
  }

  /** The URL block: the card's own `href` when the card is a link, else the `href` of the
      nested `/watch/` link; None when the tag cannot be read, no link is found, or reading
      the link's `href` throws. */
  function UrlOf(card: Card): Option<string> {
    match card.tagName
    case None => None
    case Some(tag) =>
      if IsLinkTag(tag) then Attribute(card.attributes, "href")
      else
        match FindElement(card, WatchLinkSelector)
        case None => None
        case Some(link) => if ReadFails(link, "href") then None else Attribute(link.attributes, "href")
  }

  /** Where the URL comes from. A card whose tag reads as "a" or "A" gives its own `href`,
      and no nested element matters; any other card gives the readable `href` of its nested
      `/watch/` link, and its own attributes do not matter. */
  lemma UrlSources(card: Card)
    ensures card.tagName.None? ==> UrlOf(card).None?
    ensures card.tagName.Some? && IsLinkTag(card.tagName.value) ==>
      UrlOf(card) == Attribute(card.attributes, "href") && UrlOf(card) == UrlOf(card.(nested := map[]))
    ensures card.tagName.Some? && !IsLinkTag(card.tagName.value) ==>
      UrlOf(card) == UrlOf(card.(attributes := map[]))
      && (UrlOf(card).Some? <==>
            FindElement(card, WatchLinkSelector).Some? && !ReadFails(FindElement(card, WatchLinkSelector).value, "href")
            && "href" in FindElement(card, WatchLinkSelector).value.attributes)
      && (UrlOf(card).Some? ==> UrlOf(card).value == FindElement(card, WatchLinkSelector).value.attributes["href"])
  {
  }

  /** `"a".equalsIgnoreCase(tag)` holds for exactly the one-letter tags 'a' and 'A'. */
  lemma LinkTagIsOneLetter(tag: string)
    ensures IsLinkTag(tag) <==> |tag| == 1 && (tag[0] == 'a' || tag[0] == 'A')
  {
    if |tag| == 1 && (tag[0] == 'a' || tag[0] == 'A') {
      assert tag == [tag[0]];
    }
  }

  // ---------------------------------------------------------------- titles

  /** Some selector of the chain finds an element. */
  predicate AnyFound(card: Card, sels: seq<Selector>) {
    sels != [] && (FindElement(card, sels[0]).Some? || AnyFound(card, sels[1..]))
  }

  /** The selector finds an element whose trimmed text is not empty. */
  predicate HasText(card: Card, sel: Selector) {
    FindElement(card, sel).Some? && Trim(FindElement(card, sel).value.text) != []
  }

  /** The trimmed text of the element the selector finds. */
  function TextAt(card: Card, sel: Selector): string
    requires FindElement(card, sel).Some?
  {
    Trim(FindElement(card, sel).value.text)
  }

  /** A title chain continued from the value `current` held so far: every element found
      overwrites the title with its trimmed text, and a non-empty one ends the chain. */
  function TitleFrom(card: Card, sels: seq<Selector>, current: Option<string>): Option<string> {
    if sels == [] then current
    else
      match FindElement(card, sels[0])
      case None => TitleFrom(card, sels[1..], current)
      case Some(el) =>
        var t := Trim(el.text);
        if t != [] then Some(t) else TitleFrom(card, sels[1..], Some(t))
  }

  /** The first selector with non-empty text decides the title, in declared order. */
  lemma {:induction false} TitleIsFirstText(card: Card, sels: seq<Selector>, current: Option<string>, i: nat)
    requires i < |sels| && HasText(card, sels[i])
    requires forall j :: 0 <= j < i ==> !HasText(card, sels[j])
    ensures TitleFrom(card, sels, current) == Some(TextAt(card, sels[i]))
  {
    if i > 0 {
      var next := if FindElement(card, sels[0]).Some? then Some(TextAt(card, sels[0])) else current;
      TitleIsFirstText(card, sels[1..], next, i - 1);
    }
  }

  /** Without any non-empty text the title is "" when some element was found (the last
      found text, not null) and stays as it was when no selector finds anything. */
  lemma {:induction false} TitleWithoutText(card: Card, sels: seq<Selector>, current: Option<string>)
    requires forall j :: 0 <= j < |sels| ==> !HasText(card, sels[j])
    ensures TitleFrom(card, sels, current) == if AnyFound(card, sels) then Some("") else current
  {
    if sels != [] {
      var next := if FindElement(card, sels[0]).Some? then Some("") else current;
      TitleWithoutText(card, sels[1..], next);
    }
  }

  /** A title chain ends null exactly when it started null and no selector finds an element. */
  lemma {:induction false} TitleNullIffNothingFound(card: Card, sels: seq<Selector>, current: Option<string>)
    ensures TitleFrom(card, sels, current).None? <==> current.None? && !AnyFound(card, sels)
  {
    if sels != [] {
      var next := if FindElement(card, sels[0]).Some? then Some(TextAt(card, sels[0])) else current;
      TitleNullIffNothingFound(card, sels[1..], next);
    }
  }

  // ---------------------------------------------------------------- season / episode

  /** The season and episode-number fields as the meta chain leaves them. */
  datatype Meta = Meta(seasonInfo: Option<string>, episodeNumber: Option<string>)

  /** A meta text with both an 'S' and an 'E' (case-sensitive) is season information;
      otherwise one that matches `.*\d+.*` is an episode number; otherwise it is dropped. */
  function Classify(text: string): (m: Meta)
    ensures m.seasonInfo.Some? ==> m.episodeNumber.None?
    ensures m.seasonInfo == (if 'S' in text && 'E' in text then Some(text) else None)
    ensures m.episodeNumber.Some? <==> ('S' !in text || 'E' !in text) && MatchesDigitPattern(text)
    ensures m.episodeNumber.Some? ==> m.episodeNumber.value == text
  {
    if 'S' in text && 'E' in text then Meta(Some(text), None)
    else if MatchesDigitPattern(text) then Meta(None, Some(text))
    else Meta(None, None)
  }

  /** Texts with both letters are season information, whatever else they hold. */
  lemma ClassifySeasonExamples()
    ensures Classify("S1 E12") == Meta(Some("S1 E12"), None)
    ensures Classify("Season 1, Episode 12") == Meta(Some("Season 1, Episode 12"), None)
  {
    assert "S1 E12"[0] == 'S' && "S1 E12"[3] == 'E';
    assert "Season 1, Episode 12"[0] == 'S' && "Season 1, Episode 12"[10] == 'E';
  }

  /** Without an 'S' a text is an episode number only when it has a digit and no line break. */
  lemma ClassifyEpisodeExamples()
    ensures Classify("Episode 12") == Meta(None, Some("Episode 12"))
    ensures Classify("Ep\n12") == Meta(None, None)
    ensures Classify("Episode") == Meta(None, None)
  {
    assert forall i :: 0 <= i < |"Episode 12"| ==> "Episode 12"[i] != 'S';
    assert IsAsciiDigit("Episode 12"[8]);
    assert forall i :: 0 <= i < |"Episode"| ==> !IsAsciiDigit("Episode"[i]);
    assert IsLineTerminator("Ep\n12"[2]);
  }

  /** The meta chain: the first element with non-empty text is classified, and the search
      stops there whatever the classification. */
  function MetaFrom(card: Card, sels: seq<Selector>): Meta {
    if sels == [] then Meta(None, None)
    else if HasText(card, sels[0]) then Classify(TextAt(card, sels[0]))
    else MetaFrom(card, sels[1..])
  }

  lemma {:induction false} MetaIsFirstText(card: Card, sels: seq<Selector>, i: nat)
    requires i < |sels| && HasText(card, sels[i])
    requires forall j :: 0 <= j < i ==> !HasText(card, sels[j])
    ensures MetaFrom(card, sels) == Classify(TextAt(card, sels[i]))
  {
    if i > 0 {
      MetaIsFirstText(card, sels[1..], i - 1);
    }
  }

  lemma {:induction false} MetaWithoutText(card: Card, sels: seq<Selector>)
    requires forall j :: 0 <= j < |sels| ==> !HasText(card, sels[j])
    ensures MetaFrom(card, sels) == Meta(None, None)
  {
    if sels != [] {
      MetaWithoutText(card, sels[1..]);
    }
  }

  // ---------------------------------------------------------------- progress

  /** The progress an element whose `style` can be read gives: the style rewritten by the
      percentage pattern, when it mentions "width"; otherwise nothing. */
  function ProgressOf(el: Element): Option<string> {
    var style := Attribute(el.attributes, "style");
    if style.Some? && Contains(style.value, "width") then Some(WidthRewrite(style.value)) else None
  }

  /** The selector finds an element whose `style` can be read: that element ends the chain. */
  predicate StyleReadable(card: Card, sel: Selector) {
    FindElement(card, sel).Some? && !ReadFails(FindElement(card, sel).value, "style")
  }

  /** The progress chain: the first element found whose style can be read decides, even when
      it gives nothing; an element whose style read throws is passed over. What it gives is
      a percentage token or the whole style, which mentions "width". */
  function ProgressFrom(card: Card, sels: seq<Selector>): (r: Option<string>)
    ensures r.Some? ==> IsPercentToken(r.value) || Contains(r.value, "width")
    ensures !AnyFound(card, sels) ==> r.None?
  {
    if sels == [] then None
    else
      match FindElement(card, sels[0])
      case Some(el) =>
        if ReadFails(el, "style") then ProgressFrom(card, sels[1..]) else ProgressOf(el)
      case None =>
        ProgressFrom(card, sels[1..])
  }

  lemma {:induction false} ProgressIsFirstFound(card: Card, sels: seq<Selector>, i: nat)
    requires i < |sels| && StyleReadable(card, sels[i])
    requires forall j :: 0 <= j < i ==> !StyleReadable(card, sels[j])
    ensures ProgressFrom(card, sels) == ProgressOf(FindElement(card, sels[i]).value)
  {
    if i > 0 {
      ProgressIsFirstFound(card, sels[1..], i - 1);
    }
  }

  // ---------------------------------------------------------------- watched date

  /** An element's date: its trimmed text, or its `datetime` attribute when the text is empty.
      When that read throws, the field keeps the empty text already assigned to it. */
  function DateOf(el: Element): Option<string> {
    var t := Trim(el.text);
    if t != [] then Some(t)
    else if ReadFails(el, "datetime") then Some("")
    else Attribute(el.attributes, "datetime")
  }

  /** A date value that ends the chain: non-null and non-empty. */
  predicate Usable(d: Option<string>) {
    d.Some? && d.value != []
  }

  /** The date chain continued from `current`: every element found overwrites the date,
      and a usable one ends the chain. */
  function DateFrom(card: Card, sels: seq<Selector>, current: Option<string>): Option<string> {
    if sels == [] then current
    else
      match FindElement(card, sels[0])
      case None => DateFrom(card, sels[1..], current)
      case Some(el) =>
        if Usable(DateOf(el)) then DateOf(el) else DateFrom(card, sels[1..], DateOf(el))
  }

  /** The first element with a usable date decides it, visible text before `datetime`. */
  lemma {:induction false} DateIsFirstUsable(card: Card, sels: seq<Selector>, current: Option<string>, i: nat)
    requires i < |sels| && FindElement(card, sels[i]).Some? && Usable(DateOf(FindElement(card, sels[i]).value))
    requires forall j :: 0 <= j < i ==> FindElement(card, sels[j]).None? || !Usable(DateOf(FindElement(card, sels[j]).value))
    ensures DateFrom(card, sels, current) == DateOf(FindElement(card, sels[i]).value)
    ensures HasText(card, sels[i]) ==> DateFrom(card, sels, current) == Some(TextAt(card, sels[i]))
  {
    if i > 0 {
      var next := if FindElement(card, sels[0]).Some? then DateOf(FindElement(card, sels[0]).value) else current;
      DateIsFirstUsable(card, sels[1..], next, i - 1);
    }
  }

  /** Some selector of the chain finds an element exactly when one of them does. */
  lemma {:induction false} AnyFoundMeans(card: Card, sels: seq<Selector>)
    ensures AnyFound(card, sels) <==> exists j :: 0 <= j < |sels| && FindElement(card, sels[j]).Some?
  {
    if sels != [] {
      AnyFoundMeans(card, sels[1..]);
      assert forall j :: 1 <= j < |sels| ==> sels[j] == sels[1..][j - 1];
    }
  }

  /** Without a usable date the chain leaves what the last element found gave (null, or ""
      when its text was empty and its `datetime` empty or unreadable), and leaves `current`
      when no selector finds anything. */
  lemma {:induction false} DateWithoutUsable(card: Card, sels: seq<Selector>, current: Option<string>)
    requires forall j :: 0 <= j < |sels| ==> FindElement(card, sels[j]).None? || !Usable(DateOf(FindElement(card, sels[j]).value))
    ensures !AnyFound(card, sels) ==> DateFrom(card, sels, current) == current
    ensures AnyFound(card, sels) ==> !Usable(DateFrom(card, sels, current))
    ensures AnyFound(card, sels) ==>
      exists i :: (0 <= i < |sels| && FindElement(card, sels[i]).Some?
        && DateFrom(card, sels, current) == DateOf(FindElement(card, sels[i]).value)
        && forall j :: i < j < |sels| ==> FindElement(card, sels[j]).None?)
  {
    if sels != [] {
      var rest := sels[1..];
      assert forall j :: 0 <= j < |rest| ==> rest[j] == sels[j + 1];
      var next := if FindElement(card, sels[0]).Some? then DateOf(FindElement(card, sels[0]).value) else current;
      DateWithoutUsable(card, rest, next);
      var r := DateFrom(card, sels, current);
      assert r == DateFrom(card, rest, next);
      if AnyFound(card, rest) {
        var i :| 0 <= i < |rest| && FindElement(card, rest[i]).Some? && r == DateOf(FindElement(card, rest[i]).value)
          && forall j :: i < j < |rest| ==> FindElement(card, rest[j]).None?;
        assert FindElement(card, sels[i + 1]).Some? && r == DateOf(FindElement(card, sels[i + 1]).value);
        assert forall j :: i + 1 < j < |sels| ==> FindElement(card, sels[j]).None? by {
          forall j | i + 1 < j < |sels| ensures FindElement(card, sels[j]).None? {
            assert rest[j - 1] == sels[j];
          }
        }
      } else if FindElement(card, sels[0]).Some? {
        AnyFoundMeans(card, rest);
        assert forall j :: 0 < j < |sels| ==> FindElement(card, sels[j]).None? by {
          forall j | 0 < j < |sels| ensures FindElement(card, sels[j]).None? {
            assert rest[j - 1] == sels[j];
          }
        }
        assert r == DateOf(FindElement(card, sels[0]).value);
      }
    }
  }

  // ---------------------------------------------------------------- fallback and gate

  /** The three fields the line-split fallback may overwrite. */
  datatype Titles = Titles(series: Option<string>, episode: Option<string>, season: Option<string>)

  /** The card's text holds something besides trimmable characters. */
  predicate HasCardText(card: Card) {
    card.text.Some? && Trim(card.text.value) != []
  }

  /** The line-split fallback: lines 0, 1 and 2 of the trimmed card text, each trimmed,
      become series, episode and season; only lines that exist are used. */
  function LineFallback(card: Card, season: Option<string>): Titles {
    if !HasCardText(card) then Titles(None, None, season)
    else
      var lines := Split(Trim(card.text.value), '\n');
      Titles(
        if |lines| > 0 then Some(Trim(lines[0])) else None,
        if |lines| > 1 then Some(Trim(lines[1])) else None,
        if |lines| > 2 then Some(Trim(lines[2])) else season)
  }

  /** Non-blank card text always gives a non-empty series title: its first line. */
  lemma LineFallbackSeries(card: Card, season: Option<string>)
    requires HasCardText(card)
    ensures LineFallback(card, season).series.Some? && LineFallback(card, season).series.value != []
  {
    var full := Trim(card.text.value);
    assert !IsTrimmable(full[0]) && !IsTrimmable(full[|full| - 1]);
    SplitInner(full, '\n');
    var first := Split(full, '\n')[0];
    assert !IsTrimmable(first[0]);
  }

  /** The titles after the chains and, when both title chains stayed null, the fallback. */
  function TitlesOf(card: Card): Titles {
    var series := TitleFrom(card, SeriesSelectors, None);
    var episode := TitleFrom(card, EpisodeSelectors, None);
    var season := MetaFrom(card, MetaSelectors).seasonInfo;
    if series.None? && episode.None? then LineFallback(card, season) else Titles(series, episode, season)
  }

  /** The record a card yields, or None when it has neither URL nor series title: every
      record carries one of the two. */
  function Extract(card: Card): (r: Option<HistoryEntry>)
    ensures r.Some? ==> r.value.url.Some? || r.value.seriesTitle.Some?
  {
    var url := UrlOf(card);
    var titles := TitlesOf(card);
    if url.Some? || titles.series.Some? then
      Some(HistoryEntry(titles.series, titles.episode, titles.season, MetaFrom(card, MetaSelectors).episodeNumber,
                        DateFrom(card, DateSelectors, None), ProgressFrom(card, ProgressSelectors), url))
    else None
  }

  /** The fallback runs only when no series and no episode selector finds any element: an
      element with empty text is enough to keep it from running. */
  lemma FallbackOnlyWithoutTitleElements(card: Card)
    ensures AnyFound(card, SeriesSelectors) || AnyFound(card, EpisodeSelectors) ==>
      TitlesOf(card) == Titles(TitleFrom(card, SeriesSelectors, None), TitleFrom(card, EpisodeSelectors, None),
                               MetaFrom(card, MetaSelectors).seasonInfo)
    ensures !AnyFound(card, SeriesSelectors) && !AnyFound(card, EpisodeSelectors) ==>
      TitlesOf(card) == LineFallback(card, MetaFrom(card, MetaSelectors).seasonInfo)
  {
    TitleNullIffNothingFound(card, SeriesSelectors, None);
    TitleNullIffNothingFound(card, EpisodeSelectors, None);
  }

  /** The validity gate: no record exactly when there is no URL, no series selector finds an
      element, and the fallback cannot supply a series (an episode element blocks it, or the
      card text is blank). A record carries every field exactly as the chains and the
      fallback produced it. */
  lemma ExtractGate(card: Card)
    ensures Extract(card).None? <==>
      UrlOf(card).None? && !AnyFound(card, SeriesSelectors) && (AnyFound(card, EpisodeSelectors) || !HasCardText(card))
    ensures Extract(card).Some? ==>
      var e := Extract(card).value;
      e.url == UrlOf(card) && e.seriesTitle == TitlesOf(card).series
      && e.episodeTitle == TitlesOf(card).episode && e.seasonInfo == TitlesOf(card).season
      && e.watchedDate == DateFrom(card, DateSelectors, None)
      && e.progress == ProgressFrom(card, ProgressSelectors) && e.episodeNumber == MetaFrom(card, MetaSelectors).episodeNumber
  {
    TitleNullIffNothingFound(card, SeriesSelectors, None);
    TitleNullIffNothingFound(card, EpisodeSelectors, None);
    if HasCardText(card) {
      LineFallbackSeries(card, MetaFrom(card, MetaSelectors).seasonInfo);
    }
  }

  // ---------------------------------------------------------------- the method

  /** One title loop of `extractEntryFromCard` (the series and the episode loops are alike). */
  method ReadTitle(card: Card, sels: seq<Selector>) returns (title: Option<string>)
    ensures title == TitleFrom(card, sels, None)
  {
    title := None;
    for k := 0 to |sels|
      invariant TitleFrom(card, sels[k..], title) == TitleFrom(card, sels, None)
    {
      assert sels[k..][1..] == sels[k + 1..];
      match FindElement(card, sels[k]) {
        case Some(el) =>
          title := Some(Trim(el.text));
          if title.value != [] {
            break;
          }
        case None =>
      }
    }
  }

  /** The season/episode loop of `extractEntryFromCard`. */
  method ReadMeta(card: Card) returns (seasonInfo: Option<string>, episodeNumber: Option<string>)
    ensures Meta(seasonInfo, episodeNumber) == MetaFrom(card, MetaSelectors)
  {
    seasonInfo, episodeNumber := None, None;
    for k := 0 to |MetaSelectors|
      invariant seasonInfo.None? && episodeNumber.None?
      invariant MetaFrom(card, MetaSelectors[k..]) == MetaFrom(card, MetaSelectors)
    {
      assert MetaSelectors[k..][1..] == MetaSelectors[k + 1..];
      match FindElement(card, MetaSelectors[k]) {
        case Some(el) =>
          var text := Trim(el.text);
          if text != [] {
            if 'S' in text && 'E' in text {
              seasonInfo := Some(text);
            } else if MatchesDigitPattern(text) {
              episodeNumber := Some(text);
            }
            break;
          }
        case None =>
      }
    }
  }

  /** The progress loop of `extractEntryFromCard`. */
  method ReadProgress(card: Card) returns (progress: Option<string>)
    ensures progress == ProgressFrom(card, ProgressSelectors)
  {
    progress := None;
    for k := 0 to |ProgressSelectors|
      invariant progress.None?
      invariant ProgressFrom(card, ProgressSelectors[k..]) == ProgressFrom(card, ProgressSelectors)
    {
      assert ProgressSelectors[k..][1..] == ProgressSelectors[k + 1..];
      match FindElement(card, ProgressSelectors[k]) {
        case Some(el) =>
          if ReadFails(el, "style") {
            continue;
          }
          var style := Attribute(el.attributes, "style");
          if style.Some? && Contains(style.value, "width") {
            progress := Some(WidthRewrite(style.value));
          }
          break;
        case None =>
      }
    }
  }

  /** The watched-date loop of `extractEntryFromCard`. */
  method ReadDate(card: Card) returns (watchedDate: Option<string>)
    ensures watchedDate == DateFrom(card, DateSelectors, None)
  {
    watchedDate := None;
    for k := 0 to |DateSelectors|
      invariant DateFrom(card, DateSelectors[k..], watchedDate) == DateFrom(card, DateSelectors, None)
    {
      assert DateSelectors[k..][1..] == DateSelectors[k + 1..];
      match FindElement(card, DateSelectors[k]) {
        case Some(el) =>
          watchedDate := Some(Trim(el.text));
          if watchedDate.value == [] {
            if ReadFails(el, "datetime") {
              continue;
            }
            watchedDate := Attribute(el.attributes, "datetime");
          }
          if watchedDate.Some? && watchedDate.value != [] {
            break;
          }
        case None =>
      }
    }
  }

  /** `extractEntryFromCard(card)`: the chains in source order, then the fallback and the gate. */
  method ExtractEntryFromCard(card: Card) returns (entry: Option<HistoryEntry>)
    ensures entry == Extract(card)
  {
    var url := UrlOf(card);
    var seriesTitle := ReadTitle(card, SeriesSelectors);
    var episodeTitle := ReadTitle(card, EpisodeSelectors);
    var seasonInfo, episodeNumber := ReadMeta(card);
    var progress := ReadProgress(card);
    var watchedDate := ReadDate(card);

    if seriesTitle.None? && episodeTitle.None? {
      match card.text {
        case Some(t) =>
          var fullText := Trim(t);
          if fullText != [] {
            var lines := Split(fullText, '\n');
            if |lines| > 0 {
              seriesTitle := Some(Trim(lines[0]));
            }
            if |lines| > 1 {
              episodeTitle := Some(Trim(lines[1]));
            }
            if |lines| > 2 {
              seasonInfo := Some(Trim(lines[2]));
            }
          }
        case None =>
      }
    }

    if url.Some? || seriesTitle.Some? {
      entry := Some(HistoryEntry(seriesTitle, episodeTitle, seasonInfo, episodeNumber, watchedDate, progress, url));
    } else {
      entry := None;
    }
  }
}
