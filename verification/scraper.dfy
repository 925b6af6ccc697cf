/**
 * `scrapeHistory`: rounds of locate, extract and deduplicate, with a stall counter deciding
 * when to stop. The browser is an oracle: the page shown in each round, the rounds whose
 * scroll script fails, and the rounds whose settle delay is interrupted.
 */
module Scraper {
  import opened Wrappers
  import opened Dom
  import opened Entries
  import opened CardLocator
  import opened FieldExtractor

  /** `maxScrollAttempts`: the while guard's bound on the stall counter. */
  const MaxScrollAttempts: nat := 100
  /** Stalled rounds after which the loop gives up once it holds an entry. */
  const StallRounds: nat := 3

  /** After `k` scrolls the page is `pages[k]`; once those are used up it no longer changes
      (`settledPage`): a history is finite, so scrolling stops revealing cards. Rounds are
      numbered from 1; round `n` reads the page left by `n - 1` scrolls, its `scrollDown`
      throws when `n` is in `scriptFailures`, and its sleep is interrupted when `n` is in
      `interrupts`. */
  datatype Browser = Browser(pages: seq<Page>, settledPage: Page, scriptFailures: set<nat>, interrupts: set<nat>)

  function PageAt(b: Browser, scrolls: nat): Page {
    if scrolls < |b.pages| then b.pages[scrolls] else b.settledPage
  }

  function CardsAt(b: Browser, scrolls: nat): seq<Card> {
    LocatedCards(PageAt(b, scrolls))
  }

  // ---------------------------------------------------------------- dedup accumulator

  /** The `entries` list and the `seenUrls` set. */
  datatype Accumulator = Accumulator(entries: seq<HistoryEntry>, seenUrls: set<string>)

  /** One card's record offered to the accumulator: kept only when it exists, has a URL,
      and that URL was not seen; otherwise nothing changes. */
  function Offer(acc: Accumulator, entry: Option<HistoryEntry>): Accumulator {
    if entry.Some? && entry.value.url.Some? && entry.value.url.value !in acc.seenUrls
    then Accumulator(acc.entries + [entry.value], acc.seenUrls + {entry.value.url.value})
    else acc
  }

  /** Records offered in order, as the inner loop over a round's cards does. */
  function OfferAll(acc: Accumulator, recs: seq<Option<HistoryEntry>>): Accumulator {
    if recs == [] then acc
    else Offer(OfferAll(acc, recs[..|recs| - 1]), recs[|recs| - 1])
  }

  /** What `extractEntryFromCard` gives for each card of a round, in card order. */
  function Records(cards: seq<Card>): (recs: seq<Option<HistoryEntry>>)
    ensures |recs| == |cards|
    decreases |cards|, 1
  {
    if cards == [] then [] else RecordsOfSome(cards)
  }

  /** The records of a non-empty list: those of all but the last card, then the last card's. */
  function RecordsOfSome(cards: seq<Card>): (recs: seq<Option<HistoryEntry>>)
    requires cards != []
    ensures |recs| == |cards|
    decreases |cards|, 0
  {
    Records(cards[..|cards| - 1]) + [Extract(cards[|cards| - 1])]
  }

  lemma {:induction false} RecordsAt(cards: seq<Card>, i: nat)
    requires i < |cards|
    ensures Records(cards)[i] == Extract(cards[i])
  {
    var init := cards[..|cards| - 1];
    assert Records(cards) == Records(init) + [Extract(cards[|cards| - 1])];
    if i < |init| {
      RecordsAt(init, i);
      assert init[i] == cards[i];
    }
  }

  /** One round's cards offered to the accumulator. */
  function OfferCards(acc: Accumulator, cards: seq<Card>): Accumulator {
    OfferAll(acc, Records(cards))
  }

  /** The URL a record would contribute, if it has one. */
  predicate HasUrl(rec: Option<HistoryEntry>) {
    rec.Some? && rec.value.url.Some?
  }

  /** The URLs that the entries carry. */
  function UrlSet(entries: seq<HistoryEntry>): set<string> {
    if entries == [] then {}
    else
      var last := entries[|entries| - 1];
      UrlSet(entries[..|entries| - 1]) + (if last.url.Some? then {last.url.value} else {})
  }

  /** Every entry has a URL and no two entries share one. */
  predicate UniqueUrls(entries: seq<HistoryEntry>) {
    (forall i :: 0 <= i < |entries| ==> entries[i].url.Some?)
    && (forall i, j :: 0 <= i < j < |entries| ==> entries[i].url != entries[j].url)
  }

  /** The dedup invariant: unique URLs, and `seenUrls` is exactly the set of entry URLs. */
  predicate Deduplicated(acc: Accumulator) {
    UniqueUrls(acc.entries) && acc.seenUrls == UrlSet(acc.entries)
  }

  lemma {:induction false} UrlSetMembers(entries: seq<HistoryEntry>, u: string)
    ensures u in UrlSet(entries) <==> exists i :: 0 <= i < |entries| && entries[i].url == Some(u)
  {
    if entries != [] {
      var init := entries[..|entries| - 1];
      UrlSetMembers(init, u);
      if exists i :: 0 <= i < |init| && init[i].url == Some(u) {
        var i :| 0 <= i < |init| && init[i].url == Some(u);
        assert entries[i].url == Some(u);
      }
      if exists i :: 0 <= i < |entries| && entries[i].url == Some(u) {
        var i :| 0 <= i < |entries| && entries[i].url == Some(u);
        if i < |init| {
          assert init[i].url == Some(u);
        }
      }
    }
  }

  /** What one offer does: the record's URL, if it has one, is always among the seen URLs
      afterwards, and the record is appended, as the only change to the list, exactly when
      it has a URL that was not seen before. */
  lemma OfferEffect(acc: Accumulator, entry: Option<HistoryEntry>)
    ensures Offer(acc, entry).seenUrls == acc.seenUrls + (if HasUrl(entry) then {entry.value.url.value} else {})
    ensures Offer(acc, entry).entries ==
      acc.entries + (if HasUrl(entry) && entry.value.url.value !in acc.seenUrls then [entry.value] else [])
  {
  }

  /** Offering keeps the dedup invariant and only ever appends one entry at the end. */
  lemma OfferKeepsDedup(acc: Accumulator, entry: Option<HistoryEntry>)
    requires Deduplicated(acc)
    ensures Deduplicated(Offer(acc, entry))
    ensures acc.entries <= Offer(acc, entry).entries
    ensures |Offer(acc, entry).entries| <= |acc.entries| + 1
  {
    var r := Offer(acc, entry);
    if r != acc {
      var u := entry.value.url.value;
      UrlSetMembers(acc.entries, u);
      assert r.entries[..|r.entries| - 1] == acc.entries;
      forall i, j | 0 <= i < j < |r.entries| ensures r.entries[i].url != r.entries[j].url {
        if j == |acc.entries| {
          assert acc.entries[i].url != Some(u);
        }
      }
    }
  }

  /** A null URL or an already seen one changes nothing, so offering the same record
      twice is the same as offering it once. */
  lemma OfferRejects(acc: Accumulator, e: HistoryEntry)
    ensures e.url.None? ==> Offer(acc, Some(e)) == acc
    ensures e.url.Some? && e.url.value in acc.seenUrls ==> Offer(acc, Some(e)) == acc
    ensures Offer(Offer(acc, Some(e)), Some(e)) == Offer(acc, Some(e))
  {
  }

  /** Offering records never changes or drops an entry already held, and never forgets a URL. */
  lemma {:induction false} OfferAllGrows(acc: Accumulator, recs: seq<Option<HistoryEntry>>)
    ensures acc.entries <= OfferAll(acc, recs).entries
    ensures acc.seenUrls <= OfferAll(acc, recs).seenUrls
  {
    if recs != [] {
      OfferAllGrows(acc, recs[..|recs| - 1]);
    }
  }

  /** Offering a whole round of records keeps the dedup invariant. */
  lemma {:induction false} OfferAllKeepsDedup(acc: Accumulator, recs: seq<Option<HistoryEntry>>)
    requires Deduplicated(acc)
    ensures Deduplicated(OfferAll(acc, recs))
  {
    if recs != [] {
      OfferAllKeepsDedup(acc, recs[..|recs| - 1]);
      OfferKeepsDedup(OfferAll(acc, recs[..|recs| - 1]), recs[|recs| - 1]);
    }
  }

  /** After a round every record with a URL has that URL among the seen ones. */
  lemma {:induction false} OfferAllCovers(acc: Accumulator, recs: seq<Option<HistoryEntry>>, k: nat)
    requires k < |recs| && HasUrl(recs[k])
    ensures recs[k].value.url.value in OfferAll(acc, recs).seenUrls
  {
    var init := recs[..|recs| - 1];
    if k < |init| {
      assert init[k] == recs[k];
      OfferAllCovers(acc, init, k);
      OfferAllGrows(OfferAll(acc, init), [recs[|recs| - 1]]);
    }
  }

  /** When every URL the records carry is already seen, the round changes nothing. */
  lemma {:induction false} OfferAllSeen(acc: Accumulator, recs: seq<Option<HistoryEntry>>)
    requires forall k :: 0 <= k < |recs| && HasUrl(recs[k]) ==> recs[k].value.url.value in acc.seenUrls
    ensures OfferAll(acc, recs) == acc
  {
    if recs != [] {
      var init := recs[..|recs| - 1];
      assert forall k :: 0 <= k < |init| ==> init[k] == recs[k];
      OfferAllSeen(acc, init);
    }
  }

  /** Offering the same records a second time changes nothing. */
  lemma OfferAllIdempotent(acc: Accumulator, recs: seq<Option<HistoryEntry>>)
    ensures OfferAll(OfferAll(acc, recs), recs) == OfferAll(acc, recs)
  {
    forall k | 0 <= k < |recs| && HasUrl(recs[k])
      ensures recs[k].value.url.value in OfferAll(acc, recs).seenUrls
    {
      OfferAllCovers(acc, recs, k);
    }
    OfferAllSeen(OfferAll(acc, recs), recs);
  }

  /** Every entry a round adds is one of its records. */
  lemma {:induction false} OfferAllFromRecords(acc: Accumulator, recs: seq<Option<HistoryEntry>>, i: nat)
    requires |acc.entries| <= i < |OfferAll(acc, recs).entries|
    ensures exists k :: 0 <= k < |recs| && recs[k] == Some(OfferAll(acc, recs).entries[i])
  {
    var init := recs[..|recs| - 1];
    var mid := OfferAll(acc, init);
    var r := OfferAll(acc, recs);
    if i < |mid.entries| {
      OfferAllFromRecords(acc, init, i);
      var k :| 0 <= k < |init| && init[k] == Some(mid.entries[i]);
      OfferAllGrows(mid, [recs[|recs| - 1]]);
      assert recs[k] == init[k];
    } else {
      assert recs[|recs| - 1] == Some(r.entries[i]);
    }
  }

  // ---------------------------------------------------------------- rounds

  /** What the browser feeds the loop: after `s` scrolls, the records of the cards located
      on the page. */
  type Feed = nat -> seq<Option<HistoryEntry>>

  function FeedOf(b: Browser): Feed {
    (s: nat) => Records(CardsAt(b, s))
  }

  /** The loop variables between rounds. */
  datatype LoopState = LoopState(acc: Accumulator, previousCount: nat, scrollAttempts: nat)

  const Start: LoopState := LoopState(Accumulator([], {}), 0, 0)

  /** The counter update after a round's cards: no growth counts one more stalled round,
      growth resets the counter and records the new size. */
  function Tally(st: LoopState, acc: Accumulator): LoopState {
    if |acc.entries| == st.previousCount then LoopState(acc, st.previousCount, st.scrollAttempts + 1)
    else LoopState(acc, |acc.entries|, 0)
  }

  /** The state after `k` rounds, had none of them stopped the loop: round `k` offers what
      the feed gives after `k - 1` scrolls, then updates the counters. */
  function Iterate(feed: Feed, k: nat): LoopState {
    if k == 0 then Start
    else
      var st := Iterate(feed, k - 1);
      Tally(st, OfferAll(st.acc, feed(k - 1)))
  }

  /** The stall break: enough stalled rounds, and something found. */
  predicate StallStop(st: LoopState) {
    st.scrollAttempts >= StallRounds && |st.acc.entries| > 0
  }

  /** How a round ends, in the order the code checks: the stall break, the scroll script
      throwing, the interrupted sleep, and the while guard. */
  datatype RoundEnd = Continue | Stalled | ScriptFailed | Interrupted | CapReached

  /** How the loop body of round `n` ends when it leaves the loop variables at `st`: the
      stall break, the scroll script throwing, the interrupted sleep, or on to the guard. */
  function BodyExit(b: Browser, n: nat, st: LoopState): RoundEnd {
    if StallStop(st) then Stalled
    else if n in b.scriptFailures then ScriptFailed
    else if n in b.interrupts then Interrupted
    else Continue
  }

  /** How round `n` ends when it leaves the loop variables at `st`: the body's exit, or the
      while guard failing once the counter reaches the cap. */
  function Outcome(b: Browser, n: nat, st: LoopState): RoundEnd {
    if BodyExit(b, n, st) != Continue then BodyExit(b, n, st)
    else if st.scrollAttempts >= MaxScrollAttempts then CapReached
    else Continue
  }

  /** How round `n` (from 1) ends. */
  function EndOfRound(b: Browser, n: nat): RoundEnd {
    Outcome(b, n, Iterate(FeedOf(b), n))
  }

  /** What the scrape hands back: the entries, or nothing when `scrollDown` threw, since
      that exception leaves `scrapeHistory` and the whole run. */
  datatype ScrapeResult = Scraped(entries: seq<HistoryEntry>) | SessionLost

  /** After any number of rounds: the dedup invariant holds, `previousCount` is the number of
      entries, and the counter never exceeds the rounds run. */
  lemma {:induction false} IterateInvariant(feed: Feed, k: nat)
    ensures Deduplicated(Iterate(feed, k).acc)
    ensures Iterate(feed, k).previousCount == |Iterate(feed, k).acc.entries|
    ensures Iterate(feed, k).scrollAttempts <= k
  {
    if k > 0 {
      IterateInvariant(feed, k - 1);
      OfferAllKeepsDedup(Iterate(feed, k - 1).acc, feed(k - 1));
    }
  }

  /** Entries only grow at the end: an earlier round's list is a prefix of a later one's. */
  lemma {:induction false} IterateAppendOnly(feed: Feed, j: nat, k: nat)
    requires j <= k
    ensures Iterate(feed, j).acc.entries <= Iterate(feed, k).acc.entries
  {
    if j < k {
      IterateAppendOnly(feed, j, k - 1);
      OfferAllGrows(Iterate(feed, k - 1).acc, feed(k - 1));
    }
  }

  /** Every entry held after `k` rounds is a record that one of those rounds was fed. */
  lemma {:induction false} IterateFromFeed(feed: Feed, k: nat, i: nat)
    requires i < |Iterate(feed, k).acc.entries|
    ensures exists s, c :: 0 <= s < k && 0 <= c < |feed(s)| && feed(s)[c] == Some(Iterate(feed, k).acc.entries[i])
  {
    var prev := Iterate(feed, k - 1);
    OfferAllGrows(prev.acc, feed(k - 1));
    if i < |prev.acc.entries| {
      IterateFromFeed(feed, k - 1, i);
    } else {
      OfferAllFromRecords(prev.acc, feed(k - 1), i);
    }
  }

  /** With the browser's feed: every entry is what `extractEntryFromCard` gave for a card
      located on a page the loop read. */
  lemma EntriesComeFromCards(b: Browser, k: nat, i: nat)
    requires i < |Iterate(FeedOf(b), k).acc.entries|
    ensures exists s, c :: (0 <= s < k && 0 <= c < |CardsAt(b, s)|
      && Extract(CardsAt(b, s)[c]) == Some(Iterate(FeedOf(b), k).acc.entries[i]))
  {
    IterateFromFeed(FeedOf(b), k, i);
    var s, c :| 0 <= s < k && 0 <= c < |FeedOf(b)(s)| && FeedOf(b)(s)[c] == Some(Iterate(FeedOf(b), k).acc.entries[i]);
    assert FeedOf(b)(s) == Records(CardsAt(b, s));
    RecordsAt(CardsAt(b, s), c);
  }

  /** The stall rule: a round that adds nothing increments the counter and keeps
      `previousCount`; a round that adds something resets the counter to 0. */
  lemma StallRule(feed: Feed, k: nat)
    requires k >= 1
    ensures var s, t := Iterate(feed, k - 1), Iterate(feed, k);
      if |t.acc.entries| == |s.acc.entries|
      then t.scrollAttempts == s.scrollAttempts + 1 && t.previousCount == s.previousCount
      else t.scrollAttempts == 0 && t.previousCount == |t.acc.entries|
  {
    IterateInvariant(feed, k - 1);
  }

  /** A round raises the counter by at most one. */
  lemma CounterStep(feed: Feed, k: nat)
    requires k >= 1
    ensures Iterate(feed, k).scrollAttempts <= Iterate(feed, k - 1).scrollAttempts + 1
  {
  }

  /** Three rounds in a row that add nothing to a non-empty list meet the stall break. */
  lemma StallCounts(feed: Feed, n: nat)
    requires n >= 3
    requires |Iterate(feed, n - 3).acc.entries| > 0
    requires |Iterate(feed, n).acc.entries| == |Iterate(feed, n - 3).acc.entries|
    ensures StallStop(Iterate(feed, n))
  {
    var m, l, j := n - 1, n - 2, n - 3;
    IterateAppendOnly(feed, j, l);
    IterateAppendOnly(feed, l, m);
    IterateAppendOnly(feed, m, n);
    StallRule(feed, n);
    StallRule(feed, m);
    StallRule(feed, l);
  }

  /** With the browser's feed: such a third round ends the loop by the stall break. */
  lemma StallEndsLoop(b: Browser, n: nat)
    requires n >= 3
    requires |Iterate(FeedOf(b), n - 3).acc.entries| > 0
    requires |Iterate(FeedOf(b), n).acc.entries| == |Iterate(FeedOf(b), n - 3).acc.entries|
    ensures EndOfRound(b, n) == Stalled
  {
    StallCounts(FeedOf(b), n);
  }

  /** The 100 bound is not a bound on rounds: as long as every round adds an entry, the
      counter stays 0, so neither the stall break nor the while guard ends any of them. */
  lemma GrowthNeverReachesCap(b: Browser, k: nat)
    requires forall n :: 1 <= n <= k ==> |Iterate(FeedOf(b), n).acc.entries| != |Iterate(FeedOf(b), n - 1).acc.entries|
    ensures forall n :: 1 <= n <= k ==> Iterate(FeedOf(b), n).scrollAttempts == 0
    ensures forall n :: 1 <= n <= k ==> EndOfRound(b, n) != Stalled && EndOfRound(b, n) != CapReached
  {
    forall n | 1 <= n <= k ensures Iterate(FeedOf(b), n).scrollAttempts == 0 {
      StallRule(FeedOf(b), n);
    }
  }

  /** From `m` scrolls on the feed no longer changes: the page has settled. */
  ghost predicate SettledFrom(feed: Feed, m: nat) {
    forall s :: s >= m ==> feed(s) == feed(m)
  }

  lemma BrowserSettles(b: Browser)
    ensures SettledFrom(FeedOf(b), |b.pages|)
  {
  }

  /** Once a round has been fed the settled records, no later round changes the
      accumulator: offering the same records again adds nothing. */
  lemma {:induction false} SettledStays(feed: Feed, m: nat, k: nat)
    requires SettledFrom(feed, m) && k > m
    ensures Iterate(feed, k).acc == Iterate(feed, m + 1).acc
  {
    if k > m + 1 {
      SettledStays(feed, m, k - 1);
      var prev := Iterate(feed, k - 2).acc;
      assert feed(k - 2) == feed(m) && feed(k - 1) == feed(m);
      OfferAllIdempotent(prev, feed(m));
    }
  }

  /** Every round after the one that first reads the settled page adds nothing. */
  lemma SettledRound(b: Browser, n: nat)
    requires n > |b.pages|
    ensures Iterate(FeedOf(b), n + 1).acc == Iterate(FeedOf(b), n).acc
  {
    BrowserSettles(b);
    SettledStays(FeedOf(b), |b.pages|, n);
    SettledStays(FeedOf(b), |b.pages|, n + 1);
  }

  /** Rounds 1 to `n - 1` on the feed all end with Continue. */
  ghost predicate ContinuesBefore(b: Browser, feed: Feed, n: nat) {
    n <= 1 || (ContinuesBefore(b, feed, n - 1) && Outcome(b, n - 1, Iterate(feed, n - 1)) == Continue)
  }

  lemma {:induction false} ContinuesMeans(b: Browser, feed: Feed, n: nat)
    requires ContinuesBefore(b, feed, n)
    ensures forall k :: 1 <= k < n ==> Outcome(b, k, Iterate(feed, k)) == Continue
  {
    if n > 1 {
      ContinuesMeans(b, feed, n - 1);
    }
  }

  /** What the loop leaves when round `n` is the last: the body left by `exit`, or the body
      went on and the while guard failed. */
  lemma LoopExit(b: Browser, n: nat, exit: RoundEnd)
    requires n >= 1 && ContinuesBefore(b, FeedOf(b), n)
    requires exit == BodyExit(b, n, Iterate(FeedOf(b), n))
    requires exit != Continue || Iterate(FeedOf(b), n).scrollAttempts >= MaxScrollAttempts
    ensures forall k :: 1 <= k < n ==> EndOfRound(b, k) == Continue
    ensures EndOfRound(b, n) != Continue
    ensures EndOfRound(b, n) == ScriptFailed <==> exit == ScriptFailed
    ensures UniqueUrls(Iterate(FeedOf(b), n).acc.entries)
    ensures EndOfRound(b, n) == CapReached ==> Iterate(FeedOf(b), n).acc.entries == []
    ensures Iterate(FeedOf(b), n).scrollAttempts <= MaxScrollAttempts
    ensures Iterate(FeedOf(b), n).previousCount == |Iterate(FeedOf(b), n).acc.entries|
  {
    ContinuesMeans(b, FeedOf(b), n);
    IterateInvariant(FeedOf(b), n);
    CounterStep(FeedOf(b), n);
  }

  /** The inner loop of one round: each card's record offered in turn. */
  method CollectCards(cards: seq<Card>, entries: seq<HistoryEntry>, seenUrls: set<string>)
    returns (entries': seq<HistoryEntry>, seenUrls': set<string>)
    ensures Accumulator(entries', seenUrls') == OfferCards(Accumulator(entries, seenUrls), cards)
  {
    entries', seenUrls' := entries, seenUrls;
    var recs := Records(cards);
    for i := 0 to |cards|
      invariant Accumulator(entries', seenUrls') == OfferAll(Accumulator(entries, seenUrls), recs[..i])
    {
      assert recs[..i + 1][..i] == recs[..i];
      RecordsAt(cards, i);
      var entry := ExtractEntryFromCard(cards[i]);
      if entry.Some? && entry.value.url.Some? && entry.value.url.value !in seenUrls' {
        seenUrls' := seenUrls' + {entry.value.url.value};
        entries' := entries' + [entry.value];
      }
    }
    assert recs[..|cards|] == recs;
  }

  /** One pass of the loop body, after `scrolls` earlier rounds: locate the cards, offer each
      card's record, update the stall counter, then the stall break, `scrollDown` and the
      sleep. The exit says which of those ends the loop; ScriptFailed stands for the
      exception `scrollDown` lets through. */
  method PlayRound(b: Browser, scrolls: nat, entries: seq<HistoryEntry>, seenUrls: set<string>,
                   previousCount: nat, scrollAttempts: nat)
    returns (entries': seq<HistoryEntry>, seenUrls': set<string>, previousCount': nat, scrollAttempts': nat,
             exit: RoundEnd)
    requires LoopState(Accumulator(entries, seenUrls), previousCount, scrollAttempts) == Iterate(FeedOf(b), scrolls)
    ensures LoopState(Accumulator(entries', seenUrls'), previousCount', scrollAttempts') == Iterate(FeedOf(b), scrolls + 1)
    ensures exit == BodyExit(b, scrolls + 1, Iterate(FeedOf(b), scrolls + 1))
  {
    var cards := FindHistoryCards(PageAt(b, scrolls));
    entries', seenUrls' := CollectCards(cards, entries, seenUrls);
    if |entries'| == previousCount {
      previousCount', scrollAttempts' := previousCount, scrollAttempts + 1;
      if scrollAttempts' >= StallRounds && |entries'| > 0 {
        exit := Stalled;
        return;
      }
    } else {
      previousCount', scrollAttempts' := |entries'|, 0;
    }
    // scrollDown(): nothing catches what executeScript throws
    if scrolls + 1 in b.scriptFailures {
      exit := ScriptFailed;
      return;
    }
    // Thread.sleep(1500): an interrupt ends the loop with what was found
    exit := if scrolls + 1 in b.interrupts then Interrupted else Continue;
  }

  /** `scrapeHistory()`. The loop runs rounds until one ends it; the ghost `rounds` counts
      them. The result is the state after those rounds, or SessionLost when the last round's
      scroll threw; it ends by the while guard only with no entries; and it ends within
      101 rounds of the page settling. */
  method ScrapeHistory(b: Browser) returns (result: ScrapeResult, ghost rounds: nat)
    ensures 1 <= rounds <= |b.pages| + MaxScrollAttempts + 1
    ensures forall n :: 1 <= n < rounds ==> EndOfRound(b, n) == Continue
    ensures EndOfRound(b, rounds) != Continue
    ensures result == if EndOfRound(b, rounds) == ScriptFailed then SessionLost
                      else Scraped(Iterate(FeedOf(b), rounds).acc.entries)
    ensures result.Scraped? ==> UniqueUrls(result.entries)
    ensures EndOfRound(b, rounds) == CapReached ==> result == Scraped([])
    ensures Iterate(FeedOf(b), rounds).scrollAttempts <= MaxScrollAttempts
    ensures Iterate(FeedOf(b), rounds).previousCount == |Iterate(FeedOf(b), rounds).acc.entries|
  {
    var entries: seq<HistoryEntry> := [];
    var seenUrls: set<string> := {};
    var previousCount: nat := 0;
    var scrollAttempts: nat := 0;
    var round: nat := 0;  // rounds run so far, which is also the number of scrolls
    var exit := Continue;

    while scrollAttempts < MaxScrollAttempts
      invariant LoopState(Accumulator(entries, seenUrls), previousCount, scrollAttempts) == Iterate(FeedOf(b), round)
      invariant ContinuesBefore(b, FeedOf(b), round)
      invariant round >= 1 ==> BodyExit(b, round, Iterate(FeedOf(b), round)) == Continue
      invariant exit == Continue
      invariant round <= |b.pages| + 1 + scrollAttempts
      decreases |b.pages| + 1 + MaxScrollAttempts - round
    {
      assert ContinuesBefore(b, FeedOf(b), round + 1);
      if round > |b.pages| {
        SettledRound(b, round);
      }
      entries, seenUrls, previousCount, scrollAttempts, exit := PlayRound(b, round, entries, seenUrls, previousCount, scrollAttempts);
      round := round + 1;
      if exit != Continue {
        break;
      }
    }
    LoopExit(b, round, exit);
    result, rounds := if exit == ScriptFailed then SessionLost else Scraped(entries), round;
  }
}
