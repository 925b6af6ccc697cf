/** `findHistoryCards`: the cards of the first selector, in a fixed order, that finds any. */
module CardLocator {
  import opened Wrappers
  import opened Dom

  /** Specific structural selectors first, the loose `/watch/` link pattern last. */
  const CardSelectors: seq<Selector> := [
    ".history-playable-card",
    "[data-t='playable-card']",
    ".playable-card",
    ".erc-browse-collection .browse-card",
    ".watchlist-card",
    ".history-item",
    "[class*='history'] [class*='card']",
    "a[href*='/watch/']"
  ]

  /** The selector's query succeeds and finds at least one card. */
  predicate Yields(page: Page, sel: Selector) {
    FindElements(page, sel).Some? && FindElements(page, sel).value != []
  }

  /** The cards of the first selector in `sels` that yields any; empty when none does. */
  function FirstMatch(page: Page, sels: seq<Selector>): seq<Card> {
    if sels == [] then []
    else if Yields(page, sels[0]) then FindElements(page, sels[0]).value
    else FirstMatch(page, sels[1..])
  }

  /** The cards the scraper works on for one page. */
  function LocatedCards(page: Page): seq<Card> {
    FirstMatch(page, CardSelectors)
  }

  /** Selectors are tried in order: the result is the list of the first one that yields,
      whatever the later ones (or the failing earlier ones) would have given. */
  lemma {:induction false} FirstMatchIsFirstYield(page: Page, sels: seq<Selector>, i: nat)
    requires i < |sels| && Yields(page, sels[i])
    requires forall j :: 0 <= j < i ==> !Yields(page, sels[j])
    ensures FirstMatch(page, sels) == FindElements(page, sels[i]).value
  {
    if i > 0 {
      FirstMatchIsFirstYield(page, sels[1..], i - 1);
    }
  }

  /** The result is empty exactly when no selector yields (each finds nothing or throws). */
  lemma {:induction false} FirstMatchEmpty(page: Page, sels: seq<Selector>)
    ensures FirstMatch(page, sels) == [] <==> forall j :: 0 <= j < |sels| ==> !Yields(page, sels[j])
  {
    if sels != [] {
      FirstMatchEmpty(page, sels[1..]);
      assert forall j :: 1 <= j < |sels| ==> sels[j] == sels[1..][j - 1];
    }
  }

  /** `findHistoryCards()`: a loop over the selectors that returns early on the first hit.
      A query that throws leaves `cards` as it was; one that finds nothing sets it empty. */
  method FindHistoryCards(page: Page) returns (cards: seq<Card>)
    ensures cards == LocatedCards(page)
  {
    cards := [];
    for k := 0 to |CardSelectors|
      invariant cards == []
      invariant FirstMatch(page, CardSelectors[k..]) == LocatedCards(page)
    {
      assert CardSelectors[k..][1..] == CardSelectors[k + 1..];
      match FindElements(page, CardSelectors[k]) {
        case Some(found) =>
          cards := found;
          if cards != [] {
            return;
          }
        case None =>
      }
    }
  }
}
