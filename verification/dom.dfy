/**
 * The browser page as the scraper sees it, with every Selenium call reduced to a lookup.
 * A lookup that Selenium would answer by throwing (no such element, stale reference,
 * failed query) is simply absent from the maps below. A nested element whose `getText`
 * or `getCssValue` throws is absent too: every selector belongs to one field's chain, and
 * each chain's `catch` then moves on exactly as for a missing element. Only a throwing
 * `getAttribute` on a nested element is recorded, because the date chain has already
 * assigned the field when it reads `datetime`.
 */
module Dom {
  import opened Wrappers

  /** A CSS selector string. */
  type Selector = string

  /** An element nested in a card: its visible text, its attributes, and the attribute
      names whose `getAttribute` throws (a stale reference, say) instead of answering. */
  datatype Element = Element(text: string, attributes: map<string, string>, failingReads: set<string>)

  /** A card element: its tag name and text (None when reading them throws), its own
      attributes, and the element `findElement` returns for each selector that finds one. */
  datatype Card = Card(
    tagName: Option<string>,
    text: Option<string>,
    attributes: map<string, string>,
    nested: map<Selector, Element>)

  /** A page: the list `findElements` returns for each selector whose query does not throw. */
  datatype Page = Page(results: map<Selector, seq<Card>>)

  /** `card.findElement(By.cssSelector(sel))`, None where Selenium throws. */
  function FindElement(card: Card, sel: Selector): Option<Element> {
    if sel in card.nested then Some(card.nested[sel]) else None
  }

  /** `getAttribute(name)`, None where Selenium returns null. */
  function Attribute(attributes: map<string, string>, name: string): Option<string> {
    if name in attributes then Some(attributes[name]) else None
  }

  /** `el.getAttribute(name)` throws. */
  predicate ReadFails(el: Element, name: string) {
    name in el.failingReads
  }

  /** `driver.findElements(By.cssSelector(sel))`, None where the query throws. */
  function FindElements(page: Page, sel: Selector): Option<seq<Card>> {
    if sel in page.results then Some(page.results[sel]) else None
  }
}
