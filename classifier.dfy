/**
 * The content classifier `has_significant_content`: choose the main region of a parsed page
 * by a fixed priority of selectors, count its whitespace-separated words and compare the
 * count with a fixed threshold.
 *
 * HTML parsing and text extraction are not modelled: a page is given as the text that
 * `get_text(separator=' ', strip=True)` yields for each region the page contains, plus the
 * text of the whole document.
 */
module Classifier {
  import opened Common
  import opened Text

  /** The three region lookups: `find('main')`, `find('article')`, `find('div', class_='content')`. */
  datatype Selector = MainElement | ArticleElement | ContentDiv

  /** The order in which the regions are tried. */
  const Priority: seq<Selector> := [MainElement, ArticleElement, ContentDiv]

  /** Strictly more words than this make a page significant. */
  const WordThreshold: nat := 300

  /**
   * A parsed page: the extracted text of each region the page contains (a region missing
   * from the map is one `find` returns None for) and the extracted text of the whole page.
   * A region that is present but has no text maps to the empty string.
   */
  datatype Page = Page(regions: map<Selector, string>, document: string)

  /** Index in `selectors` of the first selector the page contains, if any. */
  function FirstPresent(page: Page, selectors: seq<Selector>): (r: Option<nat>)
    ensures r.Some? ==> r.value < |selectors| && selectors[r.value] in page.regions
    ensures r.Some? ==> forall j :: 0 <= j < r.value ==> selectors[j] !in page.regions
    ensures r.None? ==> forall j :: 0 <= j < |selectors| ==> selectors[j] !in page.regions
  {
    if selectors == [] then None
    else if selectors[0] in page.regions then Some(0)
    else match FirstPresent(page, selectors[1..])
      case None => None
      case Some(k) => Some(k + 1)
  }

  /** The text whose words are counted: the first present region, else the whole document. */
  function ChosenText(page: Page): string
  {
    match FirstPresent(page, Priority)
    case Some(k) => page.regions[Priority[k]]
    case None => page.document
  }

  /** `len(text.split())` of the chosen text. */
  function WordCount(page: Page): nat
  {
    |Split(ChosenText(page))|
  }

  /** `has_significant_content(soup)`. */
  predicate HasSignificantContent(page: Page)
  {
    WordCount(page) > WordThreshold
  }

  // ---------------------------------------------------------------------------
  // Properties

  /** The region is chosen by priority: `main`, then `article`, then `div.content`, then the whole page. */
  lemma ChosenTextByPriority(page: Page)
    ensures MainElement in page.regions ==> ChosenText(page) == page.regions[MainElement]
    ensures MainElement !in page.regions && ArticleElement in page.regions ==>
      ChosenText(page) == page.regions[ArticleElement]
    ensures MainElement !in page.regions && ArticleElement !in page.regions && ContentDiv in page.regions ==>
      ChosenText(page) == page.regions[ContentDiv]
    ensures MainElement !in page.regions && ArticleElement !in page.regions && ContentDiv !in page.regions ==>
      ChosenText(page) == page.document
  {
    assert Priority[0] == MainElement && Priority[1] == ArticleElement && Priority[2] == ContentDiv;
    var r := FirstPresent(page, Priority);
    if r.Some? {
      assert r.value == 0 || r.value == 1 || r.value == 2;
      if r.value >= 1 { assert Priority[0] !in page.regions; }
      if r.value == 2 { assert Priority[1] !in page.regions; }
    }
  }

  /** A present region wins even when it has no text: the whole document is then not consulted. */
  lemma PresentEmptyRegionWins(page: Page)
    requires MainElement in page.regions && page.regions[MainElement] == []
    ensures !HasSignificantContent(page)
  {
    ChosenTextByPriority(page);
  }

  /** Whitespace-only chosen text counts zero words and is never significant. */
  lemma BlankTextNotSignificant(page: Page)
    requires IsBlank(ChosenText(page))
    ensures WordCount(page) == 0 && !HasSignificantContent(page)
  {
    SplitEmptyIffBlank(ChosenText(page));
  }

  /**
   * A chosen text made of `words` separated by whitespace runs (any leading or trailing
   * whitespace allowed) is significant exactly when there are more than 300 of them.
   */
  lemma SignificantIffOverThreshold(page: Page, words: seq<string>, gaps: seq<string>)
    requires WellSpaced(words, gaps)
    requires ChosenText(page) == Spaced(words, gaps)
    ensures WordCount(page) == |words|
    ensures HasSignificantContent(page) <==> |words| > 300
  {
    SplitSpaced(words, gaps);
  }

  /** The threshold is strict: 300 words are not enough, 301 are. */
  lemma ThresholdBoundary(page300: Page, page301: Page, words: seq<string>, extra: string)
    requires |words| == 300 && IsWord(extra)
    requires forall i :: 0 <= i < |words| ==> IsWord(words[i])
    requires ChosenText(page300) == Join(words, " ")
    requires ChosenText(page301) == Join(words + [extra], " ")
    ensures !HasSignificantContent(page300)
    ensures HasSignificantContent(page301)
  {
    SplitJoinedWords(words);
    SplitJoinedWords(words + [extra]);
  }
}
