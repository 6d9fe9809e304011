/** The keyword locator and highlighter of the viewer page: the per-page
    test, the collection of one result per page, the choice of the first
    matching page and the rectangles painted over matching fragments. */
module Search {
  import opened Options
  import opened Text

  /** One text item of a page's text content: its string, the translation
      part of its transform (`transform[4]`, `transform[5]`) and its size. */
  datatype Fragment = Fragment(str: string, tx: real, ty: real, width: real, height: real)

  /** A page as the search sees it: its text items in content order and the
      height of the canvas it is rendered into. */
  datatype Page = Page(items: seq<Fragment>, canvasHeight: real)

  /** The record built for one page: `{pageNum, found: true, page, textContent}`
      or `{pageNum, found: false}`. */
  datatype PageResult = Found(pageNum: nat, page: Page) | NotFound(pageNum: nat)

  /** A translucent rectangle painted with `fillRect(x, y, width, height)`. */
  datatype Rect = Rect(x: real, y: real, width: real, height: real)

  /** `items.map(item => item.str)` */
  function Strs(items: seq<Fragment>): seq<string> {
    seq(|items|, i requires 0 <= i < |items| => items[i].str)
  }

  /** The folded text of a page: its strings joined with single spaces. */
  function PageText(page: Page): string {
    Lower(Join(Strs(page.items), " "))
  }

  /** The per-page test, for a keyword that is already folded. */
  predicate PageMatches(page: Page, keyword: string) {
    Contains(PageText(page), keyword)
  }

  /** The per-fragment test of the highlighter. */
  predicate FragmentMatches(f: Fragment, keyword: string) {
    Contains(Lower(f.str), keyword)
  }

  /** The record the search builds for page number `pageNum`. */
  function CheckPage(pageNum: nat, page: Page, keyword: string): PageResult {
    if PageMatches(page, keyword) then Found(pageNum, page) else NotFound(pageNum)
  }

  /** The results in page order: entry `i` is the record of page `i + 1`. */
  function Results(pages: seq<Page>, keyword: string): (rs: seq<PageResult>)
    ensures |rs| == |pages|
    ensures forall i :: 0 <= i < |pages| ==> rs[i] == CheckPage(i + 1, pages[i], keyword)
  {
    if |pages| == 0 then []
    else
      var n := |pages|;
      var init := Results(pages[..n - 1], keyword);
      assert forall i :: 0 <= i < n - 1 ==> pages[..n - 1][i] == pages[i];
      init + [CheckPage(n, pages[n - 1], keyword)]
  }

  /** The loop that fills `searchPromises`: pages 1..numPages in order. */
  method CollectResults(pages: seq<Page>, keyword: string) returns (results: seq<PageResult>)
    ensures results == Results(pages, keyword)
  {
    results := [];
    var pageNum := 1;
    while pageNum <= |pages|
      invariant 1 <= pageNum <= |pages| + 1
      invariant results == Results(pages[..pageNum - 1], keyword)
    {
      assert pages[..pageNum][..pageNum - 1] == pages[..pageNum - 1];
      results := results + [CheckPage(pageNum, pages[pageNum - 1], keyword)];
      pageNum := pageNum + 1;
    }
    assert pages[..|pages|] == pages;
  }

  /** Record `i` is found and no earlier record is. */
  predicate FirstFoundAt(results: seq<PageResult>, i: nat) {
    i < |results| && results[i].Found? && forall j :: 0 <= j < i ==> !results[j].Found?
  }

  /** `results.find(result => result.found)`: the first found record, if any. */
  function FindFirst(results: seq<PageResult>): (r: Option<PageResult>)
    ensures r.None? <==> forall i :: 0 <= i < |results| ==> !results[i].Found?
    ensures r.Some? ==> exists i: nat :: FirstFoundAt(results, i) && results[i] == r.value
  {
    if |results| == 0 then None
    else if results[0].Found? then
      assert FirstFoundAt(results, 0);
      Some(results[0])
    else
      var r := FindFirst(results[1..]);
      assert forall i :: 1 <= i < |results| ==> results[i] == results[1..][i - 1];
      assert forall i: nat :: FirstFoundAt(results[1..], i) ==> FirstFoundAt(results, i + 1);
      r
  }

  /** Page `n` (counted from 1) matches and no earlier page does. */
  predicate LowestMatchingPage(pages: seq<Page>, keyword: string, n: nat) {
    && 1 <= n <= |pages|
    && PageMatches(pages[n - 1], keyword)
    && forall j :: 0 <= j < n - 1 ==> !PageMatches(pages[j], keyword)
  }

  /** The page reported for a folded keyword is the lowest-numbered matching
      page, and nothing is reported exactly when no page matches. */
  lemma {:induction false} FirstFoundIsLowestMatch(pages: seq<Page>, keyword: string)
    ensures FindFirst(Results(pages, keyword)).None? <==>
              forall i :: 0 <= i < |pages| ==> !PageMatches(pages[i], keyword)
    ensures FindFirst(Results(pages, keyword)).Some? ==>
              var r := FindFirst(Results(pages, keyword)).value;
              LowestMatchingPage(pages, keyword, r.pageNum) && r == Found(r.pageNum, pages[r.pageNum - 1])
  {
    FirstRecordIsLowestMatch(pages, keyword, Results(pages, keyword));
  }

  /** The same for any record sequence that agrees with `Results` entry by
      entry, as the output of the search loop does. */
  lemma {:induction false} FirstRecordIsLowestMatch(pages: seq<Page>, keyword: string, rs: seq<PageResult>)
    requires |rs| == |pages|
    requires forall i :: 0 <= i < |pages| ==> rs[i] == CheckPage(i + 1, pages[i], keyword)
    ensures FindFirst(rs).None? <==> forall i :: 0 <= i < |pages| ==> !PageMatches(pages[i], keyword)
    ensures FindFirst(rs).Some? ==>
              LowestMatchingPage(pages, keyword, FindFirst(rs).value.pageNum)
              && FindFirst(rs).value == Found(FindFirst(rs).value.pageNum, pages[FindFirst(rs).value.pageNum - 1])
  {
  }

  /** An empty keyword is found on page 1 of any document with a page. */
  lemma {:induction false} EmptyKeywordReportsFirstPage(pages: seq<Page>)
    requires |pages| > 0
    ensures FindFirst(Results(pages, Lower(""))) == Some(Found(1, pages[0]))
  {
  }

  /** When exactly one page matches, that page is the one reported. */
  lemma {:induction false} SoleMatchingPageReported(pages: seq<Page>, keyword: string, p: nat)
    requires p < |pages| && PageMatches(pages[p], keyword)
    requires forall j :: 0 <= j < |pages| && j != p ==> !PageMatches(pages[j], keyword)
    ensures FindFirst(Results(pages, keyword)) == Some(Found(p + 1, pages[p]))
  {
  }

  /** A highlighted fragment always lies on a page that the search reports as matching:
      the fragment's string is part of the space-joined page text. */
  lemma {:induction false} FragmentMatchMeansPageMatch(page: Page, k: nat, keyword: string)
    requires k < |page.items| && FragmentMatches(page.items[k], keyword)
    ensures PageMatches(page, keyword)
  {
    var strs := Strs(page.items);
    var joined := Join(strs, " ");
    PartInJoin(strs, " ", k);
    LowerKeepsContains(joined, page.items[k].str);
    ContainsTransitive(Lower(joined), Lower(page.items[k].str), keyword);
  }

  /** The converse fails: on a page of two items, the keyword made of both
      items with a space between them (say "o w" across "hello" and "world")
      matches the page but neither item. Searched in that page alone, the
      page is reported, and nothing on it is highlighted. */
  lemma {:induction false} SpanningKeywordMatchesWithoutFragment(page: Page)
    requires |page.items| == 2
    ensures var keyword := Lower(page.items[0].str + " " + page.items[1].str);
            && PageMatches(page, keyword)
            && (forall k :: 0 <= k < |page.items| ==> !FragmentMatches(page.items[k], keyword))
            && FindFirst(Results([page], keyword)) == Some(Found(1, page))
            && Highlights(page.items, keyword, page.canvasHeight) == []
  {
    var keyword := Lower(page.items[0].str + " " + page.items[1].str);
    assert Strs(page.items) == [page.items[0].str, page.items[1].str];
    assert Strs(page.items)[1..] == [page.items[1].str];
    assert Join(Strs(page.items), " ") == page.items[0].str + " " + page.items[1].str;
    assert OccursAt(keyword, keyword, 0);
    OccurrenceGivesContains(keyword, keyword, 0);
    SoleMatchingPageReported([page], keyword, 0);
    NoHighlightsIffNoFragmentMatch(page.items, keyword, page.canvasHeight);
  }

  /** The rectangle painted for a fragment: left edge at `transform[4]`, bottom
      edge at `transform[5]` measured up from the bottom of the canvas, all in
      the fragment's unscaled page units. */
  function RectOf(f: Fragment, canvasHeight: real): Rect {
    var y := canvasHeight - f.ty;
    Rect(f.tx, y - f.height, f.width, f.height)
  }

  /** The rectangles painted for a folded keyword, in item order. */
  function Highlights(items: seq<Fragment>, keyword: string, canvasHeight: real): seq<Rect> {
    if |items| == 0 then []
    else
      var last := items[|items| - 1];
      Highlights(items[..|items| - 1], keyword, canvasHeight)
        + (if FragmentMatches(last, keyword) then [RectOf(last, canvasHeight)] else [])
  }

  /** Every painted rectangle is the rectangle of a matching fragment. */
  lemma {:induction false} HighlightsSound(items: seq<Fragment>, keyword: string, canvasHeight: real, r: Rect)
    requires r in Highlights(items, keyword, canvasHeight)
    ensures exists k :: 0 <= k < |items| && FragmentMatches(items[k], keyword)
                        && r == RectOf(items[k], canvasHeight)
  {
    var n := |items|;
    var init := items[..n - 1];
    if r in Highlights(init, keyword, canvasHeight) {
      HighlightsSound(init, keyword, canvasHeight, r);
      var k :| 0 <= k < |init| && FragmentMatches(init[k], keyword) && r == RectOf(init[k], canvasHeight);
      assert items[k] == init[k];
    }
  }

  /** Every matching fragment gets its rectangle. */
  lemma {:induction false} HighlightsComplete(items: seq<Fragment>, keyword: string, canvasHeight: real, k: nat)
    requires k < |items| && FragmentMatches(items[k], keyword)
    ensures RectOf(items[k], canvasHeight) in Highlights(items, keyword, canvasHeight)
  {
    var n := |items|;
    if k < n - 1 {
      var init := items[..n - 1];
      assert init[k] == items[k];
      HighlightsComplete(init, keyword, canvasHeight, k);
    }
  }

  /** Nothing is painted exactly when no fragment matches. */
  lemma {:induction false} NoHighlightsIffNoFragmentMatch(items: seq<Fragment>, keyword: string, canvasHeight: real)
    ensures Highlights(items, keyword, canvasHeight) == [] <==>
              forall k :: 0 <= k < |items| ==> !FragmentMatches(items[k], keyword)
  {
    var hs := Highlights(items, keyword, canvasHeight);
    if hs != [] {
      HighlightsSound(items, keyword, canvasHeight, hs[0]);
    }
    if k :| 0 <= k < |items| && FragmentMatches(items[k], keyword) {
      HighlightsComplete(items, keyword, canvasHeight, k);
    }
  }

  /** Reference list of the items whose folded string contains the keyword,
      in item order, built from the front; the highlights are compared
      against it. */
  function MatchingItems(items: seq<Fragment>, keyword: string): seq<Fragment> {
    if |items| == 0 then []
    else (if FragmentMatches(items[0], keyword) then [items[0]] else [])
         + MatchingItems(items[1..], keyword)
  }

  lemma {:induction false} MatchingItemsAppend(items: seq<Fragment>, f: Fragment, keyword: string)
    ensures MatchingItems(items + [f], keyword)
            == MatchingItems(items, keyword) + (if FragmentMatches(f, keyword) then [f] else [])
  {
    if |items| > 0 {
      assert (items + [f])[1..] == items[1..] + [f];
      MatchingItemsAppend(items[1..], f, keyword);
    } else {
      assert (items + [f])[1..] == [];
    }
  }

  /** One rectangle per matching item, in item order: the highlights are the
      rectangles of the filtered items, position by position. */
  lemma {:induction false} HighlightsFollowMatchingItems(items: seq<Fragment>, keyword: string, canvasHeight: real)
    ensures |Highlights(items, keyword, canvasHeight)| == |MatchingItems(items, keyword)|
    ensures forall i :: 0 <= i < |MatchingItems(items, keyword)| ==>
              Highlights(items, keyword, canvasHeight)[i] == RectOf(MatchingItems(items, keyword)[i], canvasHeight)
  {
    if |items| > 0 {
      var n := |items|;
      var init := items[..n - 1];
      HighlightsFollowMatchingItems(init, keyword, canvasHeight);
      assert init + [items[n - 1]] == items;
      MatchingItemsAppend(init, items[n - 1], keyword);
    }
  }

  /** The item "hello world" of the scenario below: at (72, 700), 60 wide and 12 high. */
  function HelloItem(): Fragment {
    Fragment("hello world", 72.0, 700.0, 60.0, 12.0)
  }

  /** Three pages of a 792-high canvas, "hello world" as the one item of page 2. */
  function HelloPages(): seq<Page> {
    [Page([Fragment("p. 1", 72.0, 700.0, 20.0, 12.0)], 792.0),
     Page([HelloItem()], 792.0),
     Page([Fragment("p. 3", 72.0, 700.0, 20.0, 12.0)], 792.0)]
  }

  /** Searching "hello" in those pages reports page 2 ... */
  lemma {:induction false} HelloFoundOnSecondPage(pages: seq<Page>, keyword: string)
    requires pages == HelloPages() && keyword == Lower("hello")
    ensures FindFirst(Results(pages, keyword)) == Some(Found(2, pages[1]))
  {
    assert keyword == "hello";
    OnlySecondHelloPageMatches(pages);
    SoleMatchingPageReported(pages, keyword, 1);
  }

  /** Of those pages, only the second contains "hello". */
  lemma {:induction false} OnlySecondHelloPageMatches(pages: seq<Page>)
    requires pages == HelloPages()
    ensures PageMatches(pages[1], "hello")
    ensures forall j :: 0 <= j < |pages| && j != 1 ==> !PageMatches(pages[j], "hello")
  {
    ShortItemMisses(pages[0], "hello");
    ShortItemMisses(pages[2], "hello");
    SingleItemMatches(pages[1], "hello");
    forall j | 0 <= j < |pages| && j != 1
      ensures !PageMatches(pages[j], "hello")
    {
      assert j == 0 || j == 2;
    }
  }

  /** ... and paints one rectangle, with its top 792 - 700 - 12 = 80 from the canvas top. */
  lemma {:induction false} HelloHighlightedOnce(page: Page, keyword: string)
    requires page == HelloPages()[1] && keyword == Lower("hello")
    ensures Highlights(page.items, keyword, page.canvasHeight) == [Rect(72.0, 80.0, 60.0, 12.0)]
  {
    assert keyword == "hello";
    SingleItemMatches(page, "hello");
    HighlightsOfOne(HelloItem(), keyword, 792.0);
  }

  /** The highlights of a single matching item: its rectangle alone. */
  lemma {:induction false} HighlightsOfOne(f: Fragment, keyword: string, canvasHeight: real)
    requires FragmentMatches(f, keyword)
    ensures Highlights([f], keyword, canvasHeight) == [RectOf(f, canvasHeight)]
  {
  }

  /** A page of one item shorter than the keyword does not match. */
  lemma {:induction false} ShortItemMisses(page: Page, keyword: string)
    requires |page.items| == 1 && |page.items[0].str| < |keyword|
    ensures !PageMatches(page, keyword)
  {
  }

  /** A page of one item whose string starts with a keyword free of
      upper-case letters matches, on the page and on the item. */
  lemma {:induction false} SingleItemMatches(page: Page, keyword: string)
    requires |page.items| == 1 && |keyword| <= |page.items[0].str|
    requires page.items[0].str[..|keyword|] == keyword
    requires forall i :: 0 <= i < |keyword| ==> !IsUpper(keyword[i])
    ensures FragmentMatches(page.items[0], keyword)
    ensures PageMatches(page, keyword)
  {
    var folded := Lower(page.items[0].str);
    assert folded[0..|keyword|] == keyword by {
      forall i | 0 <= i < |keyword|
        ensures folded[0..|keyword|][i] == keyword[i]
      {
        assert page.items[0].str[..|keyword|][i] == keyword[i];
      }
    }
    OccurrenceGivesContains(folded, keyword, 0);
    FragmentMatchMeansPageMatch(page, 0, keyword);
  }

  /** A canvas, as far as the highlighter is concerned: its height and the
      rectangles painted on it so far. */
  class Canvas {
    const height: real
    var fills: seq<Rect>

    constructor (height: real)
      ensures this.height == height && fills == []
    {
      this.height := height;
      fills := [];
    }

    /** `context.fillRect(...)` */
    method FillRect(r: Rect)
      modifies this
      ensures fills == old(fills) + [r]
    {
      fills := fills + [r];
    }
  }

  /** `highlightText`: paints the rectangle for every fragment whose folded
      string contains the keyword. */
  method HighlightText(canvas: Canvas, items: seq<Fragment>, keyword: string)
    modifies canvas
    ensures canvas.fills == old(canvas.fills) + Highlights(items, keyword, canvas.height)
  {
    var i := 0;
    while i < |items|
      invariant 0 <= i <= |items|
      invariant canvas.fills == old(canvas.fills) + Highlights(items[..i], keyword, canvas.height)
    {
      var item := items[i];
      if Contains(Lower(item.str), keyword) {
        var y := canvas.height - item.ty;
        canvas.FillRect(Rect(item.tx, y - item.height, item.width, item.height));
      }
      assert items[..i + 1][..i] == items[..i];
      i := i + 1;
    }
    assert items[..i] == items;
  }

  /** `renderPageWithHighlight`: a fresh canvas for the page, painted by the
      highlighter; what ends up on it is exactly the page's highlights. */
  method RenderPageWithHighlight(page: Page, keyword: string) returns (painted: seq<Rect>)
    ensures painted == Highlights(page.items, keyword, page.canvasHeight)
  {
    var canvas := new Canvas(page.canvasHeight);
    HighlightText(canvas, page.items, keyword);
    painted := canvas.fills;
  }
}
