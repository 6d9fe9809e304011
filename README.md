# Keyword search and highlighting in the PDF viewer page

The viewer page lets a user upload a PDF, show it, and speak a keyword. The
keyword is looked for page by page. For each page, the strings of its text
items are joined with single spaces, lower-cased and tested for containment
of the lower-cased keyword. The first page that contains it is reported and
rendered again. On that render, a translucent rectangle is painted for every
text item whose own lower-cased string contains the keyword, at the item's
unscaled position and size (the canvas itself is drawn at scale 1.5, so the
rectangle need not lie over the item).

This project models that logic in three modules:

- `Text` (`text.dfy`): the ASCII case fold standing in for `toLowerCase`,
  `Join` for `Array.prototype.join`, and `Contains` for
  `String.prototype.includes`. It also proves that `Contains` agrees with
  "occurs at some offset".
- `Search` (`search.dfy`):
  - the per-page test and the loop that builds one record per page;
  - `find` of the first found record, and the lemmas showing it is the
    lowest matching page;
  - the rectangles of the highlighter, specified by `Highlights` and painted
    by a loop onto a `Canvas` object whose list of fills grows.
- `Viewer` (`viewer.dfy`): the page's session state (`pdfDoc`, `pdfUrl`) as a
  class, with the upload handler, the show button and `searchInPdf`.

What the PDF engine produces is given to the model as data. A document is
its sequence of pages. A page is its text items (string, `transform[4]`,
`transform[5]`, width, height) plus the height of the canvas it is drawn on.
Whether loading succeeded is an `Option<Document>` parameter. Alerts become
`Report` values, and the painted rectangles become a sequence of `Rect`.

## Model

| member | source | states |
|---|---|---|
| Text.Lower | script.js:100 | the folded string has the input's length, each character is the fold of the input's character, and no upper-case letter is left |
| Text.ContainsIff | script.js:109 | `includes` holds exactly when the keyword equals the window of the text at some offset (both directions) |
| Text.ContainsEmpty | script.js:109 | every string includes the empty string |
| Text.PartInJoin | script.js:108 | every item string occurs in the space-joined page text |
| Text.LowerKeepsContains | script.js:108 | when a string contains another, the folded string contains the folded other |
| Search.Results | script.js:104-116 | one record per page, in page order; record `i` has page number `i + 1` and is `Found` (carrying its page) exactly when the page's joined, folded text contains the keyword |
| Search.CollectResults | script.js:102-116 | the loop over page numbers 1..numPages yields exactly `Results` |
| Search.FindFirst | script.js:119 | nothing is returned exactly when no record is found; otherwise the returned record is found and no earlier record is |
| Search.FirstFoundIsLowestMatch | script.js:118-126 | nothing is reported exactly when no page matches; otherwise the reported page number is the lowest matching page, and the record carries that page |
| Search.FirstRecordIsLowestMatch | script.js:118-126 | the same conclusion for any record sequence that agrees entry by entry with the loop's output |
| Search.EmptyKeywordReportsFirstPage | script.js:108-119 | with an empty keyword and at least one page, page 1 is reported |
| Search.SoleMatchingPageReported | script.js:119 | when exactly one page matches, that page is reported |
| Search.FragmentMatchMeansPageMatch | script.js:155 | an item whose folded string contains the keyword lies on a page whose joined folded text contains it too |
| Search.SpanningKeywordMatchesWithoutFragment | script.js:108-109 | on a two-item page, the keyword made of both strings with a space between them matches the page but neither item; searched in a document of that page alone, the page is reported and nothing is painted on it |
| Search.HighlightsSound | script.js:154-160 | every painted rectangle is the rectangle of an item whose folded string contains the keyword |
| Search.HighlightsComplete | script.js:154-160 | every such item gets its rectangle painted |
| Search.NoHighlightsIffNoFragmentMatch | script.js:154-161 | nothing is painted exactly when no item matches |
| Search.HighlightsFollowMatchingItems | script.js:154-161 | one rectangle per matching item, in item order: rectangle `i` is the rectangle of the `i`-th item whose folded string contains the keyword, and there are as many rectangles as such items |
| Search.HelloFoundOnSecondPage | script.js:104-123 | in a three-page document with "hello world" only on page 2, searching "hello" reports page 2 |
| Search.HelloHighlightedOnce | script.js:154-159 | on that page, a 792-high canvas gets exactly one rectangle, at (72, 80), 60 by 12 |
| Search.Canvas.constructor | script.js:135-138 | a fresh canvas of the given height, with nothing painted |
| Search.Canvas.FillRect | script.js:159 | `fillRect` appends its rectangle to what is painted |
| Search.HighlightText | script.js:151-162 | the `forEach` loop paints exactly `Highlights`, in item order, after what was already on the canvas |
| Search.RenderPageWithHighlight | script.js:133-149 | the fresh canvas of the found page ends up with exactly that page's highlights |
| Viewer.Session.constructor | script.js:6-7 | the session starts with no document and an empty `pdfUrl` |
| Viewer.Session.LoadPdf | script.js:56-64 | a document the engine accepted replaces `pdfDoc`; a rejection leaves it and `pdfUrl` unchanged |
| Viewer.Session.Upload | script.js:11-23 | a file is refused exactly when its type is not `application/pdf`, and then nothing changes; an accepted file whose reading never completes changes nothing either; otherwise `pdfUrl` becomes the data URL the reader delivered and the document is loaded from it |
| Viewer.Session.Show | script.js:26-32 | the user is asked for an upload exactly when `pdfUrl` is empty, and then nothing changes; otherwise the document is reloaded |
| Viewer.Session.SearchInPdf | script.js:93-131 | without a document: "load a PDF first", no records and no render. With one: the records are `Results` for the folded keyword; "not found" is reported exactly when no page matches; a found report names the lowest matching page and carries that page's highlights; both reports show the keyword as typed |

## Left out

- Text.Lower: folds only the ASCII letters A-Z. `toLowerCase` applies full Unicode case mapping over UTF-16 code units, and that mapping can change a string's length.
- The pdf.js calls (`getDocument`, `getPage`, `getTextContent`, `getViewport`, `render`) belong to a foreign library. Their outcomes are inputs: the document's pages, each page's text items, and whether loading succeeded.
- The viewport scale of 1.5 is not modelled. The viewport's dimensions are floating point, and assigning `viewport.height` to `canvas.height` (script.js:137) truncates it to an integer. Here the canvas height is an input of each page. The item coordinates are used unscaled, exactly as the code uses them, so nothing here relates them to the scaled canvas.
- Search.RectOf: the item coordinates and the rectangle arithmetic (script.js:156-159) are IEEE doubles in the code and exact reals here, so rounding is not modelled.
- `renderPage` (script.js:67-84) is not modelled. It draws the first page after a load and has no effect on the search or the session state.
- Promise scheduling is modelled as a sequential loop over the pages. `Promise.all` keeps page order, so the loop's order is the same.
- Two user actions racing each other (an upload finishing during a search, two searches overlapping) are not modelled: each action runs to completion before the next.
- A rejected page promise is not modelled. In the code, one rejection aborts the whole search into `.catch`, which only logs the error.
- Alerts, `console.error`, the keyword display element and the DOM replacement of the viewer's contents are not modelled. The `Report` value stands for what is shown.
- Speech recognition (script.js:35-51) is not modelled: a browser API whose only output is the trimmed transcript. `SearchInPdf` takes that keyword as its argument.
- `document.write(keyword)` at script.js:53 is not modelled. It names a variable that is not declared in that scope.
- The implicit global `keywordDisplay` at script.js:88 is not modelled. The model assumes the page has an element with id `keywordDisplay`, which browsers expose as a global. Without it, script.js:88 throws inside the `.then` at script.js:121 or 125, and the `.catch` at script.js:128 only logs the error. Then neither alert is shown and `renderPageWithHighlight` never runs, while `SearchInPdf` always returns a `Report`.
- An upload event with no selected file is not modelled. In the code, `files[0]` is undefined there and reading its `type` throws.
