/** The page session: the loaded document and the uploaded file's data URL,
    and the three user actions that read or replace them. */
module Viewer {
  import opened Options
  import opened Text
  import opened Search

  /** The only file type the upload handler accepts. */
  const PdfType := "application/pdf"

  /** A loaded document, reduced to what the search needs: its pages in
      order (`numPages` is their count). */
  datatype Document = Document(pages: seq<Page>)

  /** What a search shows the user: the "load a PDF first" notice, or the
      searched keyword together with "not found" or the matching page
      number and the rectangles painted on that page's fresh canvas. */
  datatype Report =
    | LoadPdfFirst
    | KeywordNotFound(shown: string)
    | KeywordFound(shown: string, pageNum: nat, highlights: seq<Rect>)

  class Session {
    /** `pdfDoc`: the live document handle, if any. */
    var pdfDoc: Option<Document>
    /** `pdfUrl`: the data URL of the last accepted upload, '' before one. */
    var pdfUrl: string

    constructor ()
      ensures pdfDoc == None && pdfUrl == ""
    {
      pdfDoc := None;
      pdfUrl := "";
    }

    /** `loadPdf`: `loaded` is what the PDF engine made of the URL, `None` when
        it rejected it; a rejection leaves the previous document in place. */
    method LoadPdf(loaded: Option<Document>)
      modifies this
      ensures pdfDoc == (if loaded.Some? then loaded else old(pdfDoc))
      ensures pdfUrl == old(pdfUrl)
    {
      if loaded.Some? {
        pdfDoc := loaded;
      }
    }

    /** The file input's change handler. `read` is what the file reader
        delivers to `onload`, `None` when it never fires; anything but a PDF is
        refused with a notice. */
    method Upload(fileType: string, read: Option<string>, loaded: Option<Document>) returns (refused: bool)
      modifies this
      ensures refused <==> fileType != PdfType
      ensures refused || read.None? ==> pdfUrl == old(pdfUrl) && pdfDoc == old(pdfDoc)
      ensures !refused && read.Some? ==> pdfUrl == read.value
      ensures !refused && read.Some? ==> pdfDoc == (if loaded.Some? then loaded else old(pdfDoc))
    {
      if fileType == PdfType {
        if read.Some? {
          pdfUrl := read.value;
          LoadPdf(loaded);
        }
        refused := false;
      } else {
        refused := true;
      }
    }

    /** The "show" button: reloads the uploaded file, or asks for one first. */
    method Show(loaded: Option<Document>) returns (askedForUpload: bool)
      modifies this
      ensures askedForUpload <==> old(pdfUrl) == ""
      ensures pdfUrl == old(pdfUrl)
      ensures pdfDoc == (if !askedForUpload && loaded.Some? then loaded else old(pdfDoc))
    {
      if pdfUrl != "" {
        LoadPdf(loaded);
        askedForUpload := false;
      } else {
        askedForUpload := true;
      }
    }

    /** `searchInPdf`: scans every page, reports the first page whose joined,
        folded text contains the folded keyword and highlights it. `results`
        are the per-page records; there are none when no document is loaded. */
    method SearchInPdf(keyword: string) returns (report: Report, results: seq<PageResult>)
      ensures report == LoadPdfFirst <==> pdfDoc.None?
      ensures pdfDoc.None? ==> results == []
      ensures pdfDoc.Some? ==> results == Results(pdfDoc.value.pages, Lower(keyword))
      ensures report.KeywordNotFound? <==>
                pdfDoc.Some? && forall i :: 0 <= i < |pdfDoc.value.pages| ==>
                                  !PageMatches(pdfDoc.value.pages[i], Lower(keyword))
      ensures !report.LoadPdfFirst? ==> report.shown == keyword
      ensures report.KeywordFound? ==>
                && pdfDoc.Some?
                && LowestMatchingPage(pdfDoc.value.pages, Lower(keyword), report.pageNum)
                && var page := pdfDoc.value.pages[report.pageNum - 1];
                   report.highlights == Highlights(page.items, Lower(keyword), page.canvasHeight)
    {
      if pdfDoc.None? {
        return LoadPdfFirst, [];
      }
      var pages := pdfDoc.value.pages;
      var keywordLowerCase := Lower(keyword);
      results := CollectResults(pages, keywordLowerCase);
      var foundPage := FindFirst(results);
      FirstRecordIsLowestMatch(pages, keywordLowerCase, results);
      if foundPage.Some? {
        var painted := RenderPageWithHighlight(foundPage.value.page, keywordLowerCase);
        report := KeywordFound(keyword, foundPage.value.pageNum, painted);
      } else {
        report := KeywordNotFound(keyword);
      }
    }
  }
}
