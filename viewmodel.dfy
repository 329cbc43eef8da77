/**
  MainViewModel: the loaded document, the elements extracted from it, and the
  operations that load a document, extract its text and compose the re-rendered
  document.
*/
module ViewModel {
  import opened Wrappers
  import opened Geometry
  import opened Drawing
  import opened FontFit
  import opened Extraction
  import opened Rendering

  /** A page inserted into a document at index `at`, which may be at most the page count. */
  function InsertPage(pages: seq<Page>, page: Page, at: nat): (r: seq<Page>)
    requires at <= |pages|
    ensures |r| == |pages| + 1 && r[at] == page
    ensures r[..at] == pages[..at] && r[at + 1..] == pages[at..]
  {
    pages[..at] + [page] + pages[at..]
  }

  class MainViewModel {
    /** The loaded document, if one was opened. */
    var pdfDocument: Option<Document>
    /** The elements extracted from it: text, frame and page index. */
    var extractedElements: seq<Element>

    constructor ()
      ensures pdfDocument == None && extractedElements == []
    {
      pdfDocument := None;
      extractedElements := [];
    }

    /**
      Loading a document: `loaded` is what opening the file gave (None when it
      could not be opened). A document that cannot be opened leaves the state as
      it was; otherwise it becomes the loaded document and its text is extracted.
    */
    method LoadPdf(loaded: Option<Document>)
      modifies this
      ensures loaded.None? ==> pdfDocument == old(pdfDocument) && extractedElements == old(extractedElements)
      ensures loaded.Some? ==> pdfDocument == loaded && extractedElements == Extracted(loaded.value)
    {
      if loaded.None? {
        return;
      }
      var document := loaded.value;
      pdfDocument := loaded;
      ExtractTextFromPdf(document);
    }

    /**
      Extraction: the element list is emptied, then every page in order appends,
      in observation order, one element per observation that has a top candidate,
      tagged with the page's index.
    */
    method ExtractTextFromPdf(document: Document)
      modifies this`extractedElements
      ensures extractedElements == Extracted(document)
    {
      extractedElements := [];
      for pageIndex := 0 to |document|
        invariant extractedElements == Extracted(document[..pageIndex])
      {
        var page := document[pageIndex];
        var observations := page.observations;
        for j := 0 to |observations|
          invariant extractedElements
                 == Extracted(document[..pageIndex]) + PageElements(observations[..j], page.width, page.height, pageIndex)
        {
          var observation := observations[j];
          if observation.topCandidate.Some? {
            var frame := MapBox(observation.box, page.width, page.height);
            extractedElements := extractedElements + [Element(observation.topCandidate.value, frame, pageIndex)];
          }
          assert observations[..j + 1][..j] == observations[..j];
        }
        assert observations[..|observations|] == observations;
        assert document[..pageIndex + 1][..pageIndex] == document[..pageIndex];
      }
      assert document[..|document|] == document;
    }

    /**
      The size search for one element, starting from `fontSize`: the result is
      never above `fontSize`; it is `fontSize` itself when that is below 10;
      otherwise it is at least 10, and unless it is `fontSize` the element's
      text measured at it fits the frame's height. When measured height grows
      with the size and the search runs, a fitting result is within a point of
      the largest size up to `fontSize` that fits, and a result that does not fit
      is `fontSize`, returned because no size from 10.5 up fits.
    */
    method AdjustFontSizeToFit(element: Element, fontName: string, fontSize: real, measure: Measure)
      returns (bestFontSize: real)
      ensures bestFontSize == FitFontSize(element.text, fontName, element.frame, measure, fontSize)
      ensures bestFontSize <= fontSize
      ensures fontSize < MinFontSize ==> bestFontSize == fontSize
      ensures MinFontSize <= fontSize ==> MinFontSize <= bestFontSize
      ensures bestFontSize == fontSize || Fits(element.text, fontName, element.frame, measure, bestFontSize)
      ensures Monotone(element.text, fontName, element.frame, measure) && MinFontSize <= fontSize ==>
        && (Fits(element.text, fontName, element.frame, measure, bestFontSize) ==>
              forall s :: bestFontSize + 1.0 <= s <= fontSize ==> !Fits(element.text, fontName, element.frame, measure, s))
        && (!Fits(element.text, fontName, element.frame, measure, bestFontSize) ==>
              bestFontSize == fontSize
              && forall s :: MinFontSize + 0.5 <= s ==> !Fits(element.text, fontName, element.frame, measure, s))
    {
      var minFontSize := MinFontSize;
      var maxFontSize := fontSize;
      bestFontSize := fontSize;
      while minFontSize <= maxFontSize
        invariant Search(element.text, fontName, element.frame, measure, minFontSize, maxFontSize, bestFontSize)
               == FitFontSize(element.text, fontName, element.frame, measure, fontSize)
        decreases SearchRank(minFontSize, maxFontSize)
      {
        var currentFontSize := (minFontSize + maxFontSize) / 2.0;
        var height := measure(element.text, fontName, currentFontSize, element.frame.width);
        if height > element.frame.height {
          maxFontSize := currentFontSize - 0.5;
        } else {
          bestFontSize := currentFontSize;
          minFontSize := currentFontSize + 0.5;
        }
      }
      if Monotone(element.text, fontName, element.frame, measure) && MinFontSize <= fontSize {
        FitNearLargest(element.text, fontName, element.frame, measure, fontSize);
      }
    }

    /**
      The overlay of page `pageIndex`: for the elements of that page only, in list
      order, a white fill of the element's frame and then its text in that same
      frame, at the size fitted from max(0.8 * frame height, 10), which is at
      least 10.
    */
    method DrawTextWithOriginalLayout(pageIndex: int, fontName: string, color: Color, measure: Measure)
      returns (ops: seq<DrawOp>)
      ensures ops == OverlayOps(OnPage(extractedElements, pageIndex), fontName, color, measure)
      ensures OverlayLayout(ops, OnPage(extractedElements, pageIndex))
    {
      var elements := OnPage(extractedElements, pageIndex);
      ops := [];
      for k := 0 to |elements|
        invariant ops == OverlayOps(elements[..k], fontName, color, measure)
      {
        var element := elements[k];
        var fontSize := AdjustFontSizeToFit(element, fontName, InitialFontSize(element.frame), measure);
        ghost var block := OverlayElement(element, fontName, color, measure);
        assert block == [FillWhite(element.frame), DrawText(element.text, element.frame, fontName, fontSize, color)];
        ops := ops + [FillWhite(element.frame), DrawText(element.text, element.frame, fontName, fontSize, color)];
        assert elements[..k + 1][..k] == elements[..k] && elements[..k + 1][k] == element;
        assert ops == OverlayOps(elements[..k], fontName, color, measure) + block;
      }
      assert elements[..|elements|] == elements;
      OverlayOpsAt(elements, fontName, color, measure);
    }

    /**
      The reflow of page `pageIndex`: its elements, in list order, laid out as
      reflowed lines on pages the size of `pageRect`.
    */
    method DrawTextWithoutLayout(pageIndex: int, fontName: string, color: Color, pageRect: Rect)
      returns (ops: seq<DrawOp>)
      ensures ops == ReflowOps(OnPage(extractedElements, pageIndex), pageRect.width, pageRect.height, fontName, color)
      ensures Texts(ops) == ElementTexts(OnPage(extractedElements, pageIndex))
      ensures CountBegins(ops) == |OnPage(extractedElements, pageIndex)| / LinesPerPage(pageRect.height)
    {
      var elements := OnPage(extractedElements, pageIndex);
      ops := ReflowLines(elements, fontName, color, pageRect);
    }

    /**
      The line loop of the reflow: one 20-high line per element at x = 20, width
      w - 40, starting at offset h - 50 and moving 20 per line; a new page begins
      exactly when the offset has dropped below 50 after a line, and the offset
      then starts again at h - 50.
    */
    static method ReflowLines(elements: seq<Element>, fontName: string, color: Color, pageRect: Rect)
      returns (ops: seq<DrawOp>)
      ensures ops == ReflowOps(elements, pageRect.width, pageRect.height, fontName, color)
      ensures Texts(ops) == ElementTexts(elements)
      ensures CountBegins(ops) == |elements| / LinesPerPage(pageRect.height)
    {
      var w, h := pageRect.width, pageRect.height;
      var yOffset := h - 50.0;
      var lineHeight := 20.0;
      ghost var line: nat := 0;
      ops := [];
      for i := 0 to |elements|
        invariant line < LinesPerPage(h)
        invariant yOffset == h - Margin - LineHeight * (line as real)
        invariant ops + ReflowFrom(elements[i..], line, w, h, fontName, color) == ReflowOps(elements, w, h, fontName, color)
      {
        var element := elements[i];
        var textFrame := Rect(20.0, yOffset, w - 40.0, lineHeight);
        var draw := DrawText(element.text, textFrame, fontName, ReflowFontSize, color);
        ReflowStep(elements, i, line, w, h, fontName, color, yOffset);
        ghost var before := ops;
        ops := ops + [draw];
        yOffset := yOffset - lineHeight;
        if yOffset < 50.0 {
          ops := ops + [BeginPage];
          yOffset := h - 50.0;
          line := 0;
          assert ops == before + [draw, BeginPage];
        } else {
          line := line + 1;
        }
      }
      ReflowTexts(elements, 0, w, h, fontName, color);
      ReflowPageBreaks(elements, 0, w, h, fontName, color);
    }

    /**
      The rendered data of one page: a page break, then either the original page
      and its overlay or the reflow of its elements on pages of its size.
    */
    method RenderPage(page: SourcePage, pageIndex: int, fontName: string, color: Color,
                      includeOriginalLayout: bool, measure: Measure)
      returns (data: seq<DrawOp>)
      ensures data == [BeginPage] + PageBody(page, pageIndex, extractedElements, fontName, color, includeOriginalLayout, measure)
    {
      data := [BeginPage];
      if includeOriginalLayout {
        data := data + [DrawOriginalPage(pageIndex)];
        var overlay := DrawTextWithOriginalLayout(pageIndex, fontName, color, measure);
        data := data + overlay;
      } else {
        var reflow := DrawTextWithoutLayout(pageIndex, fontName, color, Rect(0.0, 0.0, page.width, page.height));
        data := data + reflow;
      }
    }

    /**
      The re-rendered document: none without a loaded document; otherwise one page
      per source page, at its source index, each the first page of that page's
      rendered data.
    */
    method CreateNewPdfWithModifiedFont(fontName: string, color: Color, includeOriginalLayout: bool, measure: Measure)
      returns (result: Option<seq<Page>>)
      ensures pdfDocument.None? ==> result.None?
      ensures pdfDocument.Some? ==>
        && result == Some(ComposedPages(pdfDocument.value, extractedElements, fontName, color, includeOriginalLayout, measure))
        && |result.value| == |pdfDocument.value|
    {
      if pdfDocument.None? {
        return None;
      }
      var document := pdfDocument.value;
      var newDocument: seq<Page> := [];
      for pageIndex := 0 to |document|
        invariant |newDocument| == pageIndex
        invariant forall q :: 0 <= q < pageIndex ==>
          newDocument[q] == KeptPage(document[q], q, extractedElements, fontName, color, includeOriginalLayout, measure)
      {
        var originalPage := document[pageIndex];
        var pdfData := RenderPage(originalPage, pageIndex, fontName, color, includeOriginalLayout, measure);
        var newPages := SplitPages(pdfData);
        KeptPageOfData(originalPage, pageIndex, extractedElements, fontName, color, includeOriginalLayout, measure, pdfData);
        if |newPages| > 0 {
          newDocument := InsertPage(newDocument, newPages[0], pageIndex);
        }
      }
      assert newDocument == ComposedPages(document, extractedElements, fontName, color, includeOriginalLayout, measure);
      return Some(newDocument);
    }
  }
}
