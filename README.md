# ReFont text extraction and re-layout, modelled in Dafny

ReFont opens a scanned PDF and recognizes its text on each page. Every recognized
fragment is kept with its position. The app then re-renders the document in a
font and colour the user picks. There are two ways to do this:

- **overlay**: each fragment is painted over with a white box, then redrawn in
  its own frame at a font size fitted to that frame;
- **reflow**: the fragments of a page are listed as lines 20 high, set at 16 pt.

This project models that pipeline as `MainViewModel` implements it. It also
models the older extraction kept in the root `ContentView`, so the two can be
compared.

Modules, in dependency order:

- `Wrappers`: `Option`, used for the document that may not have been loaded.
- `Geometry`: rects, recognizer boxes and the mapping between them.
  - `MapBox` is the corrected mapping: unit square with y pointing up, to page
    space with y pointing down.
  - `UnmapRect` inverts it.
- `Drawing`: what a renderer produces, written as a log of `DrawOp` records.
  - The records are `BeginPage`, `DrawOriginalPage`, `FillWhite` and `DrawText`.
  - `SplitPages` cuts the log into the pages a PDF reader would see.
  - `TakePage` is the first of those pages.
- `FontFit`: the half-point binary search of `adjustFontSizeToFit`.
  - `Search` is its specification function.
  - `FitFontSize` searches over `[10, initial]`.
- `Extraction`: recognizer observations, extracted elements, and the page filter.
  - `PageElements` gives the elements of one page.
  - `Extracted` gives the whole extraction.
  - `OnPage` is the `filter { $0.page == pageIndex }`.
- `Rendering`: the two renderers and the composer, as specification functions.
  - The renderers are `OverlayOps` and `ReflowOps`.
  - `PageBody` is the body of one page's rendered data.
  - `ComposedPages` is the finished document.
- `ViewModel`: the class `MainViewModel` with the fields `pdfDocument` and
  `extractedElements`.
  - Its methods keep the source's loops: nested page and observation loops, the
    `while` search loop, the `yOffset` loop, and the page-insertion loop.
  - Each method is proved equal to the specification function above it.
- `LegacyContentView`: the class `ContentView` with the fields `recognizedText`
  and `extractedTexts`.
  - It models the fixed 1000×1400 extraction and the plain-text export.

The specification functions define the modelled behaviour. Each has no row of
its own in "## Model"; the rows named here carry its contract:

- `FontFit.Search`: the `while` loop of MainViewModel.swift:170-186.
  `SearchKeepsCandidate`, `SearchEnds`, `FitFontSize`, `FitNearLargest`.
- `Extraction.Extracted`: the nested page and observation loops of
  MainViewModel.swift:27-47. `ExtractedPages`, `ExtractedOnPage`.
- `Extraction.OnPage`: the filter of MainViewModel.swift:113 and 134.
  `OnPageMembers`, `ExtractedOnPage`.
- `Rendering.OverlayOps`: the loop of MainViewModel.swift:115-129.
  `OverlayOpsShape`, `OverlayOpsAt`.
- `Rendering.ReflowFrom` and `Rendering.ReflowOps`: the loop of
  MainViewModel.swift:135-160, from line slot k. `ReflowStep`, `ReflowFrames`,
  `ReflowTexts`, `ReflowPageBreaks`, `ReflowFirstPage`.
- `Rendering.PageBody`: what follows `beginPage` at MainViewModel.swift:80-86.
  `OverlayPageKept`, `ReflowPageKept`.
- `Rendering.ComposedPages`: the page loop of MainViewModel.swift:72-93.
  `ComposedPageAt`, `OverlayAfterExtraction`.
- `Drawing.SplitPages`: `PDFDocument(data:)` at MainViewModel.swift:89.
  `SplitPagesCount`, `SplitPagesFirst`, `SplitPagesKeepTexts`.
- `LegacyContentView.LegacyFrame`: the frame of ContentView.swift:74-79.
  `LegacyFrameShifted`, `LegacyFrameLeavesPage`, `CompareWithCorrected`.
- `LegacyContentView.LegacyItems`: the page and observation loops of
  ContentView.swift:62-83. `LegacyItemsCount`, `LegacyItemsAt`.
- `LegacyContentView.JoinLines`: the `joined(separator: "\n")` of
  ContentView.swift:94. `SplitJoinLines`.

Foreign parts are parameters:

- The recognizer output is a `Document`. This is one `SourcePage` per page,
  holding the page size and the observations in recognizer order. An
  observation is an optional top candidate and a box.
- `PDFDocument(url:)` failing is `None` given to `LoadPdf` /
  `ExtractHandwrittenTextWithPosition`.
- Text measurement (`boundingRect` with a font of a given name and size,
  constrained to a width) is a function parameter `measure(text, fontName, size,
  width)`. It returns the wrapped height.
- Drawing appends records to the returned log. `PDFDocument(data:)` followed by
  `page(at: 0)` is element 0 of `SplitPages` of that log.
- Numbers are exact reals (`real` for `CGFloat`).

Where the code departs from what its names and call sites lead one to expect,
the model follows the code:

- **Fitted size below 10.** The search's lower bound of 10 suggests the fitted
  size is never below 10 pt. In the code, when the initial size is below 10 the loop never runs, and
  that smaller initial size is returned (`FitFontSize`). At the overlay call site
  this cannot happen: the initial size is `max(h*0.8, 10)` (`InitialFontSize`).
- **Fit can overflow.** A size "adjusted to fit" is expected never to overflow
  the frame. In the code, when no midpoint fits, the initial size is returned even though it
  does not fit. `FontFit.FitMayOverflow` gives such a case.
- **Fit is not monotone in the frame height.** A taller frame is expected
  never to get a smaller fitted size. With a measured height equal to the size
  and an initial size of 20, a frame 5 high gets 20 (no midpoint fits) and a
  frame 15 high gets 15 (`FontFit.FitNotMonotoneInHeight`).
- **Reflow start and direction.** A text reflow is expected to start near the top
  margin. The code starts at `yOffset = H - 50` and steps `yOffset` down by 20
  each line. A UIKit PDF context has its origin at the top left, so the first
  line is drawn near the bottom and later lines move up the page
  (`LineRect`, `ReflowLinesWithinMargins`).
- **Reflow page count.** A reflow with L lines per page is expected to give
  `ceil(N/L)` pages, with every line kept.
  - In the code, n lines produce `1 + n div L` pages of data. When L divides n
    the last of these is blank.
  - The composer then keeps only page 0, so only the first `min(n, L)` lines
    reach the output (`ReflowPageKept`).

## Model

| member | source | states |
|---|---|---|
| Geometry.MapBox | ReFont.swiftpm/ViewModel/MainViewModel.swift:39-45 | A box inside the unit square maps to a rect inside the page, for non-negative page sizes. The rect's bottom edge is at (1 - originY)·H, the flipped y of the box's lower edge. |
| Geometry.UnmapMapBox | ReFont.swiftpm/ViewModel/MainViewModel.swift:39-45 | For W, H > 0 the mapping is invertible: recovering ox = x/W, oy = 1 - (y+height)/H, w = width/W, h = height/H gives back the box. |
| Geometry.MapUnmapRect | ReFont.swiftpm/ViewModel/MainViewModel.swift:39-45 | The other direction: mapping the recovered box gives back the rect, so the mapping is a bijection. |
| Geometry.MapBoxInPageIff | ReFont.swiftpm/ViewModel/MainViewModel.swift:39-45 | For W, H > 0 the mapped rect lies inside the page if and only if the box lies inside the unit square. |
| Geometry.MapBoxExample | ReFont.swiftpm/ViewModel/MainViewModel.swift:42 | On a 1000×1400 page, the boxes (0.1,0.8,0.3,0.05) and (0.1,0.1,0.3,0.05) map to y = 210 and y = 1190. |
| Drawing.TakePage | ReFont.swiftpm/ViewModel/MainViewModel.swift:89-90 | The page read back from rendered data is a prefix of the ops after a page start. It holds no page start, and it ends exactly where the next page begins. |
| Drawing.SplitPagesCount | ReFont.swiftpm/ViewModel/MainViewModel.swift:78-90 | Rendered data has exactly as many pages as `beginPage` calls. |
| Drawing.SplitPagesFirst | ReFont.swiftpm/ViewModel/MainViewModel.swift:89-90 | Data that starts with `beginPage` always has a page 0. That page is the ops up to the next page start. |
| Drawing.SplitPagesKeepTexts | ReFont.swiftpm/ViewModel/MainViewModel.swift:78-90 | Cutting data into pages loses no text and reorders none: the pages' texts, read in page order, are the data's texts. |
| FontFit.SearchStepShrinks | ReFont.swiftpm/ViewModel/MainViewModel.swift:170-185 | Whichever branch a step takes, the new bounds have a strictly lower search rank than the old ones, so the loop terminates. |
| FontFit.SearchKeepsCandidate | ReFont.swiftpm/ViewModel/MainViewModel.swift:170-186 | The search keeps its invariant: the candidate is the initial size, or a size in [10, initial] whose measured height fits. |
| FontFit.FitFontSize | ReFont.swiftpm/ViewModel/MainViewModel.swift:164-189 | The fitted size never exceeds the initial size. An initial size below 10 is returned unchanged. Otherwise the result is at least 10. The result is the initial size or a size that fits the frame. |
| FontFit.SearchEnds | ReFont.swiftpm/ViewModel/MainViewModel.swift:170-186 | The loop ends with crossed bounds and keeps its invariant throughout: the candidate is the initial size with the lower bound still 10, or a fitting size half a point below the lower bound; the upper bound is the initial size, or half a point above it does not fit. |
| FontFit.FitNearLargest | ReFont.swiftpm/ViewModel/MainViewModel.swift:164-189 | Under a monotone measure and an initial size of at least 10: a fitting result has no fitting size a point or more above it up to the initial size; a non-fitting result is the initial size, and then no size from 10.5 up fits. |
| FontFit.FitNotMonotoneInHeight | ReFont.swiftpm/ViewModel/MainViewModel.swift:170-188 | With measured height equal to the size and initial size 20, a frame 5 high gets 20 and a frame 15 high gets 15: a taller frame can get a smaller size. |
| FontFit.FitMayOverflow | ReFont.swiftpm/ViewModel/MainViewModel.swift:180-188 | Some frame and measure make the solver return an initial size that does not fit, although size 10 would fit. |
| Extraction.Recognized | ReFont.swiftpm/ViewModel/MainViewModel.swift:37-38 | The observations kept are exactly those that have a top candidate. |
| Extraction.PageElements | ReFont.swiftpm/ViewModel/MainViewModel.swift:37-47 | Every element of a page carries that page's index, and a page yields at most one element per observation. |
| Extraction.PageElementsAreRecognized | ReFont.swiftpm/ViewModel/MainViewModel.swift:37-47 | A page's elements correspond one to one, in order, with its observations that have a top candidate. Each element has that candidate's text and the mapped frame. |
| Extraction.ExtractedPages | ReFont.swiftpm/ViewModel/MainViewModel.swift:25-49 | After extraction every element's page lies in [0, pageCount), and elements are in non-decreasing page order. |
| Extraction.OnPageMembers | ReFont.swiftpm/ViewModel/MainViewModel.swift:113 | The filter keeps exactly the elements whose page is the requested one: an element is in the result if and only if it is in the list and has that page. |
| Extraction.ExtractedOnPage | ReFont.swiftpm/ViewModel/MainViewModel.swift:27-49 | Filtering the extraction to page p gives page p's elements in observation order. A p outside the document gives none. |
| Rendering.InitialFontSize | ReFont.swiftpm/ViewModel/MainViewModel.swift:116 | The starting size is max(height·0.8, 10): at least 10, at least 0.8 of the frame height, and equal to one of the two. |
| Rendering.OverlayElement | ReFont.swiftpm/ViewModel/MainViewModel.swift:115-128 | Each element fills exactly its frame white, then draws its text in that same frame with the chosen font and colour. The size lies in [10, initial] and either fits the frame or is the initial size. |
| Rendering.OverlayOpsShape | ReFont.swiftpm/ViewModel/MainViewModel.swift:115-129 | The overlay logs two ops per element, in element order. It starts no page, and its texts are the elements' texts in order. |
| Rendering.OverlayOpsAt | ReFont.swiftpm/ViewModel/MainViewModel.swift:115-129 | Ops 2k and 2k+1 are the white fill of element k's frame and the drawing of element k's text into that frame, at a size of at least 10. |
| Rendering.LinesPerPage | ReFont.swiftpm/ViewModel/MainViewModel.swift:154-159 | Every page holds at least one line: L = max(1, floor((H-100)/20)+1). |
| Rendering.LinesPerPageThreshold | ReFont.swiftpm/ViewModel/MainViewModel.swift:154-156 | Take the k-th line of a page, for k < L. `yOffset` drops below 50 after that line exactly when it is the page's last line (k+1 = L). |
| Rendering.ReflowLinesWithinMargins | ReFont.swiftpm/ViewModel/MainViewModel.swift:135-151 | Line k is at x = 20, width W-40, height 20, with 50 ≤ y ≤ H-50 when H ≥ 100. It lies inside the page when W ≥ 40. |
| Rendering.ReflowStep | ReFont.swiftpm/ViewModel/MainViewModel.swift:151-159 | One step from line k at offset y: the element is drawn at (20, y, W-40, 20). When y-20 < 50, a page break follows and the next line is 0. Otherwise the next line is k+1, still on the page. |
| Rendering.ReflowFrames | ReFont.swiftpm/ViewModel/MainViewModel.swift:141-159 | Element i of the stream is drawn in the frame of line slot (k+i) mod L, so each page repeats the same L slots. |
| Rendering.ReflowTexts | ReFont.swiftpm/ViewModel/MainViewModel.swift:141-160 | Reflow draws every element's text exactly once, in list order. |
| Rendering.ReflowPageBreaks | ReFont.swiftpm/ViewModel/MainViewModel.swift:154-159 | Starting at slot k, n elements start (k+n) div L new pages. |
| Rendering.ReflowFirstPage | ReFont.swiftpm/ViewModel/MainViewModel.swift:141-159 | Starting at slot k, the ops before the first page break draw the first min(n, L-k) texts. |
| Rendering.KeptPage | ReFont.swiftpm/ViewModel/MainViewModel.swift:89-90 | Page 0 of a page's rendered data is the body up to its first page break. |
| Rendering.KeptPageOfData | ReFont.swiftpm/ViewModel/MainViewModel.swift:89-91 | A page's rendered data always has a page 0, so the insertion always happens, and the page inserted is the kept page. |
| Rendering.ComposedPageAt | ReFont.swiftpm/ViewModel/MainViewModel.swift:72-93 | The new document has exactly one page per source page. Output page p is page 0 of page p's rendered data: its body up to the first page break. |
| Rendering.OverlayPageKept | ReFont.swiftpm/ViewModel/MainViewModel.swift:81-83 | In overlay mode, output page p is kept whole: the source page, then the overlay of page p's elements. |
| Rendering.ReflowPageKept | ReFont.swiftpm/ViewModel/MainViewModel.swift:84-91 | In reflow mode, page p's data has 1 + n div L pages carrying all n texts in order. Only the first min(n, L) texts reach output page p. |
| Rendering.OverlayAfterExtraction | ReFont.swiftpm/ViewModel/MainViewModel.swift:81-83 | After extraction, overlay output page p shows the source page, then page p's recognized observations and no other page's, in recognizer order. |
| Rendering.HelloWorldOverlay | ReFont.swiftpm/ViewModel/MainViewModel.swift:126-128 | A 1000×1400 page with "Hello" at (0.1,0.8,0.3,0.05) and "World" at (0.1,0.1,0.3,0.05), in Courier, black. Output: the source page, then "Hello" blanked and redrawn in a frame at y = 210, and "World" in a frame at y = 1190. |
| Rendering.HelloWorldElements | ReFont.swiftpm/ViewModel/MainViewModel.swift:37-47 | On a 1000×1400 page the example's two observations become two elements, with frames (100, 210, 300, 70) and (100, 1190, 300, 70). |
| ViewModel.InsertPage | ReFont.swiftpm/ViewModel/MainViewModel.swift:91 | Inserting at index i puts the page at i, keeps the pages before i, and shifts the rest up by one. |
| ViewModel.MainViewModel.constructor | ReFont.swiftpm/ViewModel/MainViewModel.swift:7-8 | A new view model has no document and no elements. |
| ViewModel.MainViewModel.LoadPdf | ReFont.swiftpm/ViewModel/MainViewModel.swift:10-21 | A file that cannot be opened leaves the document and the elements unchanged. Otherwise the document is stored and the elements become its extraction. |
| ViewModel.MainViewModel.ExtractTextFromPdf | ReFont.swiftpm/ViewModel/MainViewModel.swift:24-64 | The element list is emptied, then rebuilt page by page and observation by observation. It ends up equal to `Extracted(document)`. |
| ViewModel.MainViewModel.AdjustFontSizeToFit | ReFont.swiftpm/ViewModel/MainViewModel.swift:164-189 | The `while` loop computes `FitFontSize`. The result is at most the initial size, equals it when it is below 10, and is otherwise at least 10. It is the initial size or a size that fits. Under a monotone measure with an initial size of at least 10, a fitting result is within a point of the largest fitting size, and a non-fitting one is the initial size, returned only when nothing from 10.5 up fits. |
| ViewModel.MainViewModel.DrawTextWithOriginalLayout | ReFont.swiftpm/ViewModel/MainViewModel.swift:112-130 | The loop logs the overlay of exactly the page's elements. Each element's frame is filled and then drawn into, with a fitted size of at least 10. |
| ViewModel.MainViewModel.DrawTextWithoutLayout | ReFont.swiftpm/ViewModel/MainViewModel.swift:133-161 | The page's elements are filtered from the list, then reflowed. All their texts are drawn in order, and n div L new pages start. |
| ViewModel.MainViewModel.ReflowLines | ReFont.swiftpm/ViewModel/MainViewModel.swift:135-160 | The `yOffset` loop produces exactly the reflow of its elements: all their texts in order, and (n div L) page breaks. |
| ViewModel.MainViewModel.RenderPage | ReFont.swiftpm/ViewModel/MainViewModel.swift:76-87 | One page's data is a page start, then the original page and the overlay, or else the reflow. |
| ViewModel.MainViewModel.CreateNewPdfWithModifiedFont | ReFont.swiftpm/ViewModel/MainViewModel.swift:67-98 | With no document the result is none. Otherwise it is the composed document, with one page per source page, each taken from page 0 of its data. |
| LegacyContentView.LegacyFrameShifted | ReFont.swiftpm/ContentView.swift:74-79 | The older frame ignores the real page size. Its x, width and height are those of the corrected mapping on a 1000×1400 page; its y is the corrected y plus the box height. |
| LegacyContentView.LegacyFrameLeavesPage | ReFont.swiftpm/ContentView.swift:76 | For a box in the unit square that touches the bottom edge, the older frame leaves the 1000×1400 page, while the corrected frame stays on it. |
| LegacyContentView.LegacyPageItems | ReFont.swiftpm/ContentView.swift:69-82 | Every observation yields exactly one item, in order. A missing top candidate gives the empty string. |
| LegacyContentView.LegacyItemsCount | ReFont.swiftpm/ContentView.swift:60-90 | The items number exactly the observations of all pages. |
| LegacyContentView.LegacyItemsAt | ReFont.swiftpm/ContentView.swift:60-90 | Observation j of page p becomes item number (observations before page p) + j: page order, then observation order, with no page tag. |
| LegacyContentView.CompareWithCorrected | ReFont.swiftpm/ContentView.swift:69-81 | Take a 1000×1400 page whose observations all have a candidate. The older and the corrected extraction give the same number of items, with the same texts in the same order and the same x and height. Each older y is one box height lower. |
| LegacyContentView.SplitJoinLines | ReFont.swiftpm/ContentView.swift:94 | Join texts that contain no newline with "\n", then split at newlines: the result is the texts again, so the recognized text keeps each text in order. |
| LegacyContentView.ContentView.constructor | ReFont.swiftpm/ContentView.swift:6-7 | The view starts with the placeholder text and no items. |
| LegacyContentView.ContentView.ExtractHandwrittenTextWithPosition | ReFont.swiftpm/ContentView.swift:48-96 | A file that cannot be opened changes nothing. Otherwise the items are the older extraction of all pages. The recognized text is their texts joined with "\n". |
| LegacyContentView.ContentView.SaveAsPdf | ReFont.swiftpm/ContentView.swift:126-146 | The export is one page holding the recognized text at size 18. Its frame is inset by 20 from every edge of the 612×792 page. |

## Left out

- Text recognition (`VNRecognizeTextRequest`, its revision, accuracy, language
  correction and languages) is foreign. Its output is the given per-page
  observation list.
- A page whose recognition fails has an empty observation list. This covers a
  failing results cast, a throwing `perform`, and `page(at:)` returning nil in
  the extraction loops.
- The force unwraps `pageImage.cgImage!` (MainViewModel.swift:58) and
  `image.cgImage!` (ContentView.swift:88) are not modelled. A page whose
  thumbnail has no bitmap traps there; the model always has an observation list.
- `page(at:)` returning nil in `createNewPDFWithModifiedFont`
  (MainViewModel.swift:73) is not modelled: every source page is present.
- `PDFDocument(data:)` or `page(at: 0)` returning nil (MainViewModel.swift:89-90)
  is not modelled: rendered data that starts with a page break always has a page
  0 (`KeptPageOfData`). In the source such a page, or one skipped at line 73,
  would be left out, and every later `insert(newPage, at: pageIndex)` would then
  target an index past the page count, which PDFKit does not accept. The model
  does not capture that failure.
- PDFKit and UIKit rendering is foreign and appears only as log records:
  - `thumbnail`, the context transforms of `drawOriginalPage`, `drawPDFPage`;
  - `NSAttributedString.draw`, including how text wraps or clips inside a frame;
  - the guard in `drawOriginalPage` on a missing page reference or context.
- Font fallback (`UIFont(name:) ?? systemFont`) is not modelled: the font is
  only its name. The measure parameter stands for whichever font results.
- Colours are names. `UIColor` is foreign.
- Writing the output to a temporary file and reopening it
  (MainViewModel.swift:95-97) is left out. The composed page list is returned
  directly.
- Page sizes are not part of the log: `BeginPage` carries no media box. The
  composer's renderer takes each source page's media box
  (MainViewModel.swift:75-76), and the reflow uses it only through the width and
  height passed to `ReflowLines`. The export's 612 by 792 page
  (ContentView.swift:129) appears only in the bounds of its text rect.
- SaveAsPdf: the write to `ConvertedText.pdf` and the `pdfURL` assignment
  (ContentView.swift:127-130, 143-145) are left out; the method returns the log
  that would be written. The text is given no colour attribute in the source, so
  it is drawn in the default black, written `Color("black")`.
- Security-scoped resource access is left out.
- The `DispatchQueue.main.async` hand-off in the root `ContentView` is modelled
  as a final assignment. `View/ContentView.swift`, a copy of the view-model logic
  whose appends go through the main queue, is not part of this model.
- `saveHandwrittenTextAsPDF` in the root `ContentView` is not part of this model.
- The SwiftUI views, pickers, scanners, splash screen, app entry and the
  `FontType` / `ColorType` name tables are UI bindings. They are not part of
  this model.
- Floating-point rounding is not modelled. `CGFloat` is an exact real, and the
  properties are about the arithmetic as written.
- FitFontSize: not proved non-decreasing in the frame height, because it is
  not: even with a measured height equal to the size, the fallback to the
  initial size gives a frame 5 high a larger size than a frame 15 high
  (`FitNotMonotoneInHeight`).
- FitFontSize: "within a point of the largest fitting size" is proved only for
  measures that grow with the size (`FitNearLargest`); the platform's text
  measurement is not modelled, so nothing about it is assumed in the function's
  own contract.
- `FitFontSize` is stated as "fits or is the initial size", not "fits". The
  initial-size case is real (`FitMayOverflow`).
- Reflow produces `1 + n div L` pages of data, but the composer keeps only
  page 0, as the code does. Continuation pages never reach the output
  document.

## Findings

| source | as written | input that shows it | evidently intended | confidence | as-written member | corrected member |
|---|---|---|---|---|---|---|
| ReFont.swiftpm/ContentView.swift:76 | y = (1 - originY) · 1400, the flipped y of the box's bottom edge, used as the top of the frame | box (0.1, 0.0, 0.3, 0.05): the frame runs from y = 1400 to 1470, below the 1400-high page | y = (1 - originY - height) · H, as MainViewModel.swift:42 computes, which keeps a unit-square box on the page | high from the formula alone; not executed | LegacyContentView.LegacyFrameLeavesPage | Geometry.MapBoxInPageIff |
