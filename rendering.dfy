/**
  The two page renderers and the composer of MainViewModel: the overlay renderer
  (drawTextWithOriginalLayout), the reflow renderer (drawTextWithoutLayout), the
  rendered data of one page (the `pdfData` closure of createNewPDFWithModifiedFont)
  and the document made of the first page of each page's data.
*/
module Rendering {
  import opened Wrappers
  import opened Geometry
  import opened Drawing
  import opened FontFit
  import opened Extraction

  // ---------------------------------------------------------------- overlay

  /** The size the overlay search starts from: 80% of the frame height, but at least 10. */
  function InitialFontSize(frame: Rect): (s: real)
    ensures MinFontSize <= s && frame.height * 0.8 <= s
    ensures s == frame.height * 0.8 || s == MinFontSize
  {
    if frame.height * 0.8 < 10.0 then 10.0 else frame.height * 0.8
  }

  /**
    What the overlay draws for one element: a white fill of its frame, then its
    text in that same frame at the fitted size, which at this call site is never
    below 10 and never above the starting size, and fits unless it is the
    starting size.
  */
  function OverlayElement(e: Element, fontName: string, color: Color, measure: Measure): (ops: seq<DrawOp>)
    ensures |ops| == 2 && ops[0] == FillWhite(e.frame)
    ensures ops[1].DrawText? && ops[1].text == e.text && ops[1].rect == e.frame
    ensures ops[1].fontName == fontName && ops[1].color == color
    ensures MinFontSize <= ops[1].fontSize <= InitialFontSize(e.frame)
    ensures ops[1].fontSize == InitialFontSize(e.frame) || Fits(e.text, fontName, e.frame, measure, ops[1].fontSize)
  {
    var size := FitFontSize(e.text, fontName, e.frame, measure, InitialFontSize(e.frame));
    [FillWhite(e.frame), DrawText(e.text, e.frame, fontName, size, color)]
  }

  /** The overlay of a list of elements, one element after the other. */
  function OverlayOps(es: seq<Element>, fontName: string, color: Color, measure: Measure): seq<DrawOp> {
    if es == [] then []
    else OverlayOps(es[..|es| - 1], fontName, color, measure) + OverlayElement(es[|es| - 1], fontName, color, measure)
  }

  /**
    The overlay issues exactly two calls per element, in list order: the fill
    and the text of element k are calls 2k and 2k+1. It begins no page and
    draws the elements' texts in list order.
  */
  lemma OverlayOpsShape(es: seq<Element>, fontName: string, color: Color, measure: Measure)
    ensures var ops := OverlayOps(es, fontName, color, measure);
      && |ops| == 2 * |es|
      && (forall k :: 0 <= k < |es| ==> ops[2 * k..2 * k + 2] == OverlayElement(es[k], fontName, color, measure))
      && NoBegin(ops)
      && Texts(ops) == ElementTexts(es)
  {
    OverlayOpsBlocks(es, fontName, color, measure);
    OverlayOpsNoBegin(es, fontName, color, measure);
    OverlayOpsTexts(es, fontName, color, measure);
  }

  lemma {:induction false} OverlayOpsBlocks(es: seq<Element>, fontName: string, color: Color, measure: Measure)
    ensures var ops := OverlayOps(es, fontName, color, measure);
      && |ops| == 2 * |es|
      && forall k :: 0 <= k < |es| ==> ops[2 * k..2 * k + 2] == OverlayElement(es[k], fontName, color, measure)
    decreases |es|
  {
    if es != [] {
      var n := |es| - 1;
      var front := OverlayOps(es[..n], fontName, color, measure);
      var last := OverlayElement(es[n], fontName, color, measure);
      OverlayOpsBlocks(es[..n], fontName, color, measure);
      var ops := front + last;
      assert OverlayOps(es, fontName, color, measure) == ops;
      forall k | 0 <= k < |es|
        ensures ops[2 * k..2 * k + 2] == OverlayElement(es[k], fontName, color, measure)
      {
        if k < n {
          assert ops[2 * k..2 * k + 2] == front[2 * k..2 * k + 2];
          assert es[..n][k] == es[k];
        } else {
          assert ops[2 * k..2 * k + 2] == last;
        }
      }
    }
  }

  lemma {:induction false} OverlayOpsNoBegin(es: seq<Element>, fontName: string, color: Color, measure: Measure)
    ensures NoBegin(OverlayOps(es, fontName, color, measure))
    decreases |es|
  {
    if es != [] {
      var n := |es| - 1;
      var front := OverlayOps(es[..n], fontName, color, measure);
      var last := OverlayElement(es[n], fontName, color, measure);
      OverlayOpsNoBegin(es[..n], fontName, color, measure);
      var ops: seq<DrawOp> := front + last;
      assert OverlayOps(es, fontName, color, measure) == ops;
      forall i | 0 <= i < |ops|
        ensures !ops[i].BeginPage?
      {
        if i >= |front| {
          assert ops[i] == last[i - |front|];
        }
      }
    }
  }

  lemma {:induction false} OverlayOpsTexts(es: seq<Element>, fontName: string, color: Color, measure: Measure)
    ensures Texts(OverlayOps(es, fontName, color, measure)) == ElementTexts(es)
    decreases |es|
  {
    if es != [] {
      var n := |es| - 1;
      var front := OverlayOps(es[..n], fontName, color, measure);
      var last := OverlayElement(es[n], fontName, color, measure);
      OverlayOpsTexts(es[..n], fontName, color, measure);
      assert OverlayOps(es, fontName, color, measure) == front + last;
      TextsAppend(front, last);
      assert Texts(last) == [es[n].text] by {
        assert last[1..][1..] == [];
      }
      assert ElementTexts(es) == ElementTexts(es[..n]) + [es[n].text];
    }
  }

  /**
    The calls come in pairs, one pair per element in list order: call 2k fills
    the frame of element k, call 2k+1 draws that element's text into the same
    frame at a size of at least 10.
  */
  predicate OverlayLayout(ops: seq<DrawOp>, es: seq<Element>) {
    && |ops| == 2 * |es|
    && forall k :: 0 <= k < |es| ==>
         && ops[2 * k] == FillWhite(es[k].frame)
         && ops[2 * k + 1].DrawText? && ops[2 * k + 1].text == es[k].text
         && ops[2 * k + 1].rect == es[k].frame
         && MinFontSize <= ops[2 * k + 1].fontSize
  }

  /** The overlay of a list of elements has the pairwise layout of fills and texts. */
  lemma OverlayOpsAt(es: seq<Element>, fontName: string, color: Color, measure: Measure)
    ensures OverlayLayout(OverlayOps(es, fontName, color, measure), es)
  {
    var ops := OverlayOps(es, fontName, color, measure);
    OverlayOpsShape(es, fontName, color, measure);
    forall k | 0 <= k < |es|
      ensures ops[2 * k] == FillWhite(es[k].frame)
      ensures ops[2 * k + 1].DrawText? && ops[2 * k + 1].text == es[k].text
      ensures ops[2 * k + 1].rect == es[k].frame && MinFontSize <= ops[2 * k + 1].fontSize
    {
      var block := OverlayElement(es[k], fontName, color, measure);
      assert ops[2 * k..2 * k + 2] == block;
      assert ops[2 * k] == block[0] && ops[2 * k + 1] == block[1];
    }
  }

  // ----------------------------------------------------------------- reflow

  /** The fixed font size, line height and margin of the reflow renderer. */
  const ReflowFontSize: real := 16.0
  const LineHeight: real := 20.0
  const Margin: real := 50.0

  /** After drawing line k of a page (from 0), the decremented offset has dropped below the margin. */
  predicate BreaksAfter(h: real, k: nat) {
    h - Margin - LineHeight * ((k + 1) as real) < Margin
  }

  /**
    The number of lines drawn on a page before a page break, for a page of height `h`:
    max(1, floor((h - 100) / 20) + 1).
  */
  function LinesPerPage(h: real): (l: nat)
    ensures l >= 1
  {
    var q := ((h - 100.0) / 20.0).Floor;
    if q + 1 >= 1 then q + 1 else 1
  }

  /**
    Line k of a page (from 0, below the lines per page) is followed by a page
    break exactly when it is the last line the page holds.
  */
  lemma LinesPerPageThreshold(h: real, k: nat)
    requires k < LinesPerPage(h)
    ensures BreaksAfter(h, k) <==> k + 1 == LinesPerPage(h)
  {
    var x := (h - 100.0) / 20.0;
    assert x.Floor as real <= x < x.Floor as real + 1.0;
  }

  /** The frame of line k of a page of size `w` by `h` (from 0): x = 20, width w - 40, height 20, y = h - 50 - 20k. */
  function LineRect(k: nat, w: real, h: real): Rect {
    Rect(20.0, h - Margin - LineHeight * (k as real), w - 40.0, LineHeight)
  }

  /**
    The reflow of a list of elements on pages of size `w` by `h`, starting at
    line k of the current page: each element is one line, and after the last
    line a page holds, a new page begins and the lines start again at the top
    offset.
  */
  function ReflowFrom(es: seq<Element>, k: nat, w: real, h: real, fontName: string, color: Color): seq<DrawOp>
    requires k < LinesPerPage(h)
    decreases |es|
  {
    if es == [] then []
    else
      var draw := DrawText(es[0].text, LineRect(k, w, h), fontName, ReflowFontSize, color);
      if k + 1 == LinesPerPage(h) then [draw, BeginPage] + ReflowFrom(es[1..], 0, w, h, fontName, color)
      else [draw] + ReflowFrom(es[1..], k + 1, w, h, fontName, color)
  }

  /** The reflow of a page's elements, starting on line 0. */
  function ReflowOps(es: seq<Element>, w: real, h: real, fontName: string, color: Color): seq<DrawOp> {
    ReflowFrom(es, 0, w, h, fontName, color)
  }

  /**
    One step of the reflow from element i on line k, whose offset is `y`: that
    element's line at `y`, then, when the decremented offset drops below the
    margin (exactly when line k is the page's last), a page break and line 0,
    and otherwise line k + 1.
  */
  lemma ReflowStep(es: seq<Element>, i: nat, k: nat, w: real, h: real, fontName: string, color: Color, y: real)
    requires i < |es| && k < LinesPerPage(h) && y == h - Margin - LineHeight * (k as real)
    ensures var draw := DrawText(es[i].text, Rect(20.0, y, w - 40.0, LineHeight), fontName, ReflowFontSize, color);
      && (y - LineHeight < Margin ==>
            ReflowFrom(es[i..], k, w, h, fontName, color)
            == [draw, BeginPage] + ReflowFrom(es[i + 1..], 0, w, h, fontName, color))
      && (Margin <= y - LineHeight ==>
            && k + 1 < LinesPerPage(h)
            && ReflowFrom(es[i..], k, w, h, fontName, color)
               == [draw] + ReflowFrom(es[i + 1..], k + 1, w, h, fontName, color))
  {
    assert es[i..][1..] == es[i + 1..];
    LinesPerPageThreshold(h, k);
    assert y - LineHeight < Margin <==> BreaksAfter(h, k);
  }

  lemma MulAtLeast(a: int, l: int)
    requires l > 0
    ensures a >= 1 ==> a * l >= l
    ensures a <= -1 ==> a * l <= -l
  {
  }

  lemma DivModUnique(n: int, l: int, q: int, r: int)
    requires l > 0 && 0 <= r < l && n == q * l + r
    ensures n / l == q && n % l == r
  {
    var q0, r0 := n / l, n % l;
    assert n == q0 * l + r0;
    assert (q - q0) * l == r0 - r;
    MulAtLeast(q - q0, l);
  }

  /** Adding one whole page of lines adds one to the page count. */
  lemma DivAddDivisor(m: nat, l: nat)
    requires l >= 1
    ensures (l + m) / l == 1 + m / l && (l + m) % l == m % l
  {
    DivModUnique(l + m, l, 1 + m / l, m % l);
  }

  /** The reflow draws every element's text, in list order. */
  lemma {:induction false} ReflowTexts(es: seq<Element>, k: nat, w: real, h: real, fontName: string, color: Color)
    requires k < LinesPerPage(h)
    ensures Texts(ReflowFrom(es, k, w, h, fontName, color)) == ElementTexts(es)
    decreases |es|
  {
    if es != [] {
      var k' := if k + 1 == LinesPerPage(h) then 0 else k + 1;
      var draw := DrawText(es[0].text, LineRect(k, w, h), fontName, ReflowFontSize, color);
      var head := if k + 1 == LinesPerPage(h) then [draw, BeginPage] else [draw];
      var rest := ReflowFrom(es[1..], k', w, h, fontName, color);
      assert ReflowFrom(es, k, w, h, fontName, color) == head + rest;
      assert Texts(head) == [es[0].text] by {
        assert head[1..] == [] || head[1..] == [BeginPage];
        assert Texts([BeginPage]) == [];
      }
      TextsAppend(head, rest);
      ReflowTexts(es[1..], k', w, h, fontName, color);
      assert ElementTexts(es) == [es[0].text] + ElementTexts(es[1..]);
    }
  }

  /**
    Starting on line k, n elements cause (k + n) div L page breaks, L being the
    lines per page; from line 0 that is n div L.
  */
  lemma {:induction false} ReflowPageBreaks(es: seq<Element>, k: nat, w: real, h: real, fontName: string, color: Color)
    requires k < LinesPerPage(h)
    ensures CountBegins(ReflowFrom(es, k, w, h, fontName, color)) == (k + |es|) / LinesPerPage(h)
    decreases |es|
  {
    var l := LinesPerPage(h);
    if es == [] {
      DivModUnique(k, l, 0, k);
    } else if k + 1 == l {
      ReflowPageBreaks(es[1..], 0, w, h, fontName, color);
      DivAddDivisor(|es| - 1, l);
    } else {
      ReflowPageBreaks(es[1..], k + 1, w, h, fontName, color);
    }
  }

  /**
    On a page at least 100 high, line k of a page (below the lines per page)
    starts at x = 20, is w - 40 wide and 20 high, and its offset stays between
    the margin and h - 50; so it lies inside a page at least 40 wide.
  */
  lemma ReflowLinesWithinMargins(k: nat, w: real, h: real)
    requires h >= 100.0 && k < LinesPerPage(h)
    ensures var r := LineRect(k, w, h);
      && r.x == 20.0 && r.width == w - 40.0 && r.height == LineHeight
      && Margin <= r.y <= h - Margin
      && (w >= 40.0 ==> InPage(r, w, h))
  {
    var x := (h - 100.0) / 20.0;
    assert x.Floor as real <= x;
    assert (k as real) <= x;
  }

  /**
    Starting on line k, element i is drawn on line (k + i) mod L of its page;
    from line 0, on line i mod L, at y = h - 50 - 20 (i mod L).
  */
  lemma {:induction false} ReflowFrames(es: seq<Element>, k: nat, w: real, h: real, fontName: string, color: Color, i: nat)
    requires k < LinesPerPage(h) && i < |es|
    ensures var frames := Frames(ReflowFrom(es, k, w, h, fontName, color));
      |frames| == |es| && frames[i] == LineRect((k + i) % LinesPerPage(h), w, h)
    decreases |es|
  {
    var l := LinesPerPage(h);
    var next := if k + 1 == l then 0 else k + 1;
    ReflowTexts(es, k, w, h, fontName, color);
    FramesStep(es, k, w, h, fontName, color);
    if i == 0 {
      DivModUnique(k, l, 0, k);
    } else {
      ReflowFrames(es[1..], next, w, h, fontName, color, i - 1);
      NextSlot(k, l, i);
    }
  }

  /** The first frame of a reflow from line k is line k's, and the rest are the frames of the rest. */
  lemma FramesStep(es: seq<Element>, k: nat, w: real, h: real, fontName: string, color: Color)
    requires k < LinesPerPage(h) && es != []
    ensures Frames(ReflowFrom(es, k, w, h, fontName, color))
         == [LineRect(k, w, h)] + Frames(ReflowFrom(es[1..], if k + 1 == LinesPerPage(h) then 0 else k + 1, w, h, fontName, color))
  {
    var draw := DrawText(es[0].text, LineRect(k, w, h), fontName, ReflowFontSize, color);
    if k + 1 == LinesPerPage(h) {
      var rest := ReflowFrom(es[1..], 0, w, h, fontName, color);
      assert ([draw, BeginPage] + rest)[1..] == [BeginPage] + rest;
      assert ([BeginPage] + rest)[1..] == rest;
    } else {
      var rest := ReflowFrom(es[1..], k + 1, w, h, fontName, color);
      assert ([draw] + rest)[1..] == rest;
    }
  }

  /** The slot after slot k, advanced by i - 1 more, is slot (k + i) mod L. */
  lemma NextSlot(k: nat, l: nat, i: nat)
    requires k < l && i >= 1
    ensures ((if k + 1 == l then 0 else k + 1) + (i - 1)) % l == (k + i) % l
  {
    if k + 1 == l {
      DivAddDivisor(i - 1, l);
      assert k + i == l + (i - 1);
    } else {
      assert (k + 1) + (i - 1) == k + i;
    }
  }

  /**
    Starting on line k, the texts drawn before the first page break are those
    of the first min(n, L - k) elements; from line 0, the first min(n, L).
  */
  lemma {:induction false} ReflowFirstPage(es: seq<Element>, k: nat, w: real, h: real, fontName: string, color: Color)
    requires k < LinesPerPage(h)
    ensures var room := LinesPerPage(h) - k;
      Texts(TakePage(ReflowFrom(es, k, w, h, fontName, color))) == ElementTexts(es[..if |es| < room then |es| else room])
    decreases |es|, 1
  {
    var l := LinesPerPage(h);
    if es != [] {
      var draw := DrawText(es[0].text, LineRect(k, w, h), fontName, ReflowFontSize, color);
      if k + 1 == l {
        var rest := ReflowFrom(es[1..], 0, w, h, fontName, color);
        assert ReflowFrom(es, k, w, h, fontName, color) == [draw] + [BeginPage] + rest;
        TakePageAtBreak([draw], rest);
        TextsAppend([draw], []);
        assert es[..1] == [es[0]];
      } else {
        FirstPageAfterLine(es, k, w, h, fontName, color);
      }
    }
  }

  /** The step of ReflowFirstPage for a line that does not end its page. */
  lemma {:induction false} FirstPageAfterLine(es: seq<Element>, k: nat, w: real, h: real, fontName: string, color: Color)
    requires es != [] && k + 1 < LinesPerPage(h)
    ensures var room := LinesPerPage(h) - k;
      Texts(TakePage(ReflowFrom(es, k, w, h, fontName, color))) == ElementTexts(es[..if |es| < room then |es| else room])
    decreases |es|, 0
  {
    var l := LinesPerPage(h);
    var draw := DrawText(es[0].text, LineRect(k, w, h), fontName, ReflowFontSize, color);
    var rest := ReflowFrom(es[1..], k + 1, w, h, fontName, color);
    assert ReflowFrom(es, k, w, h, fontName, color) == [draw] + rest;
    TakePageAppend([draw], rest);
    TextsAppend([draw], TakePage(rest));
    ReflowFirstPage(es[1..], k + 1, w, h, fontName, color);
    var m := if |es| < l - k then |es| else l - k;
    assert m - 1 == if |es[1..]| < l - (k + 1) then |es[1..]| else l - (k + 1);
    PrefixTexts(es, m);
  }

  /** The texts of a non-empty prefix: the first text, then the texts of the rest's prefix. */
  lemma PrefixTexts(es: seq<Element>, m: nat)
    requires 1 <= m <= |es|
    ensures ElementTexts(es[..m]) == [es[0].text] + ElementTexts(es[1..][..m - 1])
  {
    var a := ElementTexts(es[..m]);
    var b := [es[0].text] + ElementTexts(es[1..][..m - 1]);
    assert |a| == |b|;
    forall j | 0 <= j < |a|
      ensures a[j] == b[j]
    {
      if j > 0 {
        assert es[1..][..m - 1][j - 1] == es[j];
      }
    }
  }

  // ------------------------------------------------------------ composition

  /**
    What one page's rendered data holds after its opening page break: the source
    page's content and the overlay of its elements, or the reflow of its elements
    on pages of the source page's size.
  */
  function PageBody(page: SourcePage, pageIndex: int, elements: seq<Element>, fontName: string, color: Color,
                    includeOriginalLayout: bool, measure: Measure): seq<DrawOp>
  {
    var onPage := OnPage(elements, pageIndex);
    if includeOriginalLayout then [DrawOriginalPage(pageIndex)] + OverlayOps(onPage, fontName, color, measure)
    else ReflowOps(onPage, page.width, page.height, fontName, color)
  }

  /**
    The first page of a page's rendered data, the page the composer keeps: the
    body up to its first page break.
  */
  function KeptPage(page: SourcePage, pageIndex: int, elements: seq<Element>, fontName: string, color: Color,
                    includeOriginalLayout: bool, measure: Measure): (r: Page)
    ensures r == TakePage(PageBody(page, pageIndex, elements, fontName, color, includeOriginalLayout, measure))
  {
    var data := [BeginPage] + PageBody(page, pageIndex, elements, fontName, color, includeOriginalLayout, measure);
    SplitPagesFirst(PageBody(page, pageIndex, elements, fontName, color, includeOriginalLayout, measure));
    SplitPages(data)[0]
  }

  /** A page's rendered data always has a first page, and it is the kept page. */
  lemma KeptPageOfData(page: SourcePage, pageIndex: int, elements: seq<Element>, fontName: string, color: Color,
                       includeOriginalLayout: bool, measure: Measure, data: seq<DrawOp>)
    requires data == [BeginPage] + PageBody(page, pageIndex, elements, fontName, color, includeOriginalLayout, measure)
    ensures |SplitPages(data)| >= 1
    ensures SplitPages(data)[0] == KeptPage(page, pageIndex, elements, fontName, color, includeOriginalLayout, measure)
  {
    SplitPagesFirst(PageBody(page, pageIndex, elements, fontName, color, includeOriginalLayout, measure));
  }

  /** The composed document: the kept page of every source page, in source order. */
  function ComposedPages(doc: Document, elements: seq<Element>, fontName: string, color: Color,
                         includeOriginalLayout: bool, measure: Measure): seq<Page>
  {
    seq(|doc|, p requires 0 <= p < |doc| => KeptPage(doc[p], p, elements, fontName, color, includeOriginalLayout, measure))
  }

  /**
    The composed document has one page per source page, and output page p is
    the first page of the data rendered for source page p.
  */
  lemma ComposedPageAt(doc: Document, elements: seq<Element>, fontName: string, color: Color,
                       includeOriginalLayout: bool, measure: Measure, p: nat)
    requires p < |doc|
    ensures |ComposedPages(doc, elements, fontName, color, includeOriginalLayout, measure)| == |doc|
    ensures ComposedPages(doc, elements, fontName, color, includeOriginalLayout, measure)[p]
         == TakePage(PageBody(doc[p], p, elements, fontName, color, includeOriginalLayout, measure))
  {
  }

  /**
    In overlay mode the kept page is the whole rendered page: the source page's
    content followed by the overlay of exactly the elements of that page.
  */
  lemma OverlayPageKept(doc: Document, elements: seq<Element>, fontName: string, color: Color,
                        measure: Measure, p: nat)
    requires p < |doc|
    ensures ComposedPages(doc, elements, fontName, color, true, measure)[p]
         == [DrawOriginalPage(p)] + OverlayOps(OnPage(elements, p), fontName, color, measure)
  {
    ComposedPageAt(doc, elements, fontName, color, true, measure, p);
    var overlay := OverlayOps(OnPage(elements, p), fontName, color, measure);
    OverlayOpsShape(OnPage(elements, p), fontName, color, measure);
    TakePageNoBegin([DrawOriginalPage(p)] + overlay);
  }

  /**
    In reflow mode a page's rendered data has 1 + n div L pages, and all lines
    are on them in element order, but the composer keeps only the first, so
    the kept page shows only the first min(n, L) texts.
  */
  lemma ReflowPageKept(doc: Document, elements: seq<Element>, fontName: string, color: Color,
                       measure: Measure, p: nat)
    requires p < |doc|
    ensures var es := OnPage(elements, p);
            var l := LinesPerPage(doc[p].height);
            var data := [BeginPage] + PageBody(doc[p], p, elements, fontName, color, false, measure);
      && |SplitPages(data)| == 1 + |es| / l
      && Texts(Flatten(SplitPages(data))) == ElementTexts(es)
      && Texts(ComposedPages(doc, elements, fontName, color, false, measure)[p])
         == ElementTexts(es[..if |es| < l then |es| else l])
  {
    var es := OnPage(elements, p);
    var body := PageBody(doc[p], p, elements, fontName, color, false, measure);
    SplitPagesCount([BeginPage] + body);
    CountBeginsAppend([BeginPage], body);
    ReflowPageBreaks(es, 0, doc[p].width, doc[p].height, fontName, color);
    SplitPagesKeepTexts([BeginPage] + body);
    TextsAppend([BeginPage], body);
    ReflowTexts(es, 0, doc[p].width, doc[p].height, fontName, color);
    ComposedPageAt(doc, elements, fontName, color, false, measure, p);
    ReflowFirstPage(es, 0, doc[p].width, doc[p].height, fontName, color);
  }

  /**
    Extraction followed by overlay composition: output page p shows the source
    page p and, over it, the recognized observations of that page and no other,
    in recognizer order.
  */
  lemma OverlayAfterExtraction(doc: Document, fontName: string, color: Color, measure: Measure, p: nat)
    requires p < |doc|
    ensures ComposedPages(doc, Extracted(doc), fontName, color, true, measure)[p]
         == [DrawOriginalPage(p)]
            + OverlayOps(PageElements(doc[p].observations, doc[p].width, doc[p].height, p), fontName, color, measure)
  {
    OverlayPageKept(doc, Extracted(doc), fontName, color, measure, p);
    ExtractedOnPage(doc, p);
  }

  /**
    A one-page 1000 by 1400 document with "Hello" near the top and "World" near
    the bottom, composed in overlay mode with Courier in black: the output page
    shows the source page, then blanks and redraws "Hello" in a frame starting
    at y = 210 and "World" in one starting at y = 1190.
  */
  lemma HelloWorldOverlay(measure: Measure)
    ensures var hello := Observation(Some("Hello"), Box(0.1, 0.8, 0.3, 0.05));
            var world := Observation(Some("World"), Box(0.1, 0.1, 0.3, 0.05));
            var doc := [SourcePage(1000.0, 1400.0, [hello, world])];
            var page := ComposedPages(doc, Extracted(doc), "Courier", Color("black"), true, measure)[0];
      && |page| == 5 && page[0] == DrawOriginalPage(0)
      && page[1] == FillWhite(Rect(100.0, 210.0, 300.0, 70.0))
      && page[2].DrawText? && page[2].text == "Hello" && page[2].rect == Rect(100.0, 210.0, 300.0, 70.0)
      && page[3] == FillWhite(Rect(100.0, 1190.0, 300.0, 70.0))
      && page[4].DrawText? && page[4].text == "World" && page[4].rect == Rect(100.0, 1190.0, 300.0, 70.0)
      && page[2].fontName == "Courier" && page[4].fontName == "Courier"
      && page[2].color == Color("black") && page[4].color == Color("black")
  {
    var hello := Observation(Some("Hello"), Box(0.1, 0.8, 0.3, 0.05));
    var world := Observation(Some("World"), Box(0.1, 0.1, 0.3, 0.05));
    var doc := [SourcePage(1000.0, 1400.0, [hello, world])];
    OverlayAfterExtraction(doc, "Courier", Color("black"), measure, 0);
    var es := PageElements([hello, world], 1000.0, 1400.0, 0);
    HelloWorldElements();
    var ops := OverlayOps(es, "Courier", Color("black"), measure);
    OverlayOpsAt(es, "Courier", Color("black"), measure);
    assert ComposedPages(doc, Extracted(doc), "Courier", Color("black"), true, measure)[0] == [DrawOriginalPage(0)] + ops;
  }

  /** The two observations of the example become two elements with frames at y = 210 and y = 1190. */
  lemma HelloWorldElements()
    ensures var hello := Observation(Some("Hello"), Box(0.1, 0.8, 0.3, 0.05));
            var world := Observation(Some("World"), Box(0.1, 0.1, 0.3, 0.05));
      PageElements([hello, world], 1000.0, 1400.0, 0)
      == [Element("Hello", Rect(100.0, 210.0, 300.0, 70.0), 0), Element("World", Rect(100.0, 1190.0, 300.0, 70.0), 0)]
  {
    var hello := Observation(Some("Hello"), Box(0.1, 0.8, 0.3, 0.05));
    var world := Observation(Some("World"), Box(0.1, 0.1, 0.3, 0.05));
    PageElementsAreRecognized([hello, world], 1000.0, 1400.0, 0);
    assert Recognized([hello, world]) == [hello, world] by {
      assert [hello, world][1..] == [world];
      assert [world][1..] == [];
    }
    MapBoxExample();
  }
}
