/**
  The older extraction in the root ContentView: pages are rasterized at a fixed
  1000 by 1400 size, every observation becomes one item (an observation without a
  top candidate gives the empty string), the y axis is flipped without subtracting
  the box height, and the recognized text is the item texts joined by newlines.
*/
module LegacyContentView {
  import opened Wrappers
  import opened Geometry
  import opened Drawing
  import opened Extraction

  /** The fixed raster size the pages are rendered at before recognition. */
  const RasterWidth: real := 1000.0
  const RasterHeight: real := 1400.0

  /** One extracted item: its text and frame (there is no page index). */
  datatype TextItem = TextItem(text: string, frame: Rect)

  /**
    The frame as the older code computes it, with y = (1 - originY) * 1400: the
    y of the box's bottom edge rather than its top edge.
  */
  function LegacyFrame(b: Box): Rect {
    Rect(b.originX * RasterWidth, (1.0 - b.originY) * RasterHeight, b.width * RasterWidth, b.height * RasterHeight)
  }

  /**
    The older frame agrees with the corrected mapping on a 1000 by 1400 page in x,
    width and height, and its y is the corrected y plus the box height: it starts
    at the box's bottom edge and reaches one box height too low.
  */
  lemma LegacyFrameShifted(b: Box)
    ensures var corrected := MapBox(b, RasterWidth, RasterHeight);
      LegacyFrame(b) == Rect(corrected.x, corrected.y + corrected.height, corrected.width, corrected.height)
  {
  }

  /**
    A box inside the unit square whose older frame leaves the page: a box
    touching the bottom edge, which the corrected mapping keeps inside.
  */
  lemma LegacyFrameLeavesPage()
    ensures var b := Box(0.1, 0.0, 0.3, 0.05);
      && InUnitSquare(b)
      && !InPage(LegacyFrame(b), RasterWidth, RasterHeight)
      && InPage(MapBox(b, RasterWidth, RasterHeight), RasterWidth, RasterHeight)
  {
    var b := Box(0.1, 0.0, 0.3, 0.05);
    assert LegacyFrame(b).y + LegacyFrame(b).height == 1470.0;
  }

  /** The item one observation becomes; a missing top candidate gives the empty string. */
  function ItemOf(o: Observation): TextItem {
    TextItem(o.topCandidate.GetOr(""), LegacyFrame(o.box))
  }

  /** The items of one page, in observation order: one per observation. */
  function LegacyPageItems(obs: seq<Observation>): (r: seq<TextItem>)
    ensures |r| == |obs|
    ensures forall k :: 0 <= k < |obs| ==> r[k] == ItemOf(obs[k])
  {
    if obs == [] then []
    else LegacyPageItems(obs[..|obs| - 1]) + [ItemOf(obs[|obs| - 1])]
  }

  /** The items of all pages, in page order: the pages' items one after the other. */
  function LegacyItems(pages: seq<seq<Observation>>): seq<TextItem> {
    if pages == [] then []
    else LegacyItems(pages[..|pages| - 1]) + LegacyPageItems(pages[|pages| - 1])
  }

  /** The number of observations on the pages before page p. */
  function ObservationsBefore(pages: seq<seq<Observation>>, p: nat): nat
    requires p <= |pages|
  {
    if p == 0 then 0 else ObservationsBefore(pages, p - 1) + |pages[p - 1]|
  }

  /**
    Every observation of every page yields exactly one item, and observation j of
    page p is item ObservationsBefore(p) + j: items are in page order, then
    observation order.
  */
  lemma {:induction false} LegacyItemsAt(pages: seq<seq<Observation>>, p: nat, j: nat)
    requires p < |pages| && j < |pages[p]|
    ensures |LegacyItems(pages)| == ObservationsBefore(pages, |pages|)
    ensures ObservationsBefore(pages, p) + j < |LegacyItems(pages)|
    ensures LegacyItems(pages)[ObservationsBefore(pages, p) + j] == ItemOf(pages[p][j])
    decreases |pages|
  {
    var n := |pages| - 1;
    var front := pages[..n];
    BeforeOnPrefix(pages, n);
    if p < n {
      assert front[p] == pages[p];
      LegacyItemsAt(front, p, j);
      BeforeMonotone(front, p + 1, n);
    } else {
      LegacyItemsCount(front);
    }
  }

  lemma {:induction false} LegacyItemsCount(pages: seq<seq<Observation>>)
    ensures |LegacyItems(pages)| == ObservationsBefore(pages, |pages|)
    decreases |pages|
  {
    if pages != [] {
      var n := |pages| - 1;
      LegacyItemsCount(pages[..n]);
      BeforeOnPrefix(pages, n);
    }
  }

  /** Counting before page p of a document or of its first m pages is the same, for p <= m. */
  lemma {:induction false} BeforeOnPrefix(pages: seq<seq<Observation>>, m: nat)
    requires m <= |pages|
    ensures forall p :: 0 <= p <= m ==> ObservationsBefore(pages[..m], p) == ObservationsBefore(pages, p)
    decreases m
  {
    forall p | 0 <= p <= m
      ensures ObservationsBefore(pages[..m], p) == ObservationsBefore(pages, p)
    {
      BeforeOnPrefixAt(pages, m, p);
    }
  }

  lemma {:induction false} BeforeOnPrefixAt(pages: seq<seq<Observation>>, m: nat, p: nat)
    requires p <= m <= |pages|
    ensures ObservationsBefore(pages[..m], p) == ObservationsBefore(pages, p)
    decreases p
  {
    if p > 0 {
      BeforeOnPrefixAt(pages, m, p - 1);
      assert pages[..m][p - 1] == pages[p - 1];
    }
  }

  lemma {:induction false} BeforeMonotone(pages: seq<seq<Observation>>, p: nat, q: nat)
    requires p <= q <= |pages|
    ensures ObservationsBefore(pages, p) <= ObservationsBefore(pages, q)
    decreases q
  {
    if p < q {
      BeforeMonotone(pages, p, q - 1);
    }
  }

  /**
    Compared with the corrected extraction of a 1000 by 1400 page whose observations
    all have a top candidate: the same number of items, the same texts in the same
    order, each frame shifted down by its own height.
  */
  lemma CompareWithCorrected(obs: seq<Observation>, page: int)
    requires forall k :: 0 <= k < |obs| ==> obs[k].topCandidate.Some?
    ensures var legacy := LegacyPageItems(obs);
            var corrected := PageElements(obs, RasterWidth, RasterHeight, page);
      && |legacy| == |corrected|
      && forall k :: 0 <= k < |obs| ==>
           && legacy[k].text == corrected[k].text
           && legacy[k].frame.x == corrected[k].frame.x
           && legacy[k].frame.y == corrected[k].frame.y + corrected[k].frame.height
           && legacy[k].frame.height == corrected[k].frame.height
  {
    AllRecognized(obs);
    PageElementsAreRecognized(obs, RasterWidth, RasterHeight, page);
    forall k | 0 <= k < |obs|
      ensures LegacyPageItems(obs)[k].frame.y
           == PageElements(obs, RasterWidth, RasterHeight, page)[k].frame.y
            + PageElements(obs, RasterWidth, RasterHeight, page)[k].frame.height
    {
      LegacyFrameShifted(obs[k].box);
    }
  }

  /** When every observation has a top candidate, the recognized observations are all of them. */
  lemma {:induction false} AllRecognized(obs: seq<Observation>)
    requires forall k :: 0 <= k < |obs| ==> obs[k].topCandidate.Some?
    ensures Recognized(obs) == obs
    decreases |obs|
  {
    if obs != [] {
      AllRecognized(obs[1..]);
    }
  }

  // ------------------------------------------------------------------ texts

  /** The texts of a list of items (`map { $0.text }`). */
  function ItemTexts(items: seq<TextItem>): (r: seq<string>)
    ensures |r| == |items| && forall k :: 0 <= k < |items| ==> r[k] == items[k].text
  {
    seq(|items|, k requires 0 <= k < |items| => items[k].text)
  }

  /** Strings joined with a newline between each two (`joined(separator: "\n")`). */
  function JoinLines(lines: seq<string>): string {
    if lines == [] then ""
    else if |lines| == 1 then lines[0]
    else lines[0] + "\n" + JoinLines(lines[1..])
  }

  /** A string cut at every newline; a string without one is a single line. */
  function SplitLines(s: string): (r: seq<string>)
    ensures |r| >= 1
  {
    if s == [] then [""]
    else if s[0] == '\n' then [""] + SplitLines(s[1..])
    else
      var rest := SplitLines(s[1..]);
      [[s[0]] + rest[0]] + rest[1..]
  }

  lemma {:induction false} SplitLinesSingle(s: string)
    requires '\n' !in s
    ensures SplitLines(s) == [s]
    decreases |s|
  {
    if s != [] {
      assert s[0] != '\n' && '\n' !in s[1..] by {
        assert s[0] in s;
        assert forall c :: c in s[1..] ==> c in s;
      }
      SplitLinesSingle(s[1..]);
      assert [s[0]] + s[1..] == s;
    }
  }

  lemma {:induction false} SplitLinesAfterLine(x: string, t: string)
    requires '\n' !in x
    ensures SplitLines(x + "\n" + t) == [x] + SplitLines(t)
    decreases |x|
  {
    if x == [] {
      assert x + "\n" + t == "\n" + t;
      assert ("\n" + t)[1..] == t;
    } else {
      assert (x + "\n" + t)[1..] == x[1..] + "\n" + t;
      SplitLinesAfterLine(x[1..], t);
      assert [x[0]] + x[1..] == x;
    }
  }

  /**
    Joining lines that contain no newline and cutting the result at newlines gives
    the lines back: the recognized text keeps every item's text, in order.
  */
  lemma {:induction false} SplitJoinLines(lines: seq<string>)
    requires lines != []
    requires forall k :: 0 <= k < |lines| ==> '\n' !in lines[k]
    ensures SplitLines(JoinLines(lines)) == lines
    decreases |lines|
  {
    if |lines| == 1 {
      SplitLinesSingle(lines[0]);
    } else {
      SplitJoinLines(lines[1..]);
      SplitLinesAfterLine(lines[0], JoinLines(lines[1..]));
    }
  }

  // ------------------------------------------------------------ the view state

  /** The fixed text frame of the plain-text export: a 612 by 792 page inset by 20 on every side. */
  const PlainPageWidth: real := 612.0
  const PlainPageHeight: real := 792.0
  const PlainTextRect: Rect := Rect(20.0, 20.0, 572.0, 752.0)

  class ContentView {
    /** The text shown to the user: the recognized texts, one per line. */
    var recognizedText: string
    /** The extracted items of all pages. */
    var extractedTexts: seq<TextItem>

    constructor ()
      ensures recognizedText == "PDF에서 추출한 텍스트가 여기에 표시됩니다." && extractedTexts == []
    {
      recognizedText := "PDF에서 추출한 텍스트가 여기에 표시됩니다.";
      extractedTexts := [];
    }

    /**
      Older extraction: `loaded` holds, per page, the observations recognized on its
      1000 by 1400 raster (None when the file could not be opened, which leaves the
      state as it was). Items from all pages gather into one list, which then becomes
      `extractedTexts`, and `recognizedText` becomes its texts joined by newlines.
    */
    method ExtractHandwrittenTextWithPosition(loaded: Option<seq<seq<Observation>>>)
      modifies this
      ensures loaded.None? ==> recognizedText == old(recognizedText) && extractedTexts == old(extractedTexts)
      ensures loaded.Some? ==>
        && extractedTexts == LegacyItems(loaded.value)
        && recognizedText == JoinLines(ItemTexts(extractedTexts))
    {
      if loaded.None? {
        return;
      }
      var pages := loaded.value;
      var items: seq<TextItem> := [];
      for i := 0 to |pages|
        invariant items == LegacyItems(pages[..i])
      {
        var observations := pages[i];
        for j := 0 to |observations|
          invariant items == LegacyItems(pages[..i]) + LegacyPageItems(observations[..j])
        {
          var observation := observations[j];
          var text := observation.topCandidate.GetOr("");
          var box := observation.box;
          var convertedFrame := Rect(box.originX * 1000.0, (1.0 - box.originY) * 1400.0,
                                     box.width * 1000.0, box.height * 1400.0);
          items := items + [TextItem(text, convertedFrame)];
          assert observations[..j + 1][..j] == observations[..j];
        }
        assert observations[..|observations|] == observations;
        assert pages[..i + 1][..i] == pages[..i];
      }
      assert pages[..|pages|] == pages;
      extractedTexts := items;
      recognizedText := JoinLines(ItemTexts(items));
    }

    /**
      The plain-text export: one 612 by 792 page holding the recognized text, at
      size 18, in a frame inset by 20 from every edge of the page.
    */
    method SaveAsPdf() returns (ops: seq<DrawOp>)
      ensures |ops| == 2 && ops[0] == BeginPage
      ensures ops[1].DrawText? && ops[1].text == recognizedText
      ensures ops[1].fontName == "MarkerFelt-Thin" && ops[1].fontSize == 18.0
      ensures var r := ops[1].rect;
        && r.x == 20.0 && r.y == 20.0
        && r.x + r.width == PlainPageWidth - 20.0 && r.y + r.height == PlainPageHeight - 20.0
    {
      ops := [BeginPage];
      ops := ops + [DrawText(recognizedText, PlainTextRect, "MarkerFelt-Thin", 18.0, Color("black"))];
    }
  }
}
