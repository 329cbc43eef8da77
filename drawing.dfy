/**
  The PDF renderer context, seen as the log of calls the core makes on it, and
  the reading of that log back as pages (`PDFDocument(data:)` on the rendered data).
*/
module Drawing {
  import opened Geometry

  /** A colour chosen by the caller; only passed through to the text calls. */
  datatype Color = Color(name: string)

  /** One call on the renderer context, in the order the core issues them. */
  datatype DrawOp =
    | BeginPage                          // context.beginPage()
    | DrawOriginalPage(sourcePage: int)  // the source page's own content, drawn unmodified
    | FillWhite(rect: Rect)              // a white fill of the rectangle
    | DrawText(text: string, rect: Rect, fontName: string, fontSize: real, color: Color)

  /** The calls that land on one page. */
  type Page = seq<DrawOp>

  /** The texts drawn by a log, in drawing order. */
  function Texts(ops: seq<DrawOp>): (r: seq<string>)
    ensures |r| <= |ops|
  {
    if ops == [] then []
    else (if ops[0].DrawText? then [ops[0].text] else []) + Texts(ops[1..])
  }

  /** The frames the texts of a log are drawn into, in drawing order. */
  function Frames(ops: seq<DrawOp>): (r: seq<Rect>)
    ensures |r| == |Texts(ops)|
  {
    if ops == [] then []
    else (if ops[0].DrawText? then [ops[0].rect] else []) + Frames(ops[1..])
  }

  /** The number of pages a log begins. */
  function CountBegins(ops: seq<DrawOp>): nat {
    if ops == [] then 0
    else (if ops[0].BeginPage? then 1 else 0) + CountBegins(ops[1..])
  }

  predicate NoBegin(ops: seq<DrawOp>) {
    forall k :: 0 <= k < |ops| ==> !ops[k].BeginPage?
  }

  /** All pages of a list of pages, one after the other. */
  function Flatten(pages: seq<Page>): seq<DrawOp> {
    if pages == [] then [] else pages[0] + Flatten(pages[1..])
  }

  /**
    The calls before the first page break: the longest prefix of the log
    that begins no page.
  */
  function TakePage(ops: seq<DrawOp>): (r: Page)
    ensures r <= ops && NoBegin(r)
    ensures |r| < |ops| ==> ops[|r|] == BeginPage
  {
    if ops == [] || ops[0].BeginPage? then [] else [ops[0]] + TakePage(ops[1..])
  }

  /**
    The pages of rendered data: each BeginPage opens a page that holds the calls
    up to the next BeginPage. Calls issued before the first BeginPage are on no page.
  */
  function SplitPages(ops: seq<DrawOp>): seq<Page>
    decreases |ops|
  {
    if ops == [] then []
    else if ops[0].BeginPage? then
      var page := TakePage(ops[1..]);
      [page] + SplitPages(ops[1 + |page|..])
    else SplitPages(ops[1..])
  }

  lemma {:induction false} TextsAppend(a: seq<DrawOp>, b: seq<DrawOp>)
    ensures Texts(a + b) == Texts(a) + Texts(b)
    decreases |a|
  {
    if a != [] {
      assert (a + b)[1..] == a[1..] + b;
      TextsAppend(a[1..], b);
    } else {
      assert a + b == b;
    }
  }

  lemma {:induction false} CountBeginsAppend(a: seq<DrawOp>, b: seq<DrawOp>)
    ensures CountBegins(a + b) == CountBegins(a) + CountBegins(b)
    decreases |a|
  {
    if a != [] {
      assert (a + b)[1..] == a[1..] + b;
      CountBeginsAppend(a[1..], b);
    } else {
      assert a + b == b;
    }
  }

  lemma {:induction false} NoBeginCountsZero(ops: seq<DrawOp>)
    requires NoBegin(ops)
    ensures CountBegins(ops) == 0
    decreases |ops|
  {
    if ops != [] {
      NoBeginCountsZero(ops[1..]);
    }
  }

  /** A log without page breaks is its own first page. */
  lemma {:induction false} TakePageNoBegin(ops: seq<DrawOp>)
    requires NoBegin(ops)
    ensures TakePage(ops) == ops
    decreases |ops|
  {
    if ops != [] {
      TakePageNoBegin(ops[1..]);
    }
  }

  /** The first page of a log that is `a` followed by `b`, when `a` begins no page. */
  lemma {:induction false} TakePageAppend(a: seq<DrawOp>, b: seq<DrawOp>)
    requires NoBegin(a)
    ensures TakePage(a + b) == a + TakePage(b)
    decreases |a|
  {
    if a != [] {
      assert (a + b)[1..] == a[1..] + b;
      TakePageAppend(a[1..], b);
    } else {
      assert a + b == b;
    }
  }

  /** A page break ends the first page. */
  lemma TakePageAtBreak(a: seq<DrawOp>, b: seq<DrawOp>)
    requires NoBegin(a)
    ensures TakePage(a + [BeginPage] + b) == a
  {
    TakePageAppend(a, [BeginPage] + b);
    assert a + [BeginPage] + b == a + ([BeginPage] + b);
  }

  /** Rendered data holds exactly one page per BeginPage. */
  lemma {:induction false} SplitPagesCount(ops: seq<DrawOp>)
    ensures |SplitPages(ops)| == CountBegins(ops)
    decreases |ops|
  {
    if ops != [] {
      if ops[0].BeginPage? {
        var page := TakePage(ops[1..]);
        var rest := ops[1 + |page|..];
        assert ops[1..] == page + rest;
        CountBeginsAppend(page, rest);
        NoBeginCountsZero(page);
        SplitPagesCount(rest);
      } else {
        SplitPagesCount(ops[1..]);
      }
    }
  }

  /** The first page of data that starts with a page break is what follows it, up to the next break. */
  lemma SplitPagesFirst(body: seq<DrawOp>)
    ensures |SplitPages([BeginPage] + body)| >= 1
    ensures SplitPages([BeginPage] + body)[0] == TakePage(body)
  {
    assert ([BeginPage] + body)[1..] == body;
  }

  /**
    Reading rendered data as pages and putting the pages back together loses
    no text and keeps the drawing order.
  */
  lemma {:induction false} SplitPagesKeepTexts(ops: seq<DrawOp>)
    requires ops == [] || ops[0].BeginPage?
    ensures Texts(Flatten(SplitPages(ops))) == Texts(ops)
    decreases |ops|
  {
    if ops != [] {
      var page := TakePage(ops[1..]);
      var rest := ops[1 + |page|..];
      assert ops[1..] == page + rest;
      SplitPagesKeepTexts(rest);
      assert Flatten(SplitPages(ops)) == page + Flatten(SplitPages(rest));
      TextsAppend(page, Flatten(SplitPages(rest)));
      TextsAppend(page, rest);
      assert Texts(ops) == Texts(ops[1..]);
    }
  }
}
